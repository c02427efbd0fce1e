// EDL control statements, and the C++ statements their printed form parses to.
// Both languages have a big-step semantics over a flat store of integers; fuel
// bounds the number of loop iterations on a path, nothing else.
module Stores {
  import opened Decimal

  type Store = map<string, int>

  function Read(st: Store, x: string): int {
    if x in st then st[x] else 0
  }

  datatype Operator = Add | Subtract | Multiply | LessThan | EqualTo | BoolAnd | BoolOr

  /** Value expressions. Both languages evaluate them alike; what differs is where
      they are put. A comma inside another expression is in parentheses. */
  datatype Expr =
    | Number(value: int)
    | Name(name: string)
    | Binary(op: Operator, left: Expr, right: Expr)
    | Comma(first: Expr, last: Expr)

  /** A control expression; parens says it is in parentheses of its own. */
  datatype Condition = Condition(expr: Expr, parens: bool)

  /** A comma of the expression is in the open. */
  predicate HasOpenComma(c: Condition) {
    c.expr.Comma? && !c.parens
  }

  function Eval(e: Expr, st: Store): int {
    match e
    case Number(v) => v
    case Name(x) => Read(st, x)
    case Binary(op, l, r) => Apply(op, Eval(l, st), Eval(r, st))
    case Comma(_, last) => Eval(last, st)
  }

  function Apply(op: Operator, a: int, b: int): int {
    match op
    case Add => a + b
    case Subtract => a - b
    case Multiply => a * b
    case LessThan => if a < b then 1 else 0
    case EqualTo => if a == b then 1 else 0
    case BoolAnd => if Truth(a) && Truth(b) then 1 else 0
    case BoolOr => if Truth(a) || Truth(b) then 1 else 0
  }

  /** The EDL value type is true when positive, not when non-zero. */
  predicate Truth(v: int) {
    v > 0
  }

  /** The operators by their laws: subtraction undoes addition, multiplication repeats it,
      two values are in exactly one order, and a value is true when zero is less than it. */
  lemma OperatorLaws(a: int, b: int)
    ensures Apply(Add, a, 0) == a && Apply(Add, a, Apply(Add, b, 1)) == Apply(Add, Apply(Add, a, b), 1)
    ensures Apply(Subtract, Apply(Add, a, b), b) == a
    ensures Apply(Multiply, a, 0) == 0 && Apply(Multiply, a, b + 1) == Apply(Add, Apply(Multiply, a, b), a)
    ensures Apply(LessThan, a, b) + Apply(LessThan, b, a) + Apply(EqualTo, a, b) == 1
    ensures Apply(LessThan, a, a + 1) == 1 && Apply(EqualTo, a, a) == 1
    ensures Truth(a) <==> Truth(Apply(LessThan, 0, a))
    ensures Truth(Apply(BoolAnd, a, b)) <==> Truth(a) && Truth(b)
    ensures Truth(Apply(BoolOr, a, b)) <==> Truth(a) || Truth(b)
  {
  }

  predicate Names(e: Expr, x: string) {
    match e
    case Number(_) => false
    case Name(y) => x == y
    case Binary(_, l, r) => Names(l, x) || Names(r, x)
    case Comma(l, r) => Names(l, x) || Names(r, x)
  }

  datatype Signal = Completed | Broke | Continued

  /** How a run ends. CountOutOfRange: an EDL repeat count that does not fit the
      non-negative range of the C++ int that will count it down. CounterOverflow:
      a C++ counter decremented below the least int. Redeclared: a C++ declaration gave
      a variable of the program a new meaning, without a value. */
  datatype Outcome =
    | Finished(store: Store, signal: Signal)
    | OutOfFuel
    | CountOutOfRange
    | CounterOverflow
    | Redeclared

  const INT_MIN := -0x8000_0000
  const INT_MAX := 0x7fff_ffff

  /** The counter a repeat printed at nesting depth d counts in. */
  function CounterName(d: nat): string {
    if d == 0 then "strange_name" else "strange_name" + Numeral(d)
  }

  ghost predicate IsCounter(x: string) {
    exists d: nat :: x == CounterName(d)
  }

  /** Repeats at different depths count in different variables. */
  lemma CountersDistinct(d: nat, e: nat)
    requires CounterName(d) == CounterName(e)
    ensures d == e
  {
    var stem := "strange_name";
    if d != 0 && e != 0 {
      assert CounterName(d)[|stem|..] == Numeral(d);
      assert CounterName(e)[|stem|..] == Numeral(e);
      NumeralInjective(d, e);
    }
  }
}

module Edl {
  import opened Options
  import opened Stores

  datatype LoopKind = WhileTrue | UntilTrue | Repeat

  datatype Stmt =
    | Assign(target: string, value: Expr)
    | Break
    | Continue
    | Block(stmts: Stmts)
    | If(cond: Condition, negated: bool, thn: Option<Stmt>, els: Option<Stmt>)
    | Loop(kind: LoopKind, cond: Condition, body: Stmt)
    | Do(body: Stmt, cond: Condition, isUntil: bool)

  datatype Stmts = Nil | Cons(head: Stmt, tail: Stmts)

  function Run(s: Stmt, fuel: nat, st: Store): Outcome
    decreases fuel, s, 1
  {
    match s
    case Assign(x, e) => Finished(st[x := Eval(e, st)], Completed)
    case Break => Finished(st, Broke)
    case Continue => Finished(st, Continued)
    case Block(ss) => RunAll(ss, fuel, st)
    case If(c, negated, thn, els) =>
      if Truth(Eval(c.expr, st)) != negated then
        if thn.Some? then Run(thn.value, fuel, st) else Finished(st, Completed)
      else
        if els.Some? then Run(els.value, fuel, st) else Finished(st, Completed)
    case Loop(Repeat, c, body) =>
      var count := Eval(c.expr, st);
      if 0 <= count <= INT_MAX then RunRepeat(count, body, fuel, st) else CountOutOfRange
    case Loop(kind, c, body) => RunLoop(c.expr, kind == UntilTrue, body, fuel, st)
    case Do(body, c, isUntil) => RunDo(body, c.expr, isUntil, fuel, st)
  }

  function RunAll(ss: Stmts, fuel: nat, st: Store): Outcome
    decreases fuel, ss, 0
  {
    match ss
    case Nil => Finished(st, Completed)
    case Cons(s, rest) =>
      match Run(s, fuel, st)
      case Finished(st', Completed) => RunAll(rest, fuel, st')
      case other => other
  }

  /** repeat: the count was evaluated once; the body runs that many times. */
  function RunRepeat(count: nat, body: Stmt, fuel: nat, st: Store): Outcome
    decreases fuel, body, 2
  {
    if count == 0 then Finished(st, Completed)
    else if fuel == 0 then OutOfFuel
    else
      match Run(body, fuel - 1, st)
      case Finished(st', Broke) => Finished(st', Completed)
      case Finished(st', _) => RunRepeat(count - 1, body, fuel - 1, st')
      case other => other
  }

  /** while and until: go on as long as the condition differs from stopOn. */
  function RunLoop(e: Expr, stopOn: bool, body: Stmt, fuel: nat, st: Store): Outcome
    decreases fuel, body, 2
  {
    if Truth(Eval(e, st)) == stopOn then Finished(st, Completed)
    else if fuel == 0 then OutOfFuel
    else
      match Run(body, fuel - 1, st)
      case Finished(st', Broke) => Finished(st', Completed)
      case Finished(st', _) => RunLoop(e, stopOn, body, fuel - 1, st')
      case other => other
  }

  function RunDo(body: Stmt, e: Expr, stopOn: bool, fuel: nat, st: Store): Outcome
    decreases fuel, body, 2
  {
    if fuel == 0 then OutOfFuel
    else
      match Run(body, fuel - 1, st)
      case Finished(st', Broke) => Finished(st', Completed)
      case Finished(st', _) =>
        if Truth(Eval(e, st')) == stopOn then Finished(st', Completed)
        else RunDo(body, e, stopOn, fuel - 1, st')
      case other => other
  }

  /** The program mentions the variable x. */
  predicate Mentions(s: Stmt, x: string)
    decreases s
  {
    match s
    case Assign(y, e) => x == y || Names(e, x)
    case Break | Continue => false
    case Block(ss) => MentionsAny(ss, x)
    case If(c, _, thn, els) =>
      Names(c.expr, x) || (thn.Some? && Mentions(thn.value, x)) || (els.Some? && Mentions(els.value, x))
    case Loop(_, c, body) => Names(c.expr, x) || Mentions(body, x)
    case Do(body, c, _) => Names(c.expr, x) || Mentions(body, x)
  }

  predicate MentionsAny(ss: Stmts, x: string)
    decreases ss
  {
    ss.Cons? && (Mentions(ss.head, x) || MentionsAny(ss.tail, x))
  }

  /** A following else would attach inside this statement. */
  predicate EndsInOpenIf(s: Stmt) {
    match s
    case If(_, _, thn, None) => true
    case If(_, _, thn, Some(e)) => EndsInOpenIf(e)
    case Loop(kind, _, body) => kind != Repeat && EndsInOpenIf(body)
    case _ => false
  }

  /** No if with an else has a true branch that would take that else. A parser that
      gives an else to the nearest if builds only such trees. */
  predicate ElsesNearest(s: Stmt)
    decreases s
  {
    match s
    case Block(ss) => AllElsesNearest(ss)
    case If(_, _, thn, els) =>
      && (thn.Some? ==> ElsesNearest(thn.value))
      && (els.Some? ==> ElsesNearest(els.value))
      && (thn.Some? && els.Some? ==> !EndsInOpenIf(thn.value))
    case Loop(_, _, body) => ElsesNearest(body)
    case Do(body, _, _) => ElsesNearest(body)
    case _ => true
  }

  predicate AllElsesNearest(ss: Stmts)
    decreases ss
  {
    ss.Cons? ==> ElsesNearest(ss.head) && AllElsesNearest(ss.tail)
  }

  /** No repeat count has a comma in the open. */
  predicate CountsClosed(s: Stmt)
    decreases s
  {
    match s
    case Block(ss) => AllCountsClosed(ss)
    case If(_, _, thn, els) =>
      (thn.Some? ==> CountsClosed(thn.value)) && (els.Some? ==> CountsClosed(els.value))
    case Loop(kind, c, body) => (kind == Repeat ==> !HasOpenComma(c)) && CountsClosed(body)
    case Do(body, _, _) => CountsClosed(body)
    case _ => true
  }

  predicate AllCountsClosed(ss: Stmts)
    decreases ss
  {
    ss.Cons? ==> CountsClosed(ss.head) && AllCountsClosed(ss.tail)
  }
}

module Cpp {
  import opened Options
  import opened Stores

  datatype CExpr = Val(e: Expr) | Not(x: CExpr) | PostDecrement(name: string)

  datatype CStmt =
    | Assign(target: string, value: Expr)
    | Declare(name: string, init: Condition, others: seq<string>)
    | Break
    | Continue
    | Empty
    | Block(stmts: CStmts)
    | If(cond: CExpr, thn: CStmt, els: Option<CStmt>)
    | While(cond: CExpr, body: CStmt)
    | Do(body: CStmt, cond: CExpr)

  datatype CStmts = Nil | Cons(head: CStmt, tail: CStmts)

  /** The truth of a condition and the store after evaluating it; None when an int
      counter overflows. */
  function Test(c: CExpr, st: Store): Option<(bool, Store)> {
    match c
    case Val(e) => Some((Truth(Eval(e, st)), st))
    case Not(x) =>
      var r := Test(x, st);
      if r.None? then None else Some((!r.value.0, r.value.1))
    case PostDecrement(n) =>
      var v := Read(st, n);
      if v <= INT_MIN then None else Some((v != 0, st[n := v - 1]))
  }

  function Run(s: CStmt, fuel: nat, st: Store): Outcome
    decreases fuel, s, 1
  {
    match s
    case Assign(x, e) => Finished(st[x := Eval(e, st)], Completed)
    case Declare(x, c, others) =>
      var v := Eval(c.expr, st);
      if others != [] then Redeclared
      else if INT_MIN <= v <= INT_MAX then Finished(st[x := v], Completed)
      else CounterOverflow
    case Break => Finished(st, Broke)
    case Continue => Finished(st, Continued)
    case Empty => Finished(st, Completed)
    case Block(ss) => RunAll(ss, fuel, st)
    case If(c, thn, els) => (
      match Test(c, st)
      case None => CounterOverflow
      case Some((true, st')) => Run(thn, fuel, st')
      case Some((false, st')) => if els.Some? then Run(els.value, fuel, st') else Finished(st', Completed)
    )
    case While(c, body) => RunWhile(c, body, fuel, st)
    case Do(body, c) => RunDo(body, c, fuel, st)
  }

  function RunAll(ss: CStmts, fuel: nat, st: Store): Outcome
    decreases fuel, ss, 0
  {
    match ss
    case Nil => Finished(st, Completed)
    case Cons(s, rest) =>
      match Run(s, fuel, st)
      case Finished(st', Completed) => RunAll(rest, fuel, st')
      case other => other
  }

  function RunWhile(c: CExpr, body: CStmt, fuel: nat, st: Store): Outcome
    decreases fuel, body, 2
  {
    match Test(c, st)
    case None => CounterOverflow
    case Some((false, st')) => Finished(st', Completed)
    case Some((true, st')) =>
      if fuel == 0 then OutOfFuel
      else
        match Run(body, fuel - 1, st')
        case Finished(st'', Broke) => Finished(st'', Completed)
        case Finished(st'', _) => RunWhile(c, body, fuel - 1, st'')
        case other => other
  }

  function RunDo(body: CStmt, c: CExpr, fuel: nat, st: Store): Outcome
    decreases fuel, body, 2
  {
    if fuel == 0 then OutOfFuel
    else
      match Run(body, fuel - 1, st)
      case Finished(st', Broke) => Finished(st', Completed)
      case Finished(st', _) => (
        match Test(c, st')
        case None => CounterOverflow
        case Some((false, st'')) => Finished(st'', Completed)
        case Some((true, st'')) => RunDo(body, c, fuel - 1, st'')
      )
      case other => other
  }
}

// What a C++ statement leaves alone.
module CppFrames {
  import opened Stores
  import opened Cpp

  predicate TestWrites(c: CExpr, x: string) {
    match c
    case Val(_) => false
    case Not(y) => TestWrites(y, x)
    case PostDecrement(n) => n == x
  }

  predicate Writes(s: CStmt, x: string)
    decreases s
  {
    match s
    case Assign(y, _) => x == y
    case Declare(y, _, others) => x == y || x in others
    case Break | Continue | Empty => false
    case Block(ss) => WritesAny(ss, x)
    case If(c, thn, els) => TestWrites(c, x) || Writes(thn, x) || (els.Some? && Writes(els.value, x))
    case While(c, body) => TestWrites(c, x) || Writes(body, x)
    case Do(body, c) => TestWrites(c, x) || Writes(body, x)
  }

  predicate WritesAny(ss: CStmts, x: string)
    decreases ss
  {
    ss.Cons? && (Writes(ss.head, x) || WritesAny(ss.tail, x))
  }

  ghost predicate Keeps(r: Outcome, x: string, st: Store) {
    r.Finished? ==> Read(r.store, x) == Read(st, x)
  }

  lemma {:induction false} TestKeepsUnwritten(c: CExpr, x: string, st: Store)
    requires !TestWrites(c, x)
    ensures Test(c, st).Some? ==> Read(Test(c, st).value.1, x) == Read(st, x)
  {
    match c
    case Not(y) => TestKeepsUnwritten(y, x, st);
    case _ =>
  }

  lemma {:induction false} RunKeepsUnwritten(s: CStmt, x: string, fuel: nat, st: Store)
    requires !Writes(s, x)
    ensures Keeps(Run(s, fuel, st), x, st)
    decreases fuel, s, 1
  {
    match s
    case Block(ss) => RunAllKeepsUnwritten(ss, x, fuel, st);
    case If(c, thn, els) =>
      TestKeepsUnwritten(c, x, st);
      if Test(c, st).Some? {
        var st' := Test(c, st).value.1;
        RunKeepsUnwritten(thn, x, fuel, st');
        if els.Some? { RunKeepsUnwritten(els.value, x, fuel, st'); }
      }
    case While(c, body) => RunWhileKeepsUnwritten(c, body, x, fuel, st);
    case Do(body, c) => RunDoKeepsUnwritten(body, c, x, fuel, st);
    case _ =>
  }

  lemma {:induction false} RunAllKeepsUnwritten(ss: CStmts, x: string, fuel: nat, st: Store)
    requires !WritesAny(ss, x)
    ensures Keeps(RunAll(ss, fuel, st), x, st)
    decreases fuel, ss, 0
  {
    if ss.Cons? {
      RunKeepsUnwritten(ss.head, x, fuel, st);
      if Run(ss.head, fuel, st).Finished? {
        RunAllKeepsUnwritten(ss.tail, x, fuel, Run(ss.head, fuel, st).store);
      }
    }
  }

  lemma {:induction false} RunWhileKeepsUnwritten(c: CExpr, body: CStmt, x: string, fuel: nat, st: Store)
    requires !TestWrites(c, x) && !Writes(body, x)
    ensures Keeps(RunWhile(c, body, fuel, st), x, st)
    decreases fuel, body, 2
  {
    TestKeepsUnwritten(c, x, st);
    if Test(c, st).Some? && fuel > 0 {
      var st' := Test(c, st).value.1;
      RunKeepsUnwritten(body, x, fuel - 1, st');
      if Run(body, fuel - 1, st').Finished? {
        RunWhileKeepsUnwritten(c, body, x, fuel - 1, Run(body, fuel - 1, st').store);
      }
    }
  }

  lemma {:induction false} RunDoKeepsUnwritten(body: CStmt, c: CExpr, x: string, fuel: nat, st: Store)
    requires !TestWrites(c, x) && !Writes(body, x)
    ensures Keeps(RunDo(body, c, fuel, st), x, st)
    decreases fuel, body, 2
  {
    if fuel > 0 {
      RunKeepsUnwritten(body, x, fuel - 1, st);
      if Run(body, fuel - 1, st).Finished? {
        var st' := Run(body, fuel - 1, st).store;
        TestKeepsUnwritten(c, x, st');
        if Test(c, st').Some? {
          RunDoKeepsUnwritten(body, c, x, fuel - 1, Test(c, st').value.1);
        }
      }
    }
  }

  /** No break of s leaves the loop around s. */
  predicate NoBreak(s: CStmt)
    decreases s
  {
    match s
    case Break => false
    case Block(ss) => NoBreakIn(ss)
    case If(_, thn, els) => NoBreak(thn) && (els.Some? ==> NoBreak(els.value))
    case _ => true
  }

  predicate NoBreakIn(ss: CStmts)
    decreases ss
  {
    ss.Cons? ==> NoBreak(ss.head) && NoBreakIn(ss.tail)
  }

  lemma {:induction false} NoBreakRuns(s: CStmt, fuel: nat, st: Store)
    requires NoBreak(s)
    ensures Run(s, fuel, st).Finished? ==> Run(s, fuel, st).signal != Broke
    decreases s, 1
  {
    match s
    case Block(ss) => NoBreakRunsAll(ss, fuel, st);
    case If(c, thn, els) =>
      if Test(c, st).Some? {
        NoBreakRuns(thn, fuel, Test(c, st).value.1);
        if els.Some? { NoBreakRuns(els.value, fuel, Test(c, st).value.1); }
      }
    case While(c, body) => WhileNeverBreaks(c, body, fuel, st);
    case Do(body, c) => DoNeverBreaks(body, c, fuel, st);
    case _ =>
  }

  lemma {:induction false} NoBreakRunsAll(ss: CStmts, fuel: nat, st: Store)
    requires NoBreakIn(ss)
    ensures RunAll(ss, fuel, st).Finished? ==> RunAll(ss, fuel, st).signal != Broke
    decreases ss, 0
  {
    if ss.Cons? {
      NoBreakRuns(ss.head, fuel, st);
      if Run(ss.head, fuel, st).Finished? {
        NoBreakRunsAll(ss.tail, fuel, Run(ss.head, fuel, st).store);
      }
    }
  }

  lemma {:induction false} WhileNeverBreaks(c: CExpr, body: CStmt, fuel: nat, st: Store)
    ensures RunWhile(c, body, fuel, st).Finished? ==> RunWhile(c, body, fuel, st).signal == Completed
    decreases fuel
  {
    if Test(c, st).Some? && fuel > 0 {
      var r := Run(body, fuel - 1, Test(c, st).value.1);
      if r.Finished? { WhileNeverBreaks(c, body, fuel - 1, r.store); }
    }
  }

  lemma {:induction false} DoNeverBreaks(body: CStmt, c: CExpr, fuel: nat, st: Store)
    ensures RunDo(body, c, fuel, st).Finished? ==> RunDo(body, c, fuel, st).signal == Completed
    decreases fuel
  {
    if fuel > 0 {
      var r := Run(body, fuel - 1, st);
      if r.Finished? && Test(c, r.store).Some? {
        DoNeverBreaks(body, c, fuel - 1, Test(c, r.store).value.1);
      }
    }
  }
}
