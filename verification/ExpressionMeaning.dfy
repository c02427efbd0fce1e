// What expressions evaluate to in EDL and in C++, and that the printer's changes keep it.
module ExpressionMeaning {
  import opened Options
  import opened Expressions
  import opened ExpressionLowering
  import Stores
  import FlatStatements

  /** A whole number or a double, as C++ tells them apart. */
  datatype Value = Whole(n: int) | Double(x: real)

  type Store = map<string, Value>

  type Result = Option<(Value, Store)>

  datatype Language = Edl | Cpp

  /** What both languages make of the operators the printer leaves alone. */
  datatype Meanings = Meanings(
    binary: (Token, Value, Value) -> Option<Value>, unary: (Token, Value) -> Option<Value>,
    step: (Token, Value) -> Value, truth: Value -> bool)

  function Real(v: Value): real {
    match v case Whole(n) => n as real case Double(x) => x
  }

  function Lookup(st: Store, x: string): Value {
    if x in st then st[x] else Whole(0)
  }

  function Truncated(a: int, b: int): int
    requires b != 0
  {
    if (a < 0) == (b < 0) then (if a < 0 then -a else a) / (if b < 0 then -b else b)
    else -((if a < 0 then -a else a) / (if b < 0 then -b else b))
  }

  /** EDL divides as numbers whatever their types; C++ truncates when both are whole. */
  function Divided(lang: Language, a: Value, b: Value): Option<Value> {
    if Real(b) == 0.0 then None
    else if lang == Cpp && a.Whole? && b.Whole? then Some(Whole(Truncated(a.n, b.n)))
    else Some(Double(Real(a) / Real(b)))
  }

  function Compared(a: Value, b: Value): Value {
    Whole(if Real(a) == Real(b) then 1 else 0)
  }

  /** EDL's = compares except at the root of a statement; := is EDL's alone. */
  predicate IsStore(lang: Language, t: Token, statement: bool) {
    t.AssignOp? || (t == Equals && (lang == Cpp || statement)) || (t == Assign && lang == Edl)
  }

  function Operated(lang: Language, t: Token, a: Value, b: Value, m: Meanings): Option<Value> {
    if t == Slash then Divided(lang, a, b)
    else if t == EqualTo || (t == Equals && lang == Edl) then Some(Compared(a, b))
    else if t == Assign then None
    else m.binary(t, a, b)
  }

  /** Operands from the left, && and || only as far as they have to be. */
  function Eval(lang: Language, e: Expr, statement: bool, st: Store, m: Meanings): Result
    decreases e, 1
  {
    match e
    case Leaf(x) => Some((Lookup(st, x), st))
    case Paren(x) => Eval(lang, x, false, st, m)
    case Prefix(t, x) =>
      if t == Increment || t == Decrement then Stepped(lang, t, x, true, st, m)
      else
        var r := Eval(lang, x, false, st, m);
        if r.None? then None
        else if t == DoubleCast then Some((Double(Real(r.value.0)), r.value.1))
        else WithStore(m.unary(t, r.value.0), r.value.1)
    case Postfix(x, t) => Stepped(lang, t, x, false, st, m)
    case Binary(t, l, r) =>
      if IsStore(lang, t, statement) then Stored(lang, t, l, r, st, m)
      else EvalBinary(lang, t, l, r, st, m)
    case Ternary(c, t, f) =>
      var r := Eval(lang, c, false, st, m);
      if r.None? then None
      else if m.truth(r.value.0) then Eval(lang, t, false, r.value.1, m)
      else Eval(lang, f, false, r.value.1, m)
  }

  function WithStore(v: Option<Value>, st: Store): Result {
    if v.Some? then Some((v.value, st)) else None
  }

  /** The operation on what its operands evaluate to; && and || may leave the right one out. */
  function Combined(lang: Language, t: Token, a: Result, b: Result, m: Meanings): Result {
    if a.None? then None
    else if t == And && !m.truth(a.value.0) then Some((Whole(0), a.value.1))
    else if t == Or && m.truth(a.value.0) then Some((Whole(1), a.value.1))
    else if b.None? then None
    else if t == Comma then b
    else WithStore(Operated(lang, t, a.value.0, b.value.0, m), b.value.1)
  }

  function EvalBinary(lang: Language, t: Token, l: Expr, r: Expr, st: Store, m: Meanings): Result
    decreases Binary(t, l, r), 0
  {
    var a := Eval(lang, l, false, st, m);
    Combined(lang, t, a, if a.Some? then Eval(lang, r, false, a.value.1, m) else None, m)
  }

  /** An assignment to a variable; a compound one operates on what it held. */
  function Stored(lang: Language, t: Token, l: Expr, r: Expr, st: Store, m: Meanings): Result
    decreases Binary(t, l, r), 0
  {
    if !l.Leaf? then None
    else
      var b := Eval(lang, r, false, st, m);
      if b.None? then None
      else
        var v := if t.AssignOp? then m.binary(t, Lookup(b.value.1, l.text), b.value.0) else Some(b.value.0);
        if v.None? then None else Some((v.value, b.value.1[l.text := v.value]))
  }

  function Stepped(lang: Language, t: Token, x: Expr, before: bool, st: Store, m: Meanings): Result
    decreases x, 2
  {
    if !x.Leaf? then None
    else
      var was := Lookup(st, x.text);
      Some((if before then m.step(t, was) else was, st[x.text := m.step(t, was)]))
  }

  // ---- the changes keep the meaning ----

  lemma LeavesStayLeaves(e: Expr, statement: bool)
    ensures Lower(e, statement).Leaf? <==> e.Leaf?
    ensures e.Leaf? ==> Lower(e, statement) == e
  {
  }

  lemma OperatorMeans(t: Token, statement: bool, a: Value, b: Value, m: Meanings)
    ensures IsStore(Cpp, LowerOperator(t, statement), false) == IsStore(Edl, t, statement)
    ensures !IsStore(Edl, t, statement) ==>
      Operated(Cpp, LowerOperator(t, statement), a, if t == Slash then Double(Real(b)) else b, m)
        == Operated(Edl, t, a, b, m)
    ensures t in {And, Or, Comma, Slash} || t.AssignOp? ==> LowerOperator(t, statement) == t
    ensures LowerOperator(t, statement) in {And, Or, Comma, Slash} || LowerOperator(t, statement).AssignOp?
            ==> LowerOperator(t, statement) == t
  {
  }

  lemma CastMeans(r: Expr, s: Store, m: Meanings)
    ensures var b := Eval(Cpp, r, false, s, m);
      Eval(Cpp, Prefix(DoubleCast, r), false, s, m)
      == if b.None? then None else Some((Double(Real(b.value.0)), b.value.1))
  {
  }

  lemma CombinationMeans(t: Token, statement: bool, a: Result, b: Result, m: Meanings)
    requires !IsStore(Edl, t, statement)
    ensures Combined(Cpp, LowerOperator(t, statement), a,
                     if t == Slash && b.Some? then Some((Double(Real(b.value.0)), b.value.1)) else b, m)
         == Combined(Edl, t, a, b, m)
  {
    hide LowerOperator, Operated, IsStore;
    OperatorMeans(t, statement, Whole(0), Whole(0), m);
    if a.Some? && b.Some? { OperatorMeans(t, statement, a.value.0, b.value.0, m); }
  }

  lemma OtherMeans(t: Token, l: Expr, r: Expr, statement: bool, st: Store, m: Meanings)
    requires t != Slash && !IsStore(Edl, t, statement)
    requires forall s: Store :: Eval(Cpp, Lower(l, false), false, s, m) == Eval(Edl, l, false, s, m)
    requires forall s: Store :: Eval(Cpp, Lower(r, false), false, s, m) == Eval(Edl, r, false, s, m)
    ensures EvalBinary(Cpp, LowerOperator(t, statement), Lower(l, false), Lower(r, false), st, m)
         == EvalBinary(Edl, t, l, r, st, m)
  {
    hide Eval, Lower, LowerOperator, Combined, IsStore;
    var a := Eval(Edl, l, false, st, m);
    CombinationMeans(t, statement, a, if a.Some? then Eval(Edl, r, false, a.value.1, m) else None, m);
  }

  lemma DivisionMeans(l: Expr, r: Expr, st: Store, m: Meanings)
    requires forall s: Store :: Eval(Cpp, Lower(l, false), false, s, m) == Eval(Edl, l, false, s, m)
    requires forall s: Store :: Eval(Cpp, Lower(r, false), false, s, m) == Eval(Edl, r, false, s, m)
    ensures EvalBinary(Cpp, Slash, Lower(l, false), Prefix(DoubleCast, Lower(r, false)), st, m)
         == EvalBinary(Edl, Slash, l, r, st, m)
  {
    hide Eval, Lower, Combined;
    var a := Eval(Edl, l, false, st, m);
    if a.Some? { CastMeans(Lower(r, false), a.value.1, m); }
    CombinationMeans(Slash, false, a, if a.Some? then Eval(Edl, r, false, a.value.1, m) else None, m);
  }

  lemma StoreMeans(t: Token, l: Expr, r: Expr, statement: bool, st: Store, m: Meanings)
    requires IsStore(Edl, t, statement)
    requires forall s: Store :: Eval(Cpp, Lower(r, false), false, s, m) == Eval(Edl, r, false, s, m)
    ensures Stored(Cpp, LowerOperator(t, statement), Lower(l, false), Lower(r, false), st, m)
         == Stored(Edl, t, l, r, st, m)
  {
    hide Eval, Lower;
    LeavesStayLeaves(l, false);
  }

  lemma LoweredBinary(t: Token, l: Expr, r: Expr, statement: bool)
    ensures Lower(Binary(t, l, r), statement)
         == Binary(LowerOperator(t, statement), Lower(l, false),
                   if t == Slash then Prefix(DoubleCast, Lower(r, false)) else Lower(r, false))
  {
  }

  lemma EvalOfBinary(lang: Language, t: Token, l: Expr, r: Expr, statement: bool, st: Store, m: Meanings)
    ensures Eval(lang, Binary(t, l, r), statement, st, m)
         == if IsStore(lang, t, statement) then Stored(lang, t, l, r, st, m) else EvalBinary(lang, t, l, r, st, m)
  {
  }

  lemma BinaryMeans(t: Token, l: Expr, r: Expr, statement: bool, st: Store, m: Meanings)
    requires forall s: Store :: Eval(Cpp, Lower(l, false), false, s, m) == Eval(Edl, l, false, s, m)
    requires forall s: Store :: Eval(Cpp, Lower(r, false), false, s, m) == Eval(Edl, r, false, s, m)
    ensures var e := Binary(t, l, r); Eval(Cpp, Lower(e, statement), false, st, m) == Eval(Edl, e, statement, st, m)
  {
    hide Eval, Lower, EvalBinary, Stored, IsStore;
    OperatorMeans(t, statement, Whole(0), Whole(0), m);
    LoweredBinary(t, l, r, statement);
    EvalOfBinary(Edl, t, l, r, statement, st, m);
    var right := if t == Slash then Prefix(DoubleCast, Lower(r, false)) else Lower(r, false);
    EvalOfBinary(Cpp, LowerOperator(t, statement), Lower(l, false), right, false, st, m);
    if t == Slash {
      assert !IsStore(Edl, Slash, statement) by { SlashIsNoStore(statement); }
      DivisionMeans(l, r, st, m);
    } else if IsStore(Edl, t, statement) {
      StoreMeans(t, l, r, statement, st, m);
    } else {
      OtherMeans(t, l, r, statement, st, m);
    }
  }

  lemma SlashIsNoStore(statement: bool)
    ensures !IsStore(Edl, Slash, statement)
  {
  }

  /** Changed in place, an expression evaluates in C++ to what it does in EDL, from every
      store and with the same effects. */
  lemma {:induction false} LoweringMeans(e: Expr, statement: bool, st: Store, m: Meanings)
    ensures Eval(Cpp, Lower(e, statement), false, st, m) == Eval(Edl, e, statement, st, m)
    decreases e
  {
    match e
    case Leaf(_) =>
    case Paren(x) => LoweringMeans(x, false, st, m);
    case Prefix(_, x) =>
      LoweringMeans(x, false, st, m);
      LeavesStayLeaves(x, false);
    case Postfix(x, _) => LeavesStayLeaves(x, false);
    case Binary(t, l, r) =>
      forall s: Store ensures Eval(Cpp, Lower(l, false), false, s, m) == Eval(Edl, l, false, s, m) {
        LoweringMeans(l, false, s, m);
      }
      forall s: Store ensures Eval(Cpp, Lower(r, false), false, s, m) == Eval(Edl, r, false, s, m) {
        LoweringMeans(r, false, s, m);
      }
      BinaryMeans(t, l, r, statement, st, m);
    case Ternary(c, t, f) =>
      LoweringMeans(c, false, st, m);
      forall s: Store ensures Eval(Cpp, Lower(t, false), false, s, m) == Eval(Edl, t, false, s, m) {
        LoweringMeans(t, false, s, m);
      }
      forall s: Store ensures Eval(Cpp, Lower(f, false), false, s, m) == Eval(Edl, f, false, s, m) {
        LoweringMeans(f, false, s, m);
      }
  }

  /** What the printed text groups to in C++ evaluates as the expression does in EDL, when
      the changed expression needs no parentheses. */
  lemma LoweredTextMeans(e: Expr, statement: bool, st: Store, m: Meanings)
    requires Respects(Lower(e, statement))
    ensures Regroup(LoweredText(e, statement)).Some?
    ensures Eval(Cpp, Regroup(LoweredText(e, statement)).value, false, st, m) == Eval(Edl, e, statement, st, m)
  {
    hide Eval, Regroup, Respects;
    LoweredTextPrintsLowered(e, statement);
    FlatPrintingLosesNothing(Lower(e, statement));
    LoweringMeans(e, statement, st, m);
  }

  /** So does a value in the text of a whole program. */
  lemma ProgramValuesMean(trees: FlatStatements.Trees, e: Stores.Expr, st: Store, m: Meanings)
    requires Respects(Lower(trees(e), false))
    ensures Eval(Cpp, FlatStatements.Grouped(trees, e), false, st, m) == Eval(Edl, trees(e), false, st, m)
  {
    hide Eval, Respects;
    FlatStatements.GroupedInPlaceExactly(trees, e);
    LoweringMeans(trees(e), false, st, m);
  }

  /** Without the cast a quarter would be nothing. */
  lemma QuarterNeedsCast(st: Store, m: Meanings)
    requires Lookup(st, "1") == Whole(1) && Lookup(st, "4") == Whole(4)
    ensures var e := Binary(Slash, Leaf("1"), Leaf("4"));
      && Eval(Edl, e, false, st, m) == Some((Double(0.25), st))
      && Eval(Cpp, e, false, st, m) == Some((Whole(0), st))
      && Eval(Cpp, Lower(e, false), false, st, m) == Some((Double(0.25), st))
  {
    var e := Binary(Slash, Leaf("1"), Leaf("4"));
    assert Truncated(1, 4) == 0 && Divided(Edl, Whole(1), Whole(4)) == Some(Double(0.25));
    LoweringMeans(e, false, st, m);
  }
}
