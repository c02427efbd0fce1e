// Lowering preserves meaning: the C++ statement ends in the same state as the EDL
// statement apart from the counters, with the same fuel.
module LoweringMeaning {
  import opened Options
  import opened Stores
  import opened Edl
  import opened StatementLowering
  import StatementText
  import CppStatementParser
  import Cpp
  import CppFrames

  /** No variable of the program is one a lowered repeat counts in. */
  ghost predicate CounterFree(s: Stmt) {
    forall d: nat :: !Mentions(s, CounterName(d))
  }

  ghost predicate CountersFreeIn(ss: Stmts) {
    forall d: nat :: !MentionsAny(ss, CounterName(d))
  }

  ghost predicate ExprCounterFree(e: Expr) {
    forall d: nat :: !Names(e, CounterName(d))
  }

  /** Equal on every variable that is not a counter. */
  ghost predicate Agree(a: Store, b: Store) {
    forall x: string :: !IsCounter(x) ==> Read(a, x) == Read(b, x)
  }

  /** The C++ outcome b matches the EDL outcome a. */
  ghost predicate Matches(a: Outcome, b: Outcome) {
    match a
    case Finished(st, signal) => b.Finished? && b.signal == signal && Agree(st, b.store)
    case CountOutOfRange => true
    case other => b == other
  }

  lemma {:induction false} EvalAgrees(e: Expr, a: Store, b: Store)
    requires ExprCounterFree(e) && Agree(a, b)
    ensures Eval(e, a) == Eval(e, b)
  {
    match e
    case Number(_) =>
    case Name(x) =>
      assert !IsCounter(x) by {
        forall d: nat ensures x != CounterName(d) { assert !Names(e, CounterName(d)); }
      }
    case Binary(_, l, r) =>
      forall d: nat ensures !Names(l, CounterName(d)) && !Names(r, CounterName(d)) {
        assert !Names(e, CounterName(d));
      }
      EvalAgrees(l, a, b);
      EvalAgrees(r, a, b);
    case Comma(l, r) =>
      forall d: nat ensures !Names(r, CounterName(d)) {
        assert !Names(e, CounterName(d));
      }
      EvalAgrees(r, a, b);
  }

  lemma GuardTests(negated: bool, e: Expr, st: Store)
    ensures Cpp.Test(Guard(negated, e), st) == Some((Truth(Eval(e, st)) != negated, st))
  {
    assert Cpp.Test(Cpp.Val(e), st) == Some((Truth(Eval(e, st)), st));
  }

  lemma GuardWritesNothing(negated: bool, e: Expr, x: string)
    ensures !CppFrames.TestWrites(Guard(negated, e), x)
  {
    assert !CppFrames.TestWrites(Cpp.Val(e), x);
  }

  lemma PartsCounterFree(s: Stmt)
    requires CounterFree(s)
    ensures s.Assign? ==> !IsCounter(s.target) && ExprCounterFree(s.value)
    ensures s.Block? ==> CountersFreeIn(s.stmts)
    ensures s.If? || s.Loop? || s.Do? ==> ExprCounterFree(s.cond.expr)
    ensures s.If? && s.thn.Some? ==> CounterFree(s.thn.value)
    ensures s.If? && s.els.Some? ==> CounterFree(s.els.value)
    ensures s.Loop? || s.Do? ==> CounterFree(s.body)
  {
    forall d: nat
      ensures s.Assign? ==> s.target != CounterName(d) && !Names(s.value, CounterName(d))
      ensures s.Block? ==> !MentionsAny(s.stmts, CounterName(d))
      ensures s.If? || s.Loop? || s.Do? ==> !Names(s.cond.expr, CounterName(d))
      ensures s.If? && s.thn.Some? ==> !Mentions(s.thn.value, CounterName(d))
      ensures s.If? && s.els.Some? ==> !Mentions(s.els.value, CounterName(d))
      ensures s.Loop? || s.Do? ==> !Mentions(s.body, CounterName(d))
    {
      assert !Mentions(s, CounterName(d));
    }
  }

  lemma ListPartsCounterFree(ss: Stmts)
    requires CountersFreeIn(ss) && ss.Cons?
    ensures CounterFree(ss.head) && CountersFreeIn(ss.tail)
  {
    forall d: nat ensures !Mentions(ss.head, CounterName(d)) && !MentionsAny(ss.tail, CounterName(d)) {
      assert !MentionsAny(ss, CounterName(d));
    }
  }

  /** A statement lowered inside d repeats leaves their counters alone, whatever the
      counts in it evaluate to. */
  lemma NestedCountersNeverCollide(s: Stmt, d: nat, fuel: nat, cst: Store, k: nat)
    requires CounterFree(s) && k < d
    ensures var r := Cpp.Run(Lower(s, d), fuel, cst);
      r.Finished? ==> Read(r.store, CounterName(k)) == Read(cst, CounterName(k))
  {
    LoweredWritesNoOuterCounter(s, d, k);
    CppFrames.RunKeepsUnwritten(Lower(s, d), CounterName(k), fuel, cst);
  }

  lemma {:induction false} LoweredWritesNoOuterCounter(s: Stmt, d: nat, k: nat)
    requires CounterFree(s) && k < d
    ensures !CppFrames.Writes(Lower(s, d), CounterName(k))
    decreases s, 0
  {
    PartsCounterFree(s);
    var x := CounterName(k);
    match s
    case Block(ss) => LoweredListWritesNoOuterCounter(ss, d, k);
    case If(c, negated, thn, els) =>
      GuardWritesNothing(negated, c.expr, x);
      if thn.Some? { LoweredWritesNoOuterCounter(thn.value, d, k); }
      if els.Some? { LoweredWritesNoOuterCounter(els.value, d, k); }
    case Loop(kind, c, body) =>
      if kind == Repeat {
        LoweredWritesNoOuterCounter(body, d + 1, k);
        if CounterName(d) == x { CountersDistinct(d, k); }
        var loop := Cpp.While(Cpp.PostDecrement(CounterName(d)), Lower(body, d + 1));
        var tail := Cpp.Cons(loop, Cpp.Nil);
        assert !CppFrames.WritesAny(tail, x);
        assert !CppFrames.WritesAny(Cpp.Cons(Cpp.Declare(CounterName(d), c, []), tail), x);
      } else {
        GuardWritesNothing(kind == UntilTrue, c.expr, x);
        LoweredWritesNoOuterCounter(body, d, k);
      }
    case Do(body, c, isUntil) =>
      GuardWritesNothing(isUntil, c.expr, x);
      LoweredWritesNoOuterCounter(body, d, k);
      assert !CppFrames.WritesAny(Cpp.Cons(Lower(body, d), Cpp.Nil), x);
    case _ =>
  }

  lemma {:induction false} LoweredListWritesNoOuterCounter(ss: Stmts, d: nat, k: nat)
    requires CountersFreeIn(ss) && k < d
    ensures !CppFrames.WritesAny(LowerAll(ss, d), CounterName(k))
    decreases ss, 0
  {
    if ss.Cons? {
      ListPartsCounterFree(ss);
      LoweredWritesNoOuterCounter(ss.head, d, k);
      LoweredListWritesNoOuterCounter(ss.tail, d, k);
    }
  }

  /** Main result on meaning: started in stores that agree, both end alike. */
  lemma {:induction false} LoweringPreservesMeaning(s: Stmt, d: nat, fuel: nat, st: Store, cst: Store)
    requires CounterFree(s) && Agree(st, cst)
    ensures Matches(Run(s, fuel, st), Cpp.Run(Lower(s, d), fuel, cst))
    decreases fuel, s, 1
  {
    hide CounterFree, ExprCounterFree, CounterName, RunLoop, RunRepeat, RunDo;
    PartsCounterFree(s);
    match s
    case Assign(x, e) => EvalAgrees(e, st, cst);
    case Break =>
    case Continue =>
    case Block(ss) => ListMeaning(ss, d, fuel, st, cst);
    case If(c, negated, thn, els) =>
      EvalAgrees(c.expr, st, cst);
      GuardTests(negated, c.expr, cst);
      if thn.Some? { LoweringPreservesMeaning(thn.value, d, fuel, st, cst); }
      if els.Some? { LoweringPreservesMeaning(els.value, d, fuel, st, cst); }
    case Loop(kind, c, body) =>
      EvalAgrees(c.expr, st, cst);
      if kind == Repeat {
        RepeatMeaning(s, d, fuel, st, cst);
      } else {
        LoopMeaning(c.expr, kind == UntilTrue, body, d, fuel, st, cst);
      }
    case Do(body, c, isUntil) =>
      DoMeaning(body, c.expr, isUntil, d, fuel, st, cst);
  }

  lemma {:induction false} ListMeaning(ss: Stmts, d: nat, fuel: nat, st: Store, cst: Store)
    requires CountersFreeIn(ss) && Agree(st, cst)
    ensures Matches(RunAll(ss, fuel, st), Cpp.RunAll(LowerAll(ss, d), fuel, cst))
    decreases fuel, ss, 0
  {
    if ss.Cons? {
      ListPartsCounterFree(ss);
      LoweringPreservesMeaning(ss.head, d, fuel, st, cst);
      match Run(ss.head, fuel, st)
      case Finished(st', Completed) =>
        ListMeaning(ss.tail, d, fuel, st', Cpp.Run(Lower(ss.head, d), fuel, cst).store);
      case _ =>
    }
  }

  lemma {:induction false} LoopMeaning(e: Expr, stopOn: bool, body: Stmt, d: nat, fuel: nat, st: Store, cst: Store)
    requires ExprCounterFree(e) && CounterFree(body) && Agree(st, cst)
    ensures Matches(RunLoop(e, stopOn, body, fuel, st),
                    Cpp.RunWhile(Guard(stopOn, e), Lower(body, d), fuel, cst))
    decreases fuel, body, 2
  {
    EvalAgrees(e, st, cst);
    GuardTests(stopOn, e, cst);
    if Truth(Eval(e, st)) != stopOn && fuel > 0 {
      LoweringPreservesMeaning(body, d, fuel - 1, st, cst);
      match Run(body, fuel - 1, st)
      case Finished(st', signal) =>
        if signal != Broke {
          LoopMeaning(e, stopOn, body, d, fuel - 1, st', Cpp.Run(Lower(body, d), fuel - 1, cst).store);
        }
      case _ =>
    }
  }

  lemma {:induction false} DoMeaning(body: Stmt, e: Expr, stopOn: bool, d: nat, fuel: nat, st: Store, cst: Store)
    requires ExprCounterFree(e) && CounterFree(body) && Agree(st, cst)
    ensures Matches(RunDo(body, e, stopOn, fuel, st),
                    Cpp.RunDo(LowerBraced(body, d), Guard(stopOn, e), fuel, cst))
    decreases fuel, body, 2
  {
    hide Agree, LowerBraced, CounterFree, ExprCounterFree, Guard;
    if fuel > 0 {
      LoweringPreservesMeaning(body, d, fuel - 1, st, cst);
      BracesKeepMeaning(body, d, fuel - 1, cst);
      match Run(body, fuel - 1, st)
      case Finished(st', signal) =>
        var cst' := Cpp.Run(Lower(body, d), fuel - 1, cst).store;
        EvalAgrees(e, st', cst');
        GuardTests(stopOn, e, cst');
        if signal != Broke && Truth(Eval(e, st')) != stopOn {
          DoMeaning(body, e, stopOn, d, fuel - 1, st', cst');
        }
      case _ =>
    }
  }

  lemma BracesKeepMeaning(s: Stmt, d: nat, fuel: nat, cst: Store)
    ensures Cpp.Run(LowerBraced(s, d), fuel, cst) == Cpp.Run(Lower(s, d), fuel, cst)
  {
    if !s.Block? {
      var list := Cpp.Cons(Lower(s, d), Cpp.Nil);
      assert Cpp.RunAll(list, fuel, cst) == Cpp.Run(Lower(s, d), fuel, cst);
    }
  }

  lemma {:induction false} RepeatMeaning(s: Stmt, d: nat, fuel: nat, st: Store, cst: Store)
    requires s.Loop? && s.kind == Repeat && CounterFree(s) && Agree(st, cst)
    ensures Matches(Run(s, fuel, st), Cpp.Run(Lower(s, d), fuel, cst))
    decreases fuel, s, 0
  {
    PartsCounterFree(s);
    EvalAgrees(s.cond.expr, st, cst);
    var n, count := CounterName(d), Eval(s.cond.expr, st);
    if 0 <= count <= INT_MAX {
      assert IsCounter(n);
      CountdownMeaning(count, s.body, d, fuel, st, cst[n := count]);
      RepeatUnfolds(n, s.cond, Lower(s.body, d + 1), fuel, cst);
    }
  }

  lemma RepeatUnfolds(n: string, c: Condition, body: Cpp.CStmt, fuel: nat, cst: Store)
    requires INT_MIN <= Eval(c.expr, cst) <= INT_MAX
    ensures Cpp.Run(CountedWhile(n, c, body), fuel, cst)
         == Cpp.RunWhile(Cpp.PostDecrement(n), body, fuel, cst[n := Eval(c.expr, cst)])
  {
    var loop := Cpp.While(Cpp.PostDecrement(n), body);
    var tail := Cpp.Cons(loop, Cpp.Nil);
    var st' := cst[n := Eval(c.expr, cst)];
    assert Cpp.RunAll(tail, fuel, st') == Cpp.Run(loop, fuel, st');
    assert Cpp.Run(Cpp.Declare(n, c, []), fuel, cst) == Finished(st', Completed);
  }

  /** while (counter--) body runs the body as often as the counter says, for a body that
      keeps the counters of the repeats around it. */
  lemma {:induction false} CountdownMeaning(count: nat, body: Stmt, d: nat, fuel: nat, st: Store, cst: Store)
    requires CounterFree(body) && Agree(st, cst)
    requires Read(cst, CounterName(d)) == count <= INT_MAX
    ensures Matches(RunRepeat(count, body, fuel, st),
                    Cpp.RunWhile(Cpp.PostDecrement(CounterName(d)), Lower(body, d + 1), fuel, cst))
    decreases fuel, body, 2
  {
    var n := CounterName(d);
    var counted := cst[n := count - 1];
    assert IsCounter(n);
    if count > 0 && fuel > 0 {
      LoweringPreservesMeaning(body, d + 1, fuel - 1, st, counted);
      match Run(body, fuel - 1, st)
      case Finished(st', signal) =>
        var cst' := Cpp.Run(Lower(body, d + 1), fuel - 1, counted).store;
        NestedCountersNeverCollide(body, d + 1, fuel - 1, counted, d);
        if signal != Broke {
          CountdownMeaning(count - 1, body, d, fuel - 1, st', cst');
        }
      case _ =>
    }
  }

  /** The whole pipeline: for a program that never names a counter, gives no else away
      and has no count with an open comma,
      what C++ reads from the printed text ends as the program does, whatever the fuel. */
  lemma CompiledProgramMeans(s: Stmt, fuel: nat, st: Store)
    requires CounterFree(s) && ElsesNearest(s) && CountsClosed(s)
    ensures var parsed := CppStatementParser.ParseStmt(StatementText.Terminated(s, 0));
      && parsed.Some? && parsed.value.1 == []
      && Matches(Run(s, fuel, st), Cpp.Run(parsed.value.0, fuel, st))
  {
    PrintedTextMeansLowering(s, 0);
    LoweringPreservesMeaning(s, 0, fuel, st, st);
  }

  // ---- negative counts ----

  /** No break of s leaves the loop around s. */
  predicate NoBreak(s: Stmt)
    decreases s
  {
    match s
    case Break => false
    case Block(ss) => NoBreakIn(ss)
    case If(_, _, thn, els) => (thn.Some? ==> NoBreak(thn.value)) && (els.Some? ==> NoBreak(els.value))
    case _ => true
  }

  predicate NoBreakIn(ss: Stmts)
    decreases ss
  {
    ss.Cons? ==> NoBreak(ss.head) && NoBreakIn(ss.tail)
  }

  lemma {:induction false} LoweringKeepsNoBreak(s: Stmt, d: nat)
    requires NoBreak(s)
    ensures CppFrames.NoBreak(Lower(s, d))
    decreases s, 0
  {
    match s
    case Block(ss) => LoweringKeepsNoBreakIn(ss, d);
    case If(_, _, thn, els) =>
      if thn.Some? { LoweringKeepsNoBreak(thn.value, d); }
      if els.Some? { LoweringKeepsNoBreak(els.value, d); }
    case Loop(Repeat, c, body) =>
      var tail := Cpp.Cons(Cpp.While(Cpp.PostDecrement(CounterName(d)), Lower(body, d + 1)), Cpp.Nil);
      assert CppFrames.NoBreakIn(tail);
    case _ =>
  }

  lemma {:induction false} LoweringKeepsNoBreakIn(ss: Stmts, d: nat)
    requires NoBreakIn(ss)
    ensures CppFrames.NoBreakIn(LowerAll(ss, d))
    decreases ss, 0
  {
    match ss
    case Nil =>
    case Cons(s, rest) =>
      LoweringKeepsNoBreak(s, d);
      LoweringKeepsNoBreakIn(rest, d);
  }

  /** A repeat whose body has no break ends in C++ only when its count was not negative:
      a negative count is counted down until the int overflows. */
  lemma NegativeRepeatNeverEnds(s: Stmt, d: nat, fuel: nat, cst: Store)
    requires s.Loop? && s.kind == Repeat && CounterFree(s) && NoBreak(s.body)
    requires Eval(s.cond.expr, cst) < 0
    ensures !Cpp.Run(Lower(s, d), fuel, cst).Finished?
  {
    var n, count := CounterName(d), Eval(s.cond.expr, cst);
    PartsCounterFree(s);
    if INT_MIN <= count {
      LoweringKeepsNoBreak(s.body, d + 1);
      NegativeCountdownNeverEnds(s.body, d, fuel, cst[n := count]);
      RepeatUnfolds(n, s.cond, Lower(s.body, d + 1), fuel, cst);
    } else {
      assert Cpp.Run(Cpp.Declare(n, s.cond, []), fuel, cst) == CounterOverflow;
    }
  }

  /** With a negative count taken as none, C++ does what a repeat without break asks for
      exactly when its count is not negative. */
  lemma RepeatMeansCountExactly(s: Stmt, d: nat, fuel: nat, st: Store, cst: Store)
    requires s.Loop? && s.kind == Repeat && CounterFree(s) && NoBreak(s.body) && Agree(st, cst)
    requires Eval(s.cond.expr, st) <= INT_MAX
    ensures var count := Eval(s.cond.expr, st);
      Matches(RunRepeat(if count < 0 then 0 else count, s.body, fuel, st), Cpp.Run(Lower(s, d), fuel, cst))
      <==> count >= 0
  {
    hide Agree, NoBreak, CounterFree, Lower;
    PartsCounterFree(s);
    EvalAgrees(s.cond.expr, st, cst);
    if Eval(s.cond.expr, st) >= 0 {
      LoweringPreservesMeaning(s, d, fuel, st, cst);
    } else {
      NegativeRepeatNeverEnds(s, d, fuel, cst);
    }
  }

  /** A break ends such a repeat, after one run of its body: repeat (-1) { x = 1; break } sets x. */
  lemma NegativeRepeatRunsItsBody(fuel: nat, cst: Store)
    requires fuel > 0
    ensures var body := Block(Cons(Assign("x", Number(1)), Cons(Break, Nil)));
      var s := Loop(Repeat, Condition(Number(-1), true), body);
      var r := Cpp.Run(Lower(s, 0), fuel, cst);
      r.Finished? && r.signal == Completed && Read(r.store, "x") == 1
  {
    var n := CounterName(0);
    var body := Block(Cons(Assign("x", Number(1)), Cons(Break, Nil)));
    RepeatUnfolds(n, Condition(Number(-1), true), Lower(body, 1), fuel, cst);
    var st := cst[n := -1][n := -2];
    var tail := Cpp.Cons(Cpp.Break, Cpp.Nil);
    assert LowerAll(Nil, 1) == Cpp.Nil;
    assert Lower(Break, 1) == Cpp.Break;
    assert LowerAll(Cons(Break, Nil), 1) == tail;
    assert Lower(body, 1) == Cpp.Block(Cpp.Cons(Cpp.Assign("x", Number(1)), tail));
    var set1 := st["x" := 1];
    assert Cpp.Run(Cpp.Break, fuel - 1, set1) == Finished(set1, Broke);
    assert Cpp.RunAll(tail, fuel - 1, set1) == Finished(set1, Broke);
    assert Cpp.Run(Cpp.Assign("x", Number(1)), fuel - 1, st) == Finished(set1, Completed);
    assert Cpp.Run(Lower(body, 1), fuel - 1, st) == Finished(set1, Broke);
  }

  lemma {:induction false} NegativeCountdownNeverEnds(body: Stmt, d: nat, fuel: nat, cst: Store)
    requires CounterFree(body) && CppFrames.NoBreak(Lower(body, d + 1))
    requires Read(cst, CounterName(d)) < 0
    ensures !Cpp.RunWhile(Cpp.PostDecrement(CounterName(d)), Lower(body, d + 1), fuel, cst).Finished?
    decreases fuel
  {
    var n := CounterName(d);
    var v := Read(cst, n);
    if v > INT_MIN && fuel > 0 {
      var counted := cst[n := v - 1];
      match Cpp.Run(Lower(body, d + 1), fuel - 1, counted)
      case Finished(cst', signal) =>
        NestedCountersNeverCollide(body, d + 1, fuel - 1, counted, d);
        CppFrames.NoBreakRuns(Lower(body, d + 1), fuel - 1, counted);
        NegativeCountdownNeverEnds(body, d, fuel - 1, cst');
      case _ =>
    }
  }
}
