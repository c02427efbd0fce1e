// Real division: what the cast printed before a divisor covers once the flat text, with its
// comparing = turned into ==, is grouped again.
module DivisorCasts {
  import opened Expressions
  import opened ExpressionLowering

  predicate IsMember(t: Token) {
    t == DotStar || t == ArrowStar
  }

  /** Whether the text after an operator is still a divisor's, if that before it was. */
  predicate Enters(t: Token, divisor: bool) {
    t == Slash || (IsMember(t) && divisor)
  }

  /** Whether the text after the tree is still a divisor's. */
  predicate Leaves(e: Expr, divisor: bool) {
    match e
    case Leaf(_) | Paren(_) => divisor
    case Prefix(_, x) => Leaves(x, divisor)
    case Postfix(x, _) => Leaves(x, divisor)
    case Binary(t, l, r) => Leaves(r, Enters(t, Leaves(l, divisor)))
    case Ternary(_, _, f) => Leaves(f, false)
  }

  /** The member-pointer operators that go on with a divisor. */
  function Missed(e: Expr, divisor: bool): nat {
    match e
    case Leaf(_) => 0
    case Paren(x) => Missed(x, false)
    case Prefix(_, x) => Missed(x, divisor)
    case Postfix(x, _) => Missed(x, divisor)
    case Binary(t, l, r) =>
      Missed(l, divisor) + (if IsMember(t) && Leaves(l, divisor) then 1 else 0)
      + Missed(r, Enters(t, Leaves(l, divisor)))
    case Ternary(c, t, f) => Missed(c, divisor) + Missed(t, false) + Missed(f, false)
  }

  /** The same, read off a text; the stack holds the states outside the open parentheses. */
  function MissedIn(ts: seq<Token>, after: bool, divisor: bool, stack: seq<bool>): nat
    decreases |ts|
  {
    if ts == [] then 0
    else
      var (t, rest) := (ts[0], ts[1..]);
      if !after then
        if t.Operand? then MissedIn(rest, true, divisor, stack)
        else if t == OpenParen then MissedIn(rest, false, false, stack + [divisor])
        else MissedIn(rest, false, divisor, stack)
      else if IsBinary(t) then
        (if IsMember(t) && divisor then 1 else 0) + MissedIn(rest, false, Enters(t, divisor), stack)
      else if IsPostfix(t) then MissedIn(rest, true, divisor, stack)
      else if t == CloseParen && stack != [] then
        MissedIn(rest, true, stack[|stack| - 1], stack[..|stack| - 1])
      else MissedIn(rest, false, false, stack)
  }

  lemma ScanOperand(t: Token, ts: seq<Token>, divisor: bool, stack: seq<bool>)
    ensures t.Operand? ==> MissedIn([t] + ts, false, divisor, stack) == MissedIn(ts, true, divisor, stack)
    ensures IsPrefix(t) ==> MissedIn([t] + ts, false, divisor, stack) == MissedIn(ts, false, divisor, stack)
    ensures t == OpenParen ==> MissedIn([t] + ts, false, divisor, stack) == MissedIn(ts, false, false, stack + [divisor])
  {
    hide IsBinary, IsPostfix, IsMember, Enters;
    assert ([t] + ts)[1..] == ts;
  }

  lemma ScanPostfix(t: Token, ts: seq<Token>, divisor: bool, stack: seq<bool>)
    requires IsPostfix(t)
    ensures MissedIn([t] + ts, true, divisor, stack) == MissedIn(ts, true, divisor, stack)
  {
    hide IsMember, Enters;
    assert ([t] + ts)[1..] == ts;
  }

  lemma ScanBinary(t: Token, ts: seq<Token>, divisor: bool, stack: seq<bool>)
    requires IsBinary(t)
    ensures MissedIn([t] + ts, true, divisor, stack)
         == (if IsMember(t) && divisor then 1 else 0) + MissedIn(ts, false, Enters(t, divisor), stack)
  {
    hide IsBinary, IsMember, Enters;
    assert ([t] + ts)[1..] == ts;
  }

  lemma ScanBranch(t: Token, ts: seq<Token>, divisor: bool, stack: seq<bool>)
    requires t == Question || t == Colon
    ensures MissedIn([t] + ts, true, divisor, stack) == MissedIn(ts, false, false, stack)
  {
    hide IsMember, Enters;
    assert ([t] + ts)[1..] == ts;
  }

  lemma ScanClose(ts: seq<Token>, divisor: bool, outer: bool, stack: seq<bool>)
    ensures MissedIn([CloseParen] + ts, true, divisor, stack + [outer]) == MissedIn(ts, true, outer, stack)
  {
    assert ([CloseParen] + ts)[1..] == ts;
    assert (stack + [outer])[..|stack|] == stack;
  }

  lemma {:induction false} MissedOfPrint(e: Expr, rest: seq<Token>, divisor: bool, stack: seq<bool>)
    requires WellFormed(e)
    ensures MissedIn(Print(e) + rest, false, divisor, stack)
         == Missed(e, divisor) + MissedIn(rest, true, Leaves(e, divisor), stack)
    decreases e
  {
    hide MissedIn, Print, IsPrefix, IsPostfix, IsBinary;
    TextBefore(e, rest);
    match e
    case Leaf(s) => ScanOperand(Operand(s), rest, divisor, stack);
    case Paren(x) =>
      ScanOperand(OpenParen, Print(x) + ([CloseParen] + rest), divisor, stack);
      MissedOfPrint(x, [CloseParen] + rest, false, stack + [divisor]);
      ScanClose(rest, Leaves(x, false), divisor, stack);
    case Prefix(t, x) =>
      ScanOperand(t, Print(x) + rest, divisor, stack);
      MissedOfPrint(x, rest, divisor, stack);
    case Postfix(x, t) =>
      MissedOfPrint(x, [t] + rest, divisor, stack);
      ScanPostfix(t, rest, Leaves(x, divisor), stack);
    case Binary(t, l, r) =>
      MissedOfPrint(l, [t] + (Print(r) + rest), divisor, stack);
      ScanBinary(t, Print(r) + rest, Leaves(l, divisor), stack);
      MissedOfPrint(r, rest, Enters(t, Leaves(l, divisor)), stack);
    case Ternary(c, t, f) =>
      var els := Print(f) + rest;
      var branches := Print(t) + ([Colon] + els);
      TernaryText(c, t, f, rest);
      MissedOfPrint(c, [Question] + branches, divisor, stack);
      ScanBranch(Question, branches, Leaves(c, divisor), stack);
      MissedOfPrint(t, [Colon] + els, false, stack);
      ScanBranch(Colon, els, Leaves(t, false), stack);
      MissedOfPrint(f, rest, false, stack);
  }

  lemma {:induction false} TightTreesLeave(e: Expr, divisor: bool)
    requires Respects(e) && Level(e) <= MEMBER_POINTER
    ensures Leaves(e, divisor) == divisor
  {
    match e
    case Leaf(_) | Paren(_) =>
    case Prefix(_, x) => TightTreesLeave(x, divisor);
    case Postfix(x, _) => TightTreesLeave(x, divisor);
    case Binary(_, l, r) =>
      TightTreesLeave(l, divisor);
      TightTreesLeave(r, divisor);
  }

  /** In a tree that respects the levels nothing is missed exactly when every divisor is
      unary or tighter, itself included when it is one. */
  lemma {:induction false} MissedOfRespecting(e: Expr, divisor: bool)
    requires Respects(e) && (divisor ==> Level(e) <= MEMBER_POINTER)
    ensures Missed(e, divisor) == 0 <==> DivisorsUnary(e) && (divisor ==> Level(e) <= PREFIX)
    decreases e, 1
  {
    match e
    case Leaf(_) =>
    case Paren(x) => MissedOfRespecting(x, false);
    case Prefix(_, x) => MissedOfRespecting(x, divisor);
    case Postfix(x, _) => MissedOfRespecting(x, divisor);
    case Binary(t, l, r) => MissedOfBinary(t, l, r, divisor);
    case Ternary(c, t, f) =>
      MissedOfRespecting(c, false);
      MissedOfRespecting(t, false);
      MissedOfRespecting(f, false);
  }

  lemma {:induction false} MissedOfBinary(t: Token, l: Expr, r: Expr, divisor: bool)
    requires Respects(Binary(t, l, r)) && (divisor ==> Level(Binary(t, l, r)) <= MEMBER_POINTER)
    ensures var e := Binary(t, l, r);
      Missed(e, divisor) == 0 <==> DivisorsUnary(e) && (divisor ==> Level(e) <= PREFIX)
    decreases Binary(t, l, r), 0
  {
    hide Respects;
    BinaryRespects(t, l, r);
    MissedOfRespecting(l, divisor);
    if IsMember(t) {
      TightTreesLeave(l, divisor);
      if !divisor { MissedOfRespecting(r, false); }
    } else {
      MissedOfRespecting(r, t == Slash);
    }
  }

  lemma OperatorsStay(t: Token, statement: bool, divisor: bool)
    ensures IsMember(LowerOperator(t, statement)) == IsMember(t)
    ensures Enters(LowerOperator(t, statement), divisor) == Enters(t, divisor)
  {
  }

  lemma {:induction false} LoweringKeepsMissed(e: Expr, statement: bool, divisor: bool)
    ensures Missed(Lower(e, statement), divisor) == Missed(e, divisor)
    ensures Leaves(Lower(e, statement), divisor) == Leaves(e, divisor)
  {
    match e
    case Leaf(_) =>
    case Paren(x) => LoweringKeepsMissed(x, false, false);
    case Prefix(_, x) => LoweringKeepsMissed(x, false, divisor);
    case Postfix(x, _) => LoweringKeepsMissed(x, false, divisor);
    case Binary(t, l, r) =>
      hide LowerOperator, Enters, IsMember;
      LoweringKeepsMissed(l, false, divisor);
      LoweringKeepsMissed(r, false, Enters(t, Leaves(l, divisor)));
      OperatorsStay(t, statement, Leaves(l, divisor));
      assert t == Slash ==> Missed(Prefix(DoubleCast, Lower(r, false)), Enters(t, Leaves(l, divisor)))
                            == Missed(Lower(r, false), Enters(t, Leaves(l, divisor)));
    case Ternary(c, t, f) =>
      LoweringKeepsMissed(c, false, divisor);
      LoweringKeepsMissed(t, false, false);
      LoweringKeepsMissed(f, false, false);
  }

  // ---- every divisor's text begins with the cast ----

  function FirstToken(e: Expr): Token {
    match e
    case Leaf(s) => Operand(s)
    case Paren(_) => OpenParen
    case Prefix(t, _) => t
    case Postfix(x, _) => FirstToken(x)
    case Binary(_, l, _) => FirstToken(l)
    case Ternary(c, _, _) => FirstToken(c)
  }

  /** The divisors whose text does not begin with the cast. */
  function Uncast(e: Expr): nat {
    match e
    case Leaf(_) => 0
    case Paren(x) => Uncast(x)
    case Prefix(_, x) => Uncast(x)
    case Postfix(x, _) => Uncast(x)
    case Binary(t, l, r) => Uncast(l) + (if t == Slash && FirstToken(r) != DoubleCast then 1 else 0) + Uncast(r)
    case Ternary(c, t, f) => Uncast(c) + Uncast(t) + Uncast(f)
  }

  function UncastIn(ts: seq<Token>): nat {
    if ts == [] then 0
    else (if ts[0] == Slash && !(|ts| > 1 && ts[1] == DoubleCast) then 1 else 0) + UncastIn(ts[1..])
  }

  lemma UncastOne(t: Token, ts: seq<Token>)
    ensures UncastIn([t] + ts) == (if t == Slash && !(ts != [] && ts[0] == DoubleCast) then 1 else 0) + UncastIn(ts)
  {
    assert ([t] + ts)[1..] == ts;
  }

  lemma {:induction false} TextStarts(e: Expr)
    ensures Print(e) != [] && Print(e)[0] == FirstToken(e)
  {
    match e
    case Leaf(_) | Paren(_) | Prefix(_, _) =>
    case Postfix(x, _) => TextStarts(x);
    case Binary(_, l, _) => TextStarts(l);
    case Ternary(c, _, _) => TextStarts(c);
  }

  lemma {:induction false} UncastOfPrint(e: Expr, rest: seq<Token>)
    requires WellFormed(e)
    ensures UncastIn(Print(e) + rest) == Uncast(e) + UncastIn(rest)
    decreases e
  {
    hide UncastIn, Print, FirstToken;
    TextBefore(e, rest);
    match e
    case Leaf(s) => UncastOne(Operand(s), rest);
    case Paren(x) =>
      UncastOne(OpenParen, Print(x) + ([CloseParen] + rest));
      UncastOfPrint(x, [CloseParen] + rest);
      UncastOne(CloseParen, rest);
    case Prefix(t, x) =>
      UncastOne(t, Print(x) + rest);
      UncastOfPrint(x, rest);
    case Postfix(x, t) =>
      UncastOfPrint(x, [t] + rest);
      UncastOne(t, rest);
    case Binary(t, l, r) =>
      UncastOfPrint(l, [t] + (Print(r) + rest));
      UncastOne(t, Print(r) + rest);
      TextStarts(r);
      UncastOfPrint(r, rest);
    case Ternary(c, t, f) =>
      var els := Print(f) + rest;
      var branches := Print(t) + ([Colon] + els);
      TernaryText(c, t, f, rest);
      UncastOfPrint(c, [Question] + branches);
      UncastOne(Question, branches);
      UncastOfPrint(t, [Colon] + els);
      UncastOne(Colon, els);
      UncastOfPrint(f, rest);
  }

  lemma {:induction false} LoweringCastsAll(e: Expr, statement: bool)
    ensures Uncast(Lower(e, statement)) == 0
  {
    match e
    case Leaf(_) =>
    case Paren(x) => LoweringCastsAll(x, false);
    case Prefix(_, x) => LoweringCastsAll(x, false);
    case Postfix(x, _) => LoweringCastsAll(x, false);
    case Binary(t, l, r) =>
      LoweringCastsAll(l, false);
      LoweringCastsAll(r, false);
    case Ternary(c, t, f) =>
      LoweringCastsAll(c, false);
      LoweringCastsAll(t, false);
      LoweringCastsAll(f, false);
  }

  /** Every divisor is a cast of all of it. */
  predicate DivisorsCast(e: Expr) {
    match e
    case Leaf(_) => true
    case Paren(x) => DivisorsCast(x)
    case Prefix(_, x) => DivisorsCast(x)
    case Postfix(x, _) => DivisorsCast(x)
    case Binary(t, l, r) =>
      (t == Slash ==> r.Prefix? && r.pre == DoubleCast) && DivisorsCast(l) && DivisorsCast(r)
    case Ternary(c, t, f) => DivisorsCast(c) && DivisorsCast(t) && DivisorsCast(f)
  }

  lemma {:induction false} PostfixStarts(e: Expr)
    requires Respects(e) && Level(e) <= POSTFIX
    ensures FirstToken(e) != DoubleCast
  {
    match e
    case Postfix(x, _) => PostfixStarts(x);
    case _ =>
  }

  lemma {:induction false} CastsOfRespecting(e: Expr)
    requires Respects(e) && Uncast(e) == 0
    ensures DivisorsCast(e) <==> DivisorsUnary(e)
  {
    match e
    case Leaf(_) =>
    case Paren(x) => CastsOfRespecting(x);
    case Prefix(_, x) => CastsOfRespecting(x);
    case Postfix(x, _) => CastsOfRespecting(x);
    case Binary(t, l, r) =>
      CastsOfRespecting(l);
      CastsOfRespecting(r);
      if t == Slash && Level(r) <= POSTFIX { PostfixStarts(r); }
    case Ternary(c, t, f) =>
      CastsOfRespecting(c);
      CastsOfRespecting(t);
      CastsOfRespecting(f);
  }

  /** However its = are lowered, the text groups to a tree in which every divisor is cast
      as a whole exactly when every divisor was unary or tighter. */
  lemma CastCoversDivisorExactly(e: Expr, statement: bool)
    requires Respects(e)
    ensures Regroup(LoweredText(e, statement)).Some?
    ensures DivisorsCast(Regroup(LoweredText(e, statement)).value) <==> DivisorsUnary(e)
  {
    hide Missed, Uncast, Regroup, Respects, DivisorsUnary, DivisorsCast, Leaves, Print, LoweredText, Lower;
    LoweredTextPrintsLowered(e, statement);
    LoweredRegroups(e, statement);
    var low, g := Lower(e, statement), Regroup(LoweredText(e, statement)).value;
    assert Print(low) + [] == Print(low) == Print(g) == Print(g) + [];
    MissedOfPrint(low, [], false, []);
    MissedOfPrint(g, [], false, []);
    LoweringKeepsMissed(e, statement, false);
    MissedOfRespecting(e, false);
    MissedOfRespecting(g, false);
    UncastOfPrint(low, []);
    UncastOfPrint(g, []);
    LoweringCastsAll(e, statement);
    CastsOfRespecting(g);
  }
}
