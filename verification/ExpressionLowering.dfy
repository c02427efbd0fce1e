// What the printer changes in an expression: := becomes =, a value-position = becomes
// ==, and the right operand of / is coerced to double. The text stays flat, so the
// C++ tree is the one the precedence table gives the changed text.
module ExpressionLowering {
  import opened Options
  import opened Sequences
  import opened Expressions

  /** The operator token printed; statement says this = is the root of a statement. */
  function LowerOperator(t: Token, statement: bool): Token {
    if t == Assign then Equals
    else if t == Equals && !statement then EqualTo
    else t
  }

  function Coercion(t: Token): seq<Token> {
    if t == Slash then [DoubleCast] else []
  }

  function LoweredText(e: Expr, statement: bool): seq<Token> {
    match e
    case Leaf(s) => [Operand(s)]
    case Paren(x) => [OpenParen] + LoweredText(x, false) + [CloseParen]
    case Prefix(t, x) => [t] + LoweredText(x, false)
    case Postfix(x, t) => LoweredText(x, false) + [t]
    case Binary(t, l, r) =>
      LoweredText(l, false) + [LowerOperator(t, statement)] + Coercion(t) + LoweredText(r, false)
    case Ternary(c, t, f) =>
      LoweredText(c, false) + [Question] + LoweredText(t, false) + [Colon] + LoweredText(f, false)
  }

  /** The printer's expression visits, writing to one output stream. */
  class ExpressionPrinter {
    var out: seq<Token>

    constructor ()
      ensures out == []
    {
      out := [];
    }

    method Print(code: seq<Token>)
      modifies this
      ensures out == old(out) + code
    {
      out := out + code;
    }

    method Visit(e: Expr, statement: bool)
      modifies this
      ensures out == old(out) + LoweredText(e, statement)
      decreases e, 1
    {
      match e
      case Leaf(s) => Print([Operand(s)]);
      case Paren(x) => VisitParenthetical(x);
      case Prefix(t, x) =>
        Print([t]);
        Visit(x, false);
        Assoc(old(out), [t], LoweredText(x, false));
      case Postfix(x, t) => VisitThen(x, t);
      case Binary(_, _, _) => VisitBinaryExpression(e, statement);
      case Ternary(c, t, f) =>
        VisitThen(c, Question);
        VisitThen(t, Colon);
        Visit(f, false);
        var ct, tt, ft := LoweredText(c, false), LoweredText(t, false), LoweredText(f, false);
        Assoc(old(out), ct + [Question], tt + [Colon]);
        Assoc(ct + [Question], tt, [Colon]);
        Assoc(old(out), ct + [Question] + tt + [Colon], ft);
    }

    method VisitThen(e: Expr, t: Token)
      modifies this
      ensures out == old(out) + (LoweredText(e, false) + [t])
      decreases e, 2
    {
      Visit(e, false);
      Print([t]);
      Assoc(old(out), LoweredText(e, false), [t]);
    }

    method VisitParenthetical(x: Expr)
      modifies this
      ensures out == old(out) + ([OpenParen] + LoweredText(x, false) + [CloseParen])
      decreases x, 3
    {
      Print([OpenParen]);
      VisitThen(x, CloseParen);
      Assoc(old(out), [OpenParen], LoweredText(x, false) + [CloseParen]);
      Assoc([OpenParen], LoweredText(x, false), [CloseParen]);
    }

    method VisitBinaryExpression(e: Expr, statement: bool)
      requires e.Binary?
      modifies this
      ensures out == old(out) + LoweredText(e, statement)
      decreases e, 0
    {
      hide LoweredText;
      BinaryText(e, statement);
      var operation := e.op;
      if operation == Assign {
        operation := Equals;
      } else if operation == Equals && !statement {
        operation := EqualTo;
      }
      VisitThen(e.left, operation);
      if e.op == Slash {
        Print([DoubleCast]);
      }
      Visit(e.right, false);
      ghost var head := LoweredText(e.left, false) + [operation];
      Assoc(old(out), head, Coercion(e.op));
      Assoc(old(out), head + Coercion(e.op), LoweredText(e.right, false));
    }
  }

  lemma BinaryText(e: Expr, statement: bool)
    requires e.Binary?
    ensures LoweredText(e, statement)
         == LoweredText(e.left, false) + [LowerOperator(e.op, statement)] + Coercion(e.op) + LoweredText(e.right, false)
  {
    hide LowerOperator, Coercion;
  }

  /** The tree with the changes made in place, whatever it then groups to. */
  function Lower(e: Expr, statement: bool): Expr {
    match e
    case Leaf(_) => e
    case Paren(x) => Paren(Lower(x, false))
    case Prefix(t, x) => Prefix(t, Lower(x, false))
    case Postfix(x, t) => Postfix(Lower(x, false), t)
    case Binary(t, l, r) =>
      var right := Lower(r, false);
      Binary(LowerOperator(t, statement), Lower(l, false), if t == Slash then Prefix(DoubleCast, right) else right)
    case Ternary(c, t, f) => Ternary(Lower(c, false), Lower(t, false), Lower(f, false))
  }

  lemma {:induction false} LoweredTextPrintsLowered(e: Expr, statement: bool)
    ensures Print(Lower(e, statement)) == LoweredText(e, statement)
    ensures WellFormed(e) ==> WellFormed(Lower(e, statement))
  {
    match e
    case Leaf(_) =>
    case Paren(x) => LoweredTextPrintsLowered(x, false);
    case Prefix(_, x) => LoweredTextPrintsLowered(x, false);
    case Postfix(x, _) => LoweredTextPrintsLowered(x, false);
    case Binary(t, l, r) =>
      LoweredTextPrintsLowered(l, false);
      LoweredTextPrintsLowered(r, false);
      BinaryPrints(t, l, r, statement);
    case Ternary(c, t, f) =>
      LoweredTextPrintsLowered(c, false);
      LoweredTextPrintsLowered(t, false);
      LoweredTextPrintsLowered(f, false);
  }

  lemma BinaryPrints(t: Token, l: Expr, r: Expr, statement: bool)
    requires Print(Lower(l, false)) == LoweredText(l, false) && Print(Lower(r, false)) == LoweredText(r, false)
    requires WellFormed(Binary(t, l, r)) ==> WellFormed(Lower(l, false)) && WellFormed(Lower(r, false))
    ensures var e := Binary(t, l, r);
      Print(Lower(e, statement)) == LoweredText(e, statement) && (WellFormed(e) ==> WellFormed(Lower(e, statement)))
  {
    var left, op, right := LoweredText(l, false), [LowerOperator(t, statement)], LoweredText(r, false);
    BinaryText(Binary(t, l, r), statement);
    if IsBinary(t) { LoweredOperatorLevel(t, statement); }
    hide LoweredText, LowerOperator, IsBinary;
    if t == Slash {
      assert Print(Prefix(DoubleCast, Lower(r, false))) == [DoubleCast] + right;
      Assoc(left + op, [DoubleCast], right);
    } else {
      assert left + op + [] == left + op;
    }
  }

  // ---- real division ----

  /** No = compares: every = is at the statement root, if that. */
  predicate NoComparingEquals(e: Expr, statement: bool) {
    match e
    case Leaf(_) => true
    case Paren(x) => NoComparingEquals(x, false)
    case Prefix(_, x) => NoComparingEquals(x, false)
    case Postfix(x, _) => NoComparingEquals(x, false)
    case Binary(t, l, r) =>
      (t == Equals ==> statement) && NoComparingEquals(l, false) && NoComparingEquals(r, false)
    case Ternary(c, t, f) => NoComparingEquals(c, false) && NoComparingEquals(t, false) && NoComparingEquals(f, false)
  }

  /** Every divisor is a unary or tighter expression. */
  predicate DivisorsUnary(e: Expr)
    requires WellFormed(e)
  {
    match e
    case Leaf(_) => true
    case Paren(x) => DivisorsUnary(x)
    case Prefix(_, x) => DivisorsUnary(x)
    case Postfix(x, _) => DivisorsUnary(x)
    case Binary(t, l, r) => (t == Slash ==> Level(r) <= PREFIX) && DivisorsUnary(l) && DivisorsUnary(r)
    case Ternary(c, t, f) => DivisorsUnary(c) && DivisorsUnary(t) && DivisorsUnary(f)
  }

  lemma {:induction false} LoweringKeepsLevels(e: Expr, statement: bool)
    requires Respects(e) && NoComparingEquals(e, statement)
    ensures WellFormed(Lower(e, statement)) && Level(Lower(e, statement)) == Level(e)
    ensures Respects(Lower(e, statement)) <==> DivisorsUnary(e)
  {
    LoweredTextPrintsLowered(e, statement);
    match e
    case Leaf(_) =>
    case Paren(x) => LoweringKeepsLevels(x, false);
    case Prefix(_, x) => LoweringKeepsLevels(x, false);
    case Postfix(x, _) => LoweringKeepsLevels(x, false);
    case Binary(t, l, r) =>
      LoweringKeepsLevels(l, false);
      LoweringKeepsLevels(r, false);
      BinaryKeepsLevels(t, l, r, statement);
    case Ternary(c, t, f) =>
      LoweringKeepsLevels(c, false);
      LoweringKeepsLevels(t, false);
      LoweringKeepsLevels(f, false);
      assert Lower(e, statement) == Ternary(Lower(c, false), Lower(t, false), Lower(f, false));
  }

  lemma BinaryKeepsLevels(t: Token, l: Expr, r: Expr, statement: bool)
    requires Respects(Binary(t, l, r)) && (t == Equals ==> statement)
    requires var l' := Lower(l, false);
      WellFormed(l') && Level(l') == Level(l) && (Respects(l') <==> DivisorsUnary(l))
    requires var r' := Lower(r, false);
      WellFormed(r') && Level(r') == Level(r) && (Respects(r') <==> DivisorsUnary(r))
    ensures var e' := Lower(Binary(t, l, r), statement);
      WellFormed(e') && Level(e') == Level(Binary(t, l, r)) && (Respects(e') <==> DivisorsUnary(Binary(t, l, r)))
  {
    hide Print, LoweredText, Regroup, Loosest, Respects, LowerOperator, BinaryLevel;
    assert IsBinary(t) by { BinaryRespects(t, l, r); }
    LoweredOperatorLevel(t, statement);
    var l', r' := Lower(l, false), Lower(r, false);
    BinaryRespects(t, l, r);
    if t == Slash {
      PrefixRespects(DoubleCast, r');
      BinaryRespects(t, l', Prefix(DoubleCast, r'));
    } else {
      BinaryRespects(LowerOperator(t, statement), l', r');
    }
  }

  /** Where no = compares, the cast reaches the whole of every divisor, and the text means
      the tree with its divisors cast, exactly when every divisor is unary or tighter. */
  lemma CastMeansTree(e: Expr, statement: bool)
    requires Respects(e) && NoComparingEquals(e, statement)
    ensures Regroup(LoweredText(e, statement)) == Some(Lower(e, statement)) <==> DivisorsUnary(e)
  {
    LoweringKeepsLevels(e, statement);
    LoweredTextPrintsLowered(e, statement);
    FlatPrintingLosesNothing(Lower(e, statement));
  }

  /** The printer's claim that a divisor is never looser: a / b .* c is the exception. */
  lemma CastMissesMemberPointer()
    ensures var e := Binary(Slash, Leaf("a"), Binary(DotStar, Leaf("b"), Leaf("c")));
      Respects(e)
      && Regroup(LoweredText(e, false))
         == Some(Binary(Slash, Leaf("a"), Binary(DotStar, Prefix(DoubleCast, Leaf("b")), Leaf("c"))))
  {
    var b, c := Leaf("b"), Leaf("c");
    var e := Binary(Slash, Leaf("a"), Binary(DotStar, b, c));
    var grouped := Binary(Slash, Leaf("a"), Binary(DotStar, Prefix(DoubleCast, b), c));
    assert LoweredText(e.right, false) == [Operand("b"), DotStar, Operand("c")];
    assert LoweredText(e, false) == [Operand("a"), Slash, DoubleCast, Operand("b"), DotStar, Operand("c")];
    assert Print(grouped.right) == [DoubleCast, Operand("b"), DotStar, Operand("c")] by {
      assert Print(grouped.right.left) == [DoubleCast, Operand("b")];
    }
    assert Print(grouped) == LoweredText(e, false);
    FlatPrintingLosesNothing(grouped);
  }

  // ---- GML equals ----

  /** The loosest operator of the tree outside parentheses. */
  function Loosest(e: Expr): int
    requires WellFormed(e)
  {
    match e
    case Leaf(_) | Paren(_) => 0
    case Prefix(_, x) => Loosest(x)
    case Postfix(x, _) => Loosest(x)
    case Binary(t, l, r) => Max(BinaryLevel(t).value, Max(Loosest(l), Loosest(r)))
    case Ternary(c, t, f) => Max(TERNARY, Max(Loosest(c), Loosest(f)))
  }

  function Max(a: int, b: int): int {
    if a < b then b else a
  }

  /** The loosest operator of a text outside brackets; a ternary's ? opens one that its :
      closes. */
  function LoosestIn(ts: seq<Token>, after: bool, depth: nat): int {
    if ts == [] then 0
    else
      var rest := ts[1..];
      if !after then
        if ts[0].Operand? then LoosestIn(rest, true, depth)
        else LoosestIn(rest, false, if ts[0] == OpenParen then depth + 1 else depth)
      else if IsBinary(ts[0]) then
        var more := LoosestIn(rest, false, depth);
        if depth == 0 then Max(BinaryLevel(ts[0]).value, more) else more
      else if IsPostfix(ts[0]) then LoosestIn(rest, true, depth)
      else if ts[0] == Question then
        var more := LoosestIn(rest, false, depth + 1);
        if depth == 0 then Max(TERNARY, more) else more
      else
        LoosestIn(rest, ts[0] == CloseParen, if depth > 0 then depth - 1 else 0)
  }

  // One token of the scan, by kind.

  lemma ScanOperand(t: Token, ts: seq<Token>, depth: nat)
    ensures t.Operand? ==> LoosestIn([t] + ts, false, depth) == LoosestIn(ts, true, depth)
    ensures IsPrefix(t) ==> LoosestIn([t] + ts, false, depth) == LoosestIn(ts, false, depth)
    ensures t == OpenParen ==> LoosestIn([t] + ts, false, depth) == LoosestIn(ts, false, depth + 1)
  {
    assert ([t] + ts)[1..] == ts;
  }

  lemma ScanOperator(t: Token, ts: seq<Token>, depth: nat)
    ensures IsPostfix(t) ==> LoosestIn([t] + ts, true, depth) == LoosestIn(ts, true, depth)
    ensures IsBinary(t) ==>
      LoosestIn([t] + ts, true, depth)
      == if depth == 0 then Max(BinaryLevel(t).value, LoosestIn(ts, false, depth)) else LoosestIn(ts, false, depth)
  {
    assert ([t] + ts)[1..] == ts;
  }

  lemma ScanQuestion(ts: seq<Token>, depth: nat)
    ensures LoosestIn([Question] + ts, true, depth)
      == if depth == 0 then Max(TERNARY, LoosestIn(ts, false, 1)) else LoosestIn(ts, false, depth + 1)
  {
    assert ([Question] + ts)[1..] == ts;
  }

  lemma ScanColon(ts: seq<Token>, depth: nat)
    ensures LoosestIn([Colon] + ts, true, depth + 1) == LoosestIn(ts, false, depth)
  {
    assert ([Colon] + ts)[1..] == ts;
  }

  lemma ScanCloseParen(ts: seq<Token>, depth: nat)
    ensures LoosestIn([CloseParen] + ts, true, depth + 1) == LoosestIn(ts, true, depth)
  {
    assert ([CloseParen] + ts)[1..] == ts;
  }

  lemma {:induction false} LoosestOfPrint(e: Expr, rest: seq<Token>, depth: nat)
    requires WellFormed(e)
    ensures LoosestIn(Print(e) + rest, false, depth)
      == if depth == 0 then Max(Loosest(e), LoosestIn(rest, true, 0)) else LoosestIn(rest, true, depth)
    decreases e
  {
    hide LoosestIn, Print;
    TextBefore(e, rest);
    match e
    case Leaf(s) =>
      ScanOperand(Operand(s), rest, depth);
      LoosestNonNegative(rest, true, depth);
    case Paren(x) =>
      ScanOperand(OpenParen, Print(x) + ([CloseParen] + rest), depth);
      LoosestOfPrint(x, [CloseParen] + rest, depth + 1);
      ScanCloseParen(rest, depth);
      LoosestNonNegative(rest, true, depth);
    case Prefix(t, x) =>
      ScanOperand(t, Print(x) + rest, depth);
      LoosestOfPrint(x, rest, depth);
    case Postfix(x, t) =>
      LoosestOfPrint(x, [t] + rest, depth);
      ScanOperator(t, rest, depth);
    case Binary(t, l, r) =>
      LoosestOfPrint(l, [t] + (Print(r) + rest), depth);
      ScanOperator(t, Print(r) + rest, depth);
      LoosestOfPrint(r, rest, depth);
    case Ternary(c, t, f) => LoosestOfTernary(c, t, f, rest, depth);
  }

  lemma {:induction false} LoosestOfTernary(c: Expr, t: Expr, f: Expr, rest: seq<Token>, depth: nat)
    requires WellFormed(c) && WellFormed(t) && WellFormed(f)
    ensures var e := Ternary(c, t, f);
      LoosestIn(Print(e) + rest, false, depth)
      == if depth == 0 then Max(Loosest(e), LoosestIn(rest, true, 0)) else LoosestIn(rest, true, depth)
    decreases Ternary(c, t, f), 0
  {
    hide LoosestIn;
    var branches := [Question] + (Print(t) + ([Colon] + (Print(f) + rest)));
    TernaryText(c, t, f, rest);
    LoosestOfPrint(c, branches, depth);
    LoosestOfBranches(c, t, f, rest, depth);
  }

  lemma {:induction false} LoosestOfBranches(c: Expr, t: Expr, f: Expr, rest: seq<Token>, depth: nat)
    requires WellFormed(t) && WellFormed(f)
    ensures LoosestIn([Question] + (Print(t) + ([Colon] + (Print(f) + rest))), true, depth)
      == if depth == 0 then Max(TERNARY, Max(Loosest(f), LoosestIn(rest, true, 0))) else LoosestIn(rest, true, depth)
    decreases Ternary(c, t, f), 0, 0
  {
    hide LoosestIn;
    var els := Print(f) + rest;
    LoosestOfPrint(f, rest, depth);
    ScanColon(els, depth);
    LoosestOfPrint(t, [Colon] + els, depth + 1);
    ScanQuestion(Print(t) + ([Colon] + els), depth);
  }

  lemma {:induction false} LoosestNonNegative(ts: seq<Token>, after: bool, depth: nat)
    ensures LoosestIn(ts, after, depth) >= 0
    decreases |ts|
  {
    if ts != [] {
      LoosestNonNegative(ts[1..], true, depth);
      LoosestNonNegative(ts[1..], false, depth);
      LoosestNonNegative(ts[1..], false, depth + 1);
      if depth > 0 {
        LoosestNonNegative(ts[1..], true, depth - 1);
        LoosestNonNegative(ts[1..], false, depth - 1);
      }
    }
  }

  /** Regrouping moves operators around but keeps them outside or inside parentheses. */
  lemma RegroupKeepsLoosest(e: Expr)
    requires WellFormed(e)
    ensures Regroup(Print(e)).Some? && Respects(Regroup(Print(e)).value)
    ensures Loosest(Regroup(Print(e)).value) == Loosest(e)
  {
    AnyTreeRegroups(e);
    var g := Regroup(Print(e)).value;
    LoosestOfPrint(e, [], 0);
    LoosestOfPrint(g, [], 0);
    LoosestBounds(e);
    LoosestBounds(g);
    assert Print(e) + [] == Print(e) && Print(g) + [] == Print(g);
  }

  lemma {:induction false} LoosestBounds(e: Expr)
    requires WellFormed(e)
    ensures Loosest(e) >= 0
    ensures Level(e) <= Max(PREFIX, Loosest(e))
    ensures Respects(e) ==> Loosest(e) <= Max(PREFIX, Level(e))
  {
    match e
    case Leaf(_) | Paren(_) =>
    case Prefix(_, x) => LoosestBounds(x);
    case Postfix(x, _) => LoosestBounds(x);
    case Binary(_, l, r) =>
      LoosestBounds(l);
      LoosestBounds(r);
    case Ternary(c, _, f) =>
      LoosestBounds(c);
      LoosestBounds(f);
  }

  /** Turning = into == makes nothing looser. */
  lemma {:induction false} LoweringTightens(e: Expr, statement: bool)
    requires WellFormed(e)
    ensures WellFormed(Lower(e, statement)) && Loosest(Lower(e, statement)) <= Loosest(e)
  {
    hide Print, LoweredText;
    LoweredTextPrintsLowered(e, statement);
    match e
    case Leaf(_) | Paren(_) =>
    case Prefix(_, x) => LoweringTightens(x, false);
    case Postfix(x, _) => LoweringTightens(x, false);
    case Binary(t, l, r) =>
      LoweringTightens(l, false);
      LoweringTightens(r, false);
      BinaryTightens(t, l, r, statement);
    case Ternary(c, t, f) =>
      LoweringTightens(c, false);
      LoweringTightens(t, false);
      LoweringTightens(f, false);
  }

  lemma LoweredOperatorLevel(t: Token, statement: bool)
    requires IsBinary(t)
    ensures IsBinary(LowerOperator(t, statement))
    ensures BinaryLevel(LowerOperator(t, statement)).value <= BinaryLevel(t).value
    ensures (t == Equals ==> statement) ==> BinaryLevel(LowerOperator(t, statement)) == BinaryLevel(t)
    ensures t == Slash ==> LowerOperator(t, statement) == Slash && BinaryLevel(t) == Some(MULTIPLY)
  {
  }

  lemma BinaryTightens(t: Token, l: Expr, r: Expr, statement: bool)
    requires WellFormed(Binary(t, l, r)) && WellFormed(Lower(l, false)) && WellFormed(Lower(r, false))
    requires Loosest(Lower(l, false)) <= Loosest(l) && Loosest(Lower(r, false)) <= Loosest(r)
    ensures var e := Lower(Binary(t, l, r), statement);
      WellFormed(e) && Loosest(e) <= Loosest(Binary(t, l, r))
  {
    hide Print, LoweredText, LowerOperator, BinaryLevel;
    LoweredOperatorLevel(t, statement);
    var right := Lower(r, false);
    if t == Slash { assert Loosest(Prefix(DoubleCast, right)) == Loosest(right); }
  }

  lemma LoweredRegroups(e: Expr, statement: bool)
    requires WellFormed(e)
    ensures Regroup(LoweredText(e, statement)).Some?
    ensures var g := Regroup(LoweredText(e, statement)).value;
      Respects(g) && Print(g) == LoweredText(e, statement) && Loosest(g) <= Loosest(e)
  {
    LoweredTextPrintsLowered(e, statement);
    LoweringTightens(e, statement);
    AnyTreeRegroups(Lower(e, statement));
    RegroupKeepsLoosest(Lower(e, statement));
  }

  predicate IsAssignment(t: Token) {
    t == Assign || t == Equals || t.AssignOp?
  }

  /** When the root is an assignment, an = at statement position or another operator, every
      = below is printed as == and the text is regrouped, that assignment is still the root:
      its target is what the target's text groups to, its value what all the text after it
      groups to. */
  lemma AssignmentStaysRoot(op: Token, target: Expr, value: Expr, statement: bool)
    requires IsAssignment(op) && (op == Equals ==> statement) && Respects(Binary(op, target, value))
    ensures Regroup(LoweredText(target, false)).Some? && Regroup(LoweredText(value, false)).Some?
    ensures LoweredText(Binary(op, target, value), statement)
         == LoweredText(target, false) + [LowerOperator(op, statement)] + LoweredText(value, false)
    ensures Regroup(LoweredText(Binary(op, target, value), statement))
         == Some(Binary(LowerOperator(op, statement),
                        Regroup(LoweredText(target, false)).value, Regroup(LoweredText(value, false)).value))
  {
    hide Regroup, Loosest, WellFormed, Level, RightLevel, BinaryLevel;
    LoweredRegroups(target, false);
    LoweredRegroups(value, false);
    var t := Regroup(LoweredText(target, false)).value;
    var v := Regroup(LoweredText(value, false)).value;
    var printed := LowerOperator(op, statement);
    LevelStays(target, t);
    LevelStays(value, v);
    AssignmentRespects(op, target, value, printed, t, v);
    FlatPrintingLosesNothing(Binary(printed, t, v));
    assert LoweredText(target, false) + [printed] + [] == LoweredText(target, false) + [printed];
  }

  lemma LevelStays(e: Expr, g: Expr)
    requires Respects(e) && Respects(g) && Loosest(g) <= Loosest(e)
    ensures Level(g) <= Max(PREFIX, Level(e))
  {
    hide Level, Loosest;
    LoosestBounds(e);
    LoosestBounds(g);
  }

  lemma AssignmentRespects(op: Token, target: Expr, value: Expr, printed: Token, t: Expr, v: Expr)
    requires IsAssignment(op) && IsAssignment(printed)
    requires Respects(Binary(op, target, value)) && Respects(t) && Respects(v)
    requires WellFormed(target) && WellFormed(value)
    requires Level(t) <= Max(PREFIX, Level(target)) && Level(v) <= Max(PREFIX, Level(value))
    ensures Respects(Binary(printed, t, v))
  {
    hide Loosest, Respects, Level, WellFormed, BinaryLevel, IsAssignment;
    AssignmentLevel(op);
    AssignmentLevel(printed);
    BinaryRespects(op, target, value);
    BinaryRespects(printed, t, v);
  }

  lemma AssignmentLevel(op: Token)
    requires IsAssignment(op)
    ensures IsBinary(op) && BinaryLevel(op) == Some(ASSIGN)
  {
  }

  /** The target is the very same tree when nothing in it is changed. */
  lemma UnchangedTargetStays(target: Expr)
    requires Respects(target) && LoweredText(target, false) == Print(target)
    ensures Regroup(LoweredText(target, false)) == Some(target)
  {
    FlatPrintingLosesNothing(target);
  }
}
