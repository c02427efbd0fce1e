// The expression grammar of section 8 of ISO/IEC 14882:2017, one predicate for each
// production, and the precedence table: the trees that respect the table are its trees.
module ExpressionGrammar {
  import opened Options
  import opened Expressions

  // ---- the productions, by their tokens ----

  /** (8.1) a name, a literal or an expression in parentheses. */
  predicate PrimaryExpression(e: Expr)
    decreases e, 1
  {
    e.Leaf? || (e.Paren? && Expression(e.inner))
  }

  /** (8.2) */
  predicate PostfixExpression(e: Expr)
    decreases e, 2
  {
    PrimaryExpression(e)
    || (e.Postfix? && (e.post == Increment || e.post == Decrement) && PostfixExpression(e.operand))
  }

  /** (8.3) with EDL's `not` beside !. */
  predicate UnaryExpression(e: Expr)
    decreases e, 3
  {
    PostfixExpression(e)
    || (e.Prefix? && (e.pre == Increment || e.pre == Decrement) && CastExpression(e.operand))
    || (e.Prefix? && e.pre in {Star, Ampersand, Plus, Minus, Bang, Not, Tilde} && CastExpression(e.operand))
  }

  /** (8.4) */
  predicate CastExpression(e: Expr)
    decreases e, 4
  {
    UnaryExpression(e) || (e.Prefix? && e.pre == DoubleCast && CastExpression(e.operand))
  }

  /** (8.5) */
  predicate PmExpression(e: Expr)
    decreases e, 5
  {
    CastExpression(e)
    || (e.Binary? && (e.op == DotStar || e.op == ArrowStar) && PmExpression(e.left) && CastExpression(e.right))
  }

  /** (8.6) with EDL's div and mod beside / and %. */
  predicate MultiplicativeExpression(e: Expr)
    decreases e, 6
  {
    PmExpression(e)
    || (e.Binary? && e.op in {Star, Slash, Percent, Div, Mod}
        && MultiplicativeExpression(e.left) && PmExpression(e.right))
  }

  /** (8.7) */
  predicate AdditiveExpression(e: Expr)
    decreases e, 7
  {
    MultiplicativeExpression(e)
    || (e.Binary? && (e.op == Plus || e.op == Minus)
        && AdditiveExpression(e.left) && MultiplicativeExpression(e.right))
  }

  /** (8.8) */
  predicate ShiftExpression(e: Expr)
    decreases e, 8
  {
    AdditiveExpression(e)
    || (e.Binary? && (e.op == LeftShift || e.op == RightShift)
        && ShiftExpression(e.left) && AdditiveExpression(e.right))
  }

  /** Where a later edition of the standard puts <=>. */
  predicate CompareExpression(e: Expr)
    decreases e, 9
  {
    ShiftExpression(e)
    || (e.Binary? && e.op == ThreeWay && CompareExpression(e.left) && ShiftExpression(e.right))
  }

  /** (8.9) */
  predicate RelationalExpression(e: Expr)
    decreases e, 10
  {
    CompareExpression(e)
    || (e.Binary? && e.op in {Less, Greater, LessEqual, GreaterEqual}
        && RelationalExpression(e.left) && CompareExpression(e.right))
  }

  /** (8.10) */
  predicate EqualityExpression(e: Expr)
    decreases e, 11
  {
    RelationalExpression(e)
    || (e.Binary? && (e.op == EqualTo || e.op == NotEqual)
        && EqualityExpression(e.left) && RelationalExpression(e.right))
  }

  /** (8.11) */
  predicate AndExpression(e: Expr)
    decreases e, 12
  {
    EqualityExpression(e)
    || (e.Binary? && e.op == Ampersand && AndExpression(e.left) && EqualityExpression(e.right))
  }

  /** (8.12) */
  predicate ExclusiveOrExpression(e: Expr)
    decreases e, 13
  {
    AndExpression(e)
    || (e.Binary? && e.op == Caret && ExclusiveOrExpression(e.left) && AndExpression(e.right))
  }

  /** (8.13) */
  predicate InclusiveOrExpression(e: Expr)
    decreases e, 14
  {
    ExclusiveOrExpression(e)
    || (e.Binary? && e.op == Pipe && InclusiveOrExpression(e.left) && ExclusiveOrExpression(e.right))
  }

  /** (8.14) */
  predicate LogicalAndExpression(e: Expr)
    decreases e, 15
  {
    InclusiveOrExpression(e)
    || (e.Binary? && e.op == And && LogicalAndExpression(e.left) && InclusiveOrExpression(e.right))
  }

  /** (8.15) */
  predicate LogicalOrExpression(e: Expr)
    decreases e, 16
  {
    LogicalAndExpression(e)
    || (e.Binary? && e.op == Or && LogicalOrExpression(e.left) && LogicalAndExpression(e.right))
  }

  /** (8.16) */
  predicate ConditionalExpression(e: Expr)
    decreases e, 17
  {
    LogicalOrExpression(e)
    || (e.Ternary? && LogicalOrExpression(e.cond) && Expression(e.thn) && AssignmentExpression(e.els))
  }

  /** (8.18) with EDL's := beside =. */
  predicate AssignmentExpression(e: Expr)
    decreases e, 18
  {
    ConditionalExpression(e)
    || (e.Binary? && (e.op == Equals || e.op == Assign || e.op.AssignOp?)
        && LogicalOrExpression(e.left) && AssignmentExpression(e.right))
  }

  /** (8.19) */
  predicate Expression(e: Expr)
    decreases e, 19
  {
    AssignmentExpression(e)
    || (e.Binary? && e.op == Comma && Expression(e.left) && AssignmentExpression(e.right))
  }

  // ---- the table ----

  /** The tree respects the table and its root is at this level or a tighter one. */
  predicate Within(e: Expr, level: int) {
    Respects(e) && Level(e) <= level
  }

  /** Each production holds the trees up to its operators' level. */
  ghost predicate TableFits(e: Expr) {
    && (PrimaryExpression(e) <==> Within(e, 0))
    && (PostfixExpression(e) <==> Within(e, POSTFIX))
    && (CastExpression(e) <==> Within(e, PREFIX))
    && (PmExpression(e) <==> Within(e, MEMBER_POINTER))
    && (MultiplicativeExpression(e) <==> Within(e, MULTIPLY))
    && (AdditiveExpression(e) <==> Within(e, ADD))
    && (ShiftExpression(e) <==> Within(e, SHIFT))
    && (CompareExpression(e) <==> Within(e, THREE_WAY))
    && (RelationalExpression(e) <==> Within(e, RELATIONAL))
    && (EqualityExpression(e) <==> Within(e, EQUALITY))
    && (AndExpression(e) <==> Within(e, BIT_AND))
    && (ExclusiveOrExpression(e) <==> Within(e, BIT_XOR))
    && (InclusiveOrExpression(e) <==> Within(e, BIT_OR))
    && (LogicalAndExpression(e) <==> Within(e, BOOL_AND))
    && (LogicalOrExpression(e) <==> Within(e, BOOL_OR))
    && (AssignmentExpression(e) <==> Within(e, ASSIGN))
    && (Expression(e) <==> Within(e, COMMA))
  }

  ghost predicate PartsFit(e: Expr) {
    match e
    case Leaf(_) => true
    case Paren(x) => TableFits(x)
    case Prefix(_, x) => TableFits(x)
    case Postfix(x, _) => TableFits(x)
    case Binary(_, l, r) => TableFits(l) && TableFits(r)
    case Ternary(c, t, f) => TableFits(c) && TableFits(t) && TableFits(f)
  }

  lemma RespectsIs(e: Expr)
    ensures e.Leaf? ==> Respects(e)
    ensures e.Paren? ==> (Respects(e) <==> Within(e.inner, COMMA))
    ensures e.Prefix? ==> (Respects(e) <==> IsPrefix(e.pre) && Within(e.operand, PREFIX))
    ensures e.Postfix? ==> (Respects(e) <==> IsPostfix(e.post) && Within(e.operand, POSTFIX))
    ensures e.Ternary? ==> (Respects(e) <==> Within(e.cond, BOOL_OR) && Within(e.thn, COMMA) && Within(e.els, TERNARY))
    ensures e.Binary? ==>
      (Respects(e) <==>
        && IsBinary(e.op)
        && var level := BinaryLevel(e.op).value;
           Within(e.left, if RightToLeft(level) then level - 1 else level) && Within(e.right, RightLevel(level)))
  {
    if e.Binary? { BinaryRespects(e.op, e.left, e.right); }
  }

  lemma UnaryFits(e: Expr)
    requires PartsFit(e)
    ensures PrimaryExpression(e) <==> Within(e, 0)
    ensures PostfixExpression(e) <==> Within(e, POSTFIX)
    ensures CastExpression(e) <==> Within(e, PREFIX)
  {
    hide Respects;
    RespectsIs(e);
    assert PrimaryExpression(e) <==> Within(e, 0);
    assert PostfixExpression(e) <==> Within(e, POSTFIX);
    if e.Prefix? {
      assert UnaryExpression(e) <==> e.pre != DoubleCast && Respects(e);
    }
  }

  lemma ArithmeticFits(e: Expr)
    requires PartsFit(e) && (CastExpression(e) <==> Within(e, PREFIX))
    ensures PmExpression(e) <==> Within(e, MEMBER_POINTER)
    ensures MultiplicativeExpression(e) <==> Within(e, MULTIPLY)
    ensures AdditiveExpression(e) <==> Within(e, ADD)
    ensures ShiftExpression(e) <==> Within(e, SHIFT)
  {
    hide Respects, CastExpression;
    RespectsIs(e);
    assert PmExpression(e) <==> Within(e, MEMBER_POINTER);
    assert MultiplicativeExpression(e) <==> Within(e, MULTIPLY);
    assert AdditiveExpression(e) <==> Within(e, ADD);
  }

  lemma ComparingFits(e: Expr)
    requires PartsFit(e) && (ShiftExpression(e) <==> Within(e, SHIFT))
    ensures CompareExpression(e) <==> Within(e, THREE_WAY)
    ensures RelationalExpression(e) <==> Within(e, RELATIONAL)
    ensures EqualityExpression(e) <==> Within(e, EQUALITY)
  {
    hide Respects, ShiftExpression;
    RespectsIs(e);
    assert CompareExpression(e) <==> Within(e, THREE_WAY);
    assert RelationalExpression(e) <==> Within(e, RELATIONAL);
  }

  lemma BitwiseFits(e: Expr)
    requires PartsFit(e) && (EqualityExpression(e) <==> Within(e, EQUALITY))
    ensures AndExpression(e) <==> Within(e, BIT_AND)
    ensures ExclusiveOrExpression(e) <==> Within(e, BIT_XOR)
    ensures InclusiveOrExpression(e) <==> Within(e, BIT_OR)
  {
    hide Respects, EqualityExpression;
    RespectsIs(e);
    assert AndExpression(e) <==> Within(e, BIT_AND);
    assert ExclusiveOrExpression(e) <==> Within(e, BIT_XOR);
  }

  lemma LogicalFits(e: Expr)
    requires PartsFit(e) && (InclusiveOrExpression(e) <==> Within(e, BIT_OR))
    ensures LogicalAndExpression(e) <==> Within(e, BOOL_AND)
    ensures LogicalOrExpression(e) <==> Within(e, BOOL_OR)
  {
    hide Respects, InclusiveOrExpression;
    RespectsIs(e);
    assert LogicalAndExpression(e) <==> Within(e, BOOL_AND);
  }

  lemma LoosestFits(e: Expr)
    requires PartsFit(e) && (LogicalOrExpression(e) <==> Within(e, BOOL_OR))
    ensures AssignmentExpression(e) <==> Within(e, ASSIGN)
    ensures Expression(e) <==> Within(e, COMMA)
  {
    hide Respects, LogicalOrExpression;
    RespectsIs(e);
    assert ConditionalExpression(e) <==> Within(e, BOOL_OR) || (e.Ternary? && Respects(e));
    assert AssignmentExpression(e) <==> Within(e, ASSIGN);
  }

  lemma {:induction false} Fits(e: Expr)
    ensures TableFits(e)
  {
    assert PartsFit(e) by {
      hide TableFits;
      match e
      case Leaf(_) =>
      case Paren(x) => Fits(x);
      case Prefix(_, x) => Fits(x);
      case Postfix(x, _) => Fits(x);
      case Binary(_, l, r) =>
        Fits(l);
        Fits(r);
      case Ternary(c, t, f) =>
        Fits(c);
        Fits(t);
        Fits(f);
    }
    hide Within, PartsFit;
    UnaryFits(e);
    ArithmeticFits(e);
    ComparingFits(e);
    BitwiseFits(e);
    LogicalFits(e);
    LoosestFits(e);
  }

  /** The trees that respect the table are those the standard's grammar derives. */
  lemma TableIsGrammar(e: Expr)
    ensures Respects(e) <==> Expression(e)
  {
    Fits(e);
  }

  /** Flat text groups to a tree of the standard's grammar, the only one with that text. */
  lemma RegroupedIsDerived(ts: seq<Token>)
    ensures Regroup(ts).Some? ==> Expression(Regroup(ts).value) && Print(Regroup(ts).value) == ts
    ensures forall e: Expr :: Expression(e) && Print(e) == ts ==> Regroup(ts) == Some(e)
  {
    ExactlyOneTree(ts);
    if Regroup(ts).Some? { TableIsGrammar(Regroup(ts).value); }
    forall e: Expr | Expression(e) && Print(e) == ts ensures Regroup(ts) == Some(e) {
      TableIsGrammar(e);
    }
  }
}
