// EDL expressions: trees, the precedence tables, flat printing, and the grouping a
// precedence-climbing parser gives flat text.
module Expressions {
  import opened Options
  import opened Sequences

  /** Expression tokens. Operand stands for a name, literal, call, subscript or member
      chain: text whose extent does not depend on the operators around it. */
  datatype Token =
    | DotStar | ArrowStar
    | Star | Slash | Div | Mod | Percent | Plus | Minus | LeftShift | RightShift
    | ThreeWay | Less | LessEqual | Greater | GreaterEqual | EqualTo | NotEqual
    | Ampersand | Caret | Pipe | And | Or
    | Assign | Equals | AssignOp(spelling: string) | Comma
    | Question | Colon | OpenParen | CloseParen
    | Tilde | Not | Bang | Increment | Decrement | DoubleCast
    | Operand(text: string)
    | Word(word: Keyword)

  /** What ends an expression and is no part of any. */
  datatype Keyword =
    | IfWord | ElseWord | WhileWord | DoWord | BreakWord | ContinueWord | IntWord
    | OpenBrace | CloseBrace | EndMark

  datatype Expr =
    | Leaf(text: string)
    | Paren(inner: Expr)
    | Prefix(pre: Token, operand: Expr)
    | Postfix(operand: Expr, post: Token)
    | Binary(op: Token, left: Expr, right: Expr)
    | Ternary(cond: Expr, thn: Expr, els: Expr)

  // ---- precedence.h and precedence.cpp: smaller levels bind tighter ----

  const POSTFIX := 2
  const PREFIX := 3
  const MEMBER_POINTER := 4
  const MULTIPLY := 5
  const ADD := 6
  const SHIFT := 7
  const THREE_WAY := 8
  const RELATIONAL := 9
  const EQUALITY := 10
  const BIT_AND := 11
  const BIT_XOR := 12
  const BIT_OR := 13
  const BOOL_AND := 14
  const BOOL_OR := 16
  const TERNARY := 17
  const ASSIGN := 17
  const COMMA := 18

  function BinaryLevel(t: Token): Option<int> {
    match t
    case DotStar | ArrowStar => Some(MEMBER_POINTER)
    case Star | Slash | Div | Mod | Percent => Some(MULTIPLY)
    case Plus | Minus => Some(ADD)
    case LeftShift | RightShift => Some(SHIFT)
    case ThreeWay => Some(THREE_WAY)
    case Less | LessEqual | Greater | GreaterEqual => Some(RELATIONAL)
    case EqualTo | NotEqual => Some(EQUALITY)
    case Ampersand => Some(BIT_AND)
    case Caret => Some(BIT_XOR)
    case Pipe => Some(BIT_OR)
    case And => Some(BOOL_AND)
    case Or => Some(BOOL_OR)
    case Assign | Equals | AssignOp(_) => Some(ASSIGN)
    case Comma => Some(COMMA)
    case _ => None
  }

  predicate IsBinary(t: Token) {
    BinaryLevel(t).Some?
  }

  predicate IsPrefix(t: Token) {
    t.Plus? || t.Minus? || t.Star? || t.Ampersand? || t.Tilde? || t.Not? || t.Bang?
    || t.Increment? || t.Decrement? || t.DoubleCast?
  }

  predicate IsPostfix(t: Token) {
    t.Increment? || t.Decrement?
  }

  /** Only assignments (and the ternary) group right to left. */
  predicate RightToLeft(level: int) {
    level == PREFIX || level == ASSIGN
  }

  /** The loosest level an operand on the right of an operator of this level may have. */
  function RightLevel(level: int): int {
    if RightToLeft(level) then level else level - 1
  }

  // ---- trees ----

  /** Every operator node holds a token of its kind. */
  predicate WellFormed(e: Expr) {
    match e
    case Leaf(_) => true
    case Paren(x) => WellFormed(x)
    case Prefix(t, x) => IsPrefix(t) && WellFormed(x)
    case Postfix(x, t) => IsPostfix(t) && WellFormed(x)
    case Binary(t, l, r) => IsBinary(t) && WellFormed(l) && WellFormed(r)
    case Ternary(c, t, f) => WellFormed(c) && WellFormed(t) && WellFormed(f)
  }

  function Level(e: Expr): int
    requires WellFormed(e)
  {
    match e
    case Leaf(_) | Paren(_) => 0
    case Prefix(_, _) => PREFIX
    case Postfix(_, _) => POSTFIX
    case Binary(t, _, _) => BinaryLevel(t).value
    case Ternary(_, _, _) => TERNARY
  }

  /** The tree needs no parentheses beyond the ones it has: each operand binds tightly
      enough for its side of its operator. */
  predicate Respects(e: Expr): (r: bool)
    ensures r ==> WellFormed(e)
  {
    WellFormed(e) &&
    match e
    case Leaf(_) => true
    case Paren(x) => Respects(x)
    case Prefix(_, x) => Respects(x) && Level(x) <= PREFIX
    case Postfix(x, _) => Respects(x) && Level(x) <= POSTFIX
    case Binary(_, l, r) =>
      && Respects(l) && Respects(r)
      && Level(r) <= RightLevel(Level(e))
      && (if RightToLeft(Level(e)) then Level(l) < Level(e) else Level(l) <= Level(e))
    case Ternary(c, t, f) =>
      Respects(c) && Respects(t) && Respects(f) && Level(c) < TERNARY && Level(f) <= TERNARY
  }

  lemma BinaryRespects(t: Token, l: Expr, r: Expr)
    ensures Respects(Binary(t, l, r))
       <==> IsBinary(t) && Respects(l) && Respects(r)
            && var level := BinaryLevel(t).value;
               Level(r) <= RightLevel(level) && (if RightToLeft(level) then Level(l) < level else Level(l) <= level)
  {
    hide BinaryLevel, RightLevel, RightToLeft;
  }

  lemma PrefixRespects(t: Token, x: Expr)
    ensures Respects(Prefix(t, x)) <==> IsPrefix(t) && Respects(x) && Level(x) <= PREFIX
  {
  }

  /** Flat printing: no parentheses but the user's own. */
  function Print(e: Expr): seq<Token> {
    match e
    case Leaf(s) => [Operand(s)]
    case Paren(x) => [OpenParen] + Print(x) + [CloseParen]
    case Prefix(t, x) => [t] + Print(x)
    case Postfix(x, t) => Print(x) + [t]
    case Binary(t, l, r) => Print(l) + [t] + Print(r)
    case Ternary(c, t, f) => Print(c) + [Question] + Print(t) + [Colon] + Print(f)
  }

  // ---- grouping flat text ----

  type Parsed = Option<(Expr, seq<Token>)>

  /** The text goes on with an operator of at most this level. */
  predicate Binds(ts: seq<Token>, level: int) {
    ts != [] &&
    if IsBinary(ts[0]) then BinaryLevel(ts[0]).value <= level
    else if IsPostfix(ts[0]) then POSTFIX <= level
    else ts[0] == Question && TERNARY <= level
  }

  function ParseOperand(ts: seq<Token>): (r: Parsed)
    ensures r.Some? ==> |r.value.1| < |ts|
    decreases |ts|, 0
  {
    if ts == [] then None
    else if ts[0].Operand? then Some((Leaf(ts[0].text), ts[1..]))
    else if ts[0] == OpenParen then
      match ParseExpr(COMMA, ts[1..])
      case Some((x, rest)) =>
        if rest != [] && rest[0] == CloseParen then Some((Paren(x), rest[1..])) else None
      case None => None
    else if IsPrefix(ts[0]) then
      match ParseExpr(PREFIX, ts[1..])
      case Some((x, rest)) => Some((Prefix(ts[0], x), rest))
      case None => None
    else None
  }

  /** The longest expression of at most the given level at the start of the text. */
  function ParseExpr(level: int, ts: seq<Token>): (r: Parsed)
    ensures r.Some? ==> |r.value.1| < |ts|
    decreases |ts|, 2
  {
    match ParseOperand(ts)
    case Some((x, rest)) => Climb(level, x, rest)
    case None => None
  }

  function Climb(level: int, lhs: Expr, ts: seq<Token>): (r: Parsed)
    ensures r.Some? ==> |r.value.1| <= |ts|
    decreases |ts|, 1
  {
    if !Binds(ts, level) then Some((lhs, ts))
    else if IsBinary(ts[0]) then
      match ParseExpr(RightLevel(BinaryLevel(ts[0]).value), ts[1..])
      case Some((r, rest)) => Climb(level, Binary(ts[0], lhs, r), rest)
      case None => None
    else if IsPostfix(ts[0]) then Climb(level, Postfix(lhs, ts[0]), ts[1..])
    else
      match ParseExpr(COMMA, ts[1..])
      case None => None
      case Some((t, rest)) =>
        if rest == [] || rest[0] != Colon then None
        else
          match ParseExpr(TERNARY, rest[1..])
          case Some((f, rest')) => Climb(level, Ternary(lhs, t, f), rest')
          case None => None
  }

  /** The tree the whole text groups to. */
  function Regroup(ts: seq<Token>): Option<Expr> {
    match ParseExpr(COMMA, ts)
    case Some((e, rest)) => if rest == [] then Some(e) else None
    case None => None
  }

  // ---- what grouping yields ----

  /** Text after e up to this level would have been taken into e. */
  function Reach(e: Expr): int
    requires WellFormed(e)
  {
    RightLevel(Level(e))
  }

  ghost predicate Sound(level: int, ts: seq<Token>, r: Parsed) {
    r.Some? ==>
      var (e, rest) := r.value;
      Respects(e) && Level(e) <= level && Print(e) + rest == ts && !Binds(rest, level)
  }

  lemma {:induction false} OperandSound(ts: seq<Token>)
    ensures var r := ParseOperand(ts);
      r.Some? ==>
        var (e, rest) := r.value;
        Respects(e) && Level(e) <= PREFIX && Print(e) + rest == ts && !Binds(rest, Reach(e))
    decreases |ts|, 0
  {
    hide ParseExpr, Binds;
    if ParseOperand(ts).Some? && ts[0].Operand? {
      NothingBindsTighter(ts[1..]);
    } else if ParseOperand(ts).Some? {
      if ts[0] == OpenParen {
        ExprSound(COMMA, ts[1..]);
        var (x, rest) := ParseExpr(COMMA, ts[1..]).value;
        ParenSound(ts, x, rest);
      } else {
        ExprSound(PREFIX, ts[1..]);
        var (x, rest) := ParseExpr(PREFIX, ts[1..]).value;
        PrefixSound(ts, x, rest);
      }
    }
  }

  lemma NothingBindsTighter(ts: seq<Token>)
    ensures !Binds(ts, RightLevel(0))
  {
  }

  lemma ParenSound(ts: seq<Token>, x: Expr, rest: seq<Token>)
    requires ts != [] && ts[0] == OpenParen && Sound(COMMA, ts[1..], Some((x, rest)))
    requires rest != [] && rest[0] == CloseParen
    ensures Respects(Paren(x)) && Print(Paren(x)) + rest[1..] == ts && !Binds(rest[1..], Reach(Paren(x)))
  {
    NothingBindsTighter(rest[1..]);
    assert rest == [CloseParen] + rest[1..];
    assert Print(Paren(x)) + rest[1..] == [OpenParen] + (Print(x) + rest);
  }

  lemma PrefixSound(ts: seq<Token>, x: Expr, rest: seq<Token>)
    requires ts != [] && IsPrefix(ts[0]) && Sound(PREFIX, ts[1..], Some((x, rest)))
    ensures var e := Prefix(ts[0], x);
      Respects(e) && Print(e) + rest == ts && !Binds(rest, Reach(e))
  {
    hide Binds;
    assert Print(Prefix(ts[0], x)) + rest == [ts[0]] + (Print(x) + rest);
  }

  lemma {:induction false} ExprSound(level: int, ts: seq<Token>)
    requires level >= PREFIX
    ensures Sound(level, ts, ParseExpr(level, ts))
    decreases |ts|, 2
  {
    OperandSound(ts);
    if ParseOperand(ts).Some? {
      var (x, rest) := ParseOperand(ts).value;
      ClimbSound(level, x, rest);
    }
  }

  lemma {:induction false} ClimbSound(level: int, lhs: Expr, ts: seq<Token>)
    requires level >= PREFIX && Respects(lhs) && Level(lhs) <= level && !Binds(ts, Reach(lhs))
    ensures Sound(level, Print(lhs) + ts, Climb(level, lhs, ts))
    decreases |ts|, 1
  {
    if Binds(ts, level) && Climb(level, lhs, ts).Some? {
      if IsBinary(ts[0]) {
        var right := RightLevel(BinaryLevel(ts[0]).value);
        ExprSound(right, ts[1..]);
        var (r, rest) := ParseExpr(right, ts[1..]).value;
        BinarySound(level, lhs, ts, r, rest);
        ClimbSound(level, Binary(ts[0], lhs, r), rest);
      } else if IsPostfix(ts[0]) {
        PostfixSound(lhs, ts);
        ClimbSound(level, Postfix(lhs, ts[0]), ts[1..]);
      } else {
        ExprSound(COMMA, ts[1..]);
        var (t, rest) := ParseExpr(COMMA, ts[1..]).value;
        ExprSound(TERNARY, rest[1..]);
        var (f, rest') := ParseExpr(TERNARY, rest[1..]).value;
        TernarySound(lhs, ts, t, rest, f, rest');
        ClimbSound(level, Ternary(lhs, t, f), rest');
      }
    }
  }

  lemma BinarySound(level: int, lhs: Expr, ts: seq<Token>, r: Expr, rest: seq<Token>)
    requires Respects(lhs) && !Binds(ts, Reach(lhs)) && Binds(ts, level) && IsBinary(ts[0])
    requires Sound(RightLevel(BinaryLevel(ts[0]).value), ts[1..], Some((r, rest)))
    ensures var e := Binary(ts[0], lhs, r);
      Respects(e) && Level(e) <= level && !Binds(rest, Reach(e)) && Print(e) + rest == Print(lhs) + ts
  {
    hide Print, Respects, BinaryLevel;
    var e := Binary(ts[0], lhs, r);
    TextBefore(e, rest);
    assert [ts[0]] + ts[1..] == ts;
    BinaryRespects(ts[0], lhs, r);
  }

  lemma PostfixSound(lhs: Expr, ts: seq<Token>)
    requires Respects(lhs) && !Binds(ts, Reach(lhs)) && ts != [] && IsPostfix(ts[0])
    ensures var e := Postfix(lhs, ts[0]);
      Respects(e) && !Binds(ts[1..], Reach(e)) && Print(e) + ts[1..] == Print(lhs) + ts
  {
    assert Print(Postfix(lhs, ts[0])) + ts[1..] == Print(lhs) + ([ts[0]] + ts[1..]);
  }

  lemma TernarySound(lhs: Expr, ts: seq<Token>, t: Expr, rest: seq<Token>, f: Expr, rest': seq<Token>)
    requires Respects(lhs) && !Binds(ts, Reach(lhs)) && ts != [] && ts[0] == Question
    requires Sound(COMMA, ts[1..], Some((t, rest))) && rest != [] && rest[0] == Colon
    requires Sound(TERNARY, rest[1..], Some((f, rest')))
    ensures var e := Ternary(lhs, t, f);
      Respects(e) && !Binds(rest', Reach(e)) && Print(e) + rest' == Print(lhs) + ts
  {
    TernaryText(lhs, t, f, rest');
    assert [Colon] + (Print(f) + rest') == rest;
    assert [Question] + (Print(t) + rest) == ts;
  }

  /** What the text of a tree begins with, whatever follows it. */
  lemma TextBefore(e: Expr, rest: seq<Token>)
    ensures e.Leaf? ==> Print(e) + rest == [Operand(e.text)] + rest
    ensures e.Paren? ==> Print(e) + rest == [OpenParen] + (Print(e.inner) + ([CloseParen] + rest))
    ensures e.Prefix? ==> Print(e) + rest == [e.pre] + (Print(e.operand) + rest)
    ensures e.Postfix? ==> Print(e) + rest == Print(e.operand) + ([e.post] + rest)
    ensures e.Binary? ==> Print(e) + rest == Print(e.left) + ([e.op] + (Print(e.right) + rest))
  {
    match e
    case Leaf(_) =>
    case Paren(x) =>
      Assoc([OpenParen] + Print(x), [CloseParen], rest);
      Assoc([OpenParen], Print(x), [CloseParen] + rest);
    case Prefix(t, x) => Assoc([t], Print(x), rest);
    case Postfix(x, t) => Assoc(Print(x), [t], rest);
    case Binary(t, l, r) =>
      Assoc(Print(l) + [t], Print(r), rest);
      Assoc(Print(l), [t], Print(r) + rest);
    case Ternary(_, _, _) =>
  }

  lemma TernaryText(c: Expr, t: Expr, f: Expr, rest: seq<Token>)
    ensures Print(Ternary(c, t, f)) + rest
         == Print(c) + ([Question] + (Print(t) + ([Colon] + (Print(f) + rest))))
  {
    var els := Print(f) + rest;
    Assoc(Print(c) + [Question] + Print(t) + [Colon], Print(f), rest);
    Assoc(Print(c) + [Question] + Print(t), [Colon], els);
    Assoc(Print(c) + [Question], Print(t), [Colon] + els);
    Assoc(Print(c), [Question], Print(t) + ([Colon] + els));
  }

  // ---- a tree that respects the levels is found again ----

  lemma ClimbStops(level: int, e: Expr, rest: seq<Token>)
    requires !Binds(rest, level)
    ensures Climb(level, e, rest) == Some((e, rest))
  {
  }

  // One unfolding of the parser for each operator form.

  lemma BinaryStep(level: int, lhs: Expr, t: Token, ts: seq<Token>, r: Expr, rest: seq<Token>)
    requires IsBinary(t) && BinaryLevel(t).value <= level
    requires ParseExpr(RightLevel(BinaryLevel(t).value), ts) == Some((r, rest))
    ensures Climb(level, lhs, [t] + ts) == Climb(level, Binary(t, lhs, r), rest)
  {
    assert ([t] + ts)[1..] == ts;
  }

  lemma PostfixStep(level: int, lhs: Expr, t: Token, ts: seq<Token>)
    requires IsPostfix(t) && POSTFIX <= level
    ensures Climb(level, lhs, [t] + ts) == Climb(level, Postfix(lhs, t), ts)
  {
    assert ([t] + ts)[1..] == ts;
  }

  lemma TernaryStep(level: int, lhs: Expr, ts: seq<Token>, t: Expr, r1: seq<Token>, f: Expr, r2: seq<Token>)
    requires TERNARY <= level
    requires ParseExpr(COMMA, ts) == Some((t, [Colon] + r1))
    requires ParseExpr(TERNARY, r1) == Some((f, r2))
    ensures Climb(level, lhs, [Question] + ts) == Climb(level, Ternary(lhs, t, f), r2)
  {
    assert ([Question] + ts)[1..] == ts;
    assert ([Colon] + r1)[1..] == r1;
  }

  lemma ParenStep(ts: seq<Token>, x: Expr, rest: seq<Token>)
    requires ParseExpr(COMMA, ts) == Some((x, [CloseParen] + rest))
    ensures ParseOperand([OpenParen] + ts) == Some((Paren(x), rest))
  {
    assert ([OpenParen] + ts)[1..] == ts;
    assert ([CloseParen] + rest)[1..] == rest;
  }

  lemma PrefixStep(t: Token, ts: seq<Token>, x: Expr, rest: seq<Token>)
    requires IsPrefix(t) && ParseExpr(PREFIX, ts) == Some((x, rest))
    ensures ParseOperand([t] + ts) == Some((Prefix(t, x), rest))
  {
    assert ([t] + ts)[1..] == ts;
  }

  /** Parsing text that starts with a tree comes to that tree as the left operand of
      what follows. */
  lemma {:induction false} ParseReaches(level: int, e: Expr, rest: seq<Token>)
    requires level >= PREFIX && Respects(e) && Level(e) <= level && !Binds(rest, Reach(e))
    ensures ParseExpr(level, Print(e) + rest) == Climb(level, e, rest)
    decreases e, 1
  {
    TextBefore(e, rest);
    match e
    case Leaf(s) => assert ([Operand(s)] + rest)[1..] == rest;
    case Paren(x) =>
      ParseWhole(COMMA, x, [CloseParen] + rest);
      ParenStep(Print(x) + ([CloseParen] + rest), x, rest);
    case Prefix(t, x) =>
      ParseWhole(PREFIX, x, rest);
      PrefixStep(t, Print(x) + rest, x, rest);
    case Postfix(x, t) =>
      ParseReaches(level, x, [t] + rest);
      PostfixStep(level, x, t, rest);
    case Binary(_, _, _) => BinaryReaches(level, e, rest);
    case Ternary(c, t, f) => TernaryReaches(level, c, t, f, rest);
  }

  lemma {:induction false} BinaryReaches(level: int, e: Expr, rest: seq<Token>)
    requires e.Binary?
    requires level >= PREFIX && Respects(e) && Level(e) <= level && !Binds(rest, Reach(e))
    ensures ParseExpr(level, Print(e) + rest) == Climb(level, e, rest)
    decreases e, 0
  {
    hide ParseExpr, Climb;
    var Binary(t, l, r) := e;
    TextBefore(e, rest);
    ParseWhole(RightLevel(Level(e)), r, rest);
    ParseReaches(level, l, [t] + (Print(r) + rest));
    BinaryStep(level, l, t, Print(r) + rest, r, rest);
  }

  lemma {:induction false} TernaryReaches(level: int, c: Expr, t: Expr, f: Expr, rest: seq<Token>)
    requires Respects(Ternary(c, t, f)) && TERNARY <= level && !Binds(rest, TERNARY)
    ensures ParseExpr(level, Print(Ternary(c, t, f)) + rest) == Climb(level, Ternary(c, t, f), rest)
    decreases Ternary(c, t, f), 0
  {
    hide ParseExpr, Climb;
    var els := Print(f) + rest;
    var thn := Print(t) + ([Colon] + els);
    BranchesParse(c, t, f, rest);
    TernaryStep(level, c, thn, t, els, f, rest);
    StopsBefore(Question, thn, Reach(c));
    ParseReaches(level, c, [Question] + thn);
    TernaryText(c, t, f, rest);
  }

  lemma {:induction false} BranchesParse(c: Expr, t: Expr, f: Expr, rest: seq<Token>)
    requires Respects(t) && Respects(f) && Level(f) <= TERNARY && !Binds(rest, TERNARY)
    ensures ParseExpr(TERNARY, Print(f) + rest) == Some((f, rest))
    ensures var els := [Colon] + (Print(f) + rest);
      ParseExpr(COMMA, Print(t) + els) == Some((t, els))
    decreases Ternary(c, t, f), 0, 0
  {
    hide ParseExpr, Climb;
    ParseWhole(TERNARY, f, rest);
    StopsBefore(Colon, Print(f) + rest, COMMA);
    ParseWhole(COMMA, t, [Colon] + (Print(f) + rest));
  }

  lemma StopsBefore(t: Token, ts: seq<Token>, level: int)
    ensures t == Colon || t == CloseParen ==> !Binds([t] + ts, level)
    ensures t == Question && level < TERNARY ==> !Binds([t] + ts, level)
  {
  }

  /** Parsing stops at the end of a tree when nothing after it binds. */
  lemma {:induction false} ParseWhole(level: int, e: Expr, rest: seq<Token>)
    requires level >= PREFIX && Respects(e) && Level(e) <= level && !Binds(rest, level)
    ensures ParseExpr(level, Print(e) + rest) == Some((e, rest))
    decreases e, 2
  {
    ParseReaches(level, e, rest);
    ClimbStops(level, e, rest);
  }

  /** Printing flat and regrouping by the table returns the same tree, for exactly the
      trees that respect the table. */
  lemma FlatPrintingLosesNothing(e: Expr)
    ensures Regroup(Print(e)) == Some(e) <==> Respects(e)
  {
    assert Print(e) + [] == Print(e);
    if Respects(e) {
      ParseWhole(COMMA, e, []);
    } else if Regroup(Print(e)) == Some(e) {
      ExprSound(COMMA, Print(e));
    }
  }

  // ---- every flat text has a tree ----

  datatype Bracket = InParens | InTernary

  /** Operands and operators alternate and brackets match; after says an operand is
      complete, open holds the brackets not yet closed. */
  predicate Alternates(ts: seq<Token>, after: bool, open: seq<Bracket>)
    decreases |ts|
  {
    if ts == [] then after && open == []
    else if !after then
      if ts[0].Operand? then Alternates(ts[1..], true, open)
      else if ts[0] == OpenParen then Alternates(ts[1..], false, open + [InParens])
      else IsPrefix(ts[0]) && Alternates(ts[1..], false, open)
    else if IsBinary(ts[0]) then Alternates(ts[1..], false, open)
    else if IsPostfix(ts[0]) then Alternates(ts[1..], true, open)
    else if ts[0] == Question then Alternates(ts[1..], false, open + [InTernary])
    else
      && open != []
      && (if open[|open| - 1] == InTernary
          then ts[0] == Colon && Alternates(ts[1..], false, open[..|open| - 1])
          else ts[0] == CloseParen && Alternates(ts[1..], true, open[..|open| - 1]))
  }

  ghost predicate Succeeds(r: Parsed, open: seq<Bracket>) {
    r.Some? && Alternates(r.value.1, true, open)
  }

  lemma {:induction false} OperandSucceeds(ts: seq<Token>, open: seq<Bracket>)
    requires Alternates(ts, false, open)
    ensures Succeeds(ParseOperand(ts), open)
    decreases |ts|, 0
  {
    if ts[0] == OpenParen {
      ExprSucceeds(COMMA, ts[1..], open + [InParens]);
      ExprSound(COMMA, ts[1..]);
      assert (open + [InParens])[..|open|] == open;
    } else if !ts[0].Operand? {
      ExprSucceeds(PREFIX, ts[1..], open);
    }
  }

  lemma {:induction false} ExprSucceeds(level: int, ts: seq<Token>, open: seq<Bracket>)
    requires level >= PREFIX && Alternates(ts, false, open)
    ensures Succeeds(ParseExpr(level, ts), open)
    decreases |ts|, 2
  {
    OperandSucceeds(ts, open);
    var (x, rest) := ParseOperand(ts).value;
    ClimbSucceeds(level, x, rest, open);
  }

  lemma {:induction false} ClimbSucceeds(level: int, lhs: Expr, ts: seq<Token>, open: seq<Bracket>)
    requires level >= PREFIX && Alternates(ts, true, open)
    ensures Succeeds(Climb(level, lhs, ts), open)
    decreases |ts|, 1
  {
    if Binds(ts, level) {
      if IsBinary(ts[0]) {
        var right := RightLevel(BinaryLevel(ts[0]).value);
        ExprSucceeds(right, ts[1..], open);
        var (r, rest) := ParseExpr(right, ts[1..]).value;
        ClimbSucceeds(level, Binary(ts[0], lhs, r), rest, open);
      } else if IsPostfix(ts[0]) {
        ClimbSucceeds(level, Postfix(lhs, ts[0]), ts[1..], open);
      } else {
        ExprSucceeds(COMMA, ts[1..], open + [InTernary]);
        ExprSound(COMMA, ts[1..]);
        var (t, rest) := ParseExpr(COMMA, ts[1..]).value;
        assert (open + [InTernary])[..|open|] == open;
        ExprSucceeds(TERNARY, rest[1..], open);
        var (f, rest') := ParseExpr(TERNARY, rest[1..]).value;
        ClimbSucceeds(level, Ternary(lhs, t, f), rest', open);
      }
    }
  }

  lemma AlternatesStep(t: Token, ts: seq<Token>, open: seq<Bracket>)
    ensures IsBinary(t) ==> Alternates([t] + ts, true, open) == Alternates(ts, false, open)
    ensures IsPostfix(t) ==> Alternates([t] + ts, true, open) == Alternates(ts, true, open)
    ensures t == Question ==> Alternates([t] + ts, true, open) == Alternates(ts, false, open + [InTernary])
    ensures t == Colon ==> Alternates([t] + ts, true, open + [InTernary]) == Alternates(ts, false, open)
    ensures t == CloseParen ==> Alternates([t] + ts, true, open + [InParens]) == Alternates(ts, true, open)
    ensures IsPrefix(t) ==> Alternates([t] + ts, false, open) == Alternates(ts, false, open)
    ensures t == OpenParen ==> Alternates([t] + ts, false, open) == Alternates(ts, false, open + [InParens])
    ensures t.Operand? ==> Alternates([t] + ts, false, open) == Alternates(ts, true, open)
  {
    assert ([t] + ts)[1..] == ts;
    assert (open + [InTernary])[..|open|] == open && (open + [InParens])[..|open|] == open;
  }

  lemma {:induction false} PrintAlternates(e: Expr, rest: seq<Token>, open: seq<Bracket>)
    requires WellFormed(e) && Alternates(rest, true, open)
    ensures Alternates(Print(e) + rest, false, open)
    decreases e
  {
    TextBefore(e, rest);
    match e
    case Leaf(s) => AlternatesStep(Operand(s), rest, open);
    case Paren(x) =>
      var ts := [CloseParen] + rest;
      AlternatesStep(CloseParen, rest, open);
      PrintAlternates(x, ts, open + [InParens]);
      AlternatesStep(OpenParen, Print(x) + ts, open);
    case Prefix(t, x) =>
      PrintAlternates(x, rest, open);
      AlternatesStep(t, Print(x) + rest, open);
    case Postfix(x, t) =>
      AlternatesStep(t, rest, open);
      PrintAlternates(x, [t] + rest, open);
    case Binary(t, l, r) =>
      PrintAlternates(r, rest, open);
      AlternatesStep(t, Print(r) + rest, open);
      PrintAlternates(l, [t] + (Print(r) + rest), open);
    case Ternary(c, t, f) => TernaryAlternates(c, t, f, rest, open);
  }

  lemma {:induction false} TernaryAlternates(c: Expr, t: Expr, f: Expr, rest: seq<Token>, open: seq<Bracket>)
    requires WellFormed(c) && WellFormed(t) && WellFormed(f) && Alternates(rest, true, open)
    ensures Alternates(Print(Ternary(c, t, f)) + rest, false, open)
    decreases Ternary(c, t, f), 0
  {
    var els := Print(f) + rest;
    var thn := Print(t) + ([Colon] + els);
    PrintAlternates(f, rest, open);
    AlternatesStep(Colon, els, open);
    PrintAlternates(t, [Colon] + els, open + [InTernary]);
    AlternatesStep(Question, thn, open);
    PrintAlternates(c, [Question] + thn, open);
    TernaryText(c, t, f, rest);
  }

  /** A text is grouped exactly when operands and operators alternate in it; the tree
      then respects the table, prints as the text, and is the only one that does. */
  lemma ExactlyOneTree(ts: seq<Token>)
    ensures Regroup(ts).Some? <==> Alternates(ts, false, [])
    ensures Regroup(ts).Some? ==> Respects(Regroup(ts).value) && Print(Regroup(ts).value) == ts
    ensures forall e: Expr :: Respects(e) && Print(e) == ts ==> Regroup(ts) == Some(e)
  {
    ExprSound(COMMA, ts);
    if Regroup(ts).Some? {
      var e := Regroup(ts).value;
      assert Print(e) + [] == ts;
      PrintAlternates(e, [], []);
    } else if Alternates(ts, false, []) {
      ExprSucceeds(COMMA, ts, []);
      assert false;
    }
    forall e: Expr | Respects(e) && Print(e) == ts ensures Regroup(ts) == Some(e) {
      FlatPrintingLosesNothing(e);
    }
  }

  /** Whatever grouping a tree had, its text has one. */
  lemma AnyTreeRegroups(e: Expr)
    requires WellFormed(e)
    ensures Regroup(Print(e)).Some? && Respects(Regroup(Print(e)).value)
    ensures Print(Regroup(Print(e)).value) == Print(e)
  {
    PrintAlternates(e, [], []);
    assert Print(e) + [] == Print(e);
    ExactlyOneTree(Print(e));
  }
}
