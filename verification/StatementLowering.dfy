// The C++ statement each EDL statement is lowered to, a C++ statement parser that
// recovers it from the printed tokens, and the meaning both share.
module CppStatementParser {
  import opened Options
  import opened Stores
  import opened StatementText
  import opened Cpp

  type Parsed<T> = Option<(T, seq<Token>)>

  predicate At(ts: seq<Token>, t: Token) {
    ts != [] && ts[0] == t
  }

  /** !, parentheses, a value without an open comma, or a counter's post-decrement. */
  function ParseExpr(ts: seq<Token>): (r: Parsed<CExpr>)
    ensures r.Some? ==> |r.value.1| < |ts|
    decreases |ts|
  {
    if ts == [] then None
    else
      match ts[0]
      case Bang => (
        match ParseExpr(ts[1..])
        case Some((x, rest)) => Some((Not(x), rest))
        case None => None
      )
      case LParen => ParseParens(ts)
      case Expression(e) => Some((Val(e), ts[1..]))
      case Ident(n) => if At(ts[1..], Decrement) then Some((PostDecrement(n), ts[2..])) else None
      case _ => None
  }

  function ParseParens(ts: seq<Token>): (r: Parsed<CExpr>)
    ensures r.Some? ==> |r.value.1| < |ts|
    decreases |ts|, 0
  {
    if !At(ts, LParen) then None
    else
      match ParseExpr(ts[1..])
      case None => None
      case Some((x, more)) =>
        var (y, rest) := MoreOperands(x, more);
        if At(rest, RParen) then Some((y, rest[1..])) else None
  }

  /** The operands of the comma operator after a value. */
  function MoreOperands(x: CExpr, ts: seq<Token>): (r: (CExpr, seq<Token>))
    ensures |r.1| <= |ts|
    decreases |ts|
  {
    if x.Val? && |ts| > 1 && ts[0] == CommaSign && ts[1].Expression?
    then MoreOperands(Val(Comma(x.e, ts[1].e)), ts[2..])
    else (x, ts)
  }

  /** Declarators after the first, which a comma of a declaration separates (section 11):
      names without an initializer. */
  function MoreDeclarators(ts: seq<Token>): (r: (seq<string>, seq<Token>))
    ensures |r.1| <= |ts|
  {
    if |ts| > 1 && ts[0] == CommaSign && ts[1].Expression? && ts[1].e.Name? then
      var (names, rest) := MoreDeclarators(ts[2..]);
      ([ts[1].e.name] + names, rest)
    else ([], ts)
  }

  /** name = initializer { , name } ; */
  function ParseDeclaration(ts: seq<Token>): (r: Parsed<CStmt>)
    ensures r.Some? ==> |r.value.1| < |ts|
  {
    if |ts| < 3 || !ts[0].Ident? || ts[1] != Equals then None
    else
      match ParseExpr(ts[2..])
      case Some((Val(e), more)) =>
        var (names, rest) := MoreDeclarators(more);
        var closed := ts[2] == LParen || e.Comma?;
        if At(rest, Semicolon) then Some((Declare(ts[0].name, Condition(e, closed), names), rest[1..])) else None
      case _ => None
  }

  /** name = value ; */
  function ParseAssignment(ts: seq<Token>): (r: Parsed<(string, Expr)>)
    ensures r.Some? ==> |r.value.1| < |ts|
  {
    if |ts| < 2 || !ts[0].Ident? || ts[1] != Equals then None
    else
      match ParseExpr(ts[2..])
      case Some((Val(e), rest)) => if At(rest, Semicolon) then Some(((ts[0].name, e), rest[1..])) else None
      case _ => None
  }

  /** A statement (section 9 of ISO/IEC 14882:2017). An else belongs to the nearest
      if that can take it (9.4.1). */
  function ParseStmt(ts: seq<Token>): (r: Parsed<CStmt>)
    ensures r.Some? ==> |r.value.1| < |ts|
    decreases |ts|, 1
  {
    if ts == [] then None
    else
      match ts[0]
      case LBrace => (
        match ParseList(ts[1..])
        case Some((ss, rest)) => Some((Block(ss), rest))
        case None => None
      )
      case KwIf => (
        match ParseParens(ts[1..])
        case None => None
        case Some((c, r1)) =>
          match ParseStmt(r1)
          case None => None
          case Some((thn, r2)) =>
            if !At(r2, KwElse) then Some((If(c, thn, None), r2))
            else
              match ParseStmt(r2[1..])
              case Some((els, r3)) => Some((If(c, thn, Some(els)), r3))
              case None => None
      )
      case KwWhile => (
        match ParseParens(ts[1..])
        case None => None
        case Some((c, r1)) =>
          match ParseStmt(r1)
          case Some((body, r2)) => Some((While(c, body), r2))
          case None => None
      )
      case KwDo => (
        match ParseStmt(ts[1..])
        case None => None
        case Some((body, r1)) =>
          if !At(r1, KwWhile) then None
          else
            match ParseParens(r1[1..])
            case Some((c, r2)) => if At(r2, Semicolon) then Some((Do(body, c), r2[1..])) else None
            case None => None
      )
      case KwBreak => if At(ts[1..], Semicolon) then Some((Break, ts[2..])) else None
      case KwContinue => if At(ts[1..], Semicolon) then Some((Continue, ts[2..])) else None
      case Semicolon => Some((Empty, ts[1..]))
      case KwInt => ParseDeclaration(ts[1..])
      case Ident(_) => (
        match ParseAssignment(ts)
        case Some(((n, e), rest)) => Some((Assign(n, e), rest))
        case None => None
      )
      case _ => None
  }

  /** Statements up to and including the closing brace. */
  function ParseList(ts: seq<Token>): (r: Parsed<CStmts>)
    ensures r.Some? ==> |r.value.1| < |ts|
    decreases |ts|, 2
  {
    if At(ts, RBrace) then Some((Nil, ts[1..]))
    else
      match ParseStmt(ts)
      case None => None
      case Some((s, r1)) =>
        match ParseList(r1)
        case Some((ss, r2)) => Some((Cons(s, ss), r2))
        case None => None
  }

  predicate EndsInOpenIf(s: CStmt) {
    match s
    case If(_, _, None) => true
    case If(_, _, Some(e)) => EndsInOpenIf(e)
    case While(_, body) => EndsInOpenIf(body)
    case _ => false
  }

  predicate ElsesNearest(s: CStmt)
    decreases s
  {
    match s
    case Block(ss) => AllElsesNearest(ss)
    case If(_, thn, els) =>
      ElsesNearest(thn) && (els.Some? ==> ElsesNearest(els.value) && !EndsInOpenIf(thn))
    case While(_, body) => ElsesNearest(body)
    case Do(body, _) => ElsesNearest(body)
    case _ => true
  }

  predicate AllElsesNearest(ss: CStmts)
    decreases ss
  {
    ss.Cons? ==> ElsesNearest(ss.head) && AllElsesNearest(ss.tail)
  }

  /** The parser gives every else to the nearest open if, and leaves none behind. */
  lemma {:induction false} ParserTakesNearest(ts: seq<Token>)
    requires ParseStmt(ts).Some?
    ensures var (s, rest) := ParseStmt(ts).value;
      ElsesNearest(s) && (EndsInOpenIf(s) ==> !At(rest, KwElse))
    decreases |ts|, 1
  {
    match ts[0]
    case LBrace => ParserTakesNearestInList(ts[1..]);
    case KwIf =>
      var (_, r1) := ParseParens(ts[1..]).value;
      ParserTakesNearest(r1);
      var (_, r2) := ParseStmt(r1).value;
      if At(r2, KwElse) {
        ParserTakesNearest(r2[1..]);
      }
    case KwWhile =>
      var (_, r1) := ParseParens(ts[1..]).value;
      ParserTakesNearest(r1);
    case KwDo => ParserTakesNearest(ts[1..]);
    case _ =>
  }

  lemma {:induction false} ParserTakesNearestInList(ts: seq<Token>)
    requires ParseList(ts).Some?
    ensures AllElsesNearest(ParseList(ts).value.0)
    decreases |ts|, 2
  {
    if !At(ts, RBrace) {
      ParserTakesNearest(ts);
      ParserTakesNearestInList(ParseStmt(ts).value.1);
    }
  }

  /** No declaration's initializer has a comma in the open. */
  predicate InitsClosed(s: CStmt)
    decreases s
  {
    match s
    case Declare(_, init, _) => !HasOpenComma(init)
    case Block(ss) => AllInitsClosed(ss)
    case If(_, thn, els) => InitsClosed(thn) && (els.Some? ==> InitsClosed(els.value))
    case While(_, body) => InitsClosed(body)
    case Do(body, _) => InitsClosed(body)
    case _ => true
  }

  predicate AllInitsClosed(ss: CStmts)
    decreases ss
  {
    ss.Cons? ==> InitsClosed(ss.head) && AllInitsClosed(ss.tail)
  }

  /** The parser takes no comma in the open into an initializer. */
  lemma {:induction false} ParserEndsInits(ts: seq<Token>)
    requires ParseStmt(ts).Some?
    ensures InitsClosed(ParseStmt(ts).value.0)
    decreases |ts|, 1
  {
    match ts[0]
    case LBrace => ParserEndsInitsInList(ts[1..]);
    case KwIf =>
      var (_, r1) := ParseParens(ts[1..]).value;
      ParserEndsInits(r1);
      var (_, r2) := ParseStmt(r1).value;
      if At(r2, KwElse) {
        ParserEndsInits(r2[1..]);
      }
    case KwWhile =>
      var (_, r1) := ParseParens(ts[1..]).value;
      ParserEndsInits(r1);
    case KwDo => ParserEndsInits(ts[1..]);
    case _ =>
  }

  lemma {:induction false} ParserEndsInitsInList(ts: seq<Token>)
    requires ParseList(ts).Some?
    ensures AllInitsClosed(ParseList(ts).value.0)
    decreases |ts|, 2
  {
    if !At(ts, RBrace) {
      ParserEndsInits(ts);
      ParserEndsInitsInList(ParseStmt(ts).value.1);
    }
  }
}

module StatementLowering {
  import opened Options
  import opened Sequences
  import opened Stores
  import opened Edl
  import opened StatementText
  import opened CppStatementParser
  import Cpp

  function Guard(negated: bool, e: Expr): Cpp.CExpr {
    if negated then Cpp.Not(Cpp.Val(e)) else Cpp.Val(e)
  }

  function Lower(s: Stmt, d: nat): Cpp.CStmt
    decreases s, 0
  {
    match s
    case Assign(x, e) => Cpp.Assign(x, e)
    case Break => Cpp.Break
    case Continue => Cpp.Continue
    case Block(ss) => Cpp.Block(LowerAll(ss, d))
    case If(c, negated, thn, els) =>
      Cpp.If(Guard(negated, c.expr),
             LowerThen(thn, d),
             if els.Some? then Some(Lower(els.value, d)) else None)
    case Loop(Repeat, c, body) => CountedWhile(CounterName(d), c, Lower(body, d + 1))
    case Loop(kind, c, body) => Cpp.While(Guard(kind == UntilTrue, c.expr), Lower(body, d))
    case Do(body, c, isUntil) => Cpp.Do(LowerBraced(body, d), Guard(isUntil, c.expr))
  }

  function LowerThen(thn: Option<Stmt>, d: nat): Cpp.CStmt
    decreases thn, 1
  {
    if thn.Some? then Lower(thn.value, d) else Cpp.Empty
  }

  /** { int counter = c; while (counter--) body } */
  function CountedWhile(counter: string, c: Condition, body: Cpp.CStmt): Cpp.CStmt {
    Cpp.Block(Cpp.Cons(Cpp.Declare(counter, c, []),
              Cpp.Cons(Cpp.While(Cpp.PostDecrement(counter), body), Cpp.Nil)))
  }

  function LowerBraced(s: Stmt, d: nat): Cpp.CStmt
    decreases s, 1
  {
    if s.Block? then Lower(s, d) else Cpp.Block(Cpp.Cons(Lower(s, d), Cpp.Nil))
  }

  function LowerAll(ss: Stmts, d: nat): Cpp.CStmts
    decreases ss, 0
  {
    match ss
    case Nil => Cpp.Nil
    case Cons(s, rest) => Cpp.Cons(Lower(s, d), LowerAll(rest, d))
  }

  // ---- printing and parsing ----

  lemma ParensParse(inner: seq<Token>, x: Cpp.CExpr, rest: seq<Token>)
    requires ParseExpr(inner + [RParen] + rest) == Some((x, [RParen] + rest))
    ensures ParseParens([LParen] + inner + [RParen] + rest) == Some((x, rest))
  {
    var ts := [LParen] + inner + [RParen] + rest;
    assert ts[1..] == inner + [RParen] + rest;
    assert ([RParen] + rest)[1..] == rest;
  }

  lemma ValueParses(e: Expr, rest: seq<Token>)
    ensures ParseExpr([Expression(e)] + rest) == Some((Cpp.Val(e), rest))
  {
    assert ([Expression(e)] + rest)[1..] == rest;
  }

  /** The first operand of a value's commas. */
  function Leftmost(e: Expr): Expr {
    if e.Comma? then Leftmost(e.first) else e
  }

  /** The commas after it, and the operands they separate. */
  function CommasText(e: Expr): seq<Token> {
    if e.Comma? then CommasText(e.first) + [CommaSign, Expression(e.last)] else []
  }

  lemma {:induction false} ValueStarts(e: Expr)
    ensures ValueText(e) == [Expression(Leftmost(e))] + CommasText(e) && !Leftmost(e).Comma?
    ensures e.Comma? ==> CommasText(e) != [] && CommasText(e)[0] == CommaSign
  {
    if e.Comma? {
      ValueStarts(e.first);
      Assoc([Expression(Leftmost(e.first))], CommasText(e.first), [CommaSign, Expression(e.last)]);
    }
  }

  lemma {:induction false} CommasParse(e: Expr, rest: seq<Token>)
    ensures MoreOperands(Cpp.Val(Leftmost(e)), CommasText(e) + rest) == MoreOperands(Cpp.Val(e), rest)
  {
    if e.Comma? {
      var last := [CommaSign, Expression(e.last)];
      Assoc(CommasText(e.first), last, rest);
      CommasParse(e.first, last + rest);
      assert (last + rest)[2..] == rest;
    } else {
      assert [] + rest == rest;
    }
  }

  lemma ParensValueParses(e: Expr, rest: seq<Token>)
    ensures ParseParens([LParen] + ValueText(e) + [RParen] + rest) == Some((Cpp.Val(e), rest))
    ensures ParseExpr([LParen] + ValueText(e) + [RParen] + rest) == Some((Cpp.Val(e), rest))
  {
    hide ValueText, CommasText, Leftmost;
    var ts, close := [LParen] + ValueText(e) + [RParen] + rest, [RParen] + rest;
    ValueStarts(e);
    assert ts[1..] == [Expression(Leftmost(e))] + (CommasText(e) + close);
    ValueParses(Leftmost(e), CommasText(e) + close);
    CommasParse(e, close);
    assert close[1..] == rest;
  }

  lemma GuardForm(negated: bool, c: Condition)
    ensures var value := [LParen] + ValueText(c.expr) + [RParen];
      GuardText(negated, c) == IfGuardText(negated, c)
      == if negated then [LParen] + ([Bang] + value) + [RParen] else value
  {
    var v := ValueText(c.expr);
    hide ValueText;
    if c.parens {
      assert ConditionText(c) == [LParen] + v + [RParen];
      if negated {
        assert GuardText(negated, c) == [LParen, Bang] + ConditionText(c) + [RParen];
      } else {
        assert GuardText(negated, c) == ConditionText(c);
      }
    } else {
      assert ConditionText(c) == v;
      if negated {
        assert GuardText(negated, c) == [LParen] + [Bang, LParen] + v + [RParen] + [RParen];
      } else {
        assert GuardText(negated, c) == [LParen] + v + [RParen];
      }
    }
  }

  lemma GuardsParse(negated: bool, c: Condition, rest: seq<Token>)
    ensures ParseParens(GuardText(negated, c) + rest) == Some((Guard(negated, c.expr), rest))
    ensures IfGuardText(negated, c) == GuardText(negated, c)
  {
    hide ValueText, GuardText, IfGuardText;
    GuardForm(negated, c);
    var value := [LParen] + ValueText(c.expr) + [RParen];
    if negated {
      var tail := [RParen] + rest;
      ParensValueParses(c.expr, tail);
      var ts := [Bang] + value + [RParen] + rest;
      assert ts[1..] == value + tail;
      ParensParse([Bang] + value, Guard(true, c.expr), rest);
    } else {
      ParensValueParses(c.expr, rest);
    }
  }

  lemma AssignmentParses(n: string, e: Expr, rest: seq<Token>)
    ensures ParseAssignment([Ident(n), Equals, Expression(e), Semicolon] + rest) == Some(((n, e), rest))
  {
    var ts := [Ident(n), Equals, Expression(e), Semicolon] + rest;
    assert ts[2..] == [Expression(e)] + ([Semicolon] + rest);
    ValueParses(e, [Semicolon] + rest);
    assert ([Semicolon] + rest)[1..] == rest;
  }

  lemma DeclarationParses(n: string, c: Condition, rest: seq<Token>)
    requires !HasOpenComma(c)
    ensures ParseDeclaration([Ident(n), Equals] + ConditionText(c) + [Semicolon] + rest)
         == Some((Cpp.Declare(n, c, []), rest))
  {
    var ts := [Ident(n), Equals] + ConditionText(c) + [Semicolon] + rest;
    var tail := [Semicolon] + rest;
    assert tail[1..] == rest;
    assert ts[2..] == ConditionText(c) + tail;
    if c.parens {
      hide ValueText;
      ParensValueParses(c.expr, tail);
    } else {
      ValueParses(c.expr, tail);
    }
  }

  // One unfolding of the parser for each statement form.

  lemma BlockStep(ts: seq<Token>, ss: Cpp.CStmts, rest: seq<Token>)
    requires ParseList(ts) == Some((ss, rest))
    ensures ParseStmt([LBrace] + ts) == Some((Cpp.Block(ss), rest))
  {
    assert ([LBrace] + ts)[1..] == ts;
  }

  lemma ListStep(ts: seq<Token>, s: Cpp.CStmt, r1: seq<Token>, ss: Cpp.CStmts, r2: seq<Token>)
    requires ts != [] && ts[0] != RBrace
    requires ParseStmt(ts) == Some((s, r1)) && ParseList(r1) == Some((ss, r2))
    ensures ParseList(ts) == Some((Cpp.Cons(s, ss), r2))
  {
  }

  lemma EndStep(rest: seq<Token>)
    ensures ParseList([RBrace] + rest) == Some((Cpp.Nil, rest))
  {
    assert ([RBrace] + rest)[1..] == rest;
  }

  lemma IfStep(ts: seq<Token>, c: Cpp.CExpr, r1: seq<Token>, thn: Cpp.CStmt, r2: seq<Token>)
    requires ParseParens(ts) == Some((c, r1)) && ParseStmt(r1) == Some((thn, r2)) && !At(r2, KwElse)
    ensures ParseStmt([KwIf] + ts) == Some((Cpp.If(c, thn, None), r2))
  {
    assert ([KwIf] + ts)[1..] == ts;
  }

  lemma IfElseStep(ts: seq<Token>, c: Cpp.CExpr, r1: seq<Token>, thn: Cpp.CStmt, r2: seq<Token>,
                   els: Cpp.CStmt, r3: seq<Token>)
    requires ParseParens(ts) == Some((c, r1)) && ParseStmt(r1) == Some((thn, [KwElse] + r2))
    requires ParseStmt(r2) == Some((els, r3))
    ensures ParseStmt([KwIf] + ts) == Some((Cpp.If(c, thn, Some(els)), r3))
  {
    assert ([KwIf] + ts)[1..] == ts;
    assert ([KwElse] + r2)[1..] == r2;
  }

  lemma WhileStep(ts: seq<Token>, c: Cpp.CExpr, r1: seq<Token>, body: Cpp.CStmt, r2: seq<Token>)
    requires ParseParens(ts) == Some((c, r1)) && ParseStmt(r1) == Some((body, r2))
    ensures ParseStmt([KwWhile] + ts) == Some((Cpp.While(c, body), r2))
  {
    assert ([KwWhile] + ts)[1..] == ts;
  }

  lemma DoStep(ts: seq<Token>, body: Cpp.CStmt, r1: seq<Token>, c: Cpp.CExpr, rest: seq<Token>)
    requires ParseStmt(ts) == Some((body, [KwWhile] + r1)) && ParseParens(r1) == Some((c, [Semicolon] + rest))
    ensures ParseStmt([KwDo] + ts) == Some((Cpp.Do(body, c), rest))
  {
    assert ([KwDo] + ts)[1..] == ts;
    assert ([KwWhile] + r1)[1..] == r1;
    assert ([Semicolon] + rest)[1..] == rest;
  }

  lemma DeclareStep(n: string, c: Condition, rest: seq<Token>)
    requires !HasOpenComma(c)
    ensures ParseStmt([KwInt] + ([Ident(n), Equals] + ConditionText(c) + [Semicolon] + rest))
         == Some((Cpp.Declare(n, c, []), rest))
  {
    hide ConditionText, ParseDeclaration;
    var ts := [Ident(n), Equals] + ConditionText(c) + [Semicolon] + rest;
    DeclarationParses(n, c, rest);
    assert ([KwInt] + ts)[1..] == ts;
  }

  lemma CountdownParses(n: string, rest: seq<Token>)
    ensures ParseParens([LParen, Ident(n), Decrement, RParen] + rest) == Some((Cpp.PostDecrement(n), rest))
  {
    var inner := [Ident(n), Decrement];
    var ts := inner + [RParen] + rest;
    assert ts[1..] == [Decrement, RParen] + rest && ts[2..] == [RParen] + rest;
    ParensParse(inner, Cpp.PostDecrement(n), rest);
    assert [LParen, Ident(n), Decrement, RParen] + rest == [LParen] + inner + [RParen] + rest;
  }

  /** The printed text parses to the lowering and leaves exactly what follows it. */
  lemma {:induction false} TextParses(s: Stmt, d: nat, rest: seq<Token>)
    requires Edl.ElsesNearest(s) && Edl.CountsClosed(s)
    requires Edl.EndsInOpenIf(s) ==> !At(rest, KwElse)
    ensures ParseStmt(Terminated(s, d) + rest) == Some((Lower(s, d), rest))
    decreases s, 1
  {
    match s
    case Assign(_, _) => SimpleTextParses(s, d, rest);
    case Break => SimpleTextParses(s, d, rest);
    case Continue => SimpleTextParses(s, d, rest);
    case Block(ss) =>
      TextAllParses(ss, d, rest);
      BlockStep(TextAll(ss, d) + [RBrace] + rest, LowerAll(ss, d), rest);
      BlockTextForm(s, d, rest);
    case If(_, _, _, _) => IfTextParses(s, d, rest);
    case Loop(kind, c, body) =>
      if kind == Repeat {
        RepeatTextParses(s, d, rest);
      } else {
        var r1 := Terminated(body, d) + rest;
        GuardsParse(kind == UntilTrue, c, r1);
        TextParses(body, d, rest);
        WhileStep(GuardText(kind == UntilTrue, c) + r1, Guard(kind == UntilTrue, c.expr), r1, Lower(body, d), rest);
        LoopTextForm(s, d, rest);
      }
    case Do(_, _, _) => DoTextParses(s, d, rest);
  }

  lemma BlockTextForm(s: Stmt, d: nat, rest: seq<Token>)
    requires s.Block?
    ensures Terminated(s, d) + rest == [LBrace] + (TextAll(s.stmts, d) + [RBrace] + rest)
  {
    assert Terminated(s, d) == [LBrace] + TextAll(s.stmts, d) + [RBrace];
  }

  lemma LoopTextForm(s: Stmt, d: nat, rest: seq<Token>)
    requires s.Loop? && s.kind != Repeat
    ensures Terminated(s, d) + rest
         == [KwWhile] + (GuardText(s.kind == UntilTrue, s.cond) + (Terminated(s.body, d) + rest))
  {
    assert Terminated(s, d) == Text(s, d);
    Flatten([KwWhile], GuardText(s.kind == UntilTrue, s.cond), Terminated(s.body, d), [], rest);
  }

  lemma Flatten(a: seq<Token>, b: seq<Token>, c: seq<Token>, d: seq<Token>, e: seq<Token>)
    ensures a + b + c + d + e == a + (b + (c + (d + e)))
    ensures d == [] ==> a + b + c + e == a + (b + (c + e))
  {
    assert a + b + c + d + e == a + (b + (c + (d + e)));
    if d == [] {
      assert a + b + c + d == a + b + c && d + e == e;
    }
  }

  lemma SimpleTextParses(s: Stmt, d: nat, rest: seq<Token>)
    requires s.Assign? || s.Break? || s.Continue?
    ensures ParseStmt(Terminated(s, d) + rest) == Some((Lower(s, d), rest))
  {
    var ts := Terminated(s, d) + rest;
    match s
    case Assign(x, e) =>
      AssignmentParses(x, e, rest);
      assert Terminated(s, d) == [Ident(x), Equals, Expression(e), Semicolon];
    case Break => assert ts[1..] == [Semicolon] + rest && ts[2..] == rest;
    case Continue => assert ts[1..] == [Semicolon] + rest && ts[2..] == rest;
  }

  lemma IfTextForm(s: Stmt, d: nat, rest: seq<Token>)
    requires s.If?
    ensures Terminated(s, d) + rest
      == [KwIf] + (GuardText(s.negated, s.cond) + (ThenText(s.thn, d) + (ElseText(s.els, d) + rest)))
  {
    GuardForm(s.negated, s.cond);
    assert Terminated(s, d) == Text(s, d);
    Flatten([KwIf], GuardText(s.negated, s.cond), ThenText(s.thn, d), ElseText(s.els, d), rest);
  }

  lemma {:induction false} IfTextParses(s: Stmt, d: nat, rest: seq<Token>)
    requires s.If? && Edl.ElsesNearest(s) && Edl.CountsClosed(s)
    requires Edl.EndsInOpenIf(s) ==> !At(rest, KwElse)
    ensures ParseStmt(Terminated(s, d) + rest) == Some((Lower(s, d), rest))
    decreases s, 0
  {
    hide ParseStmt, Terminated, GuardText, IfGuardText, ThenText;
    IfTextForm(s, d, rest);
    var r2 := ElseText(s.els, d) + rest;
    var r1 := ThenText(s.thn, d) + r2;
    var text := GuardText(s.negated, s.cond) + r1;
    GuardsParse(s.negated, s.cond, r1);
    ThenTextParses(s, d, r2);
    if s.els.Some? {
      var r3 := Terminated(s.els.value, d) + rest;
      assert r2 == [KwElse] + r3;
      TextParses(s.els.value, d, rest);
      IfElseStep(text, Guard(s.negated, s.cond.expr), r1, LowerThen(s.thn, d), r3, Lower(s.els.value, d), rest);
    } else {
      assert r2 == rest;
      IfStep(text, Guard(s.negated, s.cond.expr), r1, LowerThen(s.thn, d), rest);
    }
  }

  lemma {:induction false} ThenTextParses(s: Stmt, d: nat, r2: seq<Token>)
    requires s.If? && Edl.ElsesNearest(s) && Edl.CountsClosed(s)
    requires s.els.None? ==> !At(r2, KwElse)
    ensures ParseStmt(ThenText(s.thn, d) + r2) == Some((LowerThen(s.thn, d), r2))
    decreases s, 0, 0
  {
    if s.thn.Some? {
      TextParses(s.thn.value, d, r2);
    } else {
      assert (ThenText(s.thn, d) + r2)[1..] == r2;
    }
  }

  lemma RepeatTextForm(s: Stmt, d: nat, rest: seq<Token>)
    requires s.Loop? && s.kind == Repeat
    ensures var n := CounterName(d);
      var body := Terminated(s.body, d + 1) + ([RBrace] + rest);
      var loop := [KwWhile] + ([LParen, Ident(n), Decrement, RParen] + body);
      Terminated(s, d) + rest
      == [LBrace] + ([KwInt] + ([Ident(n), Equals] + ConditionText(s.cond) + [Semicolon] + loop))
  {
    hide Terminated, ConditionText, CounterName;
    var n, body := CounterName(d), Terminated(s.body, d + 1);
    RepeatText(s, d);
    Assoc(RepeatHead(s.cond, n) + body, [RBrace], rest);
    Assoc(RepeatHead(s.cond, n), body, [RBrace] + rest);
    RepeatHeadForm(s.cond, n, body + ([RBrace] + rest));
  }

  lemma RepeatText(s: Stmt, d: nat)
    requires s.Loop? && s.kind == Repeat
    ensures Terminated(s, d) == RepeatHead(s.cond, CounterName(d)) + Terminated(s.body, d + 1) + [RBrace]
  {
    hide RepeatHead, CounterName;
    assert Text(s, d) + [] == Text(s, d);
  }

  lemma RepeatHeadForm(c: Condition, n: string, body: seq<Token>)
    ensures RepeatHead(c, n) + body
         == [LBrace] + ([KwInt] + ([Ident(n), Equals] + ConditionText(c) + [Semicolon]
                                   + ([KwWhile] + ([LParen, Ident(n), Decrement, RParen] + body))))
  {
    hide ConditionText;
  }

  lemma {:induction false} RepeatTextParses(s: Stmt, d: nat, rest: seq<Token>)
    requires s.Loop? && s.kind == Repeat && Edl.ElsesNearest(s) && Edl.CountsClosed(s)
    ensures ParseStmt(Terminated(s, d) + rest) == Some((Lower(s, d), rest))
    decreases s, 0
  {
    var n, close := CounterName(d), [RBrace] + rest;
    var body := Terminated(s.body, d + 1) + close;
    TextParses(s.body, d + 1, close);
    DeclareStep(n, s.cond, [KwWhile] + ([LParen, Ident(n), Decrement, RParen] + body));
    CountedParses(s, d, Cpp.Declare(n, s.cond, []), rest);
  }

  /** A printed repeat whose count and body are parsed. */
  lemma CountedParses(s: Stmt, d: nat, declared: Cpp.CStmt, rest: seq<Token>)
    requires s.Loop? && s.kind == Repeat
    requires var body := Terminated(s.body, d + 1) + ([RBrace] + rest);
      var n := CounterName(d);
      var loop := [KwWhile] + ([LParen, Ident(n), Decrement, RParen] + body);
      && ParseStmt(body) == Some((Lower(s.body, d + 1), [RBrace] + rest))
      && ParseStmt([KwInt] + ([Ident(n), Equals] + ConditionText(s.cond) + [Semicolon] + loop)) == Some((declared, loop))
    ensures var counted := Cpp.While(Cpp.PostDecrement(CounterName(d)), Lower(s.body, d + 1));
      ParseStmt(Terminated(s, d) + rest)
      == Some((Cpp.Block(Cpp.Cons(declared, Cpp.Cons(counted, Cpp.Nil))), rest))
  {
    hide ParseStmt, ParseList, Terminated, Lower, ConditionText, CounterName;
    RepeatTextForm(s, d, rest);
    var n, close := CounterName(d), [RBrace] + rest;
    var body := Terminated(s.body, d + 1) + close;
    var guard := [LParen, Ident(n), Decrement, RParen] + body;
    var loop := [KwWhile] + guard;
    var declaration := [KwInt] + ([Ident(n), Equals] + ConditionText(s.cond) + [Semicolon] + loop);
    CountdownParses(n, body);
    var counted := Cpp.While(Cpp.PostDecrement(n), Lower(s.body, d + 1));
    WhileStep(guard, Cpp.PostDecrement(n), body, Lower(s.body, d + 1), close);
    EndStep(rest);
    ListStep(loop, counted, close, Cpp.Nil, rest);
    ListStep(declaration, declared, loop, Cpp.Cons(counted, Cpp.Nil), rest);
    BlockStep(declaration, Cpp.Cons(declared, Cpp.Cons(counted, Cpp.Nil)), rest);
  }

  lemma DoTextForm(s: Stmt, d: nat, rest: seq<Token>)
    requires s.Do?
    ensures Terminated(s, d) + rest
      == [KwDo] + (BracedText(s.body, d) + ([KwWhile] + (GuardText(s.isUntil, s.cond) + ([Semicolon] + rest))))
  {
    hide Terminated, BracedText, GuardText;
    var body, guard, end := BracedText(s.body, d), GuardText(s.isUntil, s.cond), [Semicolon] + rest;
    DoText(s, d);
    Assoc([KwDo] + body + ([KwWhile] + guard), [Semicolon], rest);
    Assoc([KwDo] + body, [KwWhile] + guard, end);
    Assoc([KwWhile], guard, end);
    Assoc([KwDo], body, [KwWhile] + (guard + end));
  }

  lemma DoText(s: Stmt, d: nat)
    requires s.Do?
    ensures Terminated(s, d) == [KwDo] + BracedText(s.body, d) + ([KwWhile] + GuardText(s.isUntil, s.cond)) + [Semicolon]
  {
    hide BracedText, GuardText;
    assert Text(s, d) + [] == Text(s, d);
  }

  lemma {:induction false} DoTextParses(s: Stmt, d: nat, rest: seq<Token>)
    requires s.Do? && Edl.ElsesNearest(s) && Edl.CountsClosed(s)
    ensures ParseStmt(Terminated(s, d) + rest) == Some((Lower(s, d), rest))
    decreases s, 0
  {
    DoTextForm(s, d, rest);
    var guard := GuardText(s.isUntil, s.cond) + ([Semicolon] + rest);
    var r1 := [KwWhile] + guard;
    GuardsParse(s.isUntil, s.cond, [Semicolon] + rest);
    if s.body.Block? {
      TextParses(s.body, d, r1);
    } else {
      var inner := Terminated(s.body, d) + ([RBrace] + r1);
      TextParses(s.body, d, [RBrace] + r1);
      EndStep(r1);
      StartsAStatement(s.body, d);
      ListStep(inner, Lower(s.body, d), [RBrace] + r1, Cpp.Nil, r1);
      BlockStep(inner, Cpp.Cons(Lower(s.body, d), Cpp.Nil), r1);
      Flatten([LBrace], Terminated(s.body, d), [RBrace], [], r1);
    }
    DoStep(BracedText(s.body, d) + r1, LowerBraced(s.body, d), guard, Guard(s.isUntil, s.cond.expr), rest);
  }

  lemma StartsAStatement(s: Stmt, d: nat)
    ensures Terminated(s, d) != [] && Terminated(s, d)[0] != RBrace && Terminated(s, d)[0] != KwElse
  {
    match s
    case Loop(kind, _, _) => assert Text(s, d) != [];
    case _ =>
  }

  lemma {:induction false} TextAllParses(ss: Stmts, d: nat, rest: seq<Token>)
    requires Edl.AllElsesNearest(ss) && Edl.AllCountsClosed(ss)
    ensures ParseList(TextAll(ss, d) + [RBrace] + rest) == Some((LowerAll(ss, d), rest))
    decreases ss, 0
  {
    match ss
    case Nil =>
      EndStep(rest);
      assert TextAll(ss, d) + [RBrace] + rest == [RBrace] + rest;
    case Cons(s, tail) =>
      var more := TextAll(tail, d) + [RBrace] + rest;
      assert TextAll(ss, d) + [RBrace] + rest == Terminated(s, d) + more;
      StartsAStatement(s, d);
      if tail.Cons? {
        StartsAStatement(tail.head, d);
        assert more[0] == Terminated(tail.head, d)[0];
      }
      TextParses(s, d, more);
      TextAllParses(tail, d, rest);
      ListStep(Terminated(s, d) + more, Lower(s, d), more, LowerAll(tail, d), rest);
  }

  lemma {:induction false} LoweringKeepsElses(s: Stmt, d: nat)
    ensures CppStatementParser.ElsesNearest(Lower(s, d)) <==> Edl.ElsesNearest(s)
    ensures CppStatementParser.EndsInOpenIf(Lower(s, d)) <==> Edl.EndsInOpenIf(s)
    decreases s, 0
  {
    match s
    case Block(ss) => LoweringKeepsAllElses(ss, d);
    case If(_, _, thn, els) =>
      if thn.Some? { LoweringKeepsElses(thn.value, d); }
      if els.Some? { LoweringKeepsElses(els.value, d); }
    case Loop(kind, c, body) =>
      if kind == Repeat {
        LoweringKeepsElses(body, d + 1);
        var loop := Cpp.While(Cpp.PostDecrement(CounterName(d)), Lower(body, d + 1));
        var tail := Cpp.Cons(loop, Cpp.Nil);
        assert CppStatementParser.AllElsesNearest(tail) <==> Edl.ElsesNearest(body);
        var all := Cpp.Cons(Cpp.Declare(CounterName(d), c, []), tail);
        assert CppStatementParser.AllElsesNearest(all) <==> CppStatementParser.AllElsesNearest(tail);
        assert Lower(s, d) == Cpp.Block(all);
      } else {
        LoweringKeepsElses(body, d);
      }
    case Do(body, _, _) =>
      LoweringKeepsElses(body, d);
      assert CppStatementParser.AllElsesNearest(Cpp.Cons(Lower(body, d), Cpp.Nil)) <==> Edl.ElsesNearest(body);
    case _ =>
  }

  lemma {:induction false} LoweringKeepsAllElses(ss: Stmts, d: nat)
    ensures CppStatementParser.AllElsesNearest(LowerAll(ss, d)) <==> Edl.AllElsesNearest(ss)
    decreases ss, 0
  {
    match ss
    case Nil =>
    case Cons(s, rest) =>
      LoweringKeepsElses(s, d);
      LoweringKeepsAllElses(rest, d);
  }

  lemma {:induction false} LoweringKeepsCounts(s: Stmt, d: nat)
    ensures InitsClosed(Lower(s, d)) <==> Edl.CountsClosed(s)
    decreases s, 0
  {
    match s
    case Block(ss) => LoweringKeepsAllCounts(ss, d);
    case If(_, _, thn, els) =>
      if thn.Some? { LoweringKeepsCounts(thn.value, d); }
      if els.Some? { LoweringKeepsCounts(els.value, d); }
    case Loop(kind, c, body) =>
      if kind == Repeat {
        LoweringKeepsCounts(body, d + 1);
        var loop := Cpp.While(Cpp.PostDecrement(CounterName(d)), Lower(body, d + 1));
        var tail := Cpp.Cons(loop, Cpp.Nil);
        assert AllInitsClosed(tail) <==> Edl.CountsClosed(body);
        var all := Cpp.Cons(Cpp.Declare(CounterName(d), c, []), tail);
        assert AllInitsClosed(all) <==> !HasOpenComma(c) && AllInitsClosed(tail);
        assert Lower(s, d) == Cpp.Block(all);
      } else {
        LoweringKeepsCounts(body, d);
      }
    case Do(body, _, _) =>
      LoweringKeepsCounts(body, d);
      assert AllInitsClosed(Cpp.Cons(Lower(body, d), Cpp.Nil)) <==> Edl.CountsClosed(body);
    case _ =>
  }

  lemma {:induction false} LoweringKeepsAllCounts(ss: Stmts, d: nat)
    ensures AllInitsClosed(LowerAll(ss, d)) <==> Edl.AllCountsClosed(ss)
    decreases ss, 0
  {
    match ss
    case Nil =>
    case Cons(s, rest) =>
      LoweringKeepsCounts(s, d);
      LoweringKeepsAllCounts(rest, d);
  }

  /** Main result on printing: C++ reads the printed statement as its lowering exactly
      when no else would be taken by an if inside the true branch before it, and no repeat
      count has a comma outside parentheses. */
  lemma PrintedTextMeansLowering(s: Stmt, d: nat)
    ensures ParseStmt(Terminated(s, d)) == Some((Lower(s, d), []))
       <==> Edl.ElsesNearest(s) && Edl.CountsClosed(s)
  {
    hide ParseStmt, Terminated, Lower;
    if Edl.ElsesNearest(s) && Edl.CountsClosed(s) {
      TextParses(s, d, []);
      assert Terminated(s, d) + [] == Terminated(s, d);
    } else if ParseStmt(Terminated(s, d)) == Some((Lower(s, d), [])) {
      ParserTakesNearest(Terminated(s, d));
      LoweringKeepsElses(s, d);
      ParserEndsInits(Terminated(s, d));
      LoweringKeepsCounts(s, d);
    }
  }

  /** repeat a, b: C++ counts a down, and declares a variable b. */
  lemma CommaCountIsSplit(body: Stmt)
    requires Edl.ElsesNearest(body) && Edl.CountsClosed(body)
    ensures var s := Edl.Loop(Repeat, Condition(Comma(Name("a"), Name("b")), false), body);
      var loop := Cpp.While(Cpp.PostDecrement(CounterName(0)), Lower(body, 1));
      ParseStmt(Terminated(s, 0) + [])
      == Some((Cpp.Block(Cpp.Cons(Cpp.Declare(CounterName(0), Condition(Name("a"), false), ["b"]),
                                  Cpp.Cons(loop, Cpp.Nil))), []))
  {
    hide ParseStmt, Terminated, Lower, CounterName;
    var s := Edl.Loop(Repeat, Condition(Comma(Name("a"), Name("b")), false), body);
    var n, close := CounterName(0), [RBrace] + [];
    var text := Terminated(body, 1) + close;
    TextParses(body, 1, close);
    SplitDeclares(n, [KwWhile] + ([LParen, Ident(n), Decrement, RParen] + text));
    CountedParses(s, 0, Cpp.Declare(n, Condition(Name("a"), false), ["b"]), []);
  }

  lemma OneMoreDeclarator(b: string, rest: seq<Token>)
    ensures MoreDeclarators([CommaSign, Expression(Name(b))] + ([Semicolon] + rest)) == ([b], [Semicolon] + rest)
  {
    var end := [Semicolon] + rest;
    var ts := [CommaSign, Expression(Name(b))] + end;
    assert ts[2..] == end && MoreDeclarators(end) == ([], end);
    assert [b] + [] == [b];
  }

  lemma SplitDeclares(n: string, rest: seq<Token>)
    ensures ParseStmt([KwInt] + ([Ident(n), Equals] + ConditionText(Condition(Comma(Name("a"), Name("b")), false))
                                 + [Semicolon] + rest))
         == Some((Cpp.Declare(n, Condition(Name("a"), false), ["b"]), rest))
  {
    hide MoreDeclarators, ParseExpr;
    var c, end := Condition(Comma(Name("a"), Name("b")), false), [Semicolon] + rest;
    var value := [Expression(Name("a"))] + ([CommaSign, Expression(Name("b"))] + end);
    assert ConditionText(c) == [Expression(Name("a"))] + [CommaSign, Expression(Name("b"))];
    var ts := [Ident(n), Equals] + ConditionText(c) + [Semicolon] + rest;
    Assoc([Ident(n), Equals] + ConditionText(c), [Semicolon], rest);
    Assoc([Ident(n), Equals], ConditionText(c), end);
    Assoc([Expression(Name("a"))], [CommaSign, Expression(Name("b"))], end);
    assert ts == [Ident(n), Equals] + value;
    InitializerParses(n, Name("a"), "b", rest);
    assert ([KwInt] + ts)[1..] == ts;
  }

  lemma InitializerParses(n: string, e: Expr, b: string, rest: seq<Token>)
    requires !e.Comma?
    ensures ParseDeclaration([Ident(n), Equals]
                             + ([Expression(e)] + ([CommaSign, Expression(Name(b))] + ([Semicolon] + rest))))
         == Some((Cpp.Declare(n, Condition(e, false), [b]), rest))
  {
    hide MoreDeclarators, ParseExpr;
    var more := [CommaSign, Expression(Name(b))] + ([Semicolon] + rest);
    var ts := [Ident(n), Equals] + ([Expression(e)] + more);
    assert ts[2..] == [Expression(e)] + more;
    ValueParses(e, more);
    OneMoreDeclarator(b, rest);
    assert ([Semicolon] + rest)[1..] == rest;
  }
}
