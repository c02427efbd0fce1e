// Statements and expressions in one text: the printed statement with every expression
// spelled out, as the C++ parser reads it.
module FlatStatements {
  import opened Options
  import opened Sequences
  import opened Stores
  import Edl
  import Cpp
  import P = StatementText
  import Printed = StatementLowering
  import X = Expressions
  import L = ExpressionLowering
  import D = DivisorCasts

  /** C++ statements with the expressions the whole text groups to. */
  datatype Stmt =
    | Value(value: X.Expr)
    | Declare(name: string, init: X.Expr)
    | Break
    | Continue
    | Empty
    | Block(stmts: Stmts)
    | If(cond: X.Expr, thn: Stmt, els: Option<Stmt>)
    | While(cond: X.Expr, body: Stmt)
    | Do(body: Stmt, cond: X.Expr)

  datatype Stmts = Nil | Cons(head: Stmt, tail: Stmts)

  type Text = seq<X.Token>
  type Parsed<T> = Option<(T, Text)>

  // ---- section 9 of ISO/IEC 14882:2017, over the text ----

  predicate At(ts: Text, t: X.Token) {
    ts != [] && ts[0] == t
  }

  function ParseParens(ts: Text): (r: Parsed<X.Expr>)
    ensures r.Some? ==> |r.value.1| < |ts|
  {
    if !At(ts, X.OpenParen) then None
    else
      match X.ParseExpr(X.COMMA, ts[1..])
      case Some((x, rest)) => if At(rest, X.CloseParen) then Some((x, rest[1..])) else None
      case None => None
  }

  /** name = initializer ; where a comma would end the initializer (section 11). */
  function ParseDeclaration(ts: Text): (r: Parsed<Stmt>)
    ensures r.Some? ==> |r.value.1| < |ts|
  {
    if |ts| < 3 || !ts[0].Operand? || ts[1] != X.Equals then None
    else
      match X.ParseExpr(X.ASSIGN, ts[2..])
      case Some((x, rest)) =>
        if At(rest, X.Word(X.EndMark)) then Some((Declare(ts[0].text, x), rest[1..])) else None
      case None => None
  }

  function ParseValue(ts: Text): (r: Parsed<Stmt>)
    ensures r.Some? ==> |r.value.1| < |ts|
  {
    match X.ParseExpr(X.COMMA, ts)
    case Some((x, rest)) => if At(rest, X.Word(X.EndMark)) then Some((Value(x), rest[1..])) else None
    case None => None
  }

  function ParseStmt(ts: Text): (r: Parsed<Stmt>)
    ensures r.Some? ==> |r.value.1| < |ts|
    decreases |ts|, 1
  {
    if ts == [] then None
    else if !ts[0].Word? then ParseValue(ts)
    else
      match ts[0].word
      case OpenBrace => (
        match ParseList(ts[1..])
        case Some((ss, rest)) => Some((Block(ss), rest))
        case None => None
      )
      case IfWord => (
        match ParseParens(ts[1..])
        case None => None
        case Some((c, r1)) =>
          match ParseStmt(r1)
          case None => None
          case Some((thn, r2)) =>
            if !At(r2, X.Word(X.ElseWord)) then Some((If(c, thn, None), r2))
            else
              match ParseStmt(r2[1..])
              case Some((els, r3)) => Some((If(c, thn, Some(els)), r3))
              case None => None
      )
      case WhileWord => (
        match ParseParens(ts[1..])
        case None => None
        case Some((c, r1)) =>
          match ParseStmt(r1)
          case Some((body, r2)) => Some((While(c, body), r2))
          case None => None
      )
      case DoWord => (
        match ParseStmt(ts[1..])
        case None => None
        case Some((body, r1)) =>
          if !At(r1, X.Word(X.WhileWord)) then None
          else
            match ParseParens(r1[1..])
            case Some((c, r2)) => if At(r2, X.Word(X.EndMark)) then Some((Do(body, c), r2[1..])) else None
            case None => None
      )
      case BreakWord => if At(ts[1..], X.Word(X.EndMark)) then Some((Break, ts[2..])) else None
      case ContinueWord => if At(ts[1..], X.Word(X.EndMark)) then Some((Continue, ts[2..])) else None
      case EndMark => Some((Empty, ts[1..]))
      case IntWord => ParseDeclaration(ts[1..])
      case _ => None
  }

  function ParseList(ts: Text): (r: Parsed<Stmts>)
    ensures r.Some? ==> |r.value.1| < |ts|
    decreases |ts|, 2
  {
    if At(ts, X.Word(X.CloseBrace)) then Some((Nil, ts[1..]))
    else
      match ParseStmt(ts)
      case None => None
      case Some((s, r1)) =>
        match ParseList(r1)
        case Some((ss, r2)) => Some((Cons(s, ss), r2))
        case None => None
  }

  // ---- the text with its expressions spelled ----

  /** Trees the EDL parser builds, with no comma at the root. */
  ghost predicate Parsable(trees: Expr -> X.Expr) {
    forall e :: X.Respects(trees(e)) && X.Level(trees(e)) <= X.ASSIGN
  }

  /** The EDL tree each value of a program stands for. */
  type Trees = trees: Expr -> X.Expr | Parsable(trees) ghost witness e => X.Leaf("")

  function SpelledToken(trees: Trees, t: P.Token): Text {
    match t
    case KwIf => [X.Word(X.IfWord)]
    case KwElse => [X.Word(X.ElseWord)]
    case KwWhile => [X.Word(X.WhileWord)]
    case KwDo => [X.Word(X.DoWord)]
    case KwBreak => [X.Word(X.BreakWord)]
    case KwContinue => [X.Word(X.ContinueWord)]
    case KwInt => [X.Word(X.IntWord)]
    case LParen => [X.OpenParen]
    case RParen => [X.CloseParen]
    case LBrace => [X.Word(X.OpenBrace)]
    case RBrace => [X.Word(X.CloseBrace)]
    case Semicolon => [X.Word(X.EndMark)]
    case Bang => [X.Bang]
    case Decrement => [X.Decrement]
    case Equals => [X.Equals]
    case CommaSign => [X.Comma]
    case Ident(n) => [X.Operand(n)]
    case Expression(e) => L.LoweredText(trees(e), false)
  }

  function Spelled(trees: Trees, ts: seq<P.Token>): Text {
    if ts == [] then [] else SpelledToken(trees, ts[0]) + Spelled(trees, ts[1..])
  }

  lemma {:induction false} SpelledJoins(trees: Trees, a: seq<P.Token>, b: seq<P.Token>)
    ensures Spelled(trees, a + b) == Spelled(trees, a) + Spelled(trees, b)
  {
    hide SpelledToken;
    if a == [] {
      assert a + b == b;
    } else {
      assert (a + b)[1..] == a[1..] + b && (a + b)[0] == a[0];
      SpelledJoins(trees, a[1..], b);
      Assoc(SpelledToken(trees, a[0]), Spelled(trees, a[1..]), Spelled(trees, b));
    }
  }

  lemma SpelledOne(trees: Trees, t: P.Token, more: seq<P.Token>)
    ensures Spelled(trees, [t]) == SpelledToken(trees, t)
    ensures Spelled(trees, [t] + more) == SpelledToken(trees, t) + Spelled(trees, more)
  {
    hide SpelledToken;
    assert ([t] + more)[1..] == more && [t][1..] == [];
    assert SpelledToken(trees, t) + [] == SpelledToken(trees, t);
  }

  // ---- the lowering with its expressions grouped ----

  /** What the text of a value groups to. */
  ghost function Grouped(trees: Trees, e: Expr): (g: X.Expr)
    ensures X.Respects(g) && X.Level(g) <= X.ASSIGN && X.Print(g) == L.LoweredText(trees(e), false)
  {
    L.LoweredRegroups(trees(e), false);
    L.LevelStays(trees(e), X.Regroup(L.LoweredText(trees(e), false)).value);
    X.Regroup(L.LoweredText(trees(e), false)).value
  }

  /** A value with its commas in the open. */
  ghost function ValueTree(trees: Trees, e: Expr): X.Expr {
    if e.Comma? then X.Binary(X.Comma, ValueTree(trees, e.first), Grouped(trees, e.last)) else Grouped(trees, e)
  }

  ghost function ConditionTree(trees: Trees, c: Condition): X.Expr {
    if c.parens then X.Paren(ValueTree(trees, c.expr)) else ValueTree(trees, c.expr)
  }

  ghost function GuardTree(trees: Trees, c: Cpp.CExpr): X.Expr {
    match c
    case Val(e) => ValueTree(trees, e)
    case Not(x) => X.Prefix(X.Bang, X.Paren(GuardTree(trees, x)))
    case PostDecrement(n) => X.Postfix(X.Leaf(n), X.Decrement)
  }

  ghost function InTrees(trees: Trees, c: Cpp.CStmt): Stmt
    decreases c
  {
    match c
    case Assign(x, e) => Value(X.Binary(X.Equals, X.Leaf(x), Grouped(trees, e)))
    case Declare(x, init, _) => Declare(x, ConditionTree(trees, init))
    case Break => Break
    case Continue => Continue
    case Empty => Empty
    case Block(ss) => Block(AllInTrees(trees, ss))
    case If(g, thn, els) =>
      If(GuardTree(trees, g), InTrees(trees, thn), if els.Some? then Some(InTrees(trees, els.value)) else None)
    case While(g, body) => While(GuardTree(trees, g), InTrees(trees, body))
    case Do(body, g) => Do(InTrees(trees, body), GuardTree(trees, g))
  }

  ghost function AllInTrees(trees: Trees, ss: Cpp.CStmts): Stmts
    decreases ss
  {
    match ss
    case Nil => Nil
    case Cons(s, rest) => Cons(InTrees(trees, s), AllInTrees(trees, rest))
  }

  // ---- expressions in the text ----

  lemma CommaTree(v: X.Expr, last: X.Expr)
    requires X.Respects(v) && X.Respects(last) && X.Level(last) <= X.ASSIGN
    ensures X.Respects(X.Binary(X.Comma, v, last))
    ensures X.Print(X.Binary(X.Comma, v, last)) == X.Print(v) + ([X.Comma] + X.Print(last))
  {
    hide X.Respects, X.Level;
    LevelIsLow(v);
    X.BinaryRespects(X.Comma, v, last);
    Assoc(X.Print(v), [X.Comma], X.Print(last));
  }

  lemma CommaText(trees: Trees, e: Expr)
    requires e.Comma?
    ensures Spelled(trees, P.ValueText(e))
         == Spelled(trees, P.ValueText(e.first)) + ([X.Comma] + L.LoweredText(trees(e.last), false))
  {
    hide L.LoweredText, Spelled;
    SpelledJoins(trees, P.ValueText(e.first), [P.CommaSign, P.Expression(e.last)]);
    assert [P.CommaSign, P.Expression(e.last)] == [P.CommaSign] + [P.Expression(e.last)];
    SpelledOne(trees, P.CommaSign, [P.Expression(e.last)]);
    SpelledOne(trees, P.Expression(e.last), []);
  }

  lemma {:induction false} ValueIsTree(trees: Trees, e: Expr)
    ensures var v := ValueTree(trees, e);
      X.Respects(v) && (!e.Comma? ==> X.Level(v) <= X.ASSIGN) && X.Print(v) == Spelled(trees, P.ValueText(e))
  {
    hide Grouped, Spelled, X.Print, X.Respects, X.Level, L.LoweredText;
    if e.Comma? {
      ValueIsTree(trees, e.first);
      CommaText(trees, e);
      CommaTree(ValueTree(trees, e.first), Grouped(trees, e.last));
    } else {
      SpelledOne(trees, P.Expression(e), []);
    }
  }

  lemma ParensText(trees: Trees, e: Expr)
    ensures Spelled(trees, [P.LParen] + P.ValueText(e) + [P.RParen])
         == [X.OpenParen] + X.Print(ValueTree(trees, e)) + [X.CloseParen]
  {
    hide ValueTree, P.ValueText;
    ValueIsTree(trees, e);
    SpelledJoins(trees, [P.LParen] + P.ValueText(e), [P.RParen]);
    SpelledOne(trees, P.LParen, P.ValueText(e));
    SpelledOne(trees, P.RParen, []);
  }

  lemma ParensRead(x: X.Expr, rest: Text)
    requires X.Respects(x)
    ensures ParseParens([X.OpenParen] + X.Print(x) + [X.CloseParen] + rest) == Some((x, rest))
  {
    hide X.ParseExpr, X.Print, X.Respects;
    var close := [X.CloseParen] + rest;
    var ts := [X.OpenParen] + X.Print(x) + [X.CloseParen] + rest;
    assert ts[1..] == X.Print(x) + close && close[1..] == rest;
    X.StopsBefore(X.CloseParen, rest, X.COMMA);
    LevelIsLow(x);
    X.ParseWhole(X.COMMA, x, close);
  }

  lemma LevelIsLow(x: X.Expr)
    requires X.Respects(x)
    ensures X.Level(x) <= X.COMMA
  {
  }

  lemma GuardRead(trees: Trees, negated: bool, c: Condition, rest: Text)
    ensures ParseParens(Spelled(trees, P.GuardText(negated, c)) + rest)
         == Some((GuardTree(trees, Printed.Guard(negated, c.expr)), rest))
  {
    hide ParseParens, ValueTree, P.ValueText, P.GuardText, P.IfGuardText, X.Print;
    Printed.GuardForm(negated, c);
    var v := ValueTree(trees, c.expr);
    var value := [P.LParen] + P.ValueText(c.expr) + [P.RParen];
    ValueIsTree(trees, c.expr);
    ParensText(trees, c.expr);
    if negated {
      var tree := X.Prefix(X.Bang, X.Paren(v));
      NegatedText(trees, value, v);
      assert X.Respects(tree) by { X.PrefixRespects(X.Bang, X.Paren(v)); }
      ParensRead(tree, rest);
    } else {
      ParensRead(v, rest);
    }
  }

  lemma NegatedText(trees: Trees, value: seq<P.Token>, v: X.Expr)
    requires Spelled(trees, value) == [X.OpenParen] + X.Print(v) + [X.CloseParen]
    ensures Spelled(trees, [P.LParen] + ([P.Bang] + value) + [P.RParen])
         == [X.OpenParen] + X.Print(X.Prefix(X.Bang, X.Paren(v))) + [X.CloseParen]
  {
    SpelledJoins(trees, [P.LParen] + ([P.Bang] + value), [P.RParen]);
    SpelledOne(trees, P.LParen, [P.Bang] + value);
    SpelledOne(trees, P.Bang, value);
    SpelledOne(trees, P.RParen, []);
  }

  lemma NothingBinds(t: X.Token, rest: Text, level: int)
    requires t.Word? || t == X.CloseParen
    ensures !X.Binds([t] + rest, level)
  {
  }

  /** name = value ; */
  lemma AssignmentRead(trees: Trees, x: string, e: Expr, rest: Text)
    ensures ParseStmt(Spelled(trees, [P.Ident(x), P.Equals, P.Expression(e), P.Semicolon]) + rest)
         == Some((InTrees(trees, Cpp.Assign(x, e)), rest))
  {
    hide X.ParseExpr, X.Respects, X.Level, Grouped;
    var g := Grouped(trees, e);
    var root := X.Binary(X.Equals, X.Leaf(x), g);
    var end := [X.Word(X.EndMark)] + rest;
    AssignmentTree(x, g);
    AssignmentText(trees, x, e);
    NothingBinds(X.Word(X.EndMark), rest, X.COMMA);
    LevelIsLow(root);
    X.ParseWhole(X.COMMA, root, end);
    var ts := X.Print(root) + [X.Word(X.EndMark)] + rest;
    Assoc(X.Print(root), [X.Word(X.EndMark)], rest);
    assert ts == X.Print(root) + end && ts[0] == X.Operand(x) && end[1..] == rest;
  }

  lemma AssignmentTree(x: string, g: X.Expr)
    requires X.Respects(g) && X.Level(g) <= X.ASSIGN
    ensures X.Respects(X.Binary(X.Equals, X.Leaf(x), g))
    ensures X.Print(X.Binary(X.Equals, X.Leaf(x), g)) == [X.Operand(x), X.Equals] + X.Print(g)
  {
  }

  lemma AssignmentText(trees: Trees, x: string, e: Expr)
    ensures Spelled(trees, [P.Ident(x), P.Equals, P.Expression(e), P.Semicolon])
         == [X.Operand(x), X.Equals] + L.LoweredText(trees(e), false) + [X.Word(X.EndMark)]
  {
    hide L.LoweredText, Spelled;
    assert [P.Ident(x), P.Equals, P.Expression(e), P.Semicolon]
        == [P.Ident(x)] + ([P.Equals] + ([P.Expression(e)] + [P.Semicolon]));
    SpelledOne(trees, P.Ident(x), [P.Equals] + ([P.Expression(e)] + [P.Semicolon]));
    SpelledOne(trees, P.Equals, [P.Expression(e)] + [P.Semicolon]);
    SpelledOne(trees, P.Expression(e), [P.Semicolon]);
    SpelledOne(trees, P.Semicolon, []);
    var value := L.LoweredText(trees(e), false);
    assert [X.Operand(x)] + ([X.Equals] + (value + [X.Word(X.EndMark)]))
        == [X.Operand(x), X.Equals] + value + [X.Word(X.EndMark)];
  }

  lemma ConditionIsTree(trees: Trees, c: Condition)
    requires !HasOpenComma(c)
    ensures var t := ConditionTree(trees, c);
      X.Respects(t) && X.Level(t) <= X.ASSIGN && X.Print(t) == Spelled(trees, P.ConditionText(c))
  {
    hide ValueTree, P.ValueText, X.Print;
    ValueIsTree(trees, c.expr);
    if c.parens {
      ParensText(trees, c.expr);
      ParenTree(ValueTree(trees, c.expr));
    }
  }

  lemma ParenTree(x: X.Expr)
    requires X.Respects(x)
    ensures X.Respects(X.Paren(x)) && X.Level(X.Paren(x)) == 0
    ensures X.Print(X.Paren(x)) == [X.OpenParen] + X.Print(x) + [X.CloseParen]
  {
  }

  lemma DeclarationRead(trees: Trees, n: string, c: Condition, rest: Text)
    requires !HasOpenComma(c)
    ensures ParseStmt([X.Word(X.IntWord), X.Operand(n), X.Equals] + Spelled(trees, P.ConditionText(c))
                      + [X.Word(X.EndMark)] + rest)
         == Some((Declare(n, ConditionTree(trees, c)), rest))
  {
    hide X.ParseExpr, X.Respects, X.Level, ConditionTree, P.ConditionText, Spelled, X.Print;
    var init := ConditionTree(trees, c);
    var end := [X.Word(X.EndMark)] + rest;
    ConditionIsTree(trees, c);
    NothingBinds(X.Word(X.EndMark), rest, X.ASSIGN);
    X.ParseWhole(X.ASSIGN, init, end);
    var ts := [X.Word(X.IntWord), X.Operand(n), X.Equals] + X.Print(init) + [X.Word(X.EndMark)] + rest;
    assert ts[1..][2..] == X.Print(init) + end && end[1..] == rest;
  }

  lemma CountdownRead(n: string, rest: Text)
    ensures ParseParens([X.OpenParen, X.Operand(n), X.Decrement, X.CloseParen] + rest)
         == Some((X.Postfix(X.Leaf(n), X.Decrement), rest))
  {
    var x := X.Postfix(X.Leaf(n), X.Decrement);
    assert X.Print(x) == [X.Operand(n), X.Decrement];
    assert X.Respects(X.Leaf(n));
    assert [X.OpenParen] + X.Print(x) + [X.CloseParen] == [X.OpenParen, X.Operand(n), X.Decrement, X.CloseParen];
    ParensRead(x, rest);
  }

  // One unfolding of the parser for each statement form.

  lemma BlockStep(ts: Text, ss: Stmts, rest: Text)
    requires ParseList(ts) == Some((ss, rest))
    ensures ParseStmt([X.Word(X.OpenBrace)] + ts) == Some((Block(ss), rest))
  {
    assert ([X.Word(X.OpenBrace)] + ts)[1..] == ts;
  }

  lemma ListStep(ts: Text, s: Stmt, r1: Text, ss: Stmts, r2: Text)
    requires !At(ts, X.Word(X.CloseBrace))
    requires ParseStmt(ts) == Some((s, r1)) && ParseList(r1) == Some((ss, r2))
    ensures ParseList(ts) == Some((Cons(s, ss), r2))
  {
  }

  lemma EndStep(rest: Text)
    ensures ParseList([X.Word(X.CloseBrace)] + rest) == Some((Nil, rest))
  {
    assert ([X.Word(X.CloseBrace)] + rest)[1..] == rest;
  }

  lemma IfStep(ts: Text, c: X.Expr, r1: Text, thn: Stmt, r2: Text)
    requires ParseParens(ts) == Some((c, r1)) && ParseStmt(r1) == Some((thn, r2)) && !At(r2, X.Word(X.ElseWord))
    ensures ParseStmt([X.Word(X.IfWord)] + ts) == Some((If(c, thn, None), r2))
  {
    assert ([X.Word(X.IfWord)] + ts)[1..] == ts;
  }

  lemma IfElseStep(ts: Text, c: X.Expr, r1: Text, thn: Stmt, r2: Text, els: Stmt, r3: Text)
    requires ParseParens(ts) == Some((c, r1)) && ParseStmt(r1) == Some((thn, [X.Word(X.ElseWord)] + r2))
    requires ParseStmt(r2) == Some((els, r3))
    ensures ParseStmt([X.Word(X.IfWord)] + ts) == Some((If(c, thn, Some(els)), r3))
  {
    assert ([X.Word(X.IfWord)] + ts)[1..] == ts;
    assert ([X.Word(X.ElseWord)] + r2)[1..] == r2;
  }

  lemma WhileStep(ts: Text, c: X.Expr, r1: Text, body: Stmt, r2: Text)
    requires ParseParens(ts) == Some((c, r1)) && ParseStmt(r1) == Some((body, r2))
    ensures ParseStmt([X.Word(X.WhileWord)] + ts) == Some((While(c, body), r2))
  {
    assert ([X.Word(X.WhileWord)] + ts)[1..] == ts;
  }

  lemma DoStep(ts: Text, body: Stmt, r1: Text, c: X.Expr, rest: Text)
    requires ParseStmt(ts) == Some((body, [X.Word(X.WhileWord)] + r1))
    requires ParseParens(r1) == Some((c, [X.Word(X.EndMark)] + rest))
    ensures ParseStmt([X.Word(X.DoWord)] + ts) == Some((Do(body, c), rest))
  {
    assert ([X.Word(X.DoWord)] + ts)[1..] == ts;
    assert ([X.Word(X.WhileWord)] + r1)[1..] == r1;
    assert ([X.Word(X.EndMark)] + rest)[1..] == rest;
  }

  // ---- whole statements ----

  /** The printed statement, spelled. */
  function TextOf(trees: Trees, s: Edl.Stmt, d: nat): Text {
    Spelled(trees, P.Terminated(s, d))
  }

  function TextOfAll(trees: Trees, ss: Edl.Stmts, d: nat): Text {
    Spelled(trees, P.TextAll(ss, d))
  }

  function TextOfBraced(trees: Trees, s: Edl.Stmt, d: nat): Text {
    Spelled(trees, P.BracedText(s, d))
  }

  /** A statement does not start as an else or the end of a block does. */
  lemma StartOf(trees: Trees, s: Edl.Stmt, d: nat)
    ensures var ts := TextOf(trees, s, d);
      ts != [] && ts[0] != X.Word(X.CloseBrace) && ts[0] != X.Word(X.ElseWord)
  {
    var ts := P.Terminated(s, d);
    Printed.StartsAStatement(s, d);
    assert ts == [ts[0]] + ts[1..];
    SpelledOne(trees, ts[0], ts[1..]);
    FirstToken(s, d);
  }

  lemma FirstToken(s: Edl.Stmt, d: nat)
    ensures P.Terminated(s, d) != [] && !P.Terminated(s, d)[0].Expression?
  {
    match s
    case Loop(kind, _, _) => assert P.Text(s, d) != [];
    case _ =>
  }

  lemma BlockText(trees: Trees, s: Edl.Stmt, d: nat, rest: Text)
    requires s.Block?
    ensures TextOf(trees, s, d) + rest
         == [X.Word(X.OpenBrace)] + (TextOfAll(trees, s.stmts, d) + ([X.Word(X.CloseBrace)] + rest))
  {
    hide Spelled, SpelledToken, P.Terminated, P.TextAll;
    Printed.BlockTextForm(s, d, []);
    var all := P.TextAll(s.stmts, d);
    assert P.Terminated(s, d) + [] == P.Terminated(s, d);
    assert all + [P.RBrace] + [] == all + [P.RBrace];
    SpelledOne(trees, P.LBrace, all + [P.RBrace]);
    SpelledJoins(trees, all, [P.RBrace]);
    SpelledOne(trees, P.RBrace, []);
    BraceTokens(trees);
  }

  lemma BraceTokens(trees: Trees)
    ensures SpelledToken(trees, P.LBrace) == [X.Word(X.OpenBrace)]
    ensures SpelledToken(trees, P.RBrace) == [X.Word(X.CloseBrace)]
  {
  }

  lemma LoopText(trees: Trees, s: Edl.Stmt, d: nat, rest: Text)
    requires s.Loop? && s.kind != Edl.Repeat
    ensures TextOf(trees, s, d) + rest
         == [X.Word(X.WhileWord)]
            + (Spelled(trees, P.GuardText(s.kind == Edl.UntilTrue, s.cond)) + (TextOf(trees, s.body, d) + rest))
  {
    hide Spelled, P.Terminated, P.GuardText;
    Printed.LoopTextForm(s, d, []);
    var guard, body := P.GuardText(s.kind == Edl.UntilTrue, s.cond), P.Terminated(s.body, d);
    assert P.Terminated(s, d) + [] == P.Terminated(s, d) && body + [] == body;
    SpelledOne(trees, P.KwWhile, guard + body);
    SpelledJoins(trees, guard, body);
    Assoc([X.Word(X.WhileWord)], Spelled(trees, guard) + Spelled(trees, body), rest);
    Assoc(Spelled(trees, guard), Spelled(trees, body), rest);
  }

  function ThenOf(trees: Trees, thn: Option<Edl.Stmt>, d: nat): Text {
    if thn.Some? then TextOf(trees, thn.value, d) else [X.Word(X.EndMark)]
  }

  function ElseOf(trees: Trees, els: Option<Edl.Stmt>, d: nat): Text {
    if els.Some? then [X.Word(X.ElseWord)] + TextOf(trees, els.value, d) else []
  }

  lemma BranchesText(trees: Trees, s: Edl.Stmt, d: nat)
    requires s.If?
    ensures Spelled(trees, P.ThenText(s.thn, d)) == ThenOf(trees, s.thn, d)
    ensures Spelled(trees, P.ElseText(s.els, d)) == ElseOf(trees, s.els, d)
  {
    hide P.Terminated;
    SpelledOne(trees, P.Semicolon, []);
    if s.els.Some? { SpelledOne(trees, P.KwElse, P.Terminated(s.els.value, d)); }
  }

  lemma IfText(trees: Trees, s: Edl.Stmt, d: nat, rest: Text)
    requires s.If?
    ensures TextOf(trees, s, d) + rest
         == [X.Word(X.IfWord)]
            + (Spelled(trees, P.GuardText(s.negated, s.cond))
               + (ThenOf(trees, s.thn, d) + (ElseOf(trees, s.els, d) + rest)))
  {
    hide Spelled, P.Terminated, P.GuardText, P.ThenText, P.ElseText, ThenOf, ElseOf;
    Printed.IfTextForm(s, d, []);
    var guard, thn, els := P.GuardText(s.negated, s.cond), P.ThenText(s.thn, d), P.ElseText(s.els, d);
    assert P.Terminated(s, d) + [] == P.Terminated(s, d) && els + [] == els;
    SpelledOne(trees, P.KwIf, guard + (thn + els));
    SpelledJoins(trees, guard, thn + els);
    SpelledJoins(trees, thn, els);
    BranchesText(trees, s, d);
    FourJoin([X.Word(X.IfWord)], Spelled(trees, guard), Spelled(trees, thn), Spelled(trees, els), rest);
  }

  lemma FourJoin(a: Text, b: Text, c: Text, d: Text, rest: Text)
    ensures a + (b + (c + d)) + rest == a + (b + (c + (d + rest)))
  {
    Assoc(a, b + (c + d), rest);
    Assoc(b, c + d, rest);
    Assoc(c, d, rest);
  }

  lemma BracedForm(trees: Trees, s: Edl.Stmt, d: nat, rest: Text)
    ensures TextOfBraced(trees, s, d) + rest
         == if s.Block? then TextOf(trees, s, d) + rest
            else [X.Word(X.OpenBrace)] + (TextOf(trees, s, d) + ([X.Word(X.CloseBrace)] + rest))
  {
    hide Spelled, SpelledToken, P.Terminated;
    if !s.Block? {
      var body := P.Terminated(s, d);
      Assoc([P.LBrace], body, [P.RBrace]);
      SpelledOne(trees, P.LBrace, body + [P.RBrace]);
      SpelledJoins(trees, body, [P.RBrace]);
      SpelledOne(trees, P.RBrace, []);
      BraceTokens(trees);
      var open, close, text := [X.Word(X.OpenBrace)], [X.Word(X.CloseBrace)], Spelled(trees, body);
      assert open + (text + close) + rest == open + (text + (close + rest));
    }
  }

  lemma DoText(trees: Trees, s: Edl.Stmt, d: nat, rest: Text)
    requires s.Do?
    ensures TextOf(trees, s, d) + rest
         == [X.Word(X.DoWord)]
            + (TextOfBraced(trees, s.body, d)
               + ([X.Word(X.WhileWord)]
                  + (Spelled(trees, P.GuardText(s.isUntil, s.cond)) + ([X.Word(X.EndMark)] + rest))))
  {
    hide Spelled, P.Terminated, P.GuardText, P.BracedText;
    Printed.DoTextForm(s, d, []);
    var body, guard := P.BracedText(s.body, d), P.GuardText(s.isUntil, s.cond);
    assert P.Terminated(s, d) + [] == P.Terminated(s, d) && [P.Semicolon] + [] == [P.Semicolon];
    var tail := [P.KwWhile] + (guard + [P.Semicolon]);
    SpelledOne(trees, P.KwDo, body + tail);
    SpelledJoins(trees, body, tail);
    SpelledOne(trees, P.KwWhile, guard + [P.Semicolon]);
    SpelledJoins(trees, guard, [P.Semicolon]);
    SpelledOne(trees, P.Semicolon, []);
    var end := Spelled(trees, guard) + [X.Word(X.EndMark)];
    FourJoin([X.Word(X.DoWord)], Spelled(trees, body), [X.Word(X.WhileWord)], end, rest);
    Assoc(Spelled(trees, guard), [X.Word(X.EndMark)], rest);
  }

  /** The head of a counted loop: declaration, and while with its countdown. */
  function CountedHead(trees: Trees, n: string, c: Condition, body: Text): Text {
    [X.Word(X.IntWord), X.Operand(n), X.Equals] + Spelled(trees, P.ConditionText(c)) + [X.Word(X.EndMark)]
    + ([X.Word(X.WhileWord)] + ([X.OpenParen, X.Operand(n), X.Decrement, X.CloseParen] + body))
  }

  lemma CountdownText(trees: Trees, n: string, more: seq<P.Token>)
    ensures Spelled(trees, [P.KwWhile] + ([P.LParen, P.Ident(n), P.Decrement, P.RParen] + more))
         == [X.Word(X.WhileWord)] + ([X.OpenParen, X.Operand(n), X.Decrement, X.CloseParen] + Spelled(trees, more))
  {
    hide Spelled;
    var guard := [P.LParen, P.Ident(n), P.Decrement, P.RParen];
    assert guard + more == [P.LParen] + ([P.Ident(n)] + ([P.Decrement] + ([P.RParen] + more)));
    SpelledOne(trees, P.KwWhile, guard + more);
    SpelledOne(trees, P.LParen, [P.Ident(n)] + ([P.Decrement] + ([P.RParen] + more)));
    SpelledOne(trees, P.Ident(n), [P.Decrement] + ([P.RParen] + more));
    SpelledOne(trees, P.Decrement, [P.RParen] + more);
    SpelledOne(trees, P.RParen, more);
  }

  lemma DeclarationText(trees: Trees, n: string, c: Condition, more: seq<P.Token>)
    ensures Spelled(trees, [P.KwInt] + ([P.Ident(n), P.Equals] + P.ConditionText(c) + [P.Semicolon] + more))
         == [X.Word(X.IntWord), X.Operand(n), X.Equals] + Spelled(trees, P.ConditionText(c)) + [X.Word(X.EndMark)]
            + Spelled(trees, more)
  {
    hide Spelled, P.ConditionText;
    var count := P.ConditionText(c);
    var tail := count + ([P.Semicolon] + more);
    assert [P.Ident(n), P.Equals] + count + [P.Semicolon] + more == [P.Ident(n)] + ([P.Equals] + tail);
    SpelledOne(trees, P.KwInt, [P.Ident(n)] + ([P.Equals] + tail));
    SpelledOne(trees, P.Ident(n), [P.Equals] + tail);
    SpelledOne(trees, P.Equals, tail);
    SpelledJoins(trees, count, [P.Semicolon] + more);
    SpelledOne(trees, P.Semicolon, more);
    var text, after := Spelled(trees, count), Spelled(trees, more);
    assert [X.Word(X.IntWord)] + ([X.Operand(n)] + ([X.Equals] + (text + ([X.Word(X.EndMark)] + after))))
        == [X.Word(X.IntWord), X.Operand(n), X.Equals] + text + [X.Word(X.EndMark)] + after;
  }

  lemma RepeatText(trees: Trees, s: Edl.Stmt, d: nat, rest: Text)
    requires s.Loop? && s.kind == Edl.Repeat
    ensures TextOf(trees, s, d) + rest
         == [X.Word(X.OpenBrace)]
            + CountedHead(trees, CounterName(d), s.cond, TextOf(trees, s.body, d + 1) + ([X.Word(X.CloseBrace)] + rest))
  {
    hide Spelled, SpelledToken, P.Terminated, P.ConditionText, CounterName;
    Printed.RepeatTextForm(s, d, []);
    var n, body := CounterName(d), P.Terminated(s.body, d + 1);
    var loop := [P.KwWhile] + ([P.LParen, P.Ident(n), P.Decrement, P.RParen] + (body + [P.RBrace]));
    assert P.Terminated(s, d) + [] == P.Terminated(s, d) && [P.RBrace] + [] == [P.RBrace];
    SpelledOne(trees, P.LBrace, [P.KwInt] + ([P.Ident(n), P.Equals] + P.ConditionText(s.cond) + [P.Semicolon] + loop));
    DeclarationText(trees, n, s.cond, loop);
    CountdownText(trees, n, body + [P.RBrace]);
    SpelledJoins(trees, body, [P.RBrace]);
    SpelledOne(trees, P.RBrace, []);
    BraceTokens(trees);
    CountedTail(trees, n, s.cond, Spelled(trees, body), rest);
  }

  lemma CountedTail(trees: Trees, n: string, c: Condition, body: Text, rest: Text)
    ensures [X.Word(X.OpenBrace)] + CountedHead(trees, n, c, body + [X.Word(X.CloseBrace)]) + rest
         == [X.Word(X.OpenBrace)] + CountedHead(trees, n, c, body + ([X.Word(X.CloseBrace)] + rest))
  {
    hide Spelled;
    var head := [X.Word(X.IntWord), X.Operand(n), X.Equals] + Spelled(trees, P.ConditionText(c)) + [X.Word(X.EndMark)];
    var guard := [X.OpenParen, X.Operand(n), X.Decrement, X.CloseParen];
    var close := [X.Word(X.CloseBrace)];
    FourJoin(head, [X.Word(X.WhileWord)], guard, body + close, rest);
    Assoc(body, close, rest);
    Assoc([X.Word(X.OpenBrace)], CountedHead(trees, n, c, body + close), rest);
  }

  lemma AllText(trees: Trees, ss: Edl.Stmts, d: nat, rest: Text)
    requires ss.Cons?
    ensures TextOfAll(trees, ss, d) + rest == TextOf(trees, ss.head, d) + (TextOfAll(trees, ss.tail, d) + rest)
  {
    hide Spelled, P.Terminated;
    SpelledJoins(trees, P.Terminated(ss.head, d), P.TextAll(ss.tail, d));
    Assoc(TextOf(trees, ss.head, d), TextOfAll(trees, ss.tail, d), rest);
  }

  // ---- the text parses ----

  /** The whole text of a statement parses to its lowering, every expression in it what its
      own text groups to, and leaves exactly what follows. */
  lemma {:induction false} FlatTextParses(trees: Trees, s: Edl.Stmt, d: nat, rest: Text)
    requires Edl.ElsesNearest(s) && Edl.CountsClosed(s)
    requires Edl.EndsInOpenIf(s) ==> !At(rest, X.Word(X.ElseWord))
    ensures ParseStmt(TextOf(trees, s, d) + rest) == Some((InTrees(trees, Printed.Lower(s, d)), rest))
    decreases s, 1
  {
    hide ParseStmt, TextOf, GuardTree, P.Terminated, Spelled, Parsable;
    match s
    case Assign(_, _) => AssignRead(trees, s, d, rest);
    case Break => JumpRead(trees, s, d, rest);
    case Continue => JumpRead(trees, s, d, rest);
    case Block(ss) =>
      BlockText(trees, s, d, rest);
      FlatTextAllParses(trees, ss, d, rest);
      BlockStep(TextOfAll(trees, ss, d) + ([X.Word(X.CloseBrace)] + rest),
                AllInTrees(trees, Printed.LowerAll(ss, d)), rest);
    case If(_, _, _, _) => FlatIfParses(trees, s, d, rest);
    case Loop(kind, c, body) =>
      if kind == Edl.Repeat {
        FlatRepeatParses(trees, s, d, rest);
      } else {
        FlatTextParses(trees, body, d, rest);
        LoopRead(trees, s, d, rest);
      }
    case Do(_, _, _) => FlatDoParses(trees, s, d, rest);
  }

  lemma AssignRead(trees: Trees, s: Edl.Stmt, d: nat, rest: Text)
    requires s.Assign?
    ensures ParseStmt(TextOf(trees, s, d) + rest) == Some((InTrees(trees, Printed.Lower(s, d)), rest))
  {
    hide ParseStmt, Spelled;
    assert P.Terminated(s, d) == [P.Ident(s.target), P.Equals, P.Expression(s.value), P.Semicolon];
    AssignmentRead(trees, s.target, s.value, rest);
  }

  lemma LoopRead(trees: Trees, s: Edl.Stmt, d: nat, rest: Text)
    requires s.Loop? && s.kind != Edl.Repeat
    requires ParseStmt(TextOf(trees, s.body, d) + rest) == Some((InTrees(trees, Printed.Lower(s.body, d)), rest))
    ensures ParseStmt(TextOf(trees, s, d) + rest) == Some((InTrees(trees, Printed.Lower(s, d)), rest))
  {
    hide ParseStmt, ParseParens, TextOf, GuardTree, P.GuardText, Spelled, P.Terminated;
    var negated, r1 := s.kind == Edl.UntilTrue, TextOf(trees, s.body, d) + rest;
    GuardRead(trees, negated, s.cond, r1);
    WhileStep(Spelled(trees, P.GuardText(negated, s.cond)) + r1,
              GuardTree(trees, Printed.Guard(negated, s.cond.expr)), r1, InTrees(trees, Printed.Lower(s.body, d)), rest);
    LoopText(trees, s, d, rest);
  }

  lemma JumpRead(trees: Trees, s: Edl.Stmt, d: nat, rest: Text)
    requires (s.Break? || s.Continue?)
    ensures ParseStmt(TextOf(trees, s, d) + rest) == Some((InTrees(trees, Printed.Lower(s, d)), rest))
  {
    var word := if s.Break? then P.KwBreak else P.KwContinue;
    assert P.Terminated(s, d) == [word] + [P.Semicolon];
    SpelledOne(trees, word, [P.Semicolon]);
    SpelledOne(trees, P.Semicolon, []);
    var ts := TextOf(trees, s, d) + rest;
    assert ts[1..] == [X.Word(X.EndMark)] + rest && ts[2..] == rest;
  }

  lemma {:induction false} FlatIfParses(trees: Trees, s: Edl.Stmt, d: nat, rest: Text)
    requires s.If? && Edl.ElsesNearest(s) && Edl.CountsClosed(s)
    requires Edl.EndsInOpenIf(s) ==> !At(rest, X.Word(X.ElseWord))
    ensures ParseStmt(TextOf(trees, s, d) + rest) == Some((InTrees(trees, Printed.Lower(s, d)), rest))
    decreases s, 0
  {
    hide ParseStmt, ParseParens, TextOf, GuardTree, P.GuardText, ThenOf, Spelled, Parsable, P.Terminated;
    IfText(trees, s, d, rest);
    var r2 := ElseOf(trees, s.els, d) + rest;
    var r1 := ThenOf(trees, s.thn, d) + r2;
    var text := Spelled(trees, P.GuardText(s.negated, s.cond)) + r1;
    var guard := GuardTree(trees, Printed.Guard(s.negated, s.cond.expr));
    var thn := InTrees(trees, Printed.LowerThen(s.thn, d));
    GuardRead(trees, s.negated, s.cond, r1);
    FlatThenParses(trees, s, d, r2);
    if s.els.Some? {
      var r3 := TextOf(trees, s.els.value, d) + rest;
      Assoc([X.Word(X.ElseWord)], TextOf(trees, s.els.value, d), rest);
      FlatTextParses(trees, s.els.value, d, rest);
      IfElseStep(text, guard, r1, thn, r3, InTrees(trees, Printed.Lower(s.els.value, d)), rest);
    } else {
      assert r2 == rest;
      IfStep(text, guard, r1, thn, rest);
    }
  }

  lemma {:induction false} FlatThenParses(trees: Trees, s: Edl.Stmt, d: nat, r2: Text)
    requires s.If? && Edl.ElsesNearest(s) && Edl.CountsClosed(s)
    requires s.els.None? ==> !At(r2, X.Word(X.ElseWord))
    ensures ParseStmt(ThenOf(trees, s.thn, d) + r2) == Some((InTrees(trees, Printed.LowerThen(s.thn, d)), r2))
    decreases s, 0, 0
  {
    hide TextOf;
    if s.thn.Some? {
      FlatTextParses(trees, s.thn.value, d, r2);
    } else {
      assert (ThenOf(trees, s.thn, d) + r2)[1..] == r2;
    }
  }

  lemma {:induction false} FlatRepeatParses(trees: Trees, s: Edl.Stmt, d: nat, rest: Text)
    requires s.Loop? && s.kind == Edl.Repeat && Edl.ElsesNearest(s) && Edl.CountsClosed(s)
    ensures ParseStmt(TextOf(trees, s, d) + rest) == Some((InTrees(trees, Printed.Lower(s, d)), rest))
    decreases s, 0
  {
    hide ParseStmt, ParseList, TextOf, CounterName, Spelled, ConditionTree;
    var n, close := CounterName(d), [X.Word(X.CloseBrace)] + rest;
    var body := TextOf(trees, s.body, d + 1) + close;
    var guard := [X.OpenParen, X.Operand(n), X.Decrement, X.CloseParen] + body;
    var loop := [X.Word(X.WhileWord)] + guard;
    var text := CountedHead(trees, n, s.cond, body);
    FlatTextParses(trees, s.body, d + 1, close);
    CountdownRead(n, body);
    var counted := While(X.Postfix(X.Leaf(n), X.Decrement), InTrees(trees, Printed.Lower(s.body, d + 1)));
    WhileStep(guard, counted.cond, body, counted.body, close);
    EndStep(rest);
    ListStep(loop, counted, close, Nil, rest);
    DeclarationRead(trees, n, s.cond, loop);
    var declared := Declare(n, ConditionTree(trees, s.cond));
    ListStep(text, declared, loop, Cons(counted, Nil), rest);
    BlockStep(text, Cons(declared, Cons(counted, Nil)), rest);
    RepeatText(trees, s, d, rest);
    CountedInTrees(trees, n, s.cond, Printed.Lower(s.body, d + 1));
  }

  lemma CountedInTrees(trees: Trees, n: string, c: Condition, body: Cpp.CStmt)
    ensures InTrees(trees, Printed.CountedWhile(n, c, body))
         == Block(Cons(Declare(n, ConditionTree(trees, c)),
                       Cons(While(X.Postfix(X.Leaf(n), X.Decrement), InTrees(trees, body)), Nil)))
  {
    hide ConditionTree;
    var loop := Cpp.While(Cpp.PostDecrement(n), body);
    assert AllInTrees(trees, Cpp.Nil) == Nil;
    var tail := Cpp.Cons(loop, Cpp.Nil);
    assert AllInTrees(trees, tail) == Cons(InTrees(trees, loop), Nil);
    assert InTrees(trees, loop) == While(X.Postfix(X.Leaf(n), X.Decrement), InTrees(trees, body));
    var head := Cpp.Declare(n, c, []);
    assert AllInTrees(trees, Cpp.Cons(head, tail)) == Cons(InTrees(trees, head), AllInTrees(trees, tail));
  }

  lemma {:induction false} FlatDoParses(trees: Trees, s: Edl.Stmt, d: nat, rest: Text)
    requires s.Do? && Edl.ElsesNearest(s) && Edl.CountsClosed(s)
    ensures ParseStmt(TextOf(trees, s, d) + rest) == Some((InTrees(trees, Printed.Lower(s, d)), rest))
    decreases s, 0
  {
    hide ParseStmt, ParseList, TextOf, TextOfBraced, GuardTree, P.GuardText, Spelled;
    DoText(trees, s, d, rest);
    var guard := Spelled(trees, P.GuardText(s.isUntil, s.cond)) + ([X.Word(X.EndMark)] + rest);
    var r1 := [X.Word(X.WhileWord)] + guard;
    GuardRead(trees, s.isUntil, s.cond, [X.Word(X.EndMark)] + rest);
    FlatBracedParses(trees, s, d, r1);
    DoStep(TextOfBraced(trees, s.body, d) + r1, InTrees(trees, Printed.LowerBraced(s.body, d)), guard,
           GuardTree(trees, Printed.Guard(s.isUntil, s.cond.expr)), rest);
  }

  lemma {:induction false} FlatBracedParses(trees: Trees, s: Edl.Stmt, d: nat, r1: Text)
    requires s.Do? && Edl.ElsesNearest(s) && Edl.CountsClosed(s)
    requires At(r1, X.Word(X.WhileWord))
    ensures ParseStmt(TextOfBraced(trees, s.body, d) + r1)
         == Some((InTrees(trees, Printed.LowerBraced(s.body, d)), r1))
    decreases s, 0, 0
  {
    hide ParseStmt, ParseList, TextOf, TextOfBraced, Spelled, P.Terminated, Parsable;
    BracedForm(trees, s.body, d, r1);
    if s.body.Block? {
      FlatTextParses(trees, s.body, d, r1);
    } else {
      var close := [X.Word(X.CloseBrace)] + r1;
      var inner, low := TextOf(trees, s.body, d) + close, Printed.Lower(s.body, d);
      FlatTextParses(trees, s.body, d, close);
      EndStep(r1);
      StartOf(trees, s.body, d);
      ListStep(inner, InTrees(trees, low), close, Nil, r1);
      BlockStep(inner, Cons(InTrees(trees, low), Nil), r1);
      assert AllInTrees(trees, Cpp.Nil) == Nil;
      assert AllInTrees(trees, Cpp.Cons(low, Cpp.Nil)) == Cons(InTrees(trees, low), Nil);
    }
  }

  lemma {:induction false} FlatTextAllParses(trees: Trees, ss: Edl.Stmts, d: nat, rest: Text)
    requires Edl.AllElsesNearest(ss) && Edl.AllCountsClosed(ss)
    ensures ParseList(TextOfAll(trees, ss, d) + ([X.Word(X.CloseBrace)] + rest))
         == Some((AllInTrees(trees, Printed.LowerAll(ss, d)), rest))
    decreases ss, 0
  {
    hide ParseStmt, ParseList, TextOf, Parsable, Spelled, P.Terminated;
    var close := [X.Word(X.CloseBrace)] + rest;
    if ss.Nil? {
      EndStep(rest);
      NoText(trees, d);
      assert [] + close == close;
    } else {
      hide TextOfAll;
      var more := TextOfAll(trees, ss.tail, d) + close;
      AllText(trees, ss, d, close);
      StartOf(trees, ss.head, d);
      MoreIsNoElse(trees, ss.tail, d, close);
      FlatTextParses(trees, ss.head, d, more);
      FlatTextAllParses(trees, ss.tail, d, rest);
      ListStep(TextOf(trees, ss.head, d) + more, InTrees(trees, Printed.Lower(ss.head, d)), more,
               AllInTrees(trees, Printed.LowerAll(ss.tail, d)), rest);
    }
  }

  lemma NoText(trees: Trees, d: nat)
    ensures TextOfAll(trees, Edl.Nil, d) == []
  {
  }

  lemma MoreIsNoElse(trees: Trees, ss: Edl.Stmts, d: nat, close: Text)
    requires At(close, X.Word(X.CloseBrace))
    ensures !At(TextOfAll(trees, ss, d) + close, X.Word(X.ElseWord))
  {
    hide TextOf;
    if ss.Cons? {
      hide TextOfAll;
      StartOf(trees, ss.head, d);
      AllText(trees, ss, d, close);
    } else {
      NoText(trees, d);
    }
  }

  /** End to end, statements and expressions in one text: C++ reads the printed statement
      completely as its lowering, every value replaced by what its own text groups to. */
  lemma FlatProgramParses(trees: Trees, s: Edl.Stmt, d: nat)
    requires Edl.ElsesNearest(s) && Edl.CountsClosed(s)
    ensures ParseStmt(TextOf(trees, s, d)) == Some((InTrees(trees, Printed.Lower(s, d)), []))
  {
    hide ParseStmt, TextOf;
    FlatTextParses(trees, s, d, []);
    assert TextOf(trees, s, d) + [] == TextOf(trees, s, d);
  }

  // ---- comparing equals and real division ----

  /** A value is read as its tree with the changes made in place exactly when that tree
      needs no parentheses in C++. */
  lemma GroupedInPlaceExactly(trees: Trees, e: Expr)
    ensures Grouped(trees, e) == L.Lower(trees(e), false) <==> X.Respects(L.Lower(trees(e), false))
  {
    hide X.Respects, X.Regroup, X.Print;
    L.LoweredTextPrintsLowered(trees(e), false);
    X.FlatPrintingLosesNothing(L.Lower(trees(e), false));
    X.FlatPrintingLosesNothing(Grouped(trees, e));
  }

  predicate DivisorsCast(s: Stmt)
    decreases s
  {
    match s
    case Value(e) => D.DivisorsCast(e)
    case Declare(_, e) => D.DivisorsCast(e)
    case Block(ss) => AllDivisorsCast(ss)
    case If(c, thn, els) => D.DivisorsCast(c) && DivisorsCast(thn) && (els.Some? ==> DivisorsCast(els.value))
    case While(c, body) => D.DivisorsCast(c) && DivisorsCast(body)
    case Do(body, c) => DivisorsCast(body) && D.DivisorsCast(c)
    case _ => true
  }

  predicate AllDivisorsCast(ss: Stmts)
    decreases ss
  {
    ss.Cons? ==> DivisorsCast(ss.head) && AllDivisorsCast(ss.tail)
  }

  /** Every divisor in the values of the program is a unary or tighter expression. */
  ghost predicate DivisorsUnary(trees: Trees, s: Edl.Stmt)
    decreases s
  {
    match s
    case Assign(_, e) => L.DivisorsUnary(trees(e))
    case Block(ss) => AllDivisorsUnary(trees, ss)
    case If(c, _, thn, els) =>
      && ValueUnary(trees, c.expr)
      && (thn.Some? ==> DivisorsUnary(trees, thn.value)) && (els.Some? ==> DivisorsUnary(trees, els.value))
    case Loop(_, c, body) => ValueUnary(trees, c.expr) && DivisorsUnary(trees, body)
    case Do(body, c, _) => DivisorsUnary(trees, body) && ValueUnary(trees, c.expr)
    case _ => true
  }

  ghost predicate AllDivisorsUnary(trees: Trees, ss: Edl.Stmts)
    decreases ss
  {
    ss.Cons? ==> DivisorsUnary(trees, ss.head) && AllDivisorsUnary(trees, ss.tail)
  }

  ghost predicate ValueUnary(trees: Trees, e: Expr) {
    if e.Comma? then ValueUnary(trees, e.first) && L.DivisorsUnary(trees(e.last)) else L.DivisorsUnary(trees(e))
  }

  lemma GroupedCasts(trees: Trees, e: Expr)
    ensures D.DivisorsCast(Grouped(trees, e)) <==> L.DivisorsUnary(trees(e))
  {
    hide D.DivisorsCast, L.DivisorsUnary, X.Regroup;
    D.CastCoversDivisorExactly(trees(e), false);
    X.FlatPrintingLosesNothing(Grouped(trees, e));
  }

  lemma {:induction false} ValueCasts(trees: Trees, e: Expr)
    ensures D.DivisorsCast(ValueTree(trees, e)) <==> ValueUnary(trees, e)
  {
    hide Grouped, L.DivisorsUnary;
    if e.Comma? {
      ValueCasts(trees, e.first);
      GroupedCasts(trees, e.last);
    } else {
      GroupedCasts(trees, e);
    }
  }

  lemma GuardCasts(trees: Trees, negated: bool, e: Expr)
    ensures D.DivisorsCast(GuardTree(trees, Printed.Guard(negated, e))) <==> ValueUnary(trees, e)
  {
    hide ValueTree, ValueUnary;
    ValueCasts(trees, e);
    var v := ValueTree(trees, e);
    assert D.DivisorsCast(X.Paren(v)) <==> D.DivisorsCast(v);
  }

  lemma {:induction false} LoweringCasts(trees: Trees, s: Edl.Stmt, d: nat)
    ensures DivisorsCast(InTrees(trees, Printed.Lower(s, d))) <==> DivisorsUnary(trees, s)
    decreases s, 0
  {
    hide GuardTree, ValueUnary, D.DivisorsCast, L.DivisorsUnary, Grouped, Printed.Guard, Parsable, CounterName;
    match s
    case Assign(x, e) =>
      GroupedCasts(trees, e);
      AssignmentCasts(x, Grouped(trees, e));
    case Block(ss) => AllLoweringCasts(trees, ss, d);
    case If(c, negated, thn, els) =>
      GuardCasts(trees, negated, c.expr);
      if thn.Some? { LoweringCasts(trees, thn.value, d); }
      if els.Some? { LoweringCasts(trees, els.value, d); }
    case Loop(kind, c, body) =>
      if kind == Edl.Repeat {
        LoweringCasts(trees, body, d + 1);
        CountedCasts(trees, CounterName(d), c, Printed.Lower(body, d + 1));
      } else {
        GuardCasts(trees, kind == Edl.UntilTrue, c.expr);
        LoweringCasts(trees, body, d);
      }
    case Do(body, c, isUntil) =>
      GuardCasts(trees, isUntil, c.expr);
      LoweringCasts(trees, body, d);
      BracedCasts(trees, body, d);
    case _ =>
  }

  lemma AssignmentCasts(x: string, g: X.Expr)
    ensures D.DivisorsCast(X.Binary(X.Equals, X.Leaf(x), g)) <==> D.DivisorsCast(g)
  {
    assert D.DivisorsCast(X.Leaf(x));
  }

  lemma CountedCasts(trees: Trees, n: string, c: Condition, body: Cpp.CStmt)
    ensures DivisorsCast(InTrees(trees, Printed.CountedWhile(n, c, body)))
       <==> ValueUnary(trees, c.expr) && DivisorsCast(InTrees(trees, body))
  {
    hide ValueTree, ValueUnary;
    CountedInTrees(trees, n, c, body);
    ValueCasts(trees, c.expr);
    var counter := X.Postfix(X.Leaf(n), X.Decrement);
    assert D.DivisorsCast(X.Leaf(n));
    var loop := While(counter, InTrees(trees, body));
    assert AllDivisorsCast(Cons(loop, Nil)) <==> DivisorsCast(loop);
    var declared := Declare(n, ConditionTree(trees, c));
    assert AllDivisorsCast(Cons(declared, Cons(loop, Nil))) <==> DivisorsCast(declared) && DivisorsCast(loop);
  }

  lemma BracedCasts(trees: Trees, s: Edl.Stmt, d: nat)
    ensures DivisorsCast(InTrees(trees, Printed.LowerBraced(s, d))) <==> DivisorsCast(InTrees(trees, Printed.Lower(s, d)))
  {
    if !s.Block? {
      var low := Printed.Lower(s, d);
      assert AllInTrees(trees, Cpp.Nil) == Nil;
      assert AllInTrees(trees, Cpp.Cons(low, Cpp.Nil)) == Cons(InTrees(trees, low), Nil);
      assert AllDivisorsCast(Cons(InTrees(trees, low), Nil)) <==> DivisorsCast(InTrees(trees, low));
    }
  }

  lemma {:induction false} AllLoweringCasts(trees: Trees, ss: Edl.Stmts, d: nat)
    ensures AllDivisorsCast(AllInTrees(trees, Printed.LowerAll(ss, d))) <==> AllDivisorsUnary(trees, ss)
    decreases ss, 0
  {
    match ss
    case Nil =>
    case Cons(s, rest) =>
      LoweringCasts(trees, s, d);
      AllLoweringCasts(trees, rest, d);
  }

  /** In the whole text of a program, every divisor C++ reads is cast to double as a whole
      exactly when every divisor of the program was unary or tighter. */
  lemma ProgramDivisorsCastExactly(trees: Trees, s: Edl.Stmt, d: nat)
    requires Edl.ElsesNearest(s) && Edl.CountsClosed(s)
    ensures ParseStmt(TextOf(trees, s, d)).Some?
    ensures DivisorsCast(ParseStmt(TextOf(trees, s, d)).value.0) <==> DivisorsUnary(trees, s)
  {
    hide ParseStmt, TextOf, DivisorsCast, DivisorsUnary;
    FlatProgramParses(trees, s, d);
    LoweringCasts(trees, s, d);
  }
}
