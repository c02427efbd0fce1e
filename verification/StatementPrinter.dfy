// CppPrettyPrinter on control statements: the tokens it writes, the C++ statement
// those tokens parse to, and the meaning of that statement.
module StatementText {
  import opened Decimal
  import opened Options
  import opened Sequences
  import opened Stores
  import opened Edl

  datatype Token =
    | KwIf | KwElse | KwWhile | KwDo | KwBreak | KwContinue | KwInt
    | LParen | RParen | LBrace | RBrace | Semicolon | Bang | Decrement | Equals
    | CommaSign
    | Ident(name: string)
    | Expression(e: Expr)

  /** An expression with its commas in the open. Expression is the text of one without;
      a comma in it is in parentheses. */
  function ValueText(e: Expr): seq<Token> {
    if e.Comma? then ValueText(e.first) + [CommaSign, Expression(e.last)] else [Expression(e)]
  }

  function ConditionText(c: Condition): seq<Token> {
    if c.parens then [LParen] + ValueText(c.expr) + [RParen] else ValueText(c.expr)
  }

  function OpenUnlessParens(c: Condition): seq<Token> {
    if c.parens then [] else [LParen]
  }

  function CloseUnlessParens(c: Condition): seq<Token> {
    if c.parens then [] else [RParen]
  }

  /** The tokens printed before and after an until-loop's condition. */
  function NotOpen(negated: bool, c: Condition): seq<Token> {
    if !negated then [] else if c.parens then [LParen, Bang] else [Bang, LParen]
  }

  function NotClose(negated: bool): seq<Token> {
    if negated then [RParen] else []
  }

  function GuardText(negated: bool, c: Condition): seq<Token> {
    OpenUnlessParens(c) + NotOpen(negated, c) + ConditionText(c) + NotClose(negated) + CloseUnlessParens(c)
  }

  function IfGuardText(negated: bool, c: Condition): seq<Token> {
    (if negated then [LParen, Bang] else [])
    + OpenUnlessParens(c) + ConditionText(c) + CloseUnlessParens(c) + NotClose(negated)
  }

  function SemicolonText(s: Stmt): seq<Token> {
    if s.Assign? || s.Break? || s.Continue? then [Semicolon] else []
  }

  function RepeatHead(c: Condition, counter: string): seq<Token> {
    [LBrace, KwInt, Ident(counter), Equals] + ConditionText(c)
    + [Semicolon, KwWhile, LParen, Ident(counter), Decrement, RParen]
  }

  /** The text of a statement inside d enclosing repeats. */
  function Text(s: Stmt, d: nat): seq<Token>
    decreases s, 0
  {
    match s
    case Assign(x, e) => [Ident(x), Equals, Expression(e)]
    case Break => [KwBreak]
    case Continue => [KwContinue]
    case Block(ss) => [LBrace] + TextAll(ss, d) + [RBrace]
    case If(c, negated, thn, els) =>
      [KwIf] + IfGuardText(negated, c)
      + ThenText(thn, d) + ElseText(els, d)
    case Loop(Repeat, c, body) =>
      RepeatHead(c, CounterName(d)) + Terminated(body, d + 1) + [RBrace]
    case Loop(kind, c, body) =>
      [KwWhile] + GuardText(kind == UntilTrue, c) + Terminated(body, d)
    case Do(body, c, isUntil) =>
      [KwDo] + BracedText(body, d) + ([KwWhile] + GuardText(isUntil, c)) + [Semicolon]
  }

  /** A statement where a semicolon may follow it. */
  function Terminated(s: Stmt, d: nat): seq<Token>
    decreases s, 1
  {
    Text(s, d) + SemicolonText(s)
  }

  function ThenText(thn: Option<Stmt>, d: nat): seq<Token>
    decreases thn, 2
  {
    if thn.Some? then Terminated(thn.value, d) else [Semicolon]
  }

  function ElseText(els: Option<Stmt>, d: nat): seq<Token>
    decreases els, 2
  {
    if els.Some? then [KwElse] + Terminated(els.value, d) else []
  }

  function BracedText(s: Stmt, d: nat): seq<Token>
    decreases s, 2
  {
    if s.Block? then Terminated(s, d) else [LBrace] + Terminated(s, d) + [RBrace]
  }

  function TextAll(ss: Stmts, d: nat): seq<Token>
    decreases ss, 0
  {
    match ss
    case Nil => []
    case Cons(s, rest) => Terminated(s, d) + TextAll(rest, d)
  }

  /** The printer: an output stream and the depth of the repeats being printed. */
  class Printer {
    var out: seq<Token>
    var repeatDepth: nat

    constructor ()
      ensures out == [] && repeatDepth == 0
    {
      out, repeatDepth := [], 0;
    }

    method Print(code: seq<Token>)
      modifies this`out
      ensures out == old(out) + code
    {
      out := out + code;
    }

    method PrintSemicolon(s: Stmt)
      modifies this`out
      ensures out == old(out) + SemicolonText(s)
    {
      if !s.Block? && !s.If? && !s.Loop? && !s.Do? {
        Print([Semicolon]);
      }
    }

    method VisitValue(e: Expr)
      modifies this`out
      ensures out == old(out) + ValueText(e)
    {
      if e.Comma? {
        VisitValue(e.first);
        Print([CommaSign, Expression(e.last)]);
      } else {
        Print([Expression(e)]);
      }
    }

    method VisitCondition(c: Condition)
      modifies this`out
      ensures out == old(out) + ConditionText(c)
    {
      hide ValueText;
      if c.parens {
        Print([LParen]);
        VisitValue(c.expr);
        Print([RParen]);
      } else {
        VisitValue(c.expr);
      }
    }

    /** The while of a while, until, do-while or do-until loop, with its condition. */
    method PrintWhileGuard(negated: bool, c: Condition)
      modifies this`out
      ensures out == old(out) + ([KwWhile] + GuardText(negated, c))
    {
      hide ConditionText;
      Print([KwWhile]);
      if !c.parens { Print([LParen]); }
      if negated {
        if c.parens { Print([LParen, Bang]); } else { Print([Bang, LParen]); }
      }
      VisitCondition(c);
      if negated { Print([RParen]); }
      if !c.parens { Print([RParen]); }
    }

    method PrintIfGuard(negated: bool, c: Condition)
      modifies this`out
      ensures out == old(out) + ([KwIf] + IfGuardText(negated, c))
    {
      hide ConditionText;
      Print([KwIf]);
      if negated { Print([LParen, Bang]); }
      if !c.parens { Print([LParen]); }
      VisitCondition(c);
      if !c.parens { Print([RParen]); }
      if negated { Print([RParen]); }
    }

    method PrintRepeatHead(c: Condition, counter: string)
      modifies this`out
      ensures out == old(out) + RepeatHead(c, counter)
    {
      Print([LBrace, KwInt, Ident(counter), Equals]);
      VisitCondition(c);
      Print([Semicolon, KwWhile, LParen, Ident(counter), Decrement, RParen]);
    }

    /** Dispatch on the node kind. */
    method Visit(s: Stmt)
      modifies this
      ensures out == old(out) + Text(s, old(repeatDepth))
      ensures repeatDepth == old(repeatDepth)
      decreases s, 1
    {
      match s
      case Assign(x, e) => Print([Ident(x), Equals, Expression(e)]);
      case Break => Print([KwBreak]);
      case Continue => Print([KwContinue]);
      case Block(ss) => VisitCodeBlock(ss);
      case If(_, _, _, _) => VisitIfStatement(s);
      case Loop(_, _, _) => VisitWhileLoop(s);
      case Do(_, _, _) => VisitDoLoop(s);
    }

    method VisitTerminated(s: Stmt)
      modifies this
      ensures out == old(out) + Terminated(s, old(repeatDepth))
      ensures repeatDepth == old(repeatDepth)
      decreases s, 2
    {
      Visit(s);
      PrintSemicolon(s);
    }

    method VisitCodeBlock(ss: Stmts)
      modifies this
      ensures out == old(out) + ([LBrace] + TextAll(ss, old(repeatDepth)) + [RBrace])
      ensures repeatDepth == old(repeatDepth)
      decreases ss, 2
    {
      ghost var start, all := out, TextAll(ss, repeatDepth);
      Print([LBrace]);
      ghost var done := [];
      var rest := ss;
      while rest.Cons?
        invariant repeatDepth == old(repeatDepth)
        invariant rest == ss || rest < ss
        invariant out == start + [LBrace] + done
        invariant done + TextAll(rest, repeatDepth) == all
        decreases rest
      {
        ghost var piece := Terminated(rest.head, repeatDepth);
        VisitTerminated(rest.head);
        Assoc(start + [LBrace], done, piece);
        Assoc(done, piece, TextAll(rest.tail, repeatDepth));
        done := done + piece;
        rest := rest.tail;
      }
      Print([RBrace]);
      Assoc(start, [LBrace] + all, [RBrace]);
      Assoc(start, [LBrace], all);
    }

    method VisitIfStatement(s: Stmt)
      requires s.If?
      modifies this
      ensures out == old(out) + Text(s, old(repeatDepth))
      ensures repeatDepth == old(repeatDepth)
      decreases s, 0
    {
      ghost var d := repeatDepth;
      PrintIfGuard(s.negated, s.cond);
      ghost var guard := [KwIf] + IfGuardText(s.negated, s.cond);
      ghost var thn := ThenText(s.thn, d);
      if s.thn.Some? {
        VisitTerminated(s.thn.value);
      } else {
        Print([Semicolon]);
      }
      Assoc(old(out), guard, thn);
      if s.els.Some? {
        Print([KwElse]);
        VisitTerminated(s.els.value);
        ghost var els := Terminated(s.els.value, d);
        Assoc(old(out) + (guard + thn), [KwElse], els);
        Assoc(old(out), guard + thn, [KwElse] + els);
      }
    }

    method VisitWhileLoop(s: Stmt)
      requires s.Loop?
      modifies this
      ensures out == old(out) + Text(s, old(repeatDepth))
      ensures repeatDepth == old(repeatDepth)
      decreases s, 0
    {
      ghost var d := repeatDepth;
      if s.kind == Repeat {
        var counter := "strange_name";
        if repeatDepth > 0 {
          counter := counter + Numeral(repeatDepth);
        }
        repeatDepth := repeatDepth + 1;
        PrintRepeatHead(s.cond, counter);
        VisitTerminated(s.body);
        Print([RBrace]);
        repeatDepth := repeatDepth - 1;
        ghost var head, body := RepeatHead(s.cond, counter), Terminated(s.body, d + 1);
        Assoc(old(out), head, body);
        Assoc(old(out), head + body, [RBrace]);
      } else {
        PrintWhileGuard(s.kind == UntilTrue, s.cond);
        VisitTerminated(s.body);
        Assoc(old(out), [KwWhile] + GuardText(s.kind == UntilTrue, s.cond), Terminated(s.body, d));
      }
    }

    method VisitDoLoop(s: Stmt)
      requires s.Do?
      modifies this
      ensures out == old(out) + Text(s, old(repeatDepth))
      ensures repeatDepth == old(repeatDepth)
      decreases s, 0
    {
      ghost var d := repeatDepth;
      Print([KwDo]);
      ghost var start := out;
      if !s.body.Block? { Print([LBrace]); }
      VisitTerminated(s.body);
      if !s.body.Block? {
        Print([RBrace]);
        Assoc(start, [LBrace], Terminated(s.body, d));
        Assoc(start, [LBrace] + Terminated(s.body, d), [RBrace]);
      }
      Assoc(old(out), [KwDo], BracedText(s.body, d));
      ghost var guard := [KwWhile] + GuardText(s.isUntil, s.cond);
      PrintWhileGuard(s.isUntil, s.cond);
      Assoc(old(out), [KwDo] + BracedText(s.body, d), guard);
      Print([Semicolon]);
      Assoc(old(out), [KwDo] + BracedText(s.body, d) + guard, [Semicolon]);
    }
  }
}
