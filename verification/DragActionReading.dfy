// What the code emitted for drag-and-drop actions says: a reader of that code gives back
// what the actions ask for, in their order.
module DragActionReading {
  import opened Options
  import opened Sequences
  import opened DragActionText
  import opened DragActions

  // ---- a reader of emitted code ----

  /** The fixed texts between which the texts of the actions stand. */
  datatype Mark =
    | WithOpen | WithClose | IfAssign | Negation | RelativeTrue | RelativeFalse | RelativeEnd
    | ArgumentsOpen | ArgumentsClose | Comma | SetRelativeTrue | SetRelativeFalse | NewLine
    | ExitWord | RepeatOpen | Adds | Sets | CodeEnd | Declaration

  function MarkOf(s: string): Option<Mark> {
    if s == "with (" then Some(WithOpen)
    else if s == ")\n" then Some(WithClose)
    else if s == "\n__if__ = " then Some(IfAssign)
    else if s == "!" then Some(Negation)
    else if s == "(argument_relative := true, " then Some(RelativeTrue)
    else if s == "(argument_relative := false, " then Some(RelativeFalse)
    else if s == ");" then Some(RelativeEnd)
    else if s == "(" then Some(ArgumentsOpen)
    else if s == ")" then Some(ArgumentsClose)
    else if s == "," then Some(Comma)
    else if s == "argument_relative := true; " then Some(SetRelativeTrue)
    else if s == "argument_relative := false; " then Some(SetRelativeFalse)
    else if s == "\n" then Some(NewLine)
    else if s == "exit " then Some(ExitWord)
    else if s == "repeat (" then Some(RepeatOpen)
    else if s == " += " then Some(Adds)
    else if s == " = " then Some(Sets)
    else if s == "\n/**/\n" then Some(CodeEnd)
    else if s == "var __if__ = false;\n" then Some(Declaration)
    else None
  }

  datatype Lexeme = Opening | Closing | IfWord | ElseWord | Fixed(mark: Mark) | Word(text: string)

  function Lex(p: Piece): Lexeme {
    match p
    case Open => Opening
    case Close => Closing
    case If => IfWord
    case Else => ElseWord
    case Text(s) => if MarkOf(s).Some? then Fixed(MarkOf(s).value) else Word(s)
  }

  function Lexed(code: Code): seq<Lexeme> {
    if code == [] then [] else [Lex(code[0])] + Lexed(code[1..])
  }

  /** A call of a function, or of a script without arguments. */
  datatype Invocation = Invocation(name: string, args: Option<seq<string>>)

  datatype Deed =
    | Enter(target: string)
    | Opens | Closes | Otherwise | Declares
    | Leave
    | Repeat(count: string)
    | Assign(target: string, adds: bool, value: string)
    | RunCode(code: string)
    | Perform(relative: Option<bool>, what: Invocation)
    | Ask(negated: bool, relative: Option<bool>, what: Invocation)

  type Lexemes = seq<Lexeme>

  predicate At(ls: Lexemes, i: nat, l: Lexeme) {
    i < |ls| && ls[i] == l
  }

  predicate WordAt(ls: Lexemes, i: nat) {
    i < |ls| && ls[i].Word?
  }

  /** Arguments with commas between them, up to the closing parenthesis. */
  function ReadArguments(ls: Lexemes): (r: Option<(seq<string>, Lexemes)>)
    ensures r.Some? ==> |r.value.1| < |ls|
    decreases |ls|
  {
    if At(ls, 0, Fixed(ArgumentsClose)) then Some(([], ls[1..]))
    else if !WordAt(ls, 0) then None
    else if At(ls, 1, Fixed(ArgumentsClose)) then Some(([ls[0].text], ls[2..]))
    else if !At(ls, 1, Fixed(Comma)) then None
    else
      match ReadArguments(ls[2..])
      case Some((args, rest)) => Some(([ls[0].text] + args, rest))
      case None => None
  }

  function ReadInvocation(ls: Lexemes): (r: Option<(Invocation, Lexemes)>)
    ensures r.Some? ==> |r.value.1| < |ls|
  {
    if !WordAt(ls, 0) then None
    else if !At(ls, 1, Fixed(ArgumentsOpen)) then Some((Invocation(ls[0].text, None), ls[1..]))
    else
      match ReadArguments(ls[2..])
      case Some((args, rest)) => Some((Invocation(ls[0].text, Some(args)), rest))
      case None => None
  }

  /** The invocation of a question, and its if. */
  function ReadAsked(negated: bool, relative: Option<bool>, ls: Lexemes): (r: Option<(Deed, Lexemes)>)
    ensures r.Some? ==> |r.value.1| < |ls|
  {
    match ReadInvocation(ls)
    case None => None
    case Some((what, rest)) =>
      if relative.Some? then
        if At(rest, 0, Fixed(RelativeEnd)) && At(rest, 1, IfWord) then
          Some((Ask(negated, relative, what), rest[2..]))
        else
          None
      else
        if At(rest, 0, IfWord) then Some((Ask(negated, relative, what), rest[1..])) else None
  }

  function ReadRelation(negated: bool, ls: Lexemes): (r: Option<(Deed, Lexemes)>)
    ensures r.Some? ==> |r.value.1| < |ls|
  {
    if At(ls, 0, Fixed(RelativeTrue)) then ReadAsked(negated, Some(true), ls[1..])
    else if At(ls, 0, Fixed(RelativeFalse)) then ReadAsked(negated, Some(false), ls[1..])
    else ReadAsked(negated, None, ls)
  }

  /** What follows `__if__ = `. */
  function ReadCondition(ls: Lexemes): (r: Option<(Deed, Lexemes)>)
    ensures r.Some? ==> |r.value.1| < |ls|
  {
    if At(ls, 0, Fixed(Negation)) then ReadRelation(true, ls[1..]) else ReadRelation(false, ls)
  }

  /** What follows an opening brace and the setting of argument_relative. */
  function ReadRelative(relative: bool, ls: Lexemes): (r: Option<(Deed, Lexemes)>)
    ensures r.Some? ==> |r.value.1| < |ls|
  {
    match ReadInvocation(ls)
    case Some((what, rest)) =>
      if At(rest, 0, Fixed(NewLine)) && At(rest, 1, Closing) then Some((Perform(Some(relative), what), rest[2..])) else None
    case None => None
  }

  function ReadBraced(ls: Lexemes): (r: Option<(Deed, Lexemes)>)
    requires At(ls, 0, Opening)
    ensures r.Some? ==> |r.value.1| < |ls|
  {
    if At(ls, 1, Fixed(NewLine)) && WordAt(ls, 2) && At(ls, 3, Fixed(CodeEnd)) && At(ls, 4, Closing) then
      Some((RunCode(ls[2].text), ls[5..]))
    else if At(ls, 1, Fixed(SetRelativeTrue)) then ReadRelative(true, ls[2..])
    else if At(ls, 1, Fixed(SetRelativeFalse)) then ReadRelative(false, ls[2..])
    else if At(ls, 1, Fixed(IfAssign)) then ReadCondition(ls[2..])
    else Some((Opens, ls[1..]))
  }

  function ReadWord(ls: Lexemes): (r: Option<(Deed, Lexemes)>)
    requires WordAt(ls, 0)
    ensures r.Some? ==> |r.value.1| < |ls|
  {
    if At(ls, 1, Fixed(Sets)) || At(ls, 1, Fixed(Adds)) then
      if WordAt(ls, 2) && At(ls, 3, Fixed(NewLine)) then
        Some((Assign(ls[0].text, At(ls, 1, Fixed(Adds)), ls[2].text), ls[4..]))
      else None
    else
      match ReadInvocation(ls)
      case Some((what, rest)) => Some((Perform(None, what), rest))
      case None => None
  }

  /** The deeds the first lexemes say, one or for an empty line none. */
  function ReadDeed(ls: Lexemes): (r: Option<(seq<Deed>, Lexemes)>)
    requires ls != []
    ensures r.Some? ==> |r.value.1| < |ls|
  {
    match ls[0]
    case Opening => (match ReadBraced(ls) case Some((d, rest)) => Some(([d], rest)) case None => None)
    case Closing => Some(([Closes], ls[1..]))
    case ElseWord => Some(([Otherwise], ls[1..]))
    case IfWord => None
    case Word(_) => (match ReadWord(ls) case Some((d, rest)) => Some(([d], rest)) case None => None)
    case Fixed(NewLine) => Some(([], ls[1..]))
    case Fixed(ExitWord) => Some(([Leave], ls[1..]))
    case Fixed(Declaration) => Some(([Declares], ls[1..]))
    case Fixed(RepeatOpen) =>
      if WordAt(ls, 1) && At(ls, 2, Fixed(ArgumentsClose)) then Some(([Repeat(ls[1].text)], ls[3..])) else None
    case Fixed(WithOpen) =>
      if WordAt(ls, 1) && At(ls, 2, Fixed(WithClose)) then Some(([Enter(ls[1].text)], ls[3..])) else None
    case _ => None
  }

  function Read(ls: Lexemes): Option<seq<Deed>>
    decreases |ls|
  {
    if ls == [] then Some([])
    else
      match ReadDeed(ls)
      case None => None
      case Some((first, rest)) => Before(first, Read(rest))
  }

  function Before(first: seq<Deed>, more: Option<seq<Deed>>): Option<seq<Deed>> {
    if more.Some? then Some(first + more.value) else None
  }

  // ---- what the actions ask for ----

  /** No text of the action is one of the fixed ones. */
  predicate Unmarked(a: Action) {
    && MarkOf(a.whoName) == None && MarkOf(a.codeString) == None && MarkOf(a.functionName) == None
    && forall i :: 0 <= i < |a.args| ==> MarkOf(a.args[i].text) == None && MarkOf(a.args[i].code) == None
  }

  predicate AllUnmarked(actions: seq<Action>) {
    forall i :: 0 <= i < |actions| ==> Unmarked(actions[i])
  }

  function Arguments(args: seq<Argument>): seq<string> {
    if args == [] then [] else [args[0].code] + Arguments(args[1..])
  }

  /** The function, with its arguments when it is executed as one. */
  function Called(a: Action, name: string): Invocation {
    Invocation(name, if a.execution == ExecFunction then Some(Arguments(a.args)) else None)
  }

  function Relative(a: Action): Option<bool> {
    if a.useRelative then Some(a.relative) else None
  }

  /** A question is about the code of the action, or about what its function returns. */
  function Asked(a: Action): string {
    if a.execution == ExecCode then a.codeString else a.functionName
  }

  function Question(a: Action): Deed {
    Ask(a.isNot, Relative(a), Called(a, Asked(a)))
  }

  /** What an action asks for by itself, blocks and elses aside. */
  function Wish(a: Action): seq<Deed>
    requires HasArguments(a)
  {
    match a.kind
    case Exit => [Leave]
    case RepeatAction => [Repeat(a.args[0].text)]
    case Variable => [Assign(a.args[0].text, a.relative, a.args[1].text)]
    case CodeAction => [RunCode(a.args[0].text)]
    case Normal =>
      if a.execution == NoExecution then []
      else if a.isQuestion then [Question(a)]
      else [Perform(Relative(a), Called(a, a.functionName))]
    case _ => []
  }

  // ---- the lexemes of emitted code ----

  lemma {:induction false} LexedJoins(a: Code, b: Code)
    ensures Lexed(a + b) == Lexed(a) + Lexed(b)
  {
    hide Lex;
    if a == [] {
      assert a + b == b;
    } else {
      assert (a + b)[1..] == a[1..] + b && (a + b)[0] == a[0];
      LexedJoins(a[1..], b);
      Assoc([Lex(a[0])], Lexed(a[1..]), Lexed(b));
    }
  }

  lemma LexedOne(p: Piece, more: Code)
    ensures Lexed([p]) == [Lex(p)]
    ensures Lexed([p] + more) == [Lex(p)] + Lexed(more)
  {
    hide Lex;
    assert ([p] + more)[1..] == more && [p][1..] == [];
    assert [Lex(p)] + [] == [Lex(p)];
  }

  lemma ScopeMarks()
    ensures MarkOf("with (") == Some(WithOpen) && MarkOf(")\n") == Some(WithClose)
    ensures MarkOf("self") == None
    ensures MarkOf("var __if__ = false;\n") == Some(Declaration)
  {
  }

  lemma ConditionMarks()
    ensures MarkOf("\n__if__ = ") == Some(IfAssign) && MarkOf("!") == Some(Negation)
    ensures MarkOf("(argument_relative := true, ") == Some(RelativeTrue)
    ensures MarkOf("(argument_relative := false, ") == Some(RelativeFalse)
    ensures MarkOf(");") == Some(RelativeEnd)
  {
  }

  lemma CallMarks()
    ensures MarkOf("(") == Some(ArgumentsOpen) && MarkOf(")") == Some(ArgumentsClose) && MarkOf(",") == Some(Comma)
    ensures MarkOf("argument_relative := true; ") == Some(SetRelativeTrue)
    ensures MarkOf("argument_relative := false; ") == Some(SetRelativeFalse)
  {
  }

  lemma StatementMarks()
    ensures MarkOf("\n") == Some(NewLine) && MarkOf("exit ") == Some(ExitWord) && MarkOf("repeat (") == Some(RepeatOpen)
    ensures MarkOf(" += ") == Some(Adds) && MarkOf(" = ") == Some(Sets) && MarkOf("\n/**/\n") == Some(CodeEnd)
  {
  }

  // ---- arguments and invocations ----

  function ArgumentLexemes(args: seq<Argument>): Lexemes {
    if args == [] then [] else if |args| == 1 then [Word(args[0].code)]
    else [Word(args[0].code), Fixed(Comma)] + ArgumentLexemes(args[1..])
  }

  lemma {:induction false} OneMoreArgument(args: seq<Argument>, x: Argument)
    ensures ArgumentLexemes(args + [x])
         == ArgumentLexemes(args) + (if args == [] then [] else [Fixed(Comma)]) + [Word(x.code)]
  {
    if args == [] {
      assert args + [x] == [x];
    } else {
      var rest := args[1..];
      assert (args + [x])[1..] == rest + [x] && (args + [x])[0] == args[0];
      OneMoreArgument(rest, x);
      if rest == [] {
        assert args + [x] == [args[0], x] && rest + [x] == [x];
      } else {
        var head := [Word(args[0].code), Fixed(Comma)];
        Assoc(head, ArgumentLexemes(rest) + [Fixed(Comma)], [Word(x.code)]);
        Assoc(head, ArgumentLexemes(rest), [Fixed(Comma)]);
      }
    }
  }

  lemma {:induction false} ListedLexed(args: seq<Argument>, k: nat)
    requires k <= |args| && forall i :: 0 <= i < |args| ==> MarkOf(args[i].code) == None
    ensures Lexed(Listed(args, k)) == ArgumentLexemes(args[..k])
  {
    hide MarkOf;
    if k > 0 {
      ListedLexed(args, k - 1);
      CallMarks();
      var comma: Code := if k == 1 then [] else [Text(",")];
      assert args[..k] == args[..k - 1] + [args[k - 1]];
      OneMoreArgument(args[..k - 1], args[k - 1]);
      LexedOne(Text(","), []);
      LexedOne(Text(args[k - 1].code), []);
      LexedJoins(Listed(args, k - 1) + comma, [Text(args[k - 1].code)]);
      LexedJoins(Listed(args, k - 1), comma);
    }
  }

  lemma {:induction false} ArgumentsRead(args: seq<Argument>, rest: Lexemes)
    ensures ReadArguments(ArgumentLexemes(args) + ([Fixed(ArgumentsClose)] + rest)) == Some((Arguments(args), rest))
  {
    var close := [Fixed(ArgumentsClose)] + rest;
    assert close[1..] == rest;
    if args == [] {
      assert [] + close == close;
    } else if |args| == 1 {
      assert args[1..] == [] && [args[0].code] + [] == [args[0].code];
      assert ([Word(args[0].code)] + close)[2..] == rest;
    } else {
      var head, more := [Word(args[0].code), Fixed(Comma)], ArgumentLexemes(args[1..]) + close;
      Assoc(head, ArgumentLexemes(args[1..]), close);
      assert (head + more)[2..] == more;
      ArgumentsRead(args[1..], rest);
    }
  }

  function InvocationLexemes(a: Action, name: string): Lexemes {
    [Word(name)]
    + if a.execution == ExecFunction then [Fixed(ArgumentsOpen)] + ArgumentLexemes(a.args) + [Fixed(ArgumentsClose)] else []
  }

  lemma InvocationLexed(a: Action, name: string)
    requires Unmarked(a) && MarkOf(name) == None
    ensures Lexed([Text(name)] + ArgumentList(a)) == InvocationLexemes(a, name)
  {
    hide MarkOf;
    LexedOne(Text(name), ArgumentList(a));
    if a.execution == ExecFunction {
      var args := Listed(a.args, |a.args|);
      CallMarks();
      ListedLexed(a.args, |a.args|);
      assert a.args[..|a.args|] == a.args;
      LexedOne(Text("("), args);
      LexedOne(Text(")"), []);
      LexedJoins([Text("(")] + args, [Text(")")]);
    }
  }

  lemma InvocationRead(a: Action, name: string, rest: Lexemes)
    requires !At(rest, 0, Fixed(ArgumentsOpen))
    ensures ReadInvocation(InvocationLexemes(a, name) + rest) == Some((Called(a, name), rest))
  {
    var ls := InvocationLexemes(a, name) + rest;
    if a.execution == ExecFunction {
      var args, close := ArgumentLexemes(a.args), [Fixed(ArgumentsClose)];
      assert ls == [Word(name), Fixed(ArgumentsOpen)] + (args + (close + rest));
      ArgumentsRead(a.args, rest);
      assert ls[2..] == args + (close + rest);
    } else {
      assert InvocationLexemes(a, name) == [Word(name)] && ls[1..] == rest;
    }
  }

  // ---- what code says, whatever follows it ----

  /** Nothing at the start of these lexemes belongs to what comes before them. */
  predicate Follows(rest: Lexemes) {
    rest == []
    || (&& rest[0] !in {IfWord, Fixed(ArgumentsOpen), Fixed(Sets), Fixed(Adds), Fixed(IfAssign),
                        Fixed(SetRelativeTrue), Fixed(SetRelativeFalse)}
        && (rest[0] == Fixed(NewLine) ==> !WordAt(rest, 1)))
  }

  ghost predicate Says(ls: Lexemes, deeds: seq<Deed>) {
    forall rest: Lexemes :: Follows(rest) ==> Follows(ls + rest) && Read(ls + rest) == Before(deeds, Read(rest))
  }

  lemma SaysNothing()
    ensures Says([], [])
  {
    forall rest: Lexemes | Follows(rest) ensures Follows([] + rest) && Read([] + rest) == Before([], Read(rest)) {
      assert [] + rest == rest;
      if Read(rest).Some? { assert [] + Read(rest).value == Read(rest).value; }
    }
  }

  lemma SaysJoin(a: Lexemes, p: seq<Deed>, b: Lexemes, q: seq<Deed>)
    requires Says(a, p) && Says(b, q)
    ensures Says(a + b, p + q)
  {
    hide Follows, Read;
    forall rest: Lexemes | Follows(rest)
      ensures Follows(a + b + rest) && Read(a + b + rest) == Before(p + q, Read(rest))
    {
      Assoc(a, b, rest);
      assert Follows(b + rest);
      if Read(rest).Some? { Assoc(p, q, Read(rest).value); }
    }
  }

  /** One deed, read from the front. */
  lemma SaysOne(ls: Lexemes, deeds: seq<Deed>)
    requires ls != []
    requires forall rest: Lexemes :: Follows(rest) ==> Follows(ls + rest) && ReadDeed(ls + rest) == Some((deeds, rest))
    ensures Says(ls, deeds)
  {
    hide ReadDeed, Follows;
  }

  function PlainDeed(l: Lexeme): Option<Deed> {
    match l
    case Opening => Some(Opens)
    case Closing => Some(Closes)
    case ElseWord => Some(Otherwise)
    case Fixed(ExitWord) => Some(Leave)
    case Fixed(Declaration) => Some(Declares)
    case _ => None
  }

  lemma PlainSays(l: Lexeme)
    requires PlainDeed(l).Some?
    ensures Says([l], [PlainDeed(l).value])
  {
    forall rest: Lexemes | Follows(rest)
      ensures Follows([l] + rest) && ReadDeed([l] + rest) == Some(([PlainDeed(l).value], rest))
    {
      assert ([l] + rest)[1..] == rest;
    }
    SaysOne([l], [PlainDeed(l).value]);
  }

  /** An empty line after a closing brace. */
  lemma LineSays()
    ensures Says([Closing, Fixed(NewLine)], [Closes]) && Says([Fixed(NewLine), Closing], [Closes])
  {
    forall rest: Lexemes | Follows(rest)
      ensures Follows([Closing, Fixed(NewLine)] + rest) && Follows([Fixed(NewLine), Closing] + rest)
      ensures Read([Closing, Fixed(NewLine)] + rest) == Before([Closes], Read(rest))
      ensures Read([Fixed(NewLine), Closing] + rest) == Before([Closes], Read(rest))
    {
      LineRead(rest);
    }
  }

  lemma LineRead(rest: Lexemes)
    ensures Read([Closing, Fixed(NewLine)] + rest) == Before([Closes], Read(rest))
    ensures Read([Fixed(NewLine), Closing] + rest) == Before([Closes], Read(rest))
  {
    var line, close := [Fixed(NewLine)] + rest, [Closing] + rest;
    assert line[1..] == rest && close[1..] == rest;
    assert ([Closing, Fixed(NewLine)] + rest)[1..] == line && ([Fixed(NewLine), Closing] + rest)[1..] == close;
    if Read(rest).Some? {
      assert [] + Read(rest).value == Read(rest).value;
      assert [] + ([Closes] + Read(rest).value) == [Closes] + Read(rest).value;
    }
  }

  /** A mark, a word and a mark. */
  lemma MarkedSays(first: Mark, word: string, last: Mark, deed: Deed)
    requires (first == RepeatOpen && last == ArgumentsClose && deed == Repeat(word))
          || (first == WithOpen && last == WithClose && deed == Enter(word))
    ensures Says([Fixed(first), Word(word), Fixed(last)], [deed])
  {
    var ls := [Fixed(first), Word(word), Fixed(last)];
    forall rest: Lexemes | Follows(rest) ensures Follows(ls + rest) && ReadDeed(ls + rest) == Some(([deed], rest)) {
      assert (ls + rest)[3..] == rest;
    }
    SaysOne(ls, [deed]);
  }

  lemma AssignSays(target: string, adds: bool, value: string)
    ensures Says([Word(target), Fixed(if adds then Adds else Sets), Word(value), Fixed(NewLine)],
      [Assign(target, adds, value)])
  {
    var ls := [Word(target), Fixed(if adds then Adds else Sets), Word(value), Fixed(NewLine)];
    forall rest: Lexemes | Follows(rest)
      ensures Follows(ls + rest) && ReadDeed(ls + rest) == Some(([Assign(target, adds, value)], rest))
    {
      assert (ls + rest)[4..] == rest;
    }
    SaysOne(ls, [Assign(target, adds, value)]);
  }

  lemma CodeSays(code: string)
    ensures Says([Opening, Fixed(NewLine), Word(code), Fixed(CodeEnd), Closing], [RunCode(code)])
  {
    var ls := [Opening, Fixed(NewLine), Word(code), Fixed(CodeEnd), Closing];
    forall rest: Lexemes | Follows(rest) ensures Follows(ls + rest) && ReadDeed(ls + rest) == Some(([RunCode(code)], rest)) {
      assert (ls + rest)[5..] == rest;
    }
    SaysOne(ls, [RunCode(code)]);
  }

  lemma PerformSays(a: Action, name: string)
    ensures Says(InvocationLexemes(a, name), [Perform(None, Called(a, name))])
  {
    var ls, deeds := InvocationLexemes(a, name), [Perform(None, Called(a, name))];
    forall rest: Lexemes | Follows(rest) ensures Follows(ls + rest) && ReadDeed(ls + rest) == Some((deeds, rest)) {
      InvocationRead(a, name, rest);
      hide ReadInvocation, ArgumentLexemes;
      assert (ls + rest)[0] == Word(name);
      if a.execution == ExecFunction {
        assert (ls + rest)[1] == Fixed(ArgumentsOpen);
      } else {
        assert |ls| == 1;
      }
    }
    SaysOne(ls, deeds);
  }

  lemma RelativeSays(a: Action, name: string, relative: bool)
    ensures Says([Opening, Fixed(if relative then SetRelativeTrue else SetRelativeFalse)] + InvocationLexemes(a, name)
                 + [Fixed(NewLine), Closing],
                 [Perform(Some(relative), Called(a, name))])
  {
    hide ReadInvocation, InvocationLexemes;
    var head, end := [Opening, Fixed(if relative then SetRelativeTrue else SetRelativeFalse)], [Fixed(NewLine), Closing];
    var ls := head + InvocationLexemes(a, name) + end;
    var deed := Perform(Some(relative), Called(a, name));
    forall rest: Lexemes | Follows(rest) ensures Follows(ls + rest) && ReadDeed(ls + rest) == Some(([deed], rest)) {
      var more := InvocationLexemes(a, name) + (end + rest);
      assert ls + rest == head + more;
      assert (head + more)[2..] == more && (end + rest)[2..] == rest;
      InvocationRead(a, name, end + rest);
    }
    SaysOne(ls, [deed]);
  }

  function ConditionLexemes(a: Action): Lexemes {
    [Fixed(IfAssign)]
    + (if a.isNot then [Fixed(Negation)] else [])
    + (if !a.useRelative then [] else [Fixed(if a.relative then RelativeTrue else RelativeFalse)])
    + InvocationLexemes(a, Asked(a))
    + (if a.useRelative then [Fixed(RelativeEnd)] else [])
  }

  lemma ConditionLexed(a: Action)
    requires Unmarked(a)
    ensures Lexed(Condition(a)) == ConditionLexemes(a)
  {
    hide MarkOf, ArgumentList, InvocationLexemes;
    ConditionMarks();
    var name := Asked(a);
    var start: Code := [Text("\n__if__ = ")];
    var negation: Code := if a.isNot then [Text("!")] else [];
    var relative: Code := if !a.useRelative then []
      else [Text(if a.relative then "(argument_relative := true, " else "(argument_relative := false, ")];
    var end: Code := if a.useRelative then [Text(");")] else [];
    LexedOne(Text("\n__if__ = "), []);
    LexedOne(Text("!"), []);
    LexedOne(Text(if a.relative then "(argument_relative := true, " else "(argument_relative := false, "), []);
    LexedOne(Text(");"), []);
    InvocationLexed(a, name);
    LexedJoins(start, negation);
    LexedJoins(start + negation, relative);
    LexedJoins(start + negation + relative, [Text(name)] + ArgumentList(a));
    LexedJoins(start + negation + relative + ([Text(name)] + ArgumentList(a)), end);
    Assoc(start + negation + relative, [Text(name)], ArgumentList(a));
  }

  /** A question up to its if. */
  lemma QuestionSays(a: Action)
    ensures Says([Opening] + ConditionLexemes(a) + [IfWord], [Question(a)])
  {
    var ls := [Opening] + ConditionLexemes(a) + [IfWord];
    forall rest: Lexemes | Follows(rest) ensures Follows(ls + rest) && ReadDeed(ls + rest) == Some(([Question(a)], rest)) {
      QuestionIsRead(a, rest);
    }
    SaysOne(ls, [Question(a)]);
  }

  lemma AskedIsRead(a: Action, rest: Lexemes)
    ensures var end: Lexemes := if a.useRelative then [Fixed(RelativeEnd)] else [];
      ReadAsked(a.isNot, Relative(a), InvocationLexemes(a, Asked(a)) + (end + ([IfWord] + rest)))
      == Some((Question(a), rest))
  {
    hide ReadInvocation, InvocationLexemes;
    var end: Lexemes := if a.useRelative then [Fixed(RelativeEnd)] else [];
    var after := end + ([IfWord] + rest);
    assert a.useRelative ==> after[2..] == rest;
    assert !a.useRelative ==> after[1..] == rest;
    InvocationRead(a, Asked(a), after);
  }

  lemma RelationIsRead(a: Action, rest: Lexemes)
    ensures var relative: Lexemes :=
        if !a.useRelative then [] else [Fixed(if a.relative then RelativeTrue else RelativeFalse)];
      var end: Lexemes := if a.useRelative then [Fixed(RelativeEnd)] else [];
      var ls := relative + (InvocationLexemes(a, Asked(a)) + (end + ([IfWord] + rest)));
      ls != [] && ls[0] != Fixed(Negation) && ReadRelation(a.isNot, ls) == Some((Question(a), rest))
  {
    hide ReadAsked, InvocationLexemes;
    var relative: Lexemes := if !a.useRelative then [] else [Fixed(if a.relative then RelativeTrue else RelativeFalse)];
    var end: Lexemes := if a.useRelative then [Fixed(RelativeEnd)] else [];
    var call := InvocationLexemes(a, Asked(a)) + (end + ([IfWord] + rest));
    CallStarts(a, Asked(a), end + ([IfWord] + rest));
    AskedIsRead(a, rest);
    if a.useRelative { assert (relative + call)[1..] == call; } else { assert relative + call == call; }
  }

  lemma ConditionIsRead(a: Action, rest: Lexemes)
    ensures var negation: Lexemes := if a.isNot then [Fixed(Negation)] else [];
      var relative: Lexemes := if !a.useRelative then [] else [Fixed(if a.relative then RelativeTrue else RelativeFalse)];
      var end: Lexemes := if a.useRelative then [Fixed(RelativeEnd)] else [];
      ReadCondition(negation + (relative + (InvocationLexemes(a, Asked(a)) + (end + ([IfWord] + rest)))))
      == Some((Question(a), rest))
  {
    hide ReadRelation, InvocationLexemes, Question, Asked;
    var relative: Lexemes := if !a.useRelative then [] else [Fixed(if a.relative then RelativeTrue else RelativeFalse)];
    var end: Lexemes := if a.useRelative then [Fixed(RelativeEnd)] else [];
    var more := relative + (InvocationLexemes(a, Asked(a)) + (end + ([IfWord] + rest)));
    RelationIsRead(a, rest);
    if a.isNot { assert ([Fixed(Negation)] + more)[1..] == more; } else { assert [] + more == more; }
  }

  lemma QuestionStarts(more: Lexemes, deed: Deed, rest: Lexemes)
    requires ReadCondition(more) == Some((deed, rest))
    ensures var ls := [Opening, Fixed(IfAssign)] + more; Follows(ls) && ReadDeed(ls) == Some(([deed], rest))
  {
    hide ReadCondition;
    assert ([Opening, Fixed(IfAssign)] + more)[2..] == more;
  }

  lemma QuestionIsRead(a: Action, rest: Lexemes)
    ensures var ls := [Opening] + ConditionLexemes(a) + [IfWord];
      Follows(ls + rest) && ReadDeed(ls + rest) == Some(([Question(a)], rest))
  {
    hide ReadCondition, InvocationLexemes, Question, Asked, ReadDeed, Follows;
    var negation: Lexemes := if a.isNot then [Fixed(Negation)] else [];
    var relative: Lexemes := if !a.useRelative then [] else [Fixed(if a.relative then RelativeTrue else RelativeFalse)];
    var end: Lexemes := if a.useRelative then [Fixed(RelativeEnd)] else [];
    var more := negation + (relative + (InvocationLexemes(a, Asked(a)) + (end + ([IfWord] + rest))));
    ConditionIsRead(a, rest);
    QuestionStarts(more, Question(a), rest);
    assert [Opening] + ConditionLexemes(a) + [IfWord] + rest == [Opening, Fixed(IfAssign)] + more;
  }

  lemma CallStarts(a: Action, name: string, after: Lexemes)
    ensures (InvocationLexemes(a, name) + after) != [] && (InvocationLexemes(a, name) + after)[0] == Word(name)
  {
  }

  // ---- what a list of actions asks for ----

  /** Whom the action is for. */
  function Whom(a: Action): string {
    if a.useApplyTo then a.whoName else "self"
  }

  /** An action for someone else than the code around it is for says so first. */
  function Entered(a: Action, scope: string): seq<Deed> {
    if Whom(a) == scope then [] else [Enter(Whom(a))]
  }

  /** Deeds, with the blocks and questions left open after them. */
  datatype Heard = Heard(deeds: seq<Deed>, braces: nat, ifs: nat)

  function After(first: seq<Deed>, more: Heard): Heard {
    more.(deeds := first + more.deeds)
  }

  /** One action that asks no question: an end without a block and an else without a
      question are passed over. */
  function HeardOne(a: Action, braces: nat, ifs: nat): Heard
    requires HasArguments(a)
  {
    match a.kind
    case Begin => Heard([Opens], braces + 1, ifs)
    case End => if braces == 0 then Heard([], 0, ifs) else Heard([Closes], braces - 1, ifs)
    case ElseAction => if ifs == 0 then Heard([], braces, 0) else Heard([Otherwise], braces, ifs - 1)
    case _ => Heard(Wish(a), braces, ifs)
  }

  /** The actions from iter to second: a question has all that are after it inside it. */
  function HeardLoop(src: Source, iter: nat, second: int, braces: nat, ifs: nat, scope: string): Heard
    requires second < |src.actions| && AllHaveArguments(src.actions)
    decreases Left(iter, second), 1
  {
    if iter > second then Heard([], braces, ifs)
    else
      var a := src.actions[iter];
      if AsksQuestion(a) then
        var body := HeardSpan(src, iter + 1, second, braces, ifs + 1, Whom(a));
        After(Entered(a, scope) + [Question(a)], body.(deeds := body.deeds + [Closes]))
      else
        var one := HeardOne(a, braces, ifs);
        After(one.deeds, HeardLoop(src, iter + 1, second, one.braces, one.ifs, scope))
  }

  function HeardSpan(src: Source, first: nat, second: int, braces: nat, ifs: nat, scope: string): Heard
    requires second < |src.actions| && AllHaveArguments(src.actions)
    decreases Left(first, second), 2
  {
    var a := src.At(first);
    After(Entered(a, scope), HeardLoop(src, first, second, braces, ifs, Whom(a)))
  }

  function HeardList(src: Source, i: nat, braces: nat, ifs: nat): Heard
    requires i <= |src.actions| && AllHaveArguments(src.actions)
    decreases |src.actions| - i
  {
    if i == |src.actions| then Heard([], braces, ifs)
    else
      var next := NextSpan(src.actions, i);
      var one := HeardSpan(src, i, next.second, braces, ifs, "self");
      After(one.deeds, HeardList(src, next.index, one.braces, one.ifs))
  }

  function Closings(n: nat): seq<Deed> {
    if n == 0 then [] else [Closes] + Closings(n - 1)
  }

  function HeardProgram(src: Source): seq<Deed>
    requires AllHaveArguments(src.actions)
  {
    var all := HeardList(src, 0, 0, 0);
    (if all.ifs > 0 then [Declares] else []) + (all.deeds + Closings(all.braces))
  }

  // ---- the emitted code says it ----

  ghost predicate Tell(e: Emission, h: Heard) {
    Says(Lexed(e.code), h.deeds) && e.braces == h.braces && e.ifs == h.ifs
  }

  lemma EnteringSays(a: Action, scope: string)
    requires MarkOf(a.whoName) == None
    ensures Says(Lexed(Entering(a, scope)), Entered(a, scope))
  {
    hide MarkOf, Says;
    ScopeMarks();
    SaysNothing();
    var who := Whom(a);
    MarkedSays(WithOpen, who, WithClose, Enter(who));
    assert [Text("with ("), Text(who), Text(")\n")] == [Text("with (")] + ([Text(who)] + [Text(")\n")]);
    LexedOne(Text("with ("), [Text(who)] + [Text(")\n")]);
    LexedOne(Text(who), [Text(")\n")]);
    LexedOne(Text(")\n"), []);
    assert [Fixed(WithOpen)] + ([Word(who)] + [Fixed(WithClose)]) == [Fixed(WithOpen), Word(who), Fixed(WithClose)];
  }

  lemma RepeatTells(a: Action)
    requires a.kind == RepeatAction && HasArguments(a) && Unmarked(a)
    ensures Says(Lexed([Text("repeat ("), Text(a.args[0].text), Text(")")]), [Repeat(a.args[0].text)])
  {
    hide MarkOf, Says;
    StatementMarks();
    CallMarks();
    var count := a.args[0].text;
    MarkedSays(RepeatOpen, count, ArgumentsClose, Repeat(count));
    assert [Text("repeat ("), Text(count), Text(")")] == [Text("repeat (")] + ([Text(count)] + [Text(")")]);
    LexedOne(Text("repeat ("), [Text(count)] + [Text(")")]);
    LexedOne(Text(count), [Text(")")]);
    LexedOne(Text(")"), []);
    assert [Fixed(RepeatOpen)] + ([Word(count)] + [Fixed(ArgumentsClose)])
        == [Fixed(RepeatOpen), Word(count), Fixed(ArgumentsClose)];
  }

  lemma VariableTells(a: Action)
    requires a.kind == Variable && HasArguments(a) && Unmarked(a)
    ensures Says(Lexed([Text(a.args[0].text), Text(if a.relative then " += " else " = "), Text(a.args[1].text), Text("\n")]),
                 [Assign(a.args[0].text, a.relative, a.args[1].text)])
  {
    hide MarkOf, Says;
    StatementMarks();
    var target, value, op := a.args[0].text, a.args[1].text, if a.relative then " += " else " = ";
    AssignSays(target, a.relative, value);
    assert [Text(target), Text(op), Text(value), Text("\n")]
      == [Text(target)] + ([Text(op)] + ([Text(value)] + [Text("\n")]));
    LexedOne(Text(target), [Text(op)] + ([Text(value)] + [Text("\n")]));
    LexedOne(Text(op), [Text(value)] + [Text("\n")]);
    LexedOne(Text(value), [Text("\n")]);
    LexedOne(Text("\n"), []);
    var mark := Fixed(if a.relative then Adds else Sets);
    assert [Word(target)] + ([mark] + ([Word(value)] + [Fixed(NewLine)]))
      == [Word(target), mark, Word(value), Fixed(NewLine)];
  }

  lemma CodeTells(a: Action)
    requires a.kind == CodeAction && HasArguments(a) && Unmarked(a)
    ensures Says(Lexed(Braced([Text("\n"), Text(a.args[0].text), Text("\n/**/\n")])), [RunCode(a.args[0].text)])
  {
    hide MarkOf, Says;
    StatementMarks();
    var code := a.args[0].text;
    CodeSays(code);
    assert Braced([Text("\n"), Text(code), Text("\n/**/\n")])
        == [Open] + ([Text("\n")] + ([Text(code)] + ([Text("\n/**/\n")] + [Close])));
    LexedOne(Open, [Text("\n")] + ([Text(code)] + ([Text("\n/**/\n")] + [Close])));
    LexedOne(Text("\n"), [Text(code)] + ([Text("\n/**/\n")] + [Close]));
    LexedOne(Text(code), [Text("\n/**/\n")] + [Close]);
    LexedOne(Text("\n/**/\n"), [Close]);
    LexedOne(Close, []);
    assert [Opening] + ([Fixed(NewLine)] + ([Word(code)] + ([Fixed(CodeEnd)] + [Closing])))
        == [Opening, Fixed(NewLine), Word(code), Fixed(CodeEnd), Closing];
  }

  /** A function between the setting of argument_relative and its closing brace. */
  lemma RelativeTells(a: Action)
    requires Unmarked(a)
    ensures Says(Lexed(Braced([Text(if a.relative then "argument_relative := true; " else "argument_relative := false; ")]
                              + ([Text(a.functionName)] + ArgumentList(a)) + [Text("\n")])),
                 [Perform(Some(a.relative), Called(a, a.functionName))])
  {
    hide MarkOf, Says, ArgumentList, InvocationLexemes, Called, Lexed;
    CallMarks();
    StatementMarks();
    InvocationLexed(a, a.functionName);
    RelativeSays(a, a.functionName, a.relative);
    var setting: Code := [Text(if a.relative then "argument_relative := true; " else "argument_relative := false; ")];
    var call, end: Code := [Text(a.functionName)] + ArgumentList(a), [Text("\n")] + [Close];
    assert Braced(setting + call + [Text("\n")]) == [Open] + (setting + (call + end));
    LexedOne(Open, setting + (call + end));
    LexedOne(setting[0], call + end);
    LexedJoins(call, end);
    LexedOne(Text("\n"), [Close]);
    LexedOne(Close, []);
    var mark := Fixed(if a.relative then SetRelativeTrue else SetRelativeFalse);
    assert [Opening] + ([mark] + (Lexed(call) + ([Fixed(NewLine)] + [Closing])))
        == [Opening, mark] + Lexed(call) + [Fixed(NewLine), Closing];
  }

  lemma NormalTells(a: Action)
    requires a.kind == Normal && !AsksQuestion(a) && Unmarked(a)
    ensures Says(Lexed(NormalCode(a)), Wish(a))
  {
    hide MarkOf, Says, ArgumentList, InvocationLexemes, Lexed, Called;
    if a.execution == NoExecution {
      SaysNothing();
      LexedNothing();
    } else if a.useRelative {
      RelativeTells(a);
    } else {
      InvocationLexed(a, a.functionName);
      PerformSays(a, a.functionName);
    }
  }

  lemma LexedNothing()
    ensures Lexed([]) == []
  {
  }

  lemma ActionTells(a: Action, braces: nat, ifs: nat)
    requires HasArguments(a) && Unmarked(a) && !AsksQuestion(a)
    ensures Tell(ActionEmission(a, braces, ifs), HeardOne(a, braces, ifs))
  {
    hide MarkOf, Says, Unmarked, NormalCode;
    SaysNothing();
    match a.kind
    case Begin =>
      LexedOne(Open, []);
      PlainSays(Opening);
    case End =>
      LexedOne(Close, []);
      PlainSays(Closing);
    case ElseAction =>
      LexedOne(Else, []);
      PlainSays(ElseWord);
    case Exit =>
      LexedOne(Text("exit "), []);
      StatementMarks();
      PlainSays(Fixed(ExitWord));
    case RepeatAction => RepeatTells(a);
    case Variable => VariableTells(a);
    case CodeAction => CodeTells(a);
    case Normal => NormalTells(a);
    case OtherKind =>
  }

  /** A question around what its body says. */
  lemma QuestionTells(a: Action, scope: string, body: Code, deeds: seq<Deed>)
    requires Unmarked(a) && Says(Lexed(body), deeds)
    ensures Says(Lexed(Entering(a, scope) + [Open] + Condition(a) + [If] + body + [Close] + [Text("\n")]),
                 Entered(a, scope) + [Question(a)] + (deeds + [Closes]))
  {
    hide MarkOf, Says, Condition, ConditionLexemes, Entering, Entered, Question, Lexed;
    var ask, end: Code := [Open] + Condition(a) + [If], [Close] + [Text("\n")];
    EnteringSays(a, scope);
    LexedOne(Open, Condition(a));
    ConditionLexed(a);
    LexedJoins([Open] + Condition(a), [If]);
    LexedOne(If, []);
    QuestionSays(a);
    LexedOne(Close, [Text("\n")]);
    LexedOne(Text("\n"), []);
    StatementMarks();
    LineSays();
    assert [Closing] + [Fixed(NewLine)] == [Closing, Fixed(NewLine)];
    SaysJoin(Lexed(Entering(a, scope)), Entered(a, scope), Lexed(ask), [Question(a)]);
    SaysJoin(Lexed(body), deeds, Lexed(end), [Closes]);
    SaysJoin(Lexed(Entering(a, scope)) + Lexed(ask), Entered(a, scope) + [Question(a)],
             Lexed(body) + Lexed(end), deeds + [Closes]);
    LexedJoins(Entering(a, scope), ask);
    LexedJoins(body, end);
    LexedJoins(Entering(a, scope) + ask, body + end);
    assert Entering(a, scope) + [Open] + Condition(a) + [If] + body + [Close] + [Text("\n")]
        == Entering(a, scope) + ask + (body + end);
  }

  lemma ThenTells(first: Code, deeds: seq<Deed>, e: Emission, h: Heard)
    requires Says(Lexed(first), deeds) && Tell(e, h)
    ensures Tell(Then(first, e), After(deeds, h))
  {
    hide Says;
    LexedJoins(first, e.code);
    SaysJoin(Lexed(first), deeds, Lexed(e.code), h.deeds);
  }

  lemma {:induction false} LoopTells(src: Source, iter: nat, second: int, d: nat, n: nat, scope: string)
    requires second < |src.actions| && AllHaveArguments(src.actions)
    requires AllUnmarked(src.actions) && Unmarked(src.beyond)
    ensures Tell(LoopEmission(src, iter, second, d, n, scope), HeardLoop(src, iter, second, d, n, scope))
    decreases Left(iter, second), 1
  {
    hide Says, ActionEmission, HeardOne, AsksQuestion, HasArguments, Unmarked, SpanEmission,
      HeardSpan, Condition, Entering, Entered;
    if iter > second {
      SaysNothing();
    } else if AsksQuestion(src.actions[iter]) {
      var a := src.actions[iter];
      SpanSays(src, iter + 1, second, d, n + 1, Whom(a));
      var body := HeardSpan(src, iter + 1, second, d, n + 1, Whom(a));
      QuestionTells(a, scope, SpanEmission(src, iter + 1, second, d, n + 1, Target(a)).code, body.deeds);
    } else {
      var one := ActionEmission(src.actions[iter], d, n);
      var heard := HeardOne(src.actions[iter], d, n);
      ActionTells(src.actions[iter], d, n);
      LoopTells(src, iter + 1, second, one.braces, one.ifs, scope);
      ThenTells(one.code, heard.deeds, LoopEmission(src, iter + 1, second, one.braces, one.ifs, scope),
                HeardLoop(src, iter + 1, second, one.braces, one.ifs, scope));
    }
  }

  /** The code of a span says what its actions ask for, for whom they ask it. */
  lemma {:induction false} SpanSays(src: Source, first: nat, second: int, d: nat, n: nat, scope: string)
    requires second < |src.actions| && AllHaveArguments(src.actions)
    requires AllUnmarked(src.actions) && Unmarked(src.beyond)
    ensures Tell(SpanEmission(src, first, second, d, n, scope), HeardSpan(src, first, second, d, n, scope))
    decreases Left(first, second), 2
  {
    hide Says, LoopEmission, HeardLoop, Entering, Entered, MarkOf;
    var a := src.At(first);
    EnteringSays(a, scope);
    LoopTells(src, first, second, d, n, Whom(a));
    ThenTells(Entering(a, scope), Entered(a, scope), LoopEmission(src, first, second, d, n, Target(a)),
              HeardLoop(src, first, second, d, n, Whom(a)));
  }

  lemma {:induction false} ListSays(src: Source, i: nat, d: nat, n: nat)
    requires i <= |src.actions| && AllHaveArguments(src.actions)
    requires AllUnmarked(src.actions) && Unmarked(src.beyond)
    ensures Tell(ListEmission(src, i, d, n), HeardList(src, i, d, n))
    decreases |src.actions| - i
  {
    hide Says, SpanEmission, HeardSpan, NextSpan, Unmarked, HasArguments;
    if i == |src.actions| {
      SaysNothing();
    } else {
      var next := NextSpan(src.actions, i);
      var one, heard := SpanEmission(src, i, next.second, d, n, "self"), HeardSpan(src, i, next.second, d, n, "self");
      SpanSays(src, i, next.second, d, n, "self");
      ListSays(src, next.index, one.braces, one.ifs);
      ThenTells(one.code, heard.deeds, ListEmission(src, next.index, one.braces, one.ifs),
                HeardList(src, next.index, one.braces, one.ifs));
    }
  }

  lemma {:induction false} ClosersSay(n: nat)
    ensures Says(Lexed(Closers(n)), Closings(n))
  {
    hide Says;
    if n == 0 {
      SaysNothing();
    } else {
      ClosersSay(n - 1);
      StatementMarks();
      assert [Text("\n"), Close] == [Text("\n")] + [Close];
      LexedOne(Text("\n"), [Close]);
      LexedOne(Close, []);
      LineSays();
      assert [Fixed(NewLine)] + [Closing] == [Fixed(NewLine), Closing];
      LexedJoins([Text("\n"), Close], Closers(n - 1));
      SaysJoin([Fixed(NewLine), Closing], [Closes], Lexed(Closers(n - 1)), Closings(n - 1));
    }
  }

  lemma SaysAll(ls: Lexemes, deeds: seq<Deed>)
    requires Says(ls, deeds)
    ensures Read(ls) == Some(deeds)
  {
    assert Follows([]) && Read([]) == Some([]);
    assert ls + [] == ls && deeds + [] == deeds;
  }

  /** Reading the program gives what the list asks for, action by action, for whom, in
      which blocks and questions, and with what declared. */
  lemma ProgramSays(src: Source)
    requires AllHaveArguments(src.actions) && AllUnmarked(src.actions) && Unmarked(src.beyond)
    ensures Read(Lexed(Program(src))) == Some(HeardProgram(src))
  {
    hide Says, Read, ListEmission, HeardList, Unmarked, HasArguments, MarkOf;
    var all := ListEmission(src, 0, 0, 0);
    ListSays(src, 0, 0, 0);
    var heard := HeardList(src, 0, 0, 0);
    ClosersSay(all.braces);
    LexedJoins(all.code, Closers(all.braces));
    SaysJoin(Lexed(all.code), heard.deeds, Lexed(Closers(all.braces)), Closings(all.braces));
    if all.ifs > 0 {
      ScopeMarks();
      LexedOne(IF_DECLARATION, Body(src));
      PlainSays(Fixed(Declaration));
      SaysJoin([Fixed(Declaration)], [Declares], Lexed(Body(src)), heard.deeds + Closings(all.braces));
    } else {
      assert [] + Body(src) == Body(src) && [] + (heard.deeds + Closings(all.braces)) == heard.deeds + Closings(all.braces);
    }
    SaysAll(Lexed(Program(src)), HeardProgram(src));
  }

  // ---- nothing but what is asked for ----

  /** A deed that is more than the form of the code. */
  function Kept(d: Deed): seq<Deed> {
    if d.Enter? || d.Opens? || d.Closes? || d.Otherwise? || d.Declares? then [] else [d]
  }

  function Substance(deeds: seq<Deed>): seq<Deed> {
    if deeds == [] then [] else Kept(deeds[0]) + Substance(deeds[1..])
  }

  function Wishes(actions: seq<Action>, i: nat, j: nat): seq<Deed>
    requires j <= |actions| && AllHaveArguments(actions)
    decreases j - i
  {
    if i >= j then [] else Wish(actions[i]) + Wishes(actions, i + 1, j)
  }

  lemma {:induction false} SubstanceJoins(a: seq<Deed>, b: seq<Deed>)
    ensures Substance(a + b) == Substance(a) + Substance(b)
  {
    hide Kept;
    if a == [] {
      assert a + b == b;
    } else {
      assert (a + b)[0] == a[0] && (a + b)[1..] == a[1..] + b;
      SubstanceJoins(a[1..], b);
      Assoc(Kept(a[0]), Substance(a[1..]), Substance(b));
    }
  }

  lemma SubstanceOfOne(d: Deed)
    ensures Substance([d]) == Kept(d)
  {
    assert [d][1..] == [] && Kept(d) + [] == Kept(d);
  }

  lemma WishIsSubstance(a: Action)
    requires HasArguments(a)
    ensures Substance(Wish(a)) == Wish(a)
  {
    if |Wish(a)| > 0 { SubstanceOfOne(Wish(a)[0]); }
  }

  lemma {:induction false} WishesSplit(actions: seq<Action>, i: nat, j: nat, k: nat)
    requires i <= j <= k <= |actions| && AllHaveArguments(actions)
    ensures Wishes(actions, i, k) == Wishes(actions, i, j) + Wishes(actions, j, k)
    decreases j - i
  {
    if i < j {
      WishesSplit(actions, i + 1, j, k);
      Assoc(Wish(actions[i]), Wishes(actions, i + 1, j), Wishes(actions, j, k));
    }
  }

  lemma HeardOneWishes(a: Action, braces: nat, ifs: nat)
    requires HasArguments(a) && !AsksQuestion(a)
    ensures Substance(HeardOne(a, braces, ifs).deeds) == Wish(a)
  {
    WishIsSubstance(a);
    SubstanceOfOne(Opens);
    SubstanceOfOne(Closes);
    SubstanceOfOne(Otherwise);
  }

  lemma {:induction false} LoopWishes(src: Source, iter: nat, second: int, d: nat, n: nat, scope: string)
    requires -1 <= second < |src.actions| && AllHaveArguments(src.actions)
    ensures Substance(HeardLoop(src, iter, second, d, n, scope).deeds) == Wishes(src.actions, iter, second + 1)
    decreases Left(iter, second), 1
  {
    hide HeardOne, HasArguments, Wish, Entered, Called, Whom;
    if iter <= second {
      var a := src.actions[iter];
      if AsksQuestion(a) {
        SpanWishes(src, iter + 1, second, d, n + 1, Whom(a));
        var body := HeardSpan(src, iter + 1, second, d, n + 1, Whom(a));
        SubstanceOfOne(Question(a));
        SubstanceOfOne(Closes);
        EnteredIsForm(a, scope);
        SubstanceJoins(body.deeds, [Closes]);
        SubstanceJoins(Entered(a, scope), [Question(a)]);
        SubstanceJoins(Entered(a, scope) + [Question(a)], body.deeds + [Closes]);
        assert Wish(a) == [Question(a)] by { QuestionIsWish(a); }
      } else {
        var one := HeardOne(a, d, n);
        HeardOneWishes(a, d, n);
        LoopWishes(src, iter + 1, second, one.braces, one.ifs, scope);
        SubstanceJoins(one.deeds, HeardLoop(src, iter + 1, second, one.braces, one.ifs, scope).deeds);
      }
    }
  }

  lemma QuestionIsWish(a: Action)
    requires HasArguments(a) && AsksQuestion(a)
    ensures Wish(a) == [Question(a)]
  {
  }

  lemma EnteredIsForm(a: Action, scope: string)
    ensures Substance(Entered(a, scope)) == []
  {
    SubstanceOfOne(Enter(Whom(a)));
  }

  lemma {:induction false} SpanWishes(src: Source, first: nat, second: int, d: nat, n: nat, scope: string)
    requires -1 <= second < |src.actions| && AllHaveArguments(src.actions)
    ensures Substance(HeardSpan(src, first, second, d, n, scope).deeds) == Wishes(src.actions, first, second + 1)
    decreases Left(first, second), 2
  {
    hide HeardLoop, Entered, HasArguments, Wish;
    var a := src.At(first);
    EnteredIsForm(a, scope);
    LoopWishes(src, first, second, d, n, Whom(a));
    SubstanceJoins(Entered(a, scope), HeardLoop(src, first, second, d, n, Whom(a)).deeds);
  }

  lemma {:induction false} ListWishes(src: Source, i: nat, d: nat, n: nat)
    requires i <= |src.actions| && AllHaveArguments(src.actions)
    ensures Substance(HeardList(src, i, d, n).deeds) == Wishes(src.actions, i, Reached(src.actions, i))
    decreases |src.actions| - i
  {
    hide HeardSpan, NextSpan, HasArguments, Wish;
    if i < |src.actions| {
      var actions, next := src.actions, NextSpan(src.actions, i);
      var one := HeardSpan(src, i, next.second, d, n, "self");
      SpanWishes(src, i, next.second, d, n, "self");
      ListWishes(src, next.index, one.braces, one.ifs);
      SubstanceJoins(one.deeds, HeardList(src, next.index, one.braces, one.ifs).deeds);
      if next.second != -1 {
        if next.index == next.second {
          WishesSplit(actions, i, next.second, next.second + 1);
          EndWishesNothing(actions, next.second);
        }
        WishesSplit(actions, i, next.index, Reached(actions, next.index));
      }
    }
  }

  lemma EndWishesNothing(actions: seq<Action>, i: nat)
    requires i < |actions| && AllHaveArguments(actions) && actions[i].kind == End
    ensures Wishes(actions, i, i + 1) == []
  {
  }

  lemma {:induction false} ClosingsAreForm(n: nat)
    ensures Substance(Closings(n)) == []
  {
    if n > 0 {
      ClosingsAreForm(n - 1);
      SubstanceOfOne(Closes);
      SubstanceJoins([Closes], Closings(n - 1));
    }
  }

  /** Blocks, elses and scopes aside, the program says what the actions the spans reach ask
      for, each once and in their order. */
  lemma ProgramFulfilsWishes(src: Source)
    requires AllHaveArguments(src.actions) && AllUnmarked(src.actions) && Unmarked(src.beyond)
    ensures Read(Lexed(Program(src))).Some?
    ensures Substance(Read(Lexed(Program(src))).value) == Wishes(src.actions, 0, Reached(src.actions, 0))
  {
    hide Read, HeardList, Unmarked, HasArguments, Wishes, Program;
    ProgramSays(src);
    var all := HeardList(src, 0, 0, 0);
    ListWishes(src, 0, 0, 0);
    ClosingsAreForm(all.braces);
    SubstanceJoins(all.deeds, Closings(all.braces));
    SubstanceOfOne(Declares);
    SubstanceJoins(if all.ifs > 0 then [Declares] else [], all.deeds + Closings(all.braces));
  }

  // ---- an else that is not with its if ----

  /** A question, one action, an else and another action: the else is put out after the
      brace that closes its if. */
  lemma ElseLeavesItsIf(src: Source)
    requires |src.actions| == 4 && AllHaveArguments(src.actions) && AllUnmarked(src.actions) && Unmarked(src.beyond)
    requires AsksQuestion(src.actions[0]) && src.actions[1].kind == src.actions[3].kind == Variable
    requires src.actions[2].kind == ElseAction
    requires forall i :: 0 <= i < 4 ==> !src.actions[i].useApplyTo && (src.actions[i].isQuestion ==> i == 0)
    ensures Read(Lexed(Program(src)))
         == Some([Question(src.actions[0])] + Wish(src.actions[1]) + [Closes, Otherwise] + Wish(src.actions[3]))
  {
    hide Wish, Question, HasArguments, Unmarked, Read, HeardList, HeardSpan;
    var a, v, w := src.actions, Wish(src.actions[1]), Wish(src.actions[3]);
    ProgramSays(src);
    SpansOfFour(src);
    assert [] + (HeardList(src, 0, 0, 0).deeds + []) == HeardList(src, 0, 0, 0).deeds;
    assert Closings(0) == [];
  }

  lemma SpansOfFour(src: Source)
    requires |src.actions| == 4 && AllHaveArguments(src.actions)
    requires AsksQuestion(src.actions[0]) && src.actions[1].kind == src.actions[3].kind == Variable
    requires src.actions[2].kind == ElseAction
    requires forall i :: 0 <= i < 4 ==> !src.actions[i].useApplyTo && (src.actions[i].isQuestion ==> i == 0)
    ensures HeardList(src, 0, 0, 0)
         == Heard([Question(src.actions[0])] + Wish(src.actions[1]) + [Closes, Otherwise] + Wish(src.actions[3]), 0, 0)
  {
    hide Wish, Question, HasArguments, HeardSpan;
    var a, v, w := src.actions, Wish(src.actions[1]), Wish(src.actions[3]);
    assert NextSpan(a, 4) == Next(-1, 4) && NextSpan(a, 3) == Next(3, 4) && NextSpan(a, 2) == Next(2, 3);
    assert NextSpan(a, 1) == Next(1, 2) && NextSpan(a, 0) == Next(1, 2);
    LoneAction(src, 3, 0, 0);
    LoneAction(src, 2, 0, 1);
    QuestionOfOne(src);
    assert HeardList(src, 4, 0, 0) == Heard([], 0, 0);
    assert HeardList(src, 3, 0, 0) == Heard(w, 0, 0) by { assert w + [] == w; }
    assert HeardList(src, 2, 0, 1) == Heard([Otherwise] + w, 0, 0);
    assert [Question(a[0])] + (v + [Closes]) + ([Otherwise] + w) == [Question(a[0])] + v + [Closes, Otherwise] + w;
  }

  lemma QuestionOfOne(src: Source)
    requires |src.actions| == 4 && AllHaveArguments(src.actions)
    requires AsksQuestion(src.actions[0]) && src.actions[1].kind == Variable
    requires !src.actions[0].useApplyTo && !src.actions[1].useApplyTo
    ensures HeardSpan(src, 0, 1, 0, 0, "self")
         == Heard([Question(src.actions[0])] + (Wish(src.actions[1]) + [Closes]), 0, 1)
  {
    hide Wish, Question, HasArguments;
    LoneAction(src, 1, 0, 1);
    var ask := Heard([Question(src.actions[0])] + (Wish(src.actions[1]) + [Closes]), 0, 1);
    assert [] + [Question(src.actions[0])] == [Question(src.actions[0])] && [] + ask.deeds == ask.deeds;
    assert HeardLoop(src, 0, 1, 0, 0, "self") == ask;
  }

  lemma LoneAction(src: Source, i: nat, d: nat, n: nat)
    requires i < |src.actions| && AllHaveArguments(src.actions)
    requires !AsksQuestion(src.actions[i]) && !src.actions[i].useApplyTo
    ensures HeardSpan(src, i, i, d, n, "self") == HeardOne(src.actions[i], d, n)
  {
    hide HeardOne;
    var one := HeardOne(src.actions[i], d, n);
    assert HeardLoop(src, i + 1, i, one.braces, one.ifs, "self") == Heard([], one.braces, one.ifs);
    assert one.deeds + [] == one.deeds && [] + one.deeds == one.deeds;
  }
}
