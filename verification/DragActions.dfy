// Drag-and-drop actions translated to code: whatever the list, the braces balance and
// every else has an if before it.
module DragActionText {
  import opened Options
  import opened Sequences

  /** A piece of emitted code. Open and Close are the translator's own braces, If and Else
      its own keywords; Text is everything else. */
  datatype Piece = Open | Close | If | Else | Text(text: string)

  type Code = seq<Piece>

  function Spelling(p: Piece): string {
    match p
    case Open => "{"
    case Close => "}"
    case If => "\nif (__if__)\n"
    case Else => "else "
    case Text(s) => s
  }

  function Spelled(code: Code): string {
    if code == [] then "" else Spelling(code[0]) + Spelled(code[1..])
  }

  /** The translator's own braces and keywords as text. */
  lemma KeywordsAreSpelled(text: string)
    ensures Spelled([Open]) == "{" && Spelled([Close]) == "}" && Spelled([Else]) == "else "
    ensures Spelled([If]) == "\nif (__if__)\n" && Spelled([Text(text)]) == text
  {
    forall p: Piece ensures Spelled([p]) == Spelling(p) {
      assert [p][1..] == [] && Spelling(p) + "" == Spelling(p);
    }
  }

  /** Brace depth after the text, from depth d; None once it would go below zero. */
  function DepthAfter(d: nat, s: string): Option<nat>
    decreases |s|
  {
    if s == "" then Some(d)
    else if s[0] == '{' then DepthAfter(d + 1, s[1..])
    else if s[0] == '}' then (if d == 0 then None else DepthAfter(d - 1, s[1..]))
    else DepthAfter(d, s[1..])
  }

  predicate Balanced(s: string) {
    DepthAfter(0, s) == Some(0)
  }

  /** Ifs still to be answered after the code, from n; None once an else finds none. */
  function IfsAfter(n: nat, code: Code): Option<nat>
    decreases |code|
  {
    if code == [] then Some(n)
    else
      match code[0]
      case If => IfsAfter(n + 1, code[1..])
      case Else => if n == 0 then None else IfsAfter(n - 1, code[1..])
      case _ => IfsAfter(n, code[1..])
  }

  /** The code takes the depth from d to e and the open ifs from m to n, neither ever
      going below zero on the way. */
  ghost predicate Takes(code: Code, d: nat, e: nat, m: nat, n: nat) {
    DepthAfter(d, Spelled(code)) == Some(e) && IfsAfter(m, code) == Some(n)
  }

  lemma {:induction false} DepthSplits(d: nat, s: string, t: string)
    ensures DepthAfter(d, s + t)
         == match DepthAfter(d, s) case Some(e) => DepthAfter(e, t) case None => None
    decreases |s|
  {
    if s == "" {
      assert s + t == t;
    } else {
      assert (s + t)[1..] == s[1..] + t && (s + t)[0] == s[0];
      if s[0] == '{' { DepthSplits(d + 1, s[1..], t); }
      else if s[0] != '}' { DepthSplits(d, s[1..], t); }
      else if d > 0 { DepthSplits(d - 1, s[1..], t); }
    }
  }

  lemma {:induction false} DepthShifts(d: nat, s: string, q: nat)
    requires DepthAfter(d, s).Some?
    ensures DepthAfter(d + q, s) == Some(DepthAfter(d, s).value + q)
    decreases |s|
  {
    if s != "" {
      if s[0] == '{' { DepthShifts(d + 1, s[1..], q); }
      else if s[0] == '}' { DepthShifts(d - 1, s[1..], q); }
      else { DepthShifts(d, s[1..], q); }
    }
  }

  lemma {:induction false} SpelledJoins(a: Code, b: Code)
    ensures Spelled(a + b) == Spelled(a) + Spelled(b)
  {
    if a == [] {
      assert a + b == b;
    } else {
      assert (a + b)[1..] == a[1..] + b && (a + b)[0] == a[0];
      SpelledJoins(a[1..], b);
      Assoc(Spelling(a[0]), Spelled(a[1..]), Spelled(b));
    }
  }

  lemma {:induction false} IfsSplit(n: nat, a: Code, b: Code)
    ensures IfsAfter(n, a + b) == match IfsAfter(n, a) case Some(m) => IfsAfter(m, b) case None => None
    decreases |a|
  {
    if a == [] {
      assert a + b == b;
    } else {
      assert (a + b)[1..] == a[1..] + b && (a + b)[0] == a[0];
      match a[0]
      case If => IfsSplit(n + 1, a[1..], b);
      case Else => if n > 0 { IfsSplit(n - 1, a[1..], b); }
      case _ => IfsSplit(n, a[1..], b);
    }
  }

  lemma TakesJoins(a: Code, b: Code, d: nat, e: nat, f: nat, m: nat, n: nat, k: nat)
    requires Takes(a, d, e, m, n) && Takes(b, e, f, n, k)
    ensures Takes(a + b, d, f, m, k)
  {
    SpelledJoins(a, b);
    DepthSplits(d, Spelled(a), Spelled(b));
    IfsSplit(m, a, b);
  }

  lemma OnePiece(p: Piece, d: nat, m: nat)
    requires p.Text? ==> Balanced(p.text)
    ensures p.Text? ==> Takes([p], d, d, m, m)
    ensures p.Open? ==> Takes([p], d, d + 1, m, m)
    ensures p.Close? && d > 0 ==> Takes([p], d, d - 1, m, m)
    ensures p.If? ==> Takes([p], d, d, m, m + 1)
    ensures p.Else? && m > 0 ==> Takes([p], d, d, m, m - 1)
  {
    assert [p][1..] == [] && Spelled([p]) == Spelling(p) + "";
    assert Spelling(p) + "" == Spelling(p);
    if p.Text? {
      DepthShifts(0, p.text, d);
    } else if p.If? || p.Else? {
      BraceFree(d, Spelling(p));
    } else {
      assert Spelling(p)[1..] == "";
    }
  }

  lemma {:induction false} BraceFree(d: nat, s: string)
    requires '{' !in s && '}' !in s
    ensures DepthAfter(d, s) == Some(d)
    decreases |s|
  {
    if s != "" { BraceFree(d, s[1..]); }
  }

  /** Texts put in a row, none of them an if or else of the translator. */
  predicate PlainText(code: Code) {
    forall i :: 0 <= i < |code| ==> code[i].Text? && Balanced(code[i].text)
  }

  lemma {:induction false} PlainTextTakes(code: Code, d: nat, m: nat)
    requires PlainText(code)
    ensures Takes(code, d, d, m, m)
  {
    if code != [] {
      PlainTextTakes(code[1..], d, m);
      OnePiece(code[0], d, m);
      TakesJoins([code[0]], code[1..], d, d, d, m, m, m);
      assert [code[0]] + code[1..] == code;
    }
  }
}

module DragActions {
  import opened Sequences
  import opened DragActionText

  datatype ActionKind = Begin | End | ElseAction | Exit | RepeatAction | Variable | CodeAction | Normal | OtherKind

  datatype Execution = NoExecution | ExecFunction | ExecCode

  /** An argument: its text, and what Argument2Code makes of it. */
  datatype Argument = Argument(text: string, code: string)

  datatype Action = Action(
    kind: ActionKind, isQuestion: bool, execution: Execution, useApplyTo: bool, whoName: string,
    isNot: bool, useRelative: bool, relative: bool, codeString: string, functionName: string,
    args: seq<Argument>)

  /** The arguments an action of this kind reads are there. */
  predicate HasArguments(a: Action) {
    && (a.kind == RepeatAction || a.kind == CodeAction ==> |a.args| >= 1)
    && (a.kind == Variable ==> |a.args| >= 2)
  }

  predicate BalancedTexts(a: Action) {
    && Balanced(a.whoName) && Balanced(a.codeString) && Balanced(a.functionName)
    && forall i :: 0 <= i < |a.args| ==> Balanced(a.args[i].text) && Balanced(a.args[i].code)
  }

  predicate AllHaveArguments(actions: seq<Action>) {
    forall i :: 0 <= i < |actions| ==> HasArguments(actions[i])
  }

  predicate AllBalanced(actions: seq<Action>) {
    forall i :: 0 <= i < |actions| ==> BalancedTexts(actions[i])
  }

  // ---- what is emitted ----

  /** Code emitted, with the open braces and unanswered ifs it leaves. */
  datatype Emission = Emission(code: Code, braces: nat, ifs: nat)

  function Then(first: Code, second: Emission): Emission {
    Emission(first + second.code, second.braces, second.ifs)
  }

  /** Where the span that starts here ends, -1 when the list ended first, and where the
      next one starts. */
  datatype Next = Next(second: int, index: nat)

  function BlockEnd(actions: seq<Action>, i: nat): (e: nat)
    requires i <= |actions|
    ensures i <= e <= |actions|
    ensures e < |actions| ==> actions[e].kind == End
    ensures forall k :: i <= k < e ==> actions[k].kind != End
    decreases |actions| - i
  {
    if i == |actions| || actions[i].kind == End then i else BlockEnd(actions, i + 1)
  }

  /** Spans leave no gap: the next starts just after this one, or again on its last action
      when that is the end of a block. */
  function NextSpan(actions: seq<Action>, start: nat): (next: Next)
    requires start <= |actions|
    ensures start <= next.index <= |actions|
    ensures start < |actions| ==> start < next.index
    ensures next.second == -1 ==> next.index == |actions|
    ensures next.second != -1 ==> start <= next.second < |actions| && next.second <= next.index <= next.second + 1
    ensures next.second != -1 && next.index == next.second ==> actions[next.second].kind == End
    decreases |actions| - start
  {
    if start == |actions| then Next(-1, start)
    else if actions[start].isQuestion then
      var body := NextSpan(actions, start + 1);
      if body.index + 1 < |actions| && actions[body.index + 1].kind == ElseAction then
        NextSpan(actions, body.index + 2)
      else body
    else if actions[start].kind == RepeatAction then NextSpan(actions, start + 1)
    else if actions[start].kind == Begin then
      var e := BlockEnd(actions, start + 1);
      Next(if e == |actions| then |actions| - 1 else e, e)
    else Next(start, start + 1)
  }

  /** Whom the action is for, and whom code inside these targets is for. */
  function Target(a: Action): string {
    if a.useApplyTo then a.whoName else "self"
  }

  function Scope(targets: seq<string>): string {
    if targets == [] then "self" else targets[|targets| - 1]
  }

  function Entering(a: Action, scope: string): Code {
    if Target(a) == scope then [] else [Text("with ("), Text(Target(a)), Text(")\n")]
  }

  /** The first k arguments with commas between them. */
  function Listed(args: seq<Argument>, k: nat): Code
    requires k <= |args|
  {
    if k == 0 then []
    else Listed(args, k - 1) + (if k == 1 then [] else [Text(",")]) + [Text(args[k - 1].code)]
  }

  function ArgumentList(a: Action): Code {
    if a.execution == ExecFunction then [Text("(")] + Listed(a.args, |a.args|) + [Text(")")] else []
  }

  function Condition(a: Action): Code {
    [Text("\n__if__ = ")]
    + (if a.isNot then [Text("!")] else [])
    + (if !a.useRelative then []
       else [Text(if a.relative then "(argument_relative := true, " else "(argument_relative := false, ")])
    + [Text(if a.execution == ExecCode then a.codeString else a.functionName)]
    + ArgumentList(a)
    + (if a.useRelative then [Text(");")] else [])
  }

  function Braced(code: Code): Code {
    [Open] + code + [Close]
  }

  function NormalCode(a: Action): Code {
    if a.execution == NoExecution then []
    else if a.useRelative then
      Braced([Text(if a.relative then "argument_relative := true; " else "argument_relative := false; ")]
             + ([Text(a.functionName)] + ArgumentList(a)) + [Text("\n")])
    else [Text(a.functionName)] + ArgumentList(a)
  }

  /** One action that is no executed question. */
  function ActionEmission(a: Action, braces: nat, ifs: nat): Emission
    requires HasArguments(a)
  {
    match a.kind
    case Begin => Emission([Open], braces + 1, ifs)
    case End => if braces > 0 then Emission([Close], braces - 1, ifs) else Emission([], braces, ifs)
    case ElseAction => if ifs > 0 then Emission([Else], braces, ifs - 1) else Emission([], braces, ifs)
    case Exit => Emission([Text("exit ")], braces, ifs)
    case RepeatAction => Emission([Text("repeat ("), Text(a.args[0].text), Text(")")], braces, ifs)
    case Variable =>
      Emission([Text(a.args[0].text), Text(if a.relative then " += " else " = "), Text(a.args[1].text), Text("\n")],
               braces, ifs)
    case CodeAction => Emission(Braced([Text("\n"), Text(a.args[0].text), Text("\n/**/\n")]), braces, ifs)
    case Normal => Emission(NormalCode(a), braces, ifs)
    case OtherKind => Emission([], braces, ifs)
  }

  predicate AsksQuestion(a: Action) {
    a.kind == Normal && a.execution != NoExecution && a.isQuestion
  }

  function Left(first: nat, second: int): nat {
    if second < first then 0 else second - first + 1
  }

  /** The list being translated. An action read past its end is beyond: any action at all. */
  datatype Source = Source(actions: seq<Action>, beyond: Action) {
    function At(i: nat): Action {
      if i < |actions| then actions[i] else beyond
    }
  }

  function LoopEmission(src: Source, iter: nat, second: int, braces: nat, ifs: nat, scope: string): Emission
    requires second < |src.actions| && AllHaveArguments(src.actions)
    decreases Left(iter, second), 1
  {
    if iter > second then Emission([], braces, ifs)
    else if AsksQuestion(src.actions[iter]) then QuestionEmission(src, iter, second, braces, ifs, scope)
    else
      var one := ActionEmission(src.actions[iter], braces, ifs);
      Then(one.code, LoopEmission(src, iter + 1, second, one.braces, one.ifs, scope))
  }

  function QuestionEmission(src: Source, first: nat, second: int, braces: nat, ifs: nat, scope: string): Emission
    requires first <= second < |src.actions| && AllHaveArguments(src.actions)
    decreases Left(first, second), 0
  {
    var a := src.actions[first];
    var body := SpanEmission(src, first + 1, second, braces, ifs + 1, Target(a));
    Emission(Entering(a, scope) + [Open] + Condition(a) + [If] + body.code + [Close] + [Text("\n")],
             body.braces, body.ifs)
  }

  function SpanEmission(src: Source, first: nat, second: int, braces: nat, ifs: nat, scope: string): Emission
    requires second < |src.actions| && AllHaveArguments(src.actions)
    decreases Left(first, second), 2
  {
    var a := src.At(first);
    Then(Entering(a, scope), LoopEmission(src, first, second, braces, ifs, Target(a)))
  }

  function ListEmission(src: Source, i: nat, braces: nat, ifs: nat): Emission
    requires i <= |src.actions| && AllHaveArguments(src.actions)
    decreases |src.actions| - i
  {
    if i == |src.actions| then Emission([], braces, ifs)
    else
      var next := NextSpan(src.actions, i);
      var one := SpanEmission(src, i, next.second, braces, ifs, "self");
      Then(one.code, ListEmission(src, next.index, one.braces, one.ifs))
  }

  function Closers(braces: nat): Code {
    if braces == 0 then [] else [Text("\n"), Close] + Closers(braces - 1)
  }

  const IF_DECLARATION := Text("var __if__ = false;\n")

  function Body(src: Source): Code
    requires AllHaveArguments(src.actions)
  {
    var all := ListEmission(src, 0, 0, 0);
    all.code + Closers(all.braces)
  }

  function Program(src: Source): Code
    requires AllHaveArguments(src.actions)
  {
    (if ListEmission(src, 0, 0, 0).ifs > 0 then [IF_DECLARATION] else []) + Body(src)
  }

  // ---- the translator ----

  class Translator {
    const src: Source
    var numberOfBraces: nat
    var numberOfIfs: nat
    var whoStack: seq<string>

    constructor (actions: seq<Action>, beyond: Action)
      ensures src == Source(actions, beyond)
      ensures numberOfBraces == numberOfIfs == 0 && whoStack == []
    {
      src := Source(actions, beyond);
      numberOfBraces, numberOfIfs, whoStack := 0, 0, [];
    }

    method GetNextAction(start: nat) returns (second: int, index: nat)
      requires start <= |src.actions|
      ensures Next(second, index) == NextSpan(src.actions, start)
      decreases |src.actions| - start
    {
      var actions := src.actions;
      index := start;
      if index >= |actions| { return -1, index; }
      index := index + 1;
      if actions[start].isQuestion {
        second, index := GetNextAction(index);
        if index + 1 < |actions| && actions[index + 1].kind == ElseAction {
          index := index + 2;
          second, index := GetNextAction(index);
        }
        return second, index;
      } else if actions[start].kind == RepeatAction {
        second, index := GetNextAction(index);
        return second, index;
      } else if actions[start].kind == Begin {
        while index < |actions| && actions[index].kind != End
          invariant start < index <= |actions|
          invariant BlockEnd(actions, index) == BlockEnd(actions, start + 1)
        {
          index := index + 1;
        }
        return if index >= |actions| then |actions| - 1 else index, index;
      }
      return start, index;
    }

    method PushIfRequired(action: Action) returns (code: Code, pushed: bool)
      modifies this`whoStack
      ensures code == Entering(action, Scope(old(whoStack)))
      ensures Scope(whoStack) == Target(action)
      ensures whoStack == if pushed then old(whoStack) + [Target(action)] else old(whoStack)
    {
      code, pushed := [], false;
      if action.useApplyTo && action.whoName != "self" {
        if whoStack == [] || whoStack[|whoStack| - 1] != action.whoName {
          code := [Text("with ("), Text(action.whoName), Text(")\n")];
          whoStack := whoStack + [action.whoName];
          pushed := true;
        }
      } else if whoStack != [] && whoStack[|whoStack| - 1] != "self" {
        code := [Text("with ("), Text("self"), Text(")\n")];
        whoStack := whoStack + ["self"];
        pushed := true;
      }
    }

    method PopWho()
      requires whoStack != []
      modifies this`whoStack
      ensures whoStack == old(whoStack)[..|old(whoStack)| - 1]
    {
      whoStack := whoStack[..|whoStack| - 1];
    }

    method Arguments2Code(action: Action) returns (code: Code)
      ensures code == ArgumentList(action)
    {
      code := [];
      if action.execution == ExecFunction {
        code := [Text("(")];
        for i := 0 to |action.args|
          invariant code == [Text("(")] + Listed(action.args, i)
        {
          if i != 0 {
            code := code + [Text(",")];
          }
          code := code + [Text(action.args[i].code)];
        }
        code := code + [Text(")")];
      }
    }

    method Condition2Code(action: Action) returns (code: Code)
      ensures code == Condition(action)
    {
      hide ArgumentList;
      code := [Text("\n__if__ = ")];
      if action.isNot {
        code := code + [Text("!")];
      }
      if action.useRelative {
        code := code + [Text(if action.relative then "(argument_relative := true, " else "(argument_relative := false, ")];
      }
      if action.execution == ExecCode {
        code := code + [Text(action.codeString)];
      } else {
        code := code + [Text(action.functionName)];
      }
      var args := Arguments2Code(action);
      code := code + args;
      if action.useRelative {
        code := code + [Text(");")];
      }
    }

    /** The body of the switch of Action2Code, an executed question aside. */
    method Switch(action: Action) returns (code: Code)
      requires HasArguments(action)
      modifies this`numberOfBraces, this`numberOfIfs
      ensures Emission(code, numberOfBraces, numberOfIfs)
           == ActionEmission(action, old(numberOfBraces), old(numberOfIfs))
    {
      hide ArgumentList;
      code := [];
      match action.kind
      case Begin =>
        code := [Open];
        numberOfBraces := numberOfBraces + 1;
      case End =>
        if numberOfBraces > 0 {
          code := [Close];
          numberOfBraces := numberOfBraces - 1;
        }
      case ElseAction =>
        if numberOfIfs > 0 {
          code := [Else];
          numberOfIfs := numberOfIfs - 1;
        }
      case Exit => code := [Text("exit ")];
      case RepeatAction => code := [Text("repeat ("), Text(action.args[0].text), Text(")")];
      case Variable =>
        code := [Text(action.args[0].text), Text(if action.relative then " += " else " = "),
                 Text(action.args[1].text), Text("\n")];
      case CodeAction => code := [Open] + [Text("\n"), Text(action.args[0].text), Text("\n/**/\n")] + [Close];
      case Normal =>
        if action.execution == NoExecution { return; }
        var args := Arguments2Code(action);
        code := [Text(action.functionName)] + args;
        if action.useRelative {
          code := [Open]
            + ([Text(if action.relative then "argument_relative := true; " else "argument_relative := false; ")]
               + code + [Text("\n")]) + [Close];
        }
      case OtherKind =>
    }

    method Question2Code(first: nat, second: int) returns (code: Code, displacement: nat)
      requires first <= second < |src.actions| && AllHaveArguments(src.actions)
      modifies this
      ensures Emission(code, numberOfBraces, numberOfIfs)
           == QuestionEmission(src, first, second, old(numberOfBraces), old(numberOfIfs), Scope(old(whoStack)))
      ensures whoStack == old(whoStack) && displacement == second - first
      decreases Left(first, second), 0
    {
      hide Condition, Entering, LoopEmission;
      var action := src.actions[first];
      var pushed;
      code, pushed := PushIfRequired(action);
      code := code + [Open];
      numberOfIfs := numberOfIfs + 1;
      var condition := Condition2Code(action);
      code := code + condition + [If];
      var body := Action2Code(first + 1, second);
      code := code + body + [Close] + [Text("\n")];
      displacement := second - first;
      if pushed {
        PopWho();
      }
    }

    method Action2Code(first: nat, second: int) returns (code: Code)
      requires second < |src.actions| && AllHaveArguments(src.actions)
      modifies this
      ensures Emission(code, numberOfBraces, numberOfIfs)
           == SpanEmission(src, first, second, old(numberOfBraces), old(numberOfIfs), Scope(old(whoStack)))
      ensures whoStack == old(whoStack)
      decreases Left(first, second), 2
    {
      hide QuestionEmission, ActionEmission, Entering, AsksQuestion;
      var action := src.At(first);
      var pushed;
      code, pushed := PushIfRequired(action);
      ghost var scope, stack := Target(action), whoStack;
      ghost var whole := SpanEmission(src, first, second, numberOfBraces, numberOfIfs, Scope(old(whoStack)));
      var iter := first;
      while iter <= second
        invariant first <= iter && whoStack == stack
        invariant Then(code, LoopEmission(src, iter, second, numberOfBraces, numberOfIfs, scope)) == whole
        decreases Left(iter, second)
      {
        ghost var b, n, done := numberOfBraces, numberOfIfs, code;
        if AsksQuestion(src.actions[iter]) {
          var question, displacement := Question2Code(iter, second);
          code := code + question;
          iter := iter + displacement;
          assert code + [] == code;
        } else {
          var one := Switch(src.actions[iter]);
          code := code + one;
          Assoc(done, one, LoopEmission(src, iter + 1, second, numberOfBraces, numberOfIfs, scope).code);
        }
        iter := iter + 1;
      }
      assert code + [] == code;
      if pushed {
        PopWho();
      }
    }

    method Actions2Code() returns (code: Code)
      requires AllHaveArguments(src.actions)
      requires numberOfBraces == numberOfIfs == 0 && whoStack == []
      modifies this
      ensures code == Program(src) && whoStack == []
    {
      hide SpanEmission, NextSpan;
      code := [];
      var i := 0;
      ghost var all := ListEmission(src, 0, 0, 0);
      assert all == Then(code, all) by { assert [] + all.code == all.code; }
      while i < |src.actions|
        invariant i <= |src.actions| && whoStack == []
        invariant Then(code, ListEmission(src, i, numberOfBraces, numberOfIfs)) == all
        decreases |src.actions| - i
      {
        ghost var done := code;
        var second, index := GetNextAction(i);
        var one := Action2Code(i, second);
        code := code + one;
        Assoc(done, one, ListEmission(src, index, numberOfBraces, numberOfIfs).code);
        i := index;
      }
      assert code + [] == code;
      ghost var closed := Closers(numberOfBraces);
      var k := 0;
      while k < numberOfBraces
        invariant k <= numberOfBraces
        invariant code + Closers(numberOfBraces - k) == all.code + closed
        invariant numberOfBraces == all.braces && numberOfIfs == all.ifs && whoStack == []
      {
        Assoc(code, [Text("\n"), Close], Closers(numberOfBraces - k - 1));
        code := code + [Text("\n"), Close];
        k := k + 1;
      }
      assert code + [] == code;
      if numberOfIfs > 0 {
        code := [IF_DECLARATION] + code;
      }
    }
  }

  // ---- balance ----

  lemma BracedTakes(code: Code, d: nat, m: nat)
    requires PlainText(code)
    ensures Takes([Open] + code + [Close], d, d, m, m)
  {
    OnePiece(Open, d, m);
    PlainTextTakes(code, d + 1, m);
    OnePiece(Close, d + 1, m);
    TakesJoins([Open], code, d, d + 1, d + 1, m, m, m);
    TakesJoins([Open] + code, [Close], d, d + 1, d, m, m, m);
  }

  /** A question opens a brace around its body, whatever braces the body leaves open. */
  lemma QuestionTakes(with': Code, condition: Code, body: Code, d: nat, e: nat, m: nat, n: nat)
    requires PlainText(with') && PlainText(condition) && Takes(body, d, e, m + 1, n)
    ensures Takes(with' + [Open] + condition + [If] + body + [Close] + [Text("\n")], d, e, m, n)
  {
    hide Takes;
    PlainTextTakes(with', d, m);
    OnePiece(Open, d, m);
    TakesJoins(with', [Open], d, d, d + 1, m, m, m);
    PlainTextTakes(condition, d + 1, m);
    TakesJoins(with' + [Open], condition, d, d + 1, d + 1, m, m, m);
    OnePiece(If, d + 1, m);
    TakesJoins(with' + [Open] + condition, [If], d, d + 1, d + 1, m, m, m + 1);
    BodyInBrace(body, d, e, m + 1, n);
    var head := with' + [Open] + condition + [If];
    TakesJoins(head, body, d, d + 1, e + 1, m, m + 1, n);
    OnePiece(Close, e + 1, n);
    TakesJoins(head + body, [Close], d, e + 1, e, m, n, n);
    BraceFree(0, "\n");
    OnePiece(Text("\n"), e, n);
    TakesJoins(head + body + [Close], [Text("\n")], d, e, e, m, n, n);
  }

  lemma BodyInBrace(body: Code, d: nat, e: nat, m: nat, n: nat)
    requires Takes(body, d, e, m, n)
    ensures Takes(body, d + 1, e + 1, m, n)
  {
    DepthShifts(d, Spelled(body), 1);
  }

  lemma NoBraces(s: string)
    requires '{' !in s && '}' !in s
    ensures Balanced(s)
  {
    BraceFree(0, s);
  }

  lemma {:induction false} ListedIsPlain(args: seq<Argument>, k: nat)
    requires k <= |args| && forall i :: 0 <= i < |args| ==> Balanced(args[i].code)
    ensures PlainText(Listed(args, k))
  {
    hide Balanced;
    if k > 0 {
      ListedIsPlain(args, k - 1);
      NoBraces(",");
    }
  }

  lemma ArgumentsArePlain(a: Action)
    requires BalancedTexts(a)
    ensures PlainText(ArgumentList(a))
  {
    hide Balanced;
    NoBraces("(");
    ListedIsPlain(a.args, |a.args|);
    NoBraces(")");
  }

  lemma EnteringIsPlain(a: Action, scope: string)
    requires BalancedTexts(a)
    ensures PlainText(Entering(a, scope))
  {
    hide Balanced;
    NoBraces("with (");
    NoBraces(")\n");
    NoBraces("self");
  }

  lemma PlainJoins(first: Code, second: Code)
    requires PlainText(first) && PlainText(second)
    ensures PlainText(first + second)
  {
  }

  lemma PlainPiece(b: bool, s: string, t: string)
    requires Balanced(s) && Balanced(t)
    ensures PlainText([Text(if b then s else t)]) && PlainText(if b then [Text(s)] else [])
  {
  }

  lemma ConditionMarks()
    ensures Balanced("\n__if__ = ") && Balanced("!") && Balanced(");")
  {
    hide Balanced;
    NoBraces("\n__if__ = ");
    NoBraces("!");
    NoBraces(");");
  }

  lemma RelativeTrue()
    ensures Balanced("(argument_relative := true, ")
  {
    NoBraces("(argument_relative := true, ");
  }

  lemma RelativeFalse()
    ensures Balanced("(argument_relative := false, ")
  {
    NoBraces("(argument_relative := false, ");
  }

  lemma ConditionIsPlain(a: Action)
    requires BalancedTexts(a)
    ensures PlainText(Condition(a))
  {
    hide Balanced, ArgumentList, PlainText;
    ConditionMarks();
    RelativeTrue();
    RelativeFalse();
    ArgumentsArePlain(a);
    var start := [Text("\n__if__ = ")];
    PlainPiece(true, "\n__if__ = ", "!");
    var negation := if a.isNot then [Text("!")] else [];
    PlainPiece(a.isNot, "!", "!");
    var relative := if !a.useRelative then []
      else [Text(if a.relative then "(argument_relative := true, " else "(argument_relative := false, ")];
    PlainPiece(a.relative, "(argument_relative := true, ", "(argument_relative := false, ");
    PlainPiece(false, "!", "!");
    var call := [Text(if a.execution == ExecCode then a.codeString else a.functionName)];
    PlainPiece(a.execution == ExecCode, a.codeString, a.functionName);
    var end := if a.useRelative then [Text(");")] else [];
    PlainPiece(a.useRelative, ");", ");");
    SixJoin(start, negation, relative, call, ArgumentList(a), end);
  }

  lemma SixJoin(a: Code, b: Code, c: Code, d: Code, e: Code, f: Code)
    requires PlainText(a) && PlainText(b) && PlainText(c) && PlainText(d) && PlainText(e) && PlainText(f)
    ensures PlainText(a + b + c + d + e + f)
  {
    hide PlainText;
    PlainJoins(a, b);
    PlainJoins(a + b, c);
    PlainJoins(a + b + c, d);
    PlainJoins(a + b + c + d, e);
    PlainJoins(a + b + c + d + e, f);
  }

  lemma NormalTakes(a: Action, d: nat, m: nat)
    requires BalancedTexts(a)
    ensures Takes(NormalCode(a), d, d, m, m)
  {
    hide Balanced, ArgumentList, Takes;
    ArgumentsArePlain(a);
    NoBraces("argument_relative := true; ");
    NoBraces("argument_relative := false; ");
    NoBraces("\n");
    if a.execution == NoExecution {
      PlainTextTakes([], d, m);
    } else if a.useRelative {
      BracedTakes([Text(if a.relative then "argument_relative := true; " else "argument_relative := false; ")]
                  + ([Text(a.functionName)] + ArgumentList(a)) + [Text("\n")], d, m);
    } else {
      PlainTextTakes([Text(a.functionName)] + ArgumentList(a), d, m);
    }
  }

  lemma ActionTakes(a: Action, d: nat, m: nat)
    requires HasArguments(a) && BalancedTexts(a)
    ensures Takes(ActionEmission(a, d, m).code, d, ActionEmission(a, d, m).braces, m, ActionEmission(a, d, m).ifs)
  {
    hide Takes, NormalCode, Balanced;
    PlainTextTakes([], d, m);
    match a.kind
    case Begin => OnePiece(Open, d, m);
    case End => OnePiece(Close, d, m);
    case ElseAction => OnePiece(Else, d, m);
    case Exit =>
      NoBraces("exit ");
      PlainTextTakes([Text("exit ")], d, m);
    case RepeatAction =>
      NoBraces("repeat (");
      NoBraces(")");
      PlainTextTakes([Text("repeat ("), Text(a.args[0].text), Text(")")], d, m);
    case Variable =>
      NoBraces(" += ");
      NoBraces(" = ");
      NoBraces("\n");
      PlainTextTakes([Text(a.args[0].text), Text(if a.relative then " += " else " = "), Text(a.args[1].text), Text("\n")],
                     d, m);
    case CodeAction =>
      NoBraces("\n");
      NoBraces("\n/**/\n");
      BracedTakes([Text("\n"), Text(a.args[0].text), Text("\n/**/\n")], d, m);
    case Normal => NormalTakes(a, d, m);
    case OtherKind =>
  }

  /** The emission starts from d braces and m ifs and leaves what it says it leaves. */
  ghost predicate Keeps(e: Emission, d: nat, m: nat) {
    Takes(e.code, d, e.braces, m, e.ifs)
  }

  lemma ThenKeeps(first: Code, d: nat, e: nat, m: nat, n: nat, second: Emission)
    requires Takes(first, d, e, m, n) && Keeps(second, e, n)
    ensures Keeps(Then(first, second), d, m)
  {
    TakesJoins(first, second.code, d, e, second.braces, m, n, second.ifs);
  }

  lemma {:induction false} LoopKeeps(src: Source, iter: nat, second: int, d: nat, m: nat, scope: string)
    requires second < |src.actions| && AllHaveArguments(src.actions)
    requires AllBalanced(src.actions) && BalancedTexts(src.beyond)
    ensures Keeps(LoopEmission(src, iter, second, d, m, scope), d, m)
    decreases Left(iter, second), 1
  {
    hide Takes, QuestionEmission, ActionEmission, BalancedTexts, HasArguments;
    if iter > second {
      PlainTextTakes([], d, m);
    } else if AsksQuestion(src.actions[iter]) {
      QuestionKeeps(src, iter, second, d, m, scope);
    } else {
      var one := ActionEmission(src.actions[iter], d, m);
      ActionTakes(src.actions[iter], d, m);
      LoopKeeps(src, iter + 1, second, one.braces, one.ifs, scope);
      ThenKeeps(one.code, d, one.braces, m, one.ifs,
                LoopEmission(src, iter + 1, second, one.braces, one.ifs, scope));
    }
  }

  lemma {:induction false} QuestionKeeps(src: Source, first: nat, second: int, d: nat, m: nat, scope: string)
    requires first <= second < |src.actions| && AllHaveArguments(src.actions)
    requires AllBalanced(src.actions) && BalancedTexts(src.beyond)
    ensures Keeps(QuestionEmission(src, first, second, d, m, scope), d, m)
    decreases Left(first, second), 0
  {
    hide Takes, Condition, Entering, SpanEmission, BalancedTexts;
    var a := src.actions[first];
    var body := SpanEmission(src, first + 1, second, d, m + 1, Target(a));
    EnteringIsPlain(a, scope);
    ConditionIsPlain(a);
    SpanKeeps(src, first + 1, second, d, m + 1, Target(a));
    QuestionTakes(Entering(a, scope), Condition(a), body.code, d, body.braces, m, body.ifs);
  }

  /** Every span of a list of balanced texts keeps count of its braces and ifs. */
  lemma {:induction false} SpanKeeps(src: Source, first: nat, second: int, d: nat, m: nat, scope: string)
    requires second < |src.actions| && AllHaveArguments(src.actions)
    requires AllBalanced(src.actions) && BalancedTexts(src.beyond)
    ensures Keeps(SpanEmission(src, first, second, d, m, scope), d, m)
    decreases Left(first, second), 2
  {
    hide Takes, Entering, LoopEmission, BalancedTexts;
    var a := src.At(first);
    EnteringIsPlain(a, scope);
    PlainTextTakes(Entering(a, scope), d, m);
    LoopKeeps(src, first, second, d, m, Target(a));
    ThenKeeps(Entering(a, scope), d, d, m, m, LoopEmission(src, first, second, d, m, Target(a)));
  }

  lemma {:induction false} ListKeeps(src: Source, i: nat, d: nat, m: nat)
    requires i <= |src.actions| && AllHaveArguments(src.actions)
    requires AllBalanced(src.actions) && BalancedTexts(src.beyond)
    ensures Keeps(ListEmission(src, i, d, m), d, m)
    decreases |src.actions| - i
  {
    hide Takes, SpanEmission, NextSpan;
    if i == |src.actions| {
      PlainTextTakes([], d, m);
    } else {
      var next := NextSpan(src.actions, i);
      var one := SpanEmission(src, i, next.second, d, m, "self");
      SpanKeeps(src, i, next.second, d, m, "self");
      ListKeeps(src, next.index, one.braces, one.ifs);
      ThenKeeps(one.code, d, one.braces, m, one.ifs, ListEmission(src, next.index, one.braces, one.ifs));
    }
  }

  lemma {:induction false} ClosersTake(d: nat, m: nat)
    ensures Takes(Closers(d), d, 0, m, m)
  {
    hide Takes;
    if d == 0 {
      PlainTextTakes([], 0, m);
    } else {
      NoBraces("\n");
      OnePiece(Text("\n"), d, m);
      OnePiece(Close, d, m);
      TakesJoins([Text("\n")], [Close], d, d, d - 1, m, m, m);
      assert [Text("\n")] + [Close] == [Text("\n"), Close];
      ClosersTake(d - 1, m);
      TakesJoins([Text("\n"), Close], Closers(d - 1), d, d - 1, 0, m, m, m);
    }
  }

  /** Whatever the list of actions with balanced texts, the program's braces balance and no
      else comes before its if. __if__ is declared just when some if has no else. */
  lemma ProgramsAreBalanced(src: Source)
    requires AllHaveArguments(src.actions) && AllBalanced(src.actions) && BalancedTexts(src.beyond)
    ensures Balanced(Spelled(Program(src)))
    ensures forall k :: 0 <= k <= |Program(src)| ==>
              CountElses(Program(src)[..k]) <= CountIfs(Program(src)[..k])
    ensures Program(src)
         == (if CountElses(Program(src)) < CountIfs(Program(src)) then [IF_DECLARATION] else []) + Body(src)
  {
    hide Takes, ListEmission, BalancedTexts, HasArguments, CountIfs, CountElses, Spelled;
    var all := ListEmission(src, 0, 0, 0);
    var code := all.code + Closers(all.braces);
    ListKeeps(src, 0, 0, 0);
    ClosersTake(all.braces, all.ifs);
    TakesJoins(all.code, Closers(all.braces), 0, all.braces, 0, 0, all.ifs, all.ifs);
    if all.ifs > 0 {
      NoBraces(IF_DECLARATION.text);
      OnePiece(IF_DECLARATION, 0, 0);
      TakesJoins([IF_DECLARATION], code, 0, 0, 0, 0, 0, all.ifs);
    } else {
      assert Program(src) == [] + code == code;
    }
    TakenCounts(Program(src), all.ifs);
  }

  // ---- when __if__ is declared, told from the list alone ----

  /** Where the spans followed from i end: one that runs into the end of the list without
      an action to act on is given up, and with it what was skipped on the way. */
  function Reached(actions: seq<Action>, i: nat): (end: nat)
    requires i <= |actions|
    ensures i <= end <= |actions|
    decreases |actions| - i
  {
    var next := NextSpan(actions, i);
    if next.second == -1 then i else Reached(actions, next.index)
  }

  /** Questions of actions[i..j] no else has answered, n being open before. */
  function IfsLeft(actions: seq<Action>, i: nat, j: nat, n: nat): nat
    requires j <= |actions|
    decreases j - i
  {
    if i >= j then n
    else if AsksQuestion(actions[i]) then IfsLeft(actions, i + 1, j, n + 1)
    else if actions[i].kind == ElseAction && n > 0 then IfsLeft(actions, i + 1, j, n - 1)
    else IfsLeft(actions, i + 1, j, n)
  }

  predicate Asks(actions: seq<Action>, i: nat, j: nat)
    requires j <= |actions|
  {
    exists k :: i <= k < j && AsksQuestion(actions[k])
  }

  /** The emission asks as actions[i..j] do, and leaves as many ifs. */
  ghost predicate Tells(e: Emission, actions: seq<Action>, i: nat, j: nat, n: nat)
    requires j <= |actions|
  {
    e.ifs == IfsLeft(actions, i, j, n) && (If in e.code <==> Asks(actions, i, j))
  }

  lemma {:induction false} IfsLeftSplits(actions: seq<Action>, i: nat, j: nat, k: nat, n: nat)
    requires i <= j <= k <= |actions|
    ensures IfsLeft(actions, i, k, n) == IfsLeft(actions, j, k, IfsLeft(actions, i, j, n))
    decreases j - i
  {
    if i < j {
      IfsLeftSplits(actions, i + 1, j, k,
                    if AsksQuestion(actions[i]) then n + 1
                    else if actions[i].kind == ElseAction && n > 0 then n - 1 else n);
    }
  }

  lemma {:induction false} ListedAsksNothing(args: seq<Argument>, k: nat)
    requires k <= |args|
    ensures If !in Listed(args, k)
  {
    if k > 0 { ListedAsksNothing(args, k - 1); }
  }

  lemma ArgumentsAskNothing(a: Action)
    ensures If !in ArgumentList(a)
  {
    hide Listed;
    ListedAsksNothing(a.args, |a.args|);
  }

  lemma NormalAsksNothing(a: Action)
    ensures If !in NormalCode(a)
  {
    hide ArgumentList;
    ArgumentsAskNothing(a);
  }

  lemma ActionAsksNothing(a: Action, braces: nat, ifs: nat)
    requires HasArguments(a)
    ensures If !in ActionEmission(a, braces, ifs).code
  {
    hide NormalCode;
    NormalAsksNothing(a);
  }

  lemma {:induction false} LoopTells(src: Source, iter: nat, second: int, d: nat, n: nat, scope: string)
    requires -1 <= second < |src.actions| && AllHaveArguments(src.actions)
    ensures Tells(LoopEmission(src, iter, second, d, n, scope), src.actions, iter, second + 1, n)
    decreases Left(iter, second), 1
  {
    hide QuestionEmission, AsksQuestion, HasArguments;
    if iter <= second {
      if AsksQuestion(src.actions[iter]) {
        QuestionTells(src, iter, second, d, n, scope);
      } else {
        var one := ActionEmission(src.actions[iter], d, n);
        ActionAsksNothing(src.actions[iter], d, n);
        LoopTells(src, iter + 1, second, one.braces, one.ifs, scope);
      }
    }
  }

  lemma {:induction false} QuestionTells(src: Source, first: nat, second: int, d: nat, n: nat, scope: string)
    requires first <= second < |src.actions| && AllHaveArguments(src.actions)
    requires AsksQuestion(src.actions[first])
    ensures Tells(QuestionEmission(src, first, second, d, n, scope), src.actions, first, second + 1, n)
    decreases Left(first, second), 0
  {
    hide SpanEmission, Condition, Entering, AsksQuestion, HasArguments;
    var a := src.actions[first];
    SpanTells(src, first + 1, second, d, n + 1, Target(a));
    var body := SpanEmission(src, first + 1, second, d, n + 1, Target(a));
    assert QuestionEmission(src, first, second, d, n, scope).code[|Entering(a, scope)| + 1 + |Condition(a)|] == If;
  }

  /** A span asks just when some action in it does, and leaves as many ifs as they do. */
  lemma {:induction false} SpanTells(src: Source, first: nat, second: int, d: nat, n: nat, scope: string)
    requires -1 <= second < |src.actions| && AllHaveArguments(src.actions)
    ensures Tells(SpanEmission(src, first, second, d, n, scope), src.actions, first, second + 1, n)
    decreases Left(first, second), 2
  {
    hide LoopEmission, AsksQuestion, HasArguments;
    LoopTells(src, first, second, d, n, Target(src.At(first)));
  }

  /** A block is one span with the first end action after its begin, or with all that is
      left when there is none; any other action that has no body is a span of its own. */
  lemma SpanShapes(actions: seq<Action>, i: nat, e: nat)
    requires i < e <= |actions| && !actions[i].isQuestion && actions[i].kind != RepeatAction
    requires forall k :: i < k < e ==> actions[k].kind != End
    requires e < |actions| ==> actions[e].kind == End
    ensures actions[i].kind != Begin ==> NextSpan(actions, i) == Next(i, i + 1)
    ensures actions[i].kind == Begin && e < |actions| ==> NextSpan(actions, i) == Next(e, e)
    ensures actions[i].kind == Begin && e == |actions| ==> NextSpan(actions, i) == Next(|actions| - 1, |actions|)
  {
    var found := BlockEnd(actions, i + 1);
    assert found == e;
  }

  /** The else right after the body of a question is in the span of the question exactly
      when the body ends with the end of a block, or another else follows. */
  lemma ElseIsTakenExactly(actions: seq<Action>, i: nat)
    requires i < |actions| && actions[i].isQuestion && NextSpan(actions, i + 1).second != -1
    requires var e := NextSpan(actions, i + 1).second; e + 1 < |actions| && actions[e + 1].kind == ElseAction
    ensures var (body, whole) := (NextSpan(actions, i + 1), NextSpan(actions, i));
      (whole.second == -1 || whole.second > body.second)
      <==> body.index == body.second || (body.second + 2 < |actions| && actions[body.second + 2].kind == ElseAction)
  {
    hide BlockEnd;
  }

  lemma {:induction false} ListTells(src: Source, i: nat, d: nat, n: nat)
    requires i <= |src.actions| && AllHaveArguments(src.actions)
    ensures Tells(ListEmission(src, i, d, n), src.actions, i, Reached(src.actions, i), n)
    decreases |src.actions| - i
  {
    hide SpanEmission, NextSpan, HasArguments;
    if i < |src.actions| {
      var actions, next := src.actions, NextSpan(src.actions, i);
      var one := SpanEmission(src, i, next.second, d, n, "self");
      SpanTells(src, i, next.second, d, n, "self");
      ListTells(src, next.index, one.braces, one.ifs);
      if next.second != -1 {
        var end := Reached(actions, next.index);
        if next.index == next.second {
          IfsLeftSplits(actions, i, next.second, next.second + 1, n);
        }
        IfsLeftSplits(actions, i, next.index, end, n);
      }
    }
  }

  lemma {:induction false} ClosersAskNothing(d: nat)
    ensures If !in Closers(d)
  {
    if d > 0 { ClosersAskNothing(d - 1); }
  }

  /** __if__ is declared just when the actions reached leave a question unanswered, so a
      program assigns it undeclared just when some of them ask and an else answers each. */
  lemma AnsweredIfsAreUndeclared(src: Source)
    requires AllHaveArguments(src.actions)
    ensures Program(src) == Body(src) <==> IfsLeft(src.actions, 0, Reached(src.actions, 0), 0) == 0
    ensures If in Program(src) && Program(src) == Body(src)
       <==> Asks(src.actions, 0, Reached(src.actions, 0)) && IfsLeft(src.actions, 0, Reached(src.actions, 0), 0) == 0
  {
    hide ListEmission, AsksQuestion, HasArguments;
    var all := ListEmission(src, 0, 0, 0);
    ListTells(src, 0, 0, 0);
    ClosersAskNothing(all.braces);
    assert [] + Body(src) == Body(src) && |[IF_DECLARATION] + Body(src)| != |Body(src)|;
  }

  /** A question followed by an else. */
  lemma QuestionWithElseIsUndeclared(src: Source)
    requires |src.actions| == 2 && AllHaveArguments(src.actions)
    requires AsksQuestion(src.actions[0]) && src.actions[1].kind == ElseAction && !src.actions[1].isQuestion
    ensures Program(src) == Body(src) && If in Program(src)
  {
    var actions := src.actions;
    assert NextSpan(actions, 2) == Next(-1, 2) && NextSpan(actions, 1) == Next(1, 2);
    assert NextSpan(actions, 0) == Next(1, 2);
    assert Reached(actions, 0) == 2 by { assert Reached(actions, 2) == 2; }
    assert IfsLeft(actions, 0, 2, 0) == IfsLeft(actions, 1, 2, 1) == 0;
    assert Asks(actions, 0, 2);
    AnsweredIfsAreUndeclared(src);
  }

  lemma TakenCounts(code: Code, n: nat)
    requires Takes(code, 0, 0, 0, n)
    ensures Balanced(Spelled(code))
    ensures forall k :: 0 <= k <= |code| ==> CountElses(code[..k]) <= CountIfs(code[..k])
    ensures CountIfs(code) == CountElses(code) + n
  {
    hide DepthAfter, Spelled;
    forall k | 0 <= k <= |code| ensures CountElses(code[..k]) <= CountIfs(code[..k]) {
      ElsesNeverExceedIfs(0, code, k);
    }
    UnansweredIfs(0, code);
  }

  lemma {:induction false} UnansweredIfs(n: nat, code: Code)
    requires IfsAfter(n, code).Some?
    ensures n + CountIfs(code) == IfsAfter(n, code).value + CountElses(code)
    decreases |code|
  {
    if code != [] {
      var n' := match code[0] case If => n + 1 case Else => n - 1 case _ => n;
      UnansweredIfs(n', code[1..]);
    }
  }

  // ---- what the two counts mean ----

  function CountIfs(code: Code): nat {
    if code == [] then 0 else (if code[0].If? then 1 else 0) + CountIfs(code[1..])
  }

  function CountElses(code: Code): nat {
    if code == [] then 0 else (if code[0].Else? then 1 else 0) + CountElses(code[1..])
  }

  /** No prefix of the code has more elses than ifs. */
  lemma {:induction false} ElsesNeverExceedIfs(n: nat, code: Code, k: nat)
    requires k <= |code| && IfsAfter(n, code).Some?
    ensures CountElses(code[..k]) <= n + CountIfs(code[..k])
    decreases |code|
  {
    if k > 0 {
      var n' := match code[0] case If => n + 1 case Else => n - 1 case _ => n;
      ElsesNeverExceedIfs(n', code[1..], k - 1);
      assert code[..k][1..] == code[1..][..k - 1];
    }
  }

  function Braces(s: string, c: char): nat {
    if s == "" then 0 else (if s[0] == c then 1 else 0) + Braces(s[1..], c)
  }

  /** No prefix of balanced text closes more braces than it opens, and in the whole the two
      are as many. */
  lemma {:induction false} DepthIsNeverNegative(d: nat, s: string, k: nat)
    requires k <= |s| && DepthAfter(d, s).Some?
    ensures Braces(s[..k], '}') <= d + Braces(s[..k], '{')
    ensures DepthAfter(d, s).value + Braces(s, '}') == d + Braces(s, '{')
    decreases |s|
  {
    if s != "" {
      var d' := if s[0] == '{' then d + 1 else if s[0] == '}' then d - 1 else d;
      DepthIsNeverNegative(d', s[1..], if k > 0 then k - 1 else 0);
      if k > 0 { assert s[..k][1..] == s[1..][..k - 1]; }
    }
  }
}
