// The token stream: raw tokens, a stack of open macro buffers, and macro calls.
module LexerSpec {
  import opened Options
  import opened Sequences
  import opened Macros

  const COMMA := Token(Comma, [44])

  /** What ReadRawToken yields from source text: no blanks and no end marker, and every
      comma is the same token. */
  predicate RawCode(code: seq<Token>) {
    forall i :: 0 <= i < |code| ==>
      code[i].kind != EndOfCode && (code[i].kind == Comma ==> code[i] == COMMA)
  }

  /** An object-like macro has no parameter list. */
  datatype Macro = Macro(value: seq<Token>, params: Option<seq<Text>>, variadic: bool, parts: seq<Component>)

  /** What the lexer is given: macros, keyword translation and token pasting. */
  datatype Context = Context(macros: map<Text, Macro>, translate: Token -> Token, paste: (Token, Token) -> Token)

  predicate CompiledContext(context: Context) {
    forall name :: name in context.macros ==> SpansInBounds(context.macros[name].parts, context.macros[name].value)
  }

  // ---- the arguments of one call ----

  datatype Collected = Collected(args: seq<seq<Token>>, end: nat, dropped: nat)

  function PushLast(args: seq<seq<Token>>, t: Token): seq<seq<Token>> {
    if args == [] then [[t]] else args[..|args| - 1] + [args[|args| - 1] + [t]]
  }

  /** Arguments from pos on, inside paren parentheses; None when the code ends first. */
  function Collect(code: seq<Token>, pos: nat, limit: nat, variadic: bool, args: seq<seq<Token>>, paren: nat,
                   dropped: nat): (r: Option<Collected>)
    requires pos <= |code| && paren > 0
    ensures r.Some? ==> pos < r.value.end <= |code|
    decreases |code| - pos
  {
    if pos == |code| then None
    else
      var t := code[pos];
      if t.kind == OpenParen then Collect(code, pos + 1, limit, variadic, PushLast(args, t), paren + 1, dropped)
      else if t.kind == CloseParen then
        if paren == 1 then Some(Collected(args, pos + 1, dropped))
        else Collect(code, pos + 1, limit, variadic, PushLast(args, t), paren - 1, dropped)
      else if t.kind == Comma && paren == 1 then
        if |args| < limit then Collect(code, pos + 1, limit, variadic, args + [[]], paren, dropped)
        else if variadic then Collect(code, pos + 1, limit, variadic, PushLast(args, t), paren, dropped)
        else Collect(code, pos + 1, limit, variadic, args, paren, dropped + 1)
      else Collect(code, pos + 1, limit, variadic, PushLast(args, t), paren, dropped)
  }

  /** The call whose opening parenthesis is at pos. */
  function CallAt(code: seq<Token>, pos: nat, macro: Macro): (r: Option<Collected>)
    ensures r.Some? ==> pos + 1 < r.value.end <= |code|
  {
    if macro.params.Some? && pos < |code| && code[pos].kind == OpenParen
    then Collect(code, pos + 1, |macro.params.value|, macro.variadic, [[]], 1, 0)
    else None
  }

  // ---- batch expansion ----

  /** The tokens before the first end marker. */
  function UpToEnd(tokens: seq<Token>): seq<Token> {
    if tokens == [] || tokens[0].kind == EndOfCode then [] else [tokens[0]] + UpToEnd(tokens[1..])
  }

  /** What one macro call is replaced by. */
  function Unrolled(macro: Macro, args: seq<seq<Token>>, context: Context): seq<Token> {
    RunParts(macro.parts, macro.value,
      Call(args, seq(|args|, i requires 0 <= i < |args| => UpToEnd(args[i])), context.paste),
             [], false)
  }

  /** Where reading goes on after the macro name before pos, and what the use becomes. */
  function UseAt(code: seq<Token>, pos: nat, macro: Macro, context: Context): (r: (seq<Token>, nat))
    requires pos <= |code|
    ensures pos <= r.1 <= |code|
  {
    if macro.params.None? then (macro.value, pos)
    else if pos == |code| then ([], pos)
    else if code[pos].kind != OpenParen then ([], pos + 1)
    else
      match CallAt(code, pos, macro)
      case Some(call) => (Unrolled(macro, call.args, context), call.end)
      case None => ([], pos)
  }

  /** The raw stream from pos on with each macro use replaced once. */
  function Expansion(code: seq<Token>, pos: nat, context: Context): seq<Token>
    requires pos <= |code|
    decreases |code| - pos
  {
    if pos == |code| then []
    else
      var t := code[pos];
      if t.kind != Identifier then [t] + Expansion(code, pos + 1, context)
      else if t.content in context.macros then
        var (tokens, next) := UseAt(code, pos + 1, context.macros[t.content], context);
        tokens + Expansion(code, next, context)
      else [context.translate(t)] + Expansion(code, pos + 1, context)
  }

  lemma {:induction false} UpToEndKeeps(tokens: seq<Token>)
    requires forall i :: 0 <= i < |tokens| ==> tokens[i].kind != EndOfCode
    ensures UpToEnd(tokens) == tokens
  {
    if tokens != [] { UpToEndKeeps(tokens[1..]); }
  }

  // ---- what collecting conserves ----

  function Rejoin(args: seq<seq<Token>>): seq<Token> {
    if args == [] then [] else if |args| == 1 then args[0]
    else Rejoin(args[..|args| - 1]) + [COMMA] + args[|args| - 1]
  }

  lemma RejoinPush(args: seq<seq<Token>>, t: Token)
    requires args != []
    ensures Rejoin(PushLast(args, t)) == Rejoin(args) + [t]
  {
    var pushed := PushLast(args, t);
    assert pushed[..|pushed| - 1] == args[..|args| - 1];
    if |args| > 1 {
      Assoc(Rejoin(args[..|args| - 1]) + [COMMA], args[|args| - 1], [t]);
    }
  }

  lemma RejoinNew(args: seq<seq<Token>>)
    requires args != []
    ensures Rejoin(args + [[]]) == Rejoin(args) + [COMMA]
  {
    assert (args + [[]])[..|args|] == args;
  }

  /** Parenthesis depth after the tokens; None once it would go below zero. */
  function DepthAfter(tokens: seq<Token>): Option<nat> {
    if tokens == [] then Some(0)
    else
      var last := tokens[|tokens| - 1];
      match DepthAfter(tokens[..|tokens| - 1])
      case None => None
      case Some(d) =>
        if last.kind == OpenParen then Some(d + 1)
        else if last.kind == CloseParen then (if d == 0 then None else Some(d - 1))
        else Some(d)
  }

  predicate ParenBalanced(tokens: seq<Token>) {
    DepthAfter(tokens) == Some(0)
  }

  /** Finished arguments are balanced and the one being read is paren - 1 deep. */
  ghost predicate Collecting(args: seq<seq<Token>>, paren: nat) {
    && args != [] && paren > 0
    && (forall i :: 0 <= i < |args| - 1 ==> ParenBalanced(args[i]))
    && DepthAfter(args[|args| - 1]) == Some(paren - 1)
  }

  lemma DepthPush(tokens: seq<Token>, t: Token, d: nat)
    requires DepthAfter(tokens) == Some(d) && (t.kind == CloseParen ==> d > 0)
    ensures DepthAfter(tokens + [t])
         == Some(if t.kind == OpenParen then d + 1 else if t.kind == CloseParen then d - 1 else d)
  {
    assert (tokens + [t])[..|tokens|] == tokens;
  }

  lemma PushKeepsCollecting(args: seq<seq<Token>>, t: Token, paren: nat, paren': nat)
    requires Collecting(args, paren) && paren' > 0
    requires paren' == if t.kind == OpenParen then paren + 1 else if t.kind == CloseParen then paren - 1 else paren
    ensures Collecting(PushLast(args, t), paren') && |PushLast(args, t)| == |args|
  {
    DepthPush(args[|args| - 1], t, paren - 1);
    hide DepthAfter;
    var pushed := PushLast(args, t);
    forall i | 0 <= i < |pushed| - 1 ensures ParenBalanced(pushed[i]) {
      assert pushed[i] == args[i];
    }
  }

  function Max(a: nat, b: nat): nat {
    if a < b then b else a
  }

  /** The arguments collected from pos on hold what was there before and the tokens up to
      the closing parenthesis, except the commas dropped since. */
  ghost predicate Conserves(code: seq<Token>, pos: nat, limit: nat, args: seq<seq<Token>>, dropped: nat, c: Collected)
    requires pos < c.end <= |code|
  {
    && Collecting(c.args, 1) && |c.args| <= Max(1, limit) && c.dropped >= dropped
    && |Rejoin(c.args)| + (c.dropped - dropped) == |Rejoin(args)| + (c.end - 1 - pos)
    && (c.dropped == dropped ==> Rejoin(c.args) == Rejoin(args) + code[pos..c.end - 1])
  }

  lemma ConservesOneMore(code: seq<Token>, pos: nat, limit: nat, args: seq<seq<Token>>, args': seq<seq<Token>>,
                         dropped: nat, c: Collected)
    requires pos + 1 < c.end <= |code| && Rejoin(args') == Rejoin(args) + [code[pos]]
    requires Conserves(code, pos + 1, limit, args', dropped, c)
    ensures Conserves(code, pos, limit, args, dropped, c)
  {
    hide Rejoin;
    var text := code[pos + 1..c.end - 1];
    assert code[pos..c.end - 1] == [code[pos]] + text;
    Assoc(Rejoin(args), [code[pos]], text);
  }

  lemma {:induction false} CollectConserves(
      code: seq<Token>, pos: nat, limit: nat, variadic: bool, args: seq<seq<Token>>, paren: nat, dropped: nat)
    requires RawCode(code) && pos <= |code| && Collecting(args, paren) && |args| <= Max(1, limit)
    requires Collect(code, pos, limit, variadic, args, paren, dropped).Some?
    ensures Conserves(code, pos, limit, args, dropped, Collect(code, pos, limit, variadic, args, paren, dropped).value)
    decreases |code| - pos
  {
    hide Rejoin, DepthAfter;
    var t := code[pos];
    var c := Collect(code, pos, limit, variadic, args, paren, dropped).value;
    if t.kind == CloseParen && paren == 1 {
      assert Rejoin(args) + code[pos..c.end - 1] == Rejoin(args);
    } else if t.kind == Comma && paren == 1 && |args| < limit {
      RejoinNew(args);
      NewArgumentKeepsCollecting(args);
      CollectConserves(code, pos + 1, limit, variadic, args + [[]], paren, dropped);
      ConservesOneMore(code, pos, limit, args, args + [[]], dropped, c);
    } else if t.kind == Comma && paren == 1 && !variadic {
      CollectConserves(code, pos + 1, limit, variadic, args, paren, dropped + 1);
    } else {
      var paren' := if t.kind == OpenParen then paren + 1 else if t.kind == CloseParen then paren - 1 else paren;
      RejoinPush(args, t);
      PushKeepsCollecting(args, t, paren, paren');
      CollectConserves(code, pos + 1, limit, variadic, PushLast(args, t), paren', dropped);
      ConservesOneMore(code, pos, limit, args, PushLast(args, t), dropped, c);
    }
  }

  lemma NewArgumentKeepsCollecting(args: seq<seq<Token>>)
    requires Collecting(args, 1)
    ensures Collecting(args + [[]], 1)
  {
    var more := args + [[]];
    forall i | 0 <= i < |more| - 1 ensures ParenBalanced(more[i]) {
      assert more[i] == args[i];
    }
  }

  /** The commas of a text that is depth parentheses deep, outside its own parentheses. */
  function TopCommas(ts: seq<Token>, depth: nat): nat {
    if ts == [] then 0
    else if ts[0].kind == OpenParen then TopCommas(ts[1..], depth + 1)
    else if ts[0].kind == CloseParen then TopCommas(ts[1..], if depth == 0 then 0 else depth - 1)
    else (if ts[0].kind == Comma && depth == 0 then 1 else 0) + TopCommas(ts[1..], depth)
  }

  function Excess(n: nat, room: nat): nat {
    if n > room then n - room else 0
  }

  lemma TopCommasStep(t: Token, ts: seq<Token>, depth: nat)
    ensures TopCommas([t] + ts, depth)
         == if t.kind == OpenParen then TopCommas(ts, depth + 1)
            else if t.kind == CloseParen then TopCommas(ts, if depth == 0 then 0 else depth - 1)
            else (if t.kind == Comma && depth == 0 then 1 else 0) + TopCommas(ts, depth)
  {
    assert ([t] + ts)[1..] == ts;
  }

  /** The commas dropped are those for which there was no room. */
  lemma {:induction false} DroppedIsExcess(
      code: seq<Token>, pos: nat, limit: nat, variadic: bool, args: seq<seq<Token>>, paren: nat, dropped: nat)
    requires pos <= |code| && paren > 0 && args != []
    requires Collect(code, pos, limit, variadic, args, paren, dropped).Some?
    ensures var c := Collect(code, pos, limit, variadic, args, paren, dropped).value;
      c.dropped == dropped
        + (if variadic then 0 else Excess(TopCommas(code[pos..c.end - 1], paren - 1), Excess(limit, |args|)))
    decreases |code| - pos
  {
    hide TopCommas, PushLast;
    var t := code[pos];
    PushLength(args, t);
    var c := Collect(code, pos, limit, variadic, args, paren, dropped).value;
    if t.kind == CloseParen && paren == 1 {
      NoCommas(code[pos..c.end - 1]);
    } else {
      var text := code[pos + 1..c.end - 1];
      assert code[pos..c.end - 1] == [t] + text;
      TopCommasStep(t, text, paren - 1);
      if t.kind == Comma && paren == 1 && |args| < limit {
        DroppedIsExcess(code, pos + 1, limit, variadic, args + [[]], paren, dropped);
      } else if t.kind == Comma && paren == 1 && !variadic {
        DroppedIsExcess(code, pos + 1, limit, variadic, args, paren, dropped + 1);
      } else {
        var paren' := if t.kind == OpenParen then paren + 1 else if t.kind == CloseParen then paren - 1 else paren;
        DroppedIsExcess(code, pos + 1, limit, variadic, PushLast(args, t), paren', dropped);
      }
    }
  }

  lemma PushLength(args: seq<seq<Token>>, t: Token)
    requires args != []
    ensures |PushLast(args, t)| == |args|
  {
  }

  lemma NoCommas(ts: seq<Token>)
    requires ts == []
    ensures TopCommas(ts, 0) == 0
  {
  }

  /** A closed call: there are at most max(1, parameters) arguments, each balanced, and
      rejoined with commas they are the tokens between the parentheses exactly when the
      macro is variadic or those have fewer commas of their own than that. */
  lemma ArgumentsConserved(code: seq<Token>, pos: nat, macro: Macro)
    requires RawCode(code) && CallAt(code, pos, macro).Some?
    ensures var c := CallAt(code, pos, macro).value;
      && 1 <= |c.args| <= Max(1, |macro.params.value|)
      && (forall i :: 0 <= i < |c.args| ==> ParenBalanced(c.args[i]))
      && (Rejoin(c.args) == code[pos + 1..c.end - 1]
          <==> macro.variadic || TopCommas(code[pos + 1..c.end - 1], 0) < Max(1, |macro.params.value|))
  {
    hide Rejoin, ParenBalanced, Collect, TopCommas, Excess, Max, RawCode;
    ConservedUnlessDropped(code, pos, macro);
    DroppedIsExcess(code, pos + 1, |macro.params.value|, macro.variadic, [[]], 1, 0);
    NoExcess(TopCommas(code[pos + 1..CallAt(code, pos, macro).value.end - 1], 0), |macro.params.value|);
  }

  lemma NoExcess(n: nat, limit: nat)
    ensures Excess(n, Excess(limit, 1)) == 0 <==> n < Max(1, limit)
  {
  }

  lemma ConservedUnlessDropped(code: seq<Token>, pos: nat, macro: Macro)
    requires RawCode(code) && CallAt(code, pos, macro).Some?
    ensures var c := CallAt(code, pos, macro).value;
      && 1 <= |c.args| <= Max(1, |macro.params.value|)
      && (forall i :: 0 <= i < |c.args| ==> ParenBalanced(c.args[i]))
      && (Rejoin(c.args) == code[pos + 1..c.end - 1] <==> c.dropped == 0)
  {
    var c := CallAt(code, pos, macro).value;
    var text := code[pos + 1..c.end - 1];
    assert Rejoin([[]]) == [] && Collecting([[]], 1);
    CollectConserves(code, pos + 1, |macro.params.value|, macro.variadic, [[]], 1, 0);
    hide Rejoin, DepthAfter, Collect;
    assert [] + text == text && |text| == c.end - pos - 2;
  }

  lemma PushOnly(arg: seq<Token>, t: Token)
    ensures PushLast([arg], t) == [arg + [t]]
  {
    assert [arg][..0] == [];
  }

  /** F(a,b) for a macro of one parameter: the comma is gone and the two are one argument. */
  lemma CommaIsLost(a: Token, b: Token, macro: Macro)
    requires a.kind == Identifier && b.kind == Identifier
    requires !macro.variadic && macro.params.Some? && |macro.params.value| == 1
    ensures CallAt([Token(OpenParen, [40]), a, COMMA, b, Token(CloseParen, [41])], 0, macro)
         == Some(Collected([[a, b]], 5, 1))
  {
    var code := [Token(OpenParen, [40]), a, COMMA, b, Token(CloseParen, [41])];
    assert Collect(code, 4, 1, false, [[a, b]], 1, 1) == Some(Collected([[a, b]], 5, 1));
    PushOnly([], a);
    PushOnly([a], b);
    assert [] + [a] == [a] && [a] + [b] == [a, b];
    assert PushLast([[]], a) == [[a]] && PushLast([[a]], b) == [[a, b]];
    assert Collect(code, 3, 1, false, [[a]], 1, 1) == Some(Collected([[a, b]], 5, 1));
    assert Collect(code, 2, 1, false, [[a]], 1, 0) == Some(Collected([[a, b]], 5, 1));
  }

  predicate NoEndMarker(args: seq<seq<Token>>) {
    forall i, k :: 0 <= i < |args| && 0 <= k < |args[i]| ==> args[i][k].kind != EndOfCode
  }

  lemma PushKeepsNoEndMarker(args: seq<seq<Token>>, t: Token)
    requires NoEndMarker(args) && t.kind != EndOfCode
    ensures NoEndMarker(PushLast(args, t)) && NoEndMarker(args + [[]])
  {
    var pushed: seq<seq<Token>> := PushLast(args, t);
    forall i: nat, k: nat | i < |pushed| && k < |pushed[i]| ensures pushed[i][k].kind != EndOfCode {
      if i < |args| - 1 {
        assert pushed[i] == args[i];
      } else if args != [] && k < |args[i]| {
        assert pushed[i][k] == args[i][k];
      }
    }
  }

  lemma {:induction false} CollectTakesCodeTokens(
      code: seq<Token>, pos: nat, limit: nat, variadic: bool, args: seq<seq<Token>>, paren: nat, dropped: nat)
    requires RawCode(code) && pos <= |code| && paren > 0 && NoEndMarker(args)
    requires Collect(code, pos, limit, variadic, args, paren, dropped).Some?
    ensures NoEndMarker(Collect(code, pos, limit, variadic, args, paren, dropped).value.args)
    decreases |code| - pos
  {
    var t := code[pos];
    PushKeepsNoEndMarker(args, t);
    hide NoEndMarker, PushLast;
    if t.kind == CloseParen && paren == 1 {
    } else if t.kind == Comma && paren == 1 && |args| < limit {
      CollectTakesCodeTokens(code, pos + 1, limit, variadic, args + [[]], paren, dropped);
    } else if t.kind == Comma && paren == 1 && !variadic {
      CollectTakesCodeTokens(code, pos + 1, limit, variadic, args, paren, dropped + 1);
    } else {
      var paren' := if t.kind == OpenParen then paren + 1 else if t.kind == CloseParen then paren - 1 else paren;
      CollectTakesCodeTokens(code, pos + 1, limit, variadic, PushLast(args, t), paren', dropped);
    }
  }

  /** Preprocessing an argument on its own never changes it: the argument a parameter is
      replaced by is the same beside ## and elsewhere. */
  lemma ArgumentsAreNotExpanded(code: seq<Token>, pos: nat, macro: Macro, i: nat)
    requires RawCode(code) && CallAt(code, pos, macro).Some? && i < |CallAt(code, pos, macro).value.args|
    ensures var arg := CallAt(code, pos, macro).value.args[i]; UpToEnd(arg) == arg
  {
    CollectTakesCodeTokens(code, pos + 1, |macro.params.value|, macro.variadic, [[]], 1, 0);
    UpToEndKeeps(CallAt(code, pos, macro).value.args[i]);
  }
}

module LexerStream {
  import opened Sequences
  import opened Macros
  import opened LexerSpec

  datatype OpenMacro = OpenMacro(name: Text, tokens: seq<Token>, index: nat)

  const END := Token(EndOfCode, [])

  class Lexer {
    const code: seq<Token>
    const context: Context
    var pos: nat
    var openMacros: seq<OpenMacro>
    var errors: nat

    /** At most one buffer is open, and every index is in range. */
    ghost predicate Valid()
      reads this
    {
      && RawCode(code) && CompiledContext(context) && pos <= |code|
      && |openMacros| <= 1
      && forall i :: 0 <= i < |openMacros| ==> openMacros[i].index <= |openMacros[i].tokens|
    }

    /** Everything still to come out of ReadToken. */
    ghost function Remaining(): seq<Token>
      requires Valid()
      reads this
    {
      (if openMacros == [] then [] else openMacros[0].tokens[openMacros[0].index..])
      + Expansion(code, pos, context)
    }

    /** Unread code, then unread buffer tokens. */
    ghost function Unread(): nat
      requires Valid()
      reads this
    {
      |code| - pos
    }

    ghost function Buffered(): nat
      requires Valid()
      reads this
    {
      if openMacros == [] then 0 else 1 + |openMacros[0].tokens| - openMacros[0].index
    }

    constructor (code: seq<Token>, context: Context)
      requires RawCode(code) && CompiledContext(context)
      ensures Valid() && this.code == code && this.context == context && Remaining() == Expansion(code, 0, context)
    {
      this.code, this.context := code, context;
      pos, openMacros, errors := 0, [], 0;
    }

    /** A lexer over a token buffer and no code. */
    constructor FromTokens(tokens: seq<Token>, context: Context)
      requires CompiledContext(context)
      ensures Valid() && Unread() == 0 && Remaining() == tokens
      ensures this.context == context && Buffered() == 1 + |tokens|
    {
      this.code, this.context := [], context;
      pos, openMacros, errors := 0, [OpenMacro([], tokens, 0)], 0;
      assert tokens + [] == tokens;
    }

    predicate MacroRecurses(name: Text)
      reads this
    {
      exists i :: 0 <= i < |openMacros| && openMacros[i].name == name
    }

    method PushMacro(name: Text, value: seq<Token>)
      requires Valid() && openMacros == []
      modifies this`openMacros
      ensures Valid() && openMacros == [OpenMacro(name, value, 0)]
    {
      openMacros := openMacros + [OpenMacro(name, value, 0)];
    }

    method PopMacro()
      requires Valid() && openMacros != []
      modifies this`openMacros
      ensures Valid() && openMacros == []
    {
      openMacros := openMacros[..|openMacros| - 1];
    }

    method ReadRawToken() returns (t: Token)
      requires Valid()
      modifies this`pos
      ensures Valid()
      ensures if old(pos) == |code| then t == END && pos == old(pos) else t == code[old(pos)] && pos == old(pos) + 1
    {
      if pos >= |code| { return END; }
      t := code[pos];
      pos := pos + 1;
    }

    /** The argument loop of HandleMacro, the opening parenthesis read. */
    method CollectArguments(limit: nat, variadic: bool) returns (args: seq<seq<Token>>, closed: bool)
      requires Valid()
      modifies this`pos, this`errors
      ensures Valid() && pos >= old(pos)
      ensures var c := Collect(code, old(pos), limit, variadic, [[]], 1, 0);
        if c.Some? then closed && args == c.value.args && pos == c.value.end && errors == old(errors) + c.value.dropped
        else !closed
    {
      args := [[]];
      var paren: nat := 1;
      ghost var c := Collect(code, pos, limit, variadic, [[]], 1, 0);
      while true
        invariant Valid() && pos >= old(pos) && errors >= old(errors) && args != [] && paren > 0
        invariant c == Collect(code, pos, limit, variadic, args, paren, errors - old(errors))
        decreases |code| - pos
      {
        var t := ReadRawToken();
        if t.kind == EndOfCode {
          args := PushLast(args, t);
          return args, false;
        }
        if t.kind == OpenParen {
          paren := paren + 1;
        } else if t.kind == CloseParen {
          paren := paren - 1;
          if paren == 0 { break; }
        }
        if t.kind == Comma && paren == 1 {
          if |args| < limit {
            args := args + [[]];
          } else if variadic {
            args := PushLast(args, t);
          } else {
            errors := errors + 1;
          }
        } else {
          args := PushLast(args, t);
        }
      }
      closed := true;
    }

    /** Runs tokens through a lexer of their own. Buffer tokens come out as they are, so
        nothing in them is expanded. */
    method PreprocessBuffer(tokens: seq<Token>) returns (res: seq<Token>)
      requires CompiledContext(context)
      ensures res == UpToEnd(tokens)
      decreases 0, |tokens| + 2, 4
    {
      var lex := new Lexer.FromTokens(tokens, context);
      res := lex.ReadAll();
    }

    method PreprocessArguments(args: seq<seq<Token>>) returns (expanded: seq<seq<Token>>)
      requires CompiledContext(context)
      ensures expanded == seq(|args|, k requires 0 <= k < |args| => UpToEnd(args[k]))
      decreases 1, 0, 0
    {
      expanded := [];
      for i := 0 to |args|
        invariant expanded == seq(i, k requires 0 <= k < i => UpToEnd(args[k]))
      {
        var e := PreprocessBuffer(args[i]);
        expanded := expanded + [e];
      }
    }

    /** True when name is a macro whose use has been replaced by an open buffer. */
    method HandleMacro(name: Text) returns (handled: bool)
      requires Valid() && openMacros == []
      modifies this
      ensures Valid() && pos >= old(pos)
      ensures handled <==> name in context.macros
      ensures !handled ==> pos == old(pos) && openMacros == []
      ensures handled ==>
        var (tokens, next) := UseAt(code, old(pos), context.macros[name], context);
        Remaining() == tokens + Expansion(code, next, context)
      decreases Unread(), 0, 2
    {
      hide RunParts, Collect, UpToEnd, RawCode;
      if name !in context.macros || MacroRecurses(name) {
        return false;
      }
      var macro := context.macros[name];
      handled := true;
      if macro.params.Some? {
        var mpos := pos;
        var t := ReadRawToken();
        if t.kind == OpenParen {
          var args, closed := CollectArguments(|macro.params.value|, macro.variadic);
          if closed {
            var expanded := PreprocessArguments(args);
            var body := SubstituteAndUnroll(macro.parts, macro.value, Call(args, expanded, context.paste));
            PushMacro(name, body);
          } else {
            errors := errors + 1;
            pos := mpos;
          }
        }
      } else {
        PushMacro(name, macro.value);
      }
    }

    method NextBuffered() returns (t: Token)
      requires Valid() && openMacros != [] && openMacros[0].index < |openMacros[0].tokens|
      modifies this`openMacros
      ensures Valid() && old(Remaining()) == [t] + Remaining() && Buffered() < old(Buffered())
    {
      var macro := openMacros[|openMacros| - 1];
      t := macro.tokens[macro.index];
      openMacros := openMacros[|openMacros| - 1 := macro.(index := macro.index + 1)];
      ghost var rest := macro.tokens[macro.index + 1..];
      assert macro.tokens[macro.index..] == [t] + rest;
      Assoc([t], rest, Expansion(code, pos, context));
    }

    /** One token: the head of what remains, or the end marker when nothing does. */
    method ReadToken() returns (t: Token)
      requires Valid()
      modifies this
      ensures Valid()
      ensures if old(Remaining()) == [] then t == END && Remaining() == []
              else old(Remaining()) == [t] + Remaining()
      ensures Unread() < old(Unread()) || (Unread() == old(Unread()) && Buffered() <= old(Buffered()))
      ensures old(Remaining()) != [] ==> Unread() < old(Unread()) || Buffered() < old(Buffered())
      decreases Unread(), Buffered(), 1
    {
      hide Collect, RawCode, CompiledContext, UseAt;
      if openMacros != [] {
        var macro := openMacros[|openMacros| - 1];
        if macro.index >= |macro.tokens| {
          PopMacro();
          assert [] + Expansion(code, pos, context) == Expansion(code, pos, context);
          t := ReadToken();
          return;
        }
        t := NextBuffered();
        return;
      }
      t := ReadRawToken();
      if t.kind == Identifier {
        var handled := HandleMacro(t.content);
        if handled {
          t := ReadToken();
          return;
        }
        t := context.translate(t);
      }
    }

    /** The caller's loop: tokens until the end marker. */
    method ReadAll() returns (res: seq<Token>)
      requires Valid()
      modifies this
      ensures res == UpToEnd(old(Remaining()))
      decreases Unread(), Buffered(), 3
    {
      res := [];
      ghost var all := Remaining();
      var t := ReadToken();
      assert UpToEnd([END] + []) == [] && UpToEnd([]) == [];
      while t.kind != EndOfCode
        invariant Valid()
        invariant Unread() < old(Unread()) || (Unread() == old(Unread()) && Buffered() <= old(Buffered()))
        invariant res + UpToEnd([t] + Remaining()) == UpToEnd(all)
        decreases Unread(), Buffered(), t.kind != EndOfCode
      {
        ghost var before, rest := res, Remaining();
        UpToEndStep(t, rest);
        res := res + [t];
        t := ReadToken();
        UpToEndStep(t, Remaining());
        if rest == [] { assert UpToEnd(rest) == UpToEnd([t] + Remaining()); }
        Assoc(before, res[|before|..], UpToEnd(rest));
      }
      UpToEndStep(t, Remaining());
      assert res + [] == res;
    }
  }

  lemma UpToEndStep(t: Token, rest: seq<Token>)
    ensures UpToEnd([t] + rest) == if t.kind == EndOfCode then [] else [t] + UpToEnd(rest)
  {
    assert ([t] + rest)[1..] == rest;
  }
}
