// Function-like macros: a replacement list compiled to components, the components run
// on the arguments, and substitution as section 19.3 of ISO/IEC 14882:2017 has it.
module Macros {
  import opened Options
  import opened Sequences
  import Literals

  type Text = seq<Literals.Byte>

  /** Preprocessing tokens. There are no whitespace tokens: the raw lexer skips blanks. */
  datatype TokenKind =
    | Identifier | StringLiteral | Concat | Stringify
    | Comma | OpenParen | CloseParen | EndOfCode | Other

  datatype Token = Token(kind: TokenKind, content: Text)

  /** "__VA_ARGS__" and "__VA_OPT__". */
  const VA_ARGS: Text := [95, 95, 86, 65, 95, 65, 82, 71, 83, 95, 95]
  const VA_OPT: Text := [95, 95, 86, 65, 95, 79, 80, 84, 95, 95]

  const SIZE_MAX: nat := 0xffff_ffff_ffff_ffff

  datatype Component =
    | TokenSpan(begin: nat, end: nat)
    | RawArgument(index: nat)
    | ExpandedArgument(index: nat)
    | StringifyArgument(index: nat)
    | Paste

  /** The parameter a name stands for: the last one of that name. */
  function ParamIndex(params: seq<Text>, name: Text): (r: Option<nat>)
    ensures r.None? <==> name !in params
    ensures r.Some? ==>
      r.value < |params| && params[r.value] == name && forall k :: r.value < k < |params| ==> params[k] != name
  {
    if params == [] then None
    else if params[|params| - 1] == name then Some(|params| - 1)
    else ParamIndex(params[..|params| - 1], name)
  }

  /** The argument an identifier in the replacement list stands for. */
  function ArgumentIndex(params: seq<Text>, name: Text): (r: Option<nat>)
    ensures r.Some? <==> name in params || name == VA_ARGS
    ensures name in params ==> r.value < |params| && params[r.value] == name
    ensures name == VA_ARGS && name !in params && params != [] ==> r.value + 1 == |params|
  {
    if ParamIndex(params, name).Some? then ParamIndex(params, name)
    else if name == VA_ARGS then Some(if params == [] then SIZE_MAX else |params| - 1)
    else None
  }

  predicate IsConcatAt(tokens: seq<Token>, i: int) {
    0 <= i < |tokens| && tokens[i].kind == Concat
  }

  /** Token i is not in error: a # is before a parameter, a ## is not before another, and
      __VA_OPT__ is not used. */
  predicate WellFormedAt(tokens: seq<Token>, params: seq<Text>, i: nat)
    requires i < |tokens|
  {
    match tokens[i].kind
    case Concat => !IsConcatAt(tokens, i + 1)
    case Stringify =>
      i + 1 < |tokens| && tokens[i + 1].kind == Identifier && ParamIndex(params, tokens[i + 1].content).Some?
    case Identifier => tokens[i].content == VA_OPT ==> ParamIndex(params, VA_OPT).Some?
    case _ => true
  }

  /** An error-free list (19.3.2 and 19.3.3): no ## is at an end either. */
  ghost predicate WellFormedList(tokens: seq<Token>, params: seq<Text>) {
    && !IsConcatAt(tokens, 0) && !IsConcatAt(tokens, |tokens| - 1)
    && forall i: nat :: i < |tokens| ==> WellFormedAt(tokens, params, i)
  }

  /** The tokens from e to i that are still to be put in a span. */
  function Pending(e: nat, i: nat): seq<Component> {
    if e < i then [TokenSpan(e, i)] else []
  }

  /** What token i adds, and where the pending tokens and the scan go on. */
  function Step(tokens: seq<Token>, params: seq<Text>, e: nat, i: nat): (r: (seq<Component>, nat, nat))
    requires e <= i < |tokens|
    ensures r.1 <= r.2 && i < r.2 <= |tokens|
  {
    match tokens[i].kind
    case Concat => (Pending(e, i) + [Paste], i + 1, i + 1)
    case Identifier => (
      match ArgumentIndex(params, tokens[i].content)
      case None => ([], e, i + 1)
      case Some(arg) =>
        var raw := IsConcatAt(tokens, i + 1) || (e == i && IsConcatAt(tokens, i - 1));
        (Pending(e, i) + [if raw then RawArgument(arg) else ExpandedArgument(arg)], i + 1, i + 1)
    )
    case Stringify => (
      if i + 1 == |tokens| then ([], e, i + 1)
      else
        match ParamIndex(params, tokens[i + 1].content)
        case None => ([], e, i + 1)
        case Some(arg) => (Pending(e, i) + [StringifyArgument(arg)], i + 2, i + 2)
    )
    case _ => ([], e, i + 1)
  }

  /** The components for the tokens from i on. */
  function Components(tokens: seq<Token>, params: seq<Text>, e: nat, i: nat): seq<Component>
    requires e <= i <= |tokens|
    decreases |tokens| - i
  {
    if i == |tokens| then Pending(e, i)
    else
      var (added, e', i') := Step(tokens, params, e, i);
      added + Components(tokens, params, e', i')
  }

  /** The loop body of Componentize: token i is put into components, or an error is
      reported and the token skipped. */
  method ComponentizeToken(tokens: seq<Token>, params: seq<Text>, before: seq<Component>, e0: nat, i0: nat)
    returns (res: seq<Component>, e: nat, i: nat, error: bool)
    requires e0 <= i0 < |tokens|
    requires WellFormedList(tokens, params) ==>
      (before != [] && before[|before| - 1] == Paste <==> IsConcatAt(tokens, e0 - 1))
    ensures e <= i && i0 < i <= |tokens|
    ensures WellFormedList(tokens, params) ==> !error
    ensures WellFormedList(tokens, params) ==>
      var step := Step(tokens, params, e0, i0); res == before + step.0 && e == step.1 && i == step.2
    ensures WellFormedList(tokens, params) ==> (res != [] && res[|res| - 1] == Paste <==> IsConcatAt(tokens, e - 1))
  {
    res, e, i, error := before, e0, i0, false;
    assert WellFormedList(tokens, params) ==> WellFormedAt(tokens, params, i);
    assert WellFormedList(tokens, params) && i > 0 ==> WellFormedAt(tokens, params, i - 1);
    if tokens[i].kind == Concat {
      if i == 0 {
        error := true;
      } else {
        if e < i {
          res := res + [TokenSpan(e, i)];
        }
        res := res + [Paste];
        e := i + 1;
      }
    } else if tokens[i].kind == Identifier {
      var found := ArgumentIndex(params, tokens[i].content);
      if found.Some? {
        if e != i {
          res := res + [TokenSpan(e, i)];
        }
        var j := i + 1;
        if (j < |tokens| && tokens[j].kind == Concat) || (res != [] && res[|res| - 1].Paste?) {
          res := res + [RawArgument(found.value)];
        } else {
          res := res + [ExpandedArgument(found.value)];
        }
        e := i + 1;
      }
    } else if tokens[i].kind == Stringify {
      var j := i + 1;
      if j >= |tokens| || tokens[j].kind != Identifier {
        error := true;
      } else {
        if e != i {
          res := res + [TokenSpan(e, i)];
        }
        i := j;
        var found := ParamIndex(params, tokens[i].content);
        if found.None? {
          error := true;
        } else {
          res := res + [StringifyArgument(found.value)];
          e := i + 1;
        }
      }
    }
    i := i + 1;
  }

  /** Macro::Componentize, with the errors it reports counted. */
  method Componentize(tokens: seq<Token>, params: seq<Text>) returns (res: seq<Component>, errors: nat)
    ensures WellFormedList(tokens, params) ==> errors == 0 && res == Components(tokens, params, 0, 0)
  {
    res, errors := [], 0;
    var e: nat, i: nat := 0, 0;
    while i < |tokens|
      invariant e <= i <= |tokens|
      invariant WellFormedList(tokens, params) ==>
        && errors == 0
        && (res != [] && res[|res| - 1] == Paste <==> IsConcatAt(tokens, e - 1))
        && res + Components(tokens, params, e, i) == Components(tokens, params, 0, 0)
      decreases |tokens| - i
    {
      ghost var before, step := res, Step(tokens, params, e, i);
      var error;
      res, e, i, error := ComponentizeToken(tokens, params, res, e, i);
      if error {
        errors := errors + 1;
      }
      Assoc(before, step.0, Components(tokens, params, e, i));
    }
    if e < |tokens| {
      res := res + [TokenSpan(e, |tokens|)];
    }
  }

  // ---- running the components ----

  /** The arguments of one call; pasting two tokens is left to a parameter. */
  datatype Call = Call(args: seq<seq<Token>>, expanded: seq<seq<Token>>, paste: (Token, Token) -> Token)

  function RawArg(call: Call, index: nat): seq<Token> {
    if index < |call.args| then call.args[index] else []
  }

  function ExpandedArg(call: Call, index: nat): seq<Token> {
    if index < |call.args| && index < |call.expanded| then call.expanded[index] else []
  }

  function Contents(tokens: seq<Token>): Text {
    if tokens == [] then [] else Contents(tokens[..|tokens| - 1]) + tokens[|tokens| - 1].content
  }

  function StringArg(call: Call, index: nat): seq<Token> {
    if index < |call.args| then [Token(StringLiteral, Literals.Quoted(Contents(call.args[index])))] else []
  }

  /** Appends tokens, the first of them pasted to the last already there. */
  function Appended(dest: seq<Token>, tokens: seq<Token>, glue: bool, call: Call): seq<Token> {
    if glue && dest != [] && tokens != [] then
      dest[..|dest| - 1] + [call.paste(dest[|dest| - 1], tokens[0])] + tokens[1..]
    else dest + tokens
  }

  method AppendOrPaste(dest: seq<Token>, tokens: seq<Token>, glue: bool, call: Call) returns (res: seq<Token>)
    ensures res == Appended(dest, tokens, glue, call)
  {
    res := dest;
    if |tokens| == 0 { return; }
    var begin := 0;
    if glue && |res| > 0 {
      res := res[|res| - 1 := call.paste(res[|res| - 1], tokens[begin])];
      begin := begin + 1;
    }
    res := res + tokens[begin..];
  }

  function ComponentTokens(part: Component, value: seq<Token>, call: Call): seq<Token> {
    match part
    case TokenSpan(b, e) => if b <= e <= |value| then value[b..e] else []
    case RawArgument(n) => RawArg(call, n)
    case ExpandedArgument(n) => ExpandedArg(call, n)
    case StringifyArgument(n) => StringArg(call, n)
    case Paste => []
  }

  function RunParts(parts: seq<Component>, value: seq<Token>, call: Call, dest: seq<Token>, glue: bool): seq<Token>
    decreases |parts|
  {
    if parts == [] then dest
    else if parts[0].Paste? then RunParts(parts[1..], value, call, dest, true)
    else RunParts(parts[1..], value, call, Appended(dest, ComponentTokens(parts[0], value, call), glue, call), false)
  }

  /** Spans cut the list they were made from. */
  predicate SpansInBounds(parts: seq<Component>, value: seq<Token>) {
    forall k :: 0 <= k < |parts| && parts[k].TokenSpan? ==> parts[k].begin < parts[k].end <= |value|
  }

  method SubstituteAndUnroll(parts: seq<Component>, value: seq<Token>, call: Call) returns (res: seq<Token>)
    requires SpansInBounds(parts, value) && |call.expanded| == |call.args|
    ensures res == RunParts(parts, value, call, [], false)
  {
    res := [];
    var pasteNext := false;
    for k := 0 to |parts|
      invariant RunParts(parts[k..], value, call, res, pasteNext) == RunParts(parts, value, call, [], false)
    {
      var part := parts[k];
      assert parts[k..][0] == part && parts[k..][1..] == parts[k + 1..];
      if part.TokenSpan? {
        res := AppendOrPaste(res, value[part.begin..part.end], pasteNext, call);
        pasteNext := false;
      } else if part.Paste? {
        pasteNext := true;
      } else {
        var index := part.index;
        if index >= |call.args| {
          assert res + [] == res;
        } else if part.StringifyArgument? {
          var vec := StringifyTokens(call.args[index]);
          res := AppendOrPaste(res, vec, pasteNext, call);
        } else {
          var vec := if part.ExpandedArgument? then call.expanded[index] else call.args[index];
          res := AppendOrPaste(res, vec, pasteNext, call);
        }
        pasteNext := false;
      }
    }
  }

  method StringifyTokens(arg: seq<Token>) returns (vec: seq<Token>)
    ensures vec == [Token(StringLiteral, Literals.Quoted(Contents(arg)))]
  {
    var str: Text := [];
    for t := 0 to |arg|
      invariant str == Contents(arg[..t])
    {
      assert arg[..t + 1][..t] == arg[..t];
      str := str + arg[t].content;
    }
    assert arg[..|arg|] == arg;
    var quoted := Literals.QuoteString(str);
    vec := [Token(StringLiteral, quoted)];
  }
}
