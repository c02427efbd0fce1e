// Running a macro's components is substitution and pasting as the standard has it.
module MacroMeaning {
  import opened Options
  import opened Sequences
  import opened Macros
  import Literals

  // ---- section 19.3 of ISO/IEC 14882:2017, on the replacement list itself ----

  /** An operand is one token, or # with the parameter after it. */
  function OperandEnd(tokens: seq<Token>, i: nat): (j: nat)
    requires i < |tokens|
    ensures i < j <= |tokens|
  {
    if tokens[i].kind == Stringify && i + 1 < |tokens| then i + 2 else i + 1
  }

  /** The spellings of the tokens, one after the other. */
  function Spellings(tokens: seq<Token>): Text {
    if tokens == [] then [] else tokens[0].content + Spellings(tokens[1..])
  }

  /** 19.3.2: one string literal, whose value is the spelling of the argument. */
  function Stringized(arg: seq<Token>): (t: Token)
    ensures t.kind == StringLiteral
    ensures Literals.ReadLiteral(t.content) == Some((Literals.StringLiteral, Spellings(arg)))
  {
    Literals.QuotedRoundTrips(Spellings(arg));
    Token(StringLiteral, Literals.Quoted(Spellings(arg)))
  }

  /** The n-th of them; none when the call has not as many. */
  function Nth(args: seq<seq<Token>>, n: nat): seq<Token> {
    if n < |args| then args[n] else []
  }

  function ExpandedNth(call: Call, n: nat): seq<Token> {
    if n < |call.args| then Nth(call.expanded, n) else []
  }

  /** What the operand at i stands for (19.3.1, 19.3.2): a parameter next to ## by its
      argument unexpanded, any other parameter by its argument expanded. */
  function Operand(tokens: seq<Token>, params: seq<Text>, call: Call, i: nat, besideConcat: bool): seq<Token>
    requires i < |tokens|
  {
    match tokens[i].kind
    case Stringify =>
      if i + 1 < |tokens| && ParamIndex(params, tokens[i + 1].content).Some?
      then
        var n := ParamIndex(params, tokens[i + 1].content).value;
        if n < |call.args| then [Stringized(call.args[n])] else []
      else [tokens[i]]
    case Identifier => (
      match ArgumentIndex(params, tokens[i].content)
      case Some(n) => if besideConcat then Nth(call.args, n) else ExpandedNth(call, n)
      case None => [tokens[i]]
    )
    case _ => [tokens[i]]
  }

  /** 19.3.3: the last token on the left is pasted to the first on the right; an empty side
      is a placemarker and vanishes. */
  function Joined(left: seq<Token>, right: seq<Token>, call: Call): seq<Token> {
    if left == [] then right
    else if right == [] then left
    else left[..|left| - 1] + [call.paste(left[|left| - 1], right[0])] + right[1..]
  }

  /** The operands joined by ## from the one at i on, and where they end. */
  function Chain(tokens: seq<Token>, params: seq<Text>, call: Call, left: seq<Token>, i: nat): (r: (seq<Token>, nat))
    requires i < |tokens|
    ensures i < r.1 <= |tokens|
    decreases |tokens| - i
  {
    var joined := Joined(left, Operand(tokens, params, call, i, true), call);
    var j := OperandEnd(tokens, i);
    if IsConcatAt(tokens, j) && j + 1 < |tokens| then Chain(tokens, params, call, joined, j + 1) else (joined, j)
  }

  function Substituted(tokens: seq<Token>, params: seq<Text>, call: Call, i: nat): seq<Token>
    requires i <= |tokens|
    decreases |tokens| - i
  {
    if i == |tokens| then []
    else
      var j := OperandEnd(tokens, i);
      if IsConcatAt(tokens, j) && j + 1 < |tokens| then
        var (joined, k) := Chain(tokens, params, call, Operand(tokens, params, call, i, true), j + 1);
        joined + Substituted(tokens, params, call, k)
      else Operand(tokens, params, call, i, false) + Substituted(tokens, params, call, j)
  }

  /** No ## chain starts with an empty operand and yields tokens when something was put
      out before it. A caller sees this from the arguments. */
  predicate NoChainStartsEmpty(tokens: seq<Token>, params: seq<Text>, call: Call, i: nat, started: bool)
    requires i <= |tokens|
    decreases |tokens| - i
  {
    if i == |tokens| then true
    else
      var j := OperandEnd(tokens, i);
      if IsConcatAt(tokens, j) && j + 1 < |tokens| then
        var first := Operand(tokens, params, call, i, true);
        var (joined, k) := Chain(tokens, params, call, first, j + 1);
        && (started && first == [] ==> joined == [])
        && NoChainStartsEmpty(tokens, params, call, k, started || joined != [])
      else
        NoChainStartsEmpty(tokens, params, call, j, started || Operand(tokens, params, call, i, false) != [])
  }

  // ---- the components as a fold over the list ----

  /** What the components do, read off the list: dest is put out, glue says ## was last. */
  function Fold(tokens: seq<Token>, params: seq<Text>, call: Call, i: nat, dest: seq<Token>, glue: bool): seq<Token>
    requires i <= |tokens|
    decreases |tokens| - i
  {
    if i == |tokens| then dest
    else if tokens[i].kind == Concat then Fold(tokens, params, call, i + 1, dest, true)
    else
      var j := OperandEnd(tokens, i);
      var v := Operand(tokens, params, call, i, glue || IsConcatAt(tokens, j));
      Fold(tokens, params, call, j, Appended(dest, v, glue, call), false)
  }

  lemma RunOne(part: Component, rest: seq<Component>, value: seq<Token>, call: Call, dest: seq<Token>, glue: bool)
    ensures RunParts([part] + rest, value, call, dest, glue)
         == if part.Paste? then RunParts(rest, value, call, dest, true)
            else RunParts(rest, value, call, Appended(dest, ComponentTokens(part, value, call), glue, call), false)
  {
    assert ([part] + rest)[1..] == rest;
  }

  lemma RunNone(rest: seq<Component>, value: seq<Token>, call: Call, dest: seq<Token>, glue: bool)
    ensures RunParts([] + rest, value, call, dest, glue) == RunParts(rest, value, call, dest, glue)
  {
    assert [] + rest == rest;
  }

  function WithPending(tokens: seq<Token>, call: Call, e: nat, i: nat, dest: seq<Token>): seq<Token>
    requires e <= i <= |tokens|
  {
    if e < i then Appended(dest, tokens[e..i], IsConcatAt(tokens, e - 1), call) else dest
  }

  lemma PendingGrows(tokens: seq<Token>, call: Call, e: nat, i: nat, dest: seq<Token>)
    requires e <= i < |tokens|
    ensures WithPending(tokens, call, e, i + 1, dest)
         == Appended(WithPending(tokens, call, e, i, dest), [tokens[i]], e == i && IsConcatAt(tokens, e - 1), call)
  {
    assert tokens[e..i + 1] == tokens[e..i] + [tokens[i]];
    if e == i { assert tokens[e..i + 1] == [tokens[i]]; }
  }

  /** Running the pending span and one more component. */
  lemma RunPending(tokens: seq<Token>, call: Call, e: nat, i: nat, part: Component, rest: seq<Component>, dest: seq<Token>)
    requires e <= i <= |tokens|
    ensures var d, glue := WithPending(tokens, call, e, i, dest), e == i && IsConcatAt(tokens, e - 1);
      RunParts(Pending(e, i) + [part] + rest, tokens, call, dest, IsConcatAt(tokens, e - 1))
      == if part.Paste? then RunParts(rest, tokens, call, d, true)
         else RunParts(rest, tokens, call, Appended(d, ComponentTokens(part, tokens, call), glue, call), false)
  {
    Assoc(Pending(e, i), [part], rest);
    if e < i {
      RunOne(TokenSpan(e, i), [part] + rest, tokens, call, dest, IsConcatAt(tokens, e - 1));
      RunOne(part, rest, tokens, call, WithPending(tokens, call, e, i, dest), false);
    } else {
      assert [] + [part] == [part];
      RunOne(part, rest, tokens, call, dest, IsConcatAt(tokens, e - 1));
    }
  }

  lemma {:induction false} SpellingsJoin(a: seq<Token>, b: seq<Token>)
    ensures Spellings(a + b) == Spellings(a) + Spellings(b)
  {
    if a == [] {
      assert a + b == b;
    } else {
      assert (a + b)[0] == a[0] && (a + b)[1..] == a[1..] + b;
      SpellingsJoin(a[1..], b);
      Assoc(a[0].content, Spellings(a[1..]), Spellings(b));
    }
  }

  lemma {:induction false} ContentsAreSpellings(tokens: seq<Token>)
    ensures Contents(tokens) == Spellings(tokens)
  {
    if tokens != [] {
      var front, last := tokens[..|tokens| - 1], tokens[|tokens| - 1];
      ContentsAreSpellings(front);
      SpellingsJoin(front, [last]);
      assert front + [last] == tokens && [last][1..] == [];
      assert last.content + [] == last.content;
    }
  }

  /** # puts out one string literal, read as the argument's tokens written in order. */
  lemma StringArgReads(call: Call, n: nat)
    requires n < |call.args|
    ensures StringArg(call, n) == [Stringized(call.args[n])]
    ensures Literals.ReadLiteral(StringArg(call, n)[0].content)
         == Some((Literals.StringLiteral, Spellings(call.args[n])))
  {
    ContentsAreSpellings(call.args[n]);
  }

  /** The component a scanned token ends in is what the operand stands for. */
  lemma StepIsOperand(tokens: seq<Token>, params: seq<Text>, call: Call, e: nat, i: nat)
    requires WellFormedList(tokens, params) && e <= i < |tokens|
    ensures var (added, e', i') := Step(tokens, params, e, i);
      && (tokens[i].kind == Concat ==> added == Pending(e, i) + [Paste] && e' == i' == i + 1)
      && (tokens[i].kind != Concat && added == [] ==>
            && e' == e && i' == i + 1 == OperandEnd(tokens, i)
            && Operand(tokens, params, call, i, true) == Operand(tokens, params, call, i, false) == [tokens[i]])
      && (tokens[i].kind != Concat && added != [] ==>
            var part := added[|added| - 1];
            && added == Pending(e, i) + [part] && !part.Paste? && e' == i' == OperandEnd(tokens, i)
            && ComponentTokens(part, tokens, call)
               == Operand(tokens, params, call, i,
                          (e == i && IsConcatAt(tokens, e - 1)) || IsConcatAt(tokens, OperandEnd(tokens, i))))
  {
    hide Stringized, Contents;
    assert WellFormedAt(tokens, params, i);
    if tokens[i].kind == Stringify {
      var n := ParamIndex(params, tokens[i + 1].content).value;
      if n < |call.args| { StringArgReads(call, n); }
    }
  }

  lemma FoldStep(tokens: seq<Token>, params: seq<Text>, call: Call, i: nat, dest: seq<Token>, glue: bool)
    requires i < |tokens|
    ensures tokens[i].kind == Concat ==>
      Fold(tokens, params, call, i, dest, glue) == Fold(tokens, params, call, i + 1, dest, true)
    ensures tokens[i].kind != Concat ==>
      var j := OperandEnd(tokens, i);
      Fold(tokens, params, call, i, dest, glue)
      == Fold(tokens, params, call, j,
              Appended(dest, Operand(tokens, params, call, i, glue || IsConcatAt(tokens, j)), glue, call), false)
  {
  }

  lemma {:induction false} ComponentsFold(tokens: seq<Token>, params: seq<Text>, call: Call, e: nat,
    i: nat, dest: seq<Token>)
    requires WellFormedList(tokens, params) && e <= i <= |tokens|
    ensures RunParts(Components(tokens, params, e, i), tokens, call, dest, IsConcatAt(tokens, e - 1))
         == Fold(tokens, params, call, i, WithPending(tokens, call, e, i, dest), e == i && IsConcatAt(tokens, e - 1))
    decreases |tokens| - i
  {
    if i == |tokens| {
      if e < i {
        assert [TokenSpan(e, i)] + [] == [TokenSpan(e, i)];
        RunOne(TokenSpan(e, i), [], tokens, call, dest, IsConcatAt(tokens, e - 1));
      }
    } else {
      StepIsOperand(tokens, params, call, e, i);
      if Step(tokens, params, e, i).0 == [] {
        PlainTokenFold(tokens, params, call, e, i, dest);
      } else {
        ComponentFold(tokens, params, call, e, i, dest);
      }
    }
  }

  lemma ComponentsStep(tokens: seq<Token>, params: seq<Text>, e: nat, i: nat)
    requires e <= i < |tokens|
    ensures var (added, e', i') := Step(tokens, params, e, i);
      Components(tokens, params, e, i) == added + Components(tokens, params, e', i')
  {
  }

  lemma {:induction false} PlainTokenFold(
      tokens: seq<Token>, params: seq<Text>, call: Call, e: nat, i: nat, dest: seq<Token>)
    requires WellFormedList(tokens, params) && e <= i < |tokens|
    requires tokens[i].kind != Concat && Step(tokens, params, e, i).0 == []
    ensures RunParts(Components(tokens, params, e, i), tokens, call, dest, IsConcatAt(tokens, e - 1))
         == Fold(tokens, params, call, i, WithPending(tokens, call, e, i, dest), e == i && IsConcatAt(tokens, e - 1))
    decreases |tokens| - i, 0
  {
    hide WellFormedList, Step, Components, RunParts, Fold, Operand, OperandEnd, Appended, WithPending, IsConcatAt;
    var d, glue := WithPending(tokens, call, e, i, dest), e == i && IsConcatAt(tokens, e - 1);
    StepIsOperand(tokens, params, call, e, i);
    ComponentsStep(tokens, params, e, i);
    FoldStep(tokens, params, call, i, d, glue);
    RunNone(Components(tokens, params, e, i + 1), tokens, call, dest, IsConcatAt(tokens, e - 1));
    ComponentsFold(tokens, params, call, e, i + 1, dest);
    PendingGrows(tokens, call, e, i, dest);
  }

  lemma {:induction false} ComponentFold(
      tokens: seq<Token>, params: seq<Text>, call: Call, e: nat, i: nat, dest: seq<Token>)
    requires WellFormedList(tokens, params) && e <= i < |tokens|
    requires Step(tokens, params, e, i).0 != []
    ensures RunParts(Components(tokens, params, e, i), tokens, call, dest, IsConcatAt(tokens, e - 1))
         == Fold(tokens, params, call, i, WithPending(tokens, call, e, i, dest), e == i && IsConcatAt(tokens, e - 1))
    decreases |tokens| - i, 0
  {
    hide WellFormedList, Step, Components, RunParts, Fold, Operand, OperandEnd, ComponentTokens, Appended, Pending;
    StepIsOperand(tokens, params, call, e, i);
    OperandIsNoConcat(tokens, params, i);
    ComponentsStep(tokens, params, e, i);
    var (added, e', i') := Step(tokens, params, e, i);
    var part := added[|added| - 1];
    var d, glue := WithPending(tokens, call, e, i, dest), e == i && IsConcatAt(tokens, e - 1);
    FoldStep(tokens, params, call, i, d, glue);
    RunPending(tokens, call, e, i, part, Components(tokens, params, i', i'), dest);
    var d' := if part.Paste? then d else Appended(d, ComponentTokens(part, tokens, call), glue, call);
    ComponentsFold(tokens, params, call, i', i', d');
  }

  /** What ends an operand is not ##. */
  lemma OperandIsNoConcat(tokens: seq<Token>, params: seq<Text>, i: nat)
    requires WellFormedList(tokens, params) && i < |tokens|
    ensures tokens[i].kind != Concat ==> !IsConcatAt(tokens, OperandEnd(tokens, i) - 1)
  {
    assert WellFormedAt(tokens, params, i);
  }

  // ---- the fold and the standard ----

  /** The fold over a chain from dest on, and where the chain ends. */
  function ChainRun(tokens: seq<Token>, params: seq<Text>, call: Call, dest: seq<Token>, i: nat): (r: (seq<Token>, nat))
    requires i < |tokens|
    ensures i < r.1 <= |tokens|
    decreases |tokens| - i
  {
    var dest' := Appended(dest, Operand(tokens, params, call, i, true), true, call);
    var j := OperandEnd(tokens, i);
    if IsConcatAt(tokens, j) && j + 1 < |tokens| then ChainRun(tokens, params, call, dest', j + 1) else (dest', j)
  }

  lemma {:induction false} FoldRunsChain(tokens: seq<Token>, params: seq<Text>, call: Call, dest: seq<Token>, i: nat)
    requires WellFormedList(tokens, params) && i < |tokens| && tokens[i].kind != Concat
    ensures var (dest', k) := ChainRun(tokens, params, call, dest, i);
      && Fold(tokens, params, call, i, dest, true) == Fold(tokens, params, call, k, dest', false)
      && !IsConcatAt(tokens, k)
    decreases |tokens| - i
  {
    hide WellFormedList, Fold, Operand, OperandEnd, Appended;
    var dest' := Appended(dest, Operand(tokens, params, call, i, true), true, call);
    var j := OperandEnd(tokens, i);
    FoldStep(tokens, params, call, i, dest, true);
    if IsConcatAt(tokens, j) {
      FoldStep(tokens, params, call, j, dest', false);
      ConcatIsBeforeOperand(tokens, params, j);
      FoldRunsChain(tokens, params, call, dest', j + 1);
    }
  }

  lemma ConcatIsBeforeOperand(tokens: seq<Token>, params: seq<Text>, j: nat)
    requires WellFormedList(tokens, params) && IsConcatAt(tokens, j)
    ensures j + 1 < |tokens| && tokens[j + 1].kind != Concat
  {
    assert WellFormedAt(tokens, params, j);
  }

  /** A chain that already has tokens, or starts the output, only extends it. */
  lemma {:induction false} ChainExtends(
      tokens: seq<Token>, params: seq<Text>, call: Call, out: seq<Token>, left: seq<Token>, i: nat)
    requires i < |tokens| && (left != [] || out == [])
    ensures ChainRun(tokens, params, call, out + left, i).0 == out + Chain(tokens, params, call, left, i).0
    ensures ChainRun(tokens, params, call, out + left, i).1 == Chain(tokens, params, call, left, i).1
    decreases |tokens| - i
  {
    hide Operand, OperandEnd, IsConcatAt;
    var v := Operand(tokens, params, call, i, true);
    var j := OperandEnd(tokens, i);
    JoinExtends(out, left, v, call);
    if IsConcatAt(tokens, j) && j + 1 < |tokens| {
      ChainExtends(tokens, params, call, out, Joined(left, v, call), j + 1);
    }
  }

  lemma JoinExtends(out: seq<Token>, left: seq<Token>, v: seq<Token>, call: Call)
    requires left != [] || out == []
    ensures Appended(out + left, v, true, call) == out + Joined(left, v, call)
    ensures Joined(left, v, call) != [] || out == []
  {
  }

  /** A chain of empty operands after some output yields nothing; once an operand has
      tokens, the first of them is pasted to that output and one token is lost. */
  lemma {:induction false} ChainPastesIntoOutput(
      tokens: seq<Token>, params: seq<Text>, call: Call, out: seq<Token>, i: nat)
    requires i < |tokens| && out != []
    ensures var (run, std) := (ChainRun(tokens, params, call, out, i), Chain(tokens, params, call, [], i));
      && run.1 == std.1 && run.0 != []
      && (std.0 == [] ==> run.0 == out)
      && (std.0 != [] ==> |run.0| == |out| + |std.0| - 1)
    decreases |tokens| - i
  {
    hide Operand, OperandEnd, IsConcatAt;
    var v := Operand(tokens, params, call, i, true);
    var j := OperandEnd(tokens, i);
    var out' := Appended(out, v, true, call);
    if v == [] {
      assert out' == out && Joined([], v, call) == [];
      if IsConcatAt(tokens, j) && j + 1 < |tokens| {
        ChainPastesIntoOutput(tokens, params, call, out, j + 1);
      }
    } else {
      assert |out'| == |out| + |v| - 1 && Joined([], v, call) == v;
      if IsConcatAt(tokens, j) && j + 1 < |tokens| {
        ChainLengths(tokens, params, call, out', v, j + 1);
      }
    }
  }

  lemma {:induction false} ChainLengths(
      tokens: seq<Token>, params: seq<Text>, call: Call, dest: seq<Token>, left: seq<Token>, i: nat)
    requires i < |tokens| && dest != [] && left != []
    ensures var (run, std) := (ChainRun(tokens, params, call, dest, i), Chain(tokens, params, call, left, i));
      run.1 == std.1 && run.0 != [] && std.0 != [] && |run.0| - |dest| == |std.0| - |left|
    decreases |tokens| - i
  {
    hide Operand, OperandEnd, IsConcatAt;
    var v := Operand(tokens, params, call, i, true);
    var j := OperandEnd(tokens, i);
    assert |Appended(dest, v, true, call)| - |dest| == |Joined(left, v, call)| - |left|;
    if IsConcatAt(tokens, j) && j + 1 < |tokens| {
      ChainLengths(tokens, params, call, Appended(dest, v, true, call), Joined(left, v, call), j + 1);
    }
  }

  /** One chain or lone operand of the fold, from the output before it. */
  lemma FoldOneOperand(tokens: seq<Token>, params: seq<Text>, call: Call, i: nat, out: seq<Token>)
    requires WellFormedList(tokens, params) && i < |tokens| && tokens[i].kind != Concat
    ensures var j := OperandEnd(tokens, i);
      if IsConcatAt(tokens, j) then
        var run := ChainRun(tokens, params, call, out + Operand(tokens, params, call, i, true), j + 1);
        j + 1 < |tokens| && !IsConcatAt(tokens, run.1)
        && Fold(tokens, params, call, i, out, false) == Fold(tokens, params, call, run.1, run.0, false)
      else
        Fold(tokens, params, call, i, out, false)
        == Fold(tokens, params, call, j, out + Operand(tokens, params, call, i, false), false)
  {
    hide WellFormedList, Fold, Operand, OperandEnd, ChainRun;
    var j := OperandEnd(tokens, i);
    FoldStep(tokens, params, call, i, out, false);
    if IsConcatAt(tokens, j) {
      var out' := out + Operand(tokens, params, call, i, true);
      FoldStep(tokens, params, call, j, out', false);
      ConcatIsBeforeOperand(tokens, params, j);
      FoldRunsChain(tokens, params, call, out', j + 1);
    }
  }

  /** The fold puts out what the standard does unless some chain starts empty after
      output; then it puts out fewer tokens. */
  lemma {:induction false} FoldMeansSubstituted(tokens: seq<Token>, params: seq<Text>, call: Call, i: nat, out: seq<Token>)
    requires WellFormedList(tokens, params) && i <= |tokens| && !IsConcatAt(tokens, i)
    ensures var run, std := Fold(tokens, params, call, i, out, false), out + Substituted(tokens, params, call, i);
      if NoChainStartsEmpty(tokens, params, call, i, out != []) then run == std else |run| < |std|
    decreases |tokens| - i
  {
    if i < |tokens| {
      hide WellFormedList, Fold, Operand, OperandEnd, Chain;
      var j := OperandEnd(tokens, i);
      FoldOneOperand(tokens, params, call, i, out);
      if IsConcatAt(tokens, j) {
        ConcatIsBeforeOperand(tokens, params, j);
        ChainMeansSubstituted(tokens, params, call, i, out);
      } else {
        var v := Operand(tokens, params, call, i, false);
        FoldMeansSubstituted(tokens, params, call, j, out + v);
        Assoc(out, v, Substituted(tokens, params, call, j));
      }
    }
  }

  lemma {:induction false} ChainMeansSubstituted(tokens: seq<Token>, params: seq<Text>, call: Call, i: nat, out: seq<Token>)
    requires WellFormedList(tokens, params) && i < |tokens| && tokens[i].kind != Concat
    requires IsConcatAt(tokens, OperandEnd(tokens, i)) && OperandEnd(tokens, i) + 1 < |tokens|
    ensures var run, std := Fold(tokens, params, call, i, out, false), out + Substituted(tokens, params, call, i);
      if NoChainStartsEmpty(tokens, params, call, i, out != []) then run == std else |run| < |std|
    decreases |tokens| - i, 0
  {
    hide WellFormedList, Fold, Operand, OperandEnd, ChainRun, Chain, IsConcatAt;
    var j, first := OperandEnd(tokens, i), Operand(tokens, params, call, i, true);
    var (joined, k) := Chain(tokens, params, call, first, j + 1);
    var run := ChainRun(tokens, params, call, out + first, j + 1);
    FoldOneOperand(tokens, params, call, i, out);
    var rest := Substituted(tokens, params, call, k);
    Assoc(out, joined, rest);
    if first != [] || out == [] {
      ChainExtends(tokens, params, call, out, first, j + 1);
      FoldMeansSubstituted(tokens, params, call, k, out + joined);
    } else {
      assert out + first == out;
      ChainPastesIntoOutput(tokens, params, call, out, j + 1);
      FoldMeansSubstituted(tokens, params, call, k, run.0);
      if joined == [] { assert out + joined == out; }
    }
  }

  /** Main result: on an error-free list the compiled macro puts out what the standard's
      substitution does, exactly when no ## chain starts with an empty argument after
      something was put out and still yields tokens. */
  lemma CompiledMacroMeansSubstitution(tokens: seq<Token>, params: seq<Text>, call: Call)
    requires WellFormedList(tokens, params)
    ensures RunParts(Components(tokens, params, 0, 0), tokens, call, [], false) == Substituted(tokens, params, call, 0)
        <==> NoChainStartsEmpty(tokens, params, call, 0, false)
  {
    ComponentsFold(tokens, params, call, 0, 0, []);
    FoldMeansSubstituted(tokens, params, call, 0, []);
    assert [] + Substituted(tokens, params, call, 0) == Substituted(tokens, params, call, 0);
  }

  /** p x ## y with an empty x: the standard has p b, the compiled macro pastes b to p. */
  lemma EmptyLeftIsPastedAcross(p: Token, x: Text, y: Text, b: Token, call: Call)
    requires p.kind == Other && x != y && VA_OPT !in {x, y}
    requires |call.args| == 2 && call.args[0] == [] && call.args[1] == [b]
    ensures var (tokens, params) := ([p, Token(Identifier, x), Token(Concat, []), Token(Identifier, y)], [x, y]);
      && Substituted(tokens, params, call, 0) == [p, b]
      && RunParts(Components(tokens, params, 0, 0), tokens, call, [], false) != [p, b]
  {
    var tokens, params := [p, Token(Identifier, x), Token(Concat, []), Token(Identifier, y)], [x, y];
    assert params[..1] == [x] && ParamIndex([x], x) == Some(0);
    assert ParamIndex(params, x) == Some(0) && ParamIndex(params, y) == Some(1);
    assert Operand(tokens, params, call, 0, false) == [p];
    assert Operand(tokens, params, call, 1, true) == [] && Operand(tokens, params, call, 3, true) == [b];
    assert Chain(tokens, params, call, [], 3) == ([b], 4);
    assert Substituted(tokens, params, call, 4) == [] && [b] + [] == [b];
    assert Substituted(tokens, params, call, 1) == [b];
    assert [p] + [b] == [p, b];
    assert !NoChainStartsEmpty(tokens, params, call, 1, true);
    assert !NoChainStartsEmpty(tokens, params, call, 0, false);
    forall i: nat | i < |tokens| ensures WellFormedAt(tokens, params, i) {
      assert i == 0 || i == 1 || i == 2 || i == 3;
    }
    CompiledMacroMeansSubstitution(tokens, params, call);
  }

  predicate LeftOperandFilled(tokens: seq<Token>, params: seq<Text>, call: Call, i: nat)
    requires i < |tokens|
  {
    tokens[i].kind != Concat && IsConcatAt(tokens, OperandEnd(tokens, i)) ==>
      Operand(tokens, params, call, i, true) != []
  }

  /** No parameter left of ## has an empty argument. */
  ghost predicate NoEmptyLeftOperand(tokens: seq<Token>, params: seq<Text>, call: Call) {
    forall i: nat :: i < |tokens| ==> LeftOperandFilled(tokens, params, call, i)
  }

  lemma {:induction false} NoEmptyLeftIsEnough(tokens: seq<Token>, params: seq<Text>, call: Call, i: nat, started: bool)
    requires WellFormedList(tokens, params) && i <= |tokens| && !IsConcatAt(tokens, i)
    requires NoEmptyLeftOperand(tokens, params, call)
    ensures NoChainStartsEmpty(tokens, params, call, i, started)
    decreases |tokens| - i
  {
    if i < |tokens| {
      assert LeftOperandFilled(tokens, params, call, i);
      var j := OperandEnd(tokens, i);
      if IsConcatAt(tokens, j) {
        ChainStartsFilled(tokens, params, call, i, started);
      } else {
        NoEmptyLeftIsEnough(tokens, params, call, j, started || Operand(tokens, params, call, i, false) != []);
      }
    }
  }

  lemma {:induction false} ChainStartsFilled(tokens: seq<Token>, params: seq<Text>, call: Call, i: nat, started: bool)
    requires WellFormedList(tokens, params) && i < |tokens| && NoEmptyLeftOperand(tokens, params, call)
    requires IsConcatAt(tokens, OperandEnd(tokens, i)) && Operand(tokens, params, call, i, true) != []
    ensures NoChainStartsEmpty(tokens, params, call, i, started)
    decreases |tokens| - i, 0
  {
    hide WellFormedList, NoEmptyLeftOperand, Operand, OperandEnd, Chain, IsConcatAt;
    var j, first := OperandEnd(tokens, i), Operand(tokens, params, call, i, true);
    ConcatIsBeforeOperand(tokens, params, j);
    var (joined, k) := Chain(tokens, params, call, first, j + 1);
    ChainEndsBeforeOperand(tokens, params, call, first, j + 1);
    NoEmptyLeftIsEnough(tokens, params, call, k, started || joined != []);
  }

  lemma {:induction false} ChainEndsBeforeOperand(
      tokens: seq<Token>, params: seq<Text>, call: Call, left: seq<Token>, i: nat)
    requires WellFormedList(tokens, params) && i < |tokens| && tokens[i].kind != Concat
    ensures !IsConcatAt(tokens, Chain(tokens, params, call, left, i).1)
    decreases |tokens| - i
  {
    var j := OperandEnd(tokens, i);
    if IsConcatAt(tokens, j) {
      ConcatIsBeforeOperand(tokens, params, j);
      ChainEndsBeforeOperand(tokens, params, call, Joined(left, Operand(tokens, params, call, i, true), call), j + 1);
    }
  }

  // ---- the spans ----

  /** Every span lies in the list from begin on, and the spans follow one another. */
  ghost predicate SpansFrom(parts: seq<Component>, begin: nat, limit: nat) {
    && (forall k :: 0 <= k < |parts| && parts[k].TokenSpan? ==> begin <= parts[k].begin < parts[k].end <= limit)
    && (forall k, m :: 0 <= k < m < |parts| && parts[k].TokenSpan? && parts[m].TokenSpan? ==>
          parts[k].end <= parts[m].begin)
  }

  lemma SpansJoin(a: seq<Component>, b: seq<Component>, begin: nat, middle: nat, limit: nat)
    requires SpansFrom(a, begin, middle) && SpansFrom(b, middle, limit) && begin <= middle <= limit
    ensures SpansFrom(a + b, begin, limit)
  {
    var ab := a + b;
    forall k | 0 <= k < |ab| ensures k < |a| ==> ab[k] == a[k]
                             ensures k >= |a| ==> ab[k] == b[k - |a|] {}
  }

  lemma StepSpans(tokens: seq<Token>, params: seq<Text>, e: nat, i: nat)
    requires e <= i < |tokens|
    ensures var (added, e', i') := Step(tokens, params, e, i); e <= e' && SpansFrom(added, e, e')
  {
  }

  /** The spans are in bounds, in order and disjoint. */
  lemma {:induction false} SpansAreDisjoint(tokens: seq<Token>, params: seq<Text>, e: nat, i: nat)
    requires e <= i <= |tokens|
    ensures SpansFrom(Components(tokens, params, e, i), e, |tokens|)
    decreases |tokens| - i
  {
    if i < |tokens| {
      StepSpans(tokens, params, e, i);
      ComponentsStep(tokens, params, e, i);
      hide Step, Components;
      var (added, e', i') := Step(tokens, params, e, i);
      SpansAreDisjoint(tokens, params, e', i');
      SpansJoin(added, Components(tokens, params, e', i'), e, e', |tokens|);
    }
  }

  /** The compiled macro meets what running it relies on. */
  lemma ComponentsInBounds(tokens: seq<Token>, params: seq<Text>)
    ensures SpansInBounds(Components(tokens, params, 0, 0), tokens)
  {
    SpansAreDisjoint(tokens, params, 0, 0);
  }
}
