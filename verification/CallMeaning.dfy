// Macro calls in the token stream: which tokens of the code are kept, and when a call is
// replaced by what the standard substitutes.
module StreamConservation {
  import opened Macros
  import opened LexerSpec

  /** What becomes of the code: a token put out, or a macro use replaced. */
  datatype Piece = Put(pos: nat) | Use(from: nat, to: nat)

  predicate MacroAt(code: seq<Token>, pos: nat, context: Context) {
    pos < |code| && code[pos].kind == Identifier && code[pos].content in context.macros
  }

  /** The token at pos is no function-like macro name, or begins a closed call. */
  predicate Closed(code: seq<Token>, pos: nat, context: Context) {
    MacroAt(code, pos, context) ==>
      var macro := context.macros[code[pos].content];
      macro.params.None? || CallAt(code, pos + 1, macro).Some?
  }

  /** Where reading goes on after the token or macro use at pos: a use is the name, or the
      name with the call up to its closing parenthesis. */
  function Next(code: seq<Token>, pos: nat, context: Context): (next: nat)
    requires pos < |code|
    ensures pos < next <= |code|
  {
    if !MacroAt(code, pos, context) then pos + 1
    else
      var macro := context.macros[code[pos].content];
      if macro.params.None? || pos + 1 == |code| then pos + 1
      else if code[pos + 1].kind != OpenParen then pos + 2
      else if Closed(code, pos, context) then CallAt(code, pos + 1, macro).value.end
      else pos + 1
  }

  function PieceAt(code: seq<Token>, pos: nat, context: Context): seq<Piece>
    requires pos < |code|
  {
    if !MacroAt(code, pos, context) then [Put(pos)]
    else if Closed(code, pos, context) then [Use(pos, Next(code, pos, context))]
    else []
  }

  function Pieces(code: seq<Token>, pos: nat, context: Context): seq<Piece>
    requires pos <= |code|
    decreases |code| - pos
  {
    if pos == |code| then []
    else PieceAt(code, pos, context) + Pieces(code, Next(code, pos, context), context)
  }

  /** The tokens a piece yields: a token of the code, an identifier translated; the
      replacement list of an object-like macro; what a call is unrolled to. */
  function Rendered(code: seq<Token>, piece: Piece, context: Context): seq<Token> {
    match piece
    case Put(i) =>
      if i < |code| then [if code[i].kind == Identifier then context.translate(code[i]) else code[i]] else []
    case Use(i, _) =>
      if !MacroAt(code, i, context) then []
      else
        var macro := context.macros[code[i].content];
        if macro.params.None? then macro.value
        else if CallAt(code, i + 1, macro).Some? then Unrolled(macro, CallAt(code, i + 1, macro).value.args, context)
        else []
  }

  function AllRendered(code: seq<Token>, pieces: seq<Piece>, context: Context): seq<Token> {
    if pieces == [] then [] else Rendered(code, pieces[0], context) + AllRendered(code, pieces[1..], context)
  }

  function Range(from: nat, to: nat): seq<nat>
    requires from <= to
  {
    seq(to - from, (k: nat) requires k < to - from => from + k)
  }

  /** The places of the code a piece accounts for. */
  function Places(piece: Piece): seq<nat> {
    match piece
    case Put(i) => [i]
    case Use(i, j) => if i <= j then Range(i, j) else []
  }

  function AllPlaces(pieces: seq<Piece>): seq<nat> {
    if pieces == [] then [] else Places(pieces[0]) + AllPlaces(pieces[1..])
  }

  /** Reading from pos arrives at q. */
  predicate Met(code: seq<Token>, pos: nat, context: Context, q: nat)
    requires pos <= |code|
    decreases |code| - pos
  {
    pos < |code| && (q == pos || Met(code, Next(code, pos, context), context, q))
  }

  /** The pieces are the expansion. */
  lemma {:induction false} PiecesRender(code: seq<Token>, pos: nat, context: Context)
    requires pos <= |code|
    ensures AllRendered(code, Pieces(code, pos, context), context) == Expansion(code, pos, context)
    decreases |code| - pos
  {
    hide Next, PieceAt, Expansion, AllRendered;
    if pos == |code| {
      NothingRendered(code, context);
    } else {
      var next := Next(code, pos, context);
      PiecesRender(code, next, context);
      ExpansionStep(code, pos, context);
      RenderStep(code, PieceAt(code, pos, context), Pieces(code, next, context), context);
    }
  }

  lemma NothingRendered(code: seq<Token>, context: Context)
    ensures AllRendered(code, [], context) == Expansion(code, |code|, context)
  {
  }

  lemma RenderStep(code: seq<Token>, piece: seq<Piece>, rest: seq<Piece>, context: Context)
    requires |piece| <= 1
    ensures AllRendered(code, piece + rest, context)
         == (if piece == [] then [] else Rendered(code, piece[0], context)) + AllRendered(code, rest, context)
  {
    hide Rendered;
    if piece == [] {
      assert piece + rest == rest && [] + AllRendered(code, rest, context) == AllRendered(code, rest, context);
    } else {
      assert (piece + rest)[0] == piece[0] && (piece + rest)[1..] == rest;
    }
  }

  lemma ExpansionStep(code: seq<Token>, pos: nat, context: Context)
    requires pos < |code|
    ensures |PieceAt(code, pos, context)| <= 1
    ensures var piece := PieceAt(code, pos, context);
      Expansion(code, pos, context)
      == (if piece == [] then [] else Rendered(code, piece[0], context))
         + Expansion(code, Next(code, pos, context), context)
  {
    hide Unrolled, Collect;
    if MacroAt(code, pos, context) {
      var macro := context.macros[code[pos].content];
      var (tokens, next) := UseAt(code, pos + 1, macro, context);
      if !Closed(code, pos, context) { LostYieldsNothing(code, pos, context); }
    }
  }

  lemma LostYieldsNothing(code: seq<Token>, pos: nat, context: Context)
    requires MacroAt(code, pos, context) && !Closed(code, pos, context)
    ensures UseAt(code, pos + 1, context.macros[code[pos].content], context).0 == []
  {
    hide CallAt;
  }

  /** The name of an object-like macro is replaced by the macro's list, wherever it stands. */
  lemma ObjectMacroIsItsValue(code: seq<Token>, pos: nat, context: Context)
    requires MacroAt(code, pos, context) && context.macros[code[pos].content].params.None?
    ensures Expansion(code, pos, context)
         == context.macros[code[pos].content].value + Expansion(code, pos + 1, context)
  {
    ExpansionStep(code, pos, context);
  }

  lemma {:induction false} PlacesFollow(code: seq<Token>, pos: nat, context: Context)
    requires pos <= |code|
    ensures forall i :: 0 <= i < |AllPlaces(Pieces(code, pos, context))| ==>
              pos <= AllPlaces(Pieces(code, pos, context))[i]
    decreases |code| - pos
  {
    hide Next, Closed;
    if pos < |code| {
      var next := Next(code, pos, context);
      PlacesFollow(code, next, context);
      PlacesStep(code, pos, context);
    }
  }

  lemma PlacesStep(code: seq<Token>, pos: nat, context: Context)
    requires pos < |code|
    ensures var next := Next(code, pos, context);
      AllPlaces(Pieces(code, pos, context))
      == (if Closed(code, pos, context) then Range(pos, next) else []) + AllPlaces(Pieces(code, next, context))
  {
    hide UseAt, CallAt;
    var piece, rest := PieceAt(code, pos, context), Pieces(code, Next(code, pos, context), context);
    if piece == [] {
      assert [] + rest == rest && [] + AllPlaces(rest) == AllPlaces(rest);
    } else {
      assert (piece + rest)[0] == piece[0] && (piece + rest)[1..] == rest;
      if piece[0].Put? { assert Range(pos, pos + 1) == [pos]; }
    }
  }

  /** Every token of the code is put out or part of one macro use, once and in order,
      exactly when every function-like macro name that is read begins a closed call. */
  lemma {:induction false} EveryTokenIsKeptExactly(code: seq<Token>, pos: nat, context: Context)
    requires pos <= |code|
    ensures AllPlaces(Pieces(code, pos, context)) == Range(pos, |code|)
       <==> forall q :: Met(code, pos, context, q) ==> Closed(code, q, context)
    decreases |code| - pos
  {
    hide Next, Closed, Pieces, AllPlaces;
    if pos == |code| {
      NoPlaces(code, context);
    } else {
      var next := Next(code, pos, context);
      var rest := AllPlaces(Pieces(code, next, context));
      EveryTokenIsKeptExactly(code, next, context);
      PlacesStep(code, pos, context);
      assert Met(code, pos, context, pos);
      assert forall q :: Met(code, next, context, q) ==> Met(code, pos, context, q);
      if Closed(code, pos, context) {
        assert Range(pos, |code|) == Range(pos, next) + Range(next, |code|);
        if Range(pos, next) + rest == Range(pos, |code|) {
          assert rest == (Range(pos, next) + rest)[next - pos..];
          assert Range(next, |code|) == Range(pos, |code|)[next - pos..];
        }
      } else {
        PlacesFollow(code, next, context);
        assert [] + rest == rest;
        assert Range(pos, |code|)[0] == pos;
      }
    }
  }

  lemma NoPlaces(code: seq<Token>, context: Context)
    ensures AllPlaces(Pieces(code, |code|, context)) == Range(|code|, |code|)
  {
  }

  /** F x, for a function-like F: neither token is kept. */
  lemma NameWithoutCallLosesTwo(f: Token, x: Token, context: Context)
    requires MacroAt([f], 0, context) && context.macros[f.content].params.Some? && x.kind != OpenParen
    ensures Expansion([f, x], 0, context) == [] && AllPlaces(Pieces([f, x], 0, context)) == []
  {
    var code := [f, x];
    assert Expansion(code, 2, context) == [] && Pieces(code, 2, context) == [];
    assert !Closed(code, 0, context) && Next(code, 0, context) == 2;
  }

  /** F (, never closed: the name is lost, what follows it is read on. */
  lemma UnclosedCallLosesName(code: seq<Token>, pos: nat, context: Context)
    requires MacroAt(code, pos, context) && !Closed(code, pos, context)
    requires pos + 1 < |code| && code[pos + 1].kind == OpenParen
    ensures Expansion(code, pos, context) == Expansion(code, pos + 1, context)
    ensures pos !in AllPlaces(Pieces(code, pos, context))
  {
    hide CallAt;
    var rest := Expansion(code, pos + 1, context);
    assert [] + rest == rest;
    PlacesStep(code, pos, context);
    PlacesFollow(code, pos + 1, context);
    assert [] + AllPlaces(Pieces(code, pos + 1, context)) == AllPlaces(Pieces(code, pos + 1, context));
  }
}

module CallMeaning {
  import opened Options
  import opened Macros
  import opened MacroMeaning
  import opened LexerSpec

  predicate HasMacroName(ts: seq<Token>, context: Context) {
    exists i :: 0 <= i < |ts| && ts[i].kind == Identifier && ts[i].content in context.macros
  }

  /** What complete macro replacement of an argument (19.3.1) promises whatever the macros
      mean: tokens among which there is no macro name stay as they are. */
  ghost predicate Expands(expand: seq<Token> -> seq<Token>, context: Context) {
    forall ts: seq<Token> :: !HasMacroName(ts, context) ==> expand(ts) == ts
  }

  function ExpandedCall(args: seq<seq<Token>>, expand: seq<Token> -> seq<Token>, context: Context): Call {
    Call(args, seq(|args|, i requires 0 <= i < |args| => expand(args[i])), context.paste)
  }

  /** Token p of the list is the n-th parameter, beside no # and no ##. */
  predicate ExpandedUse(tokens: seq<Token>, params: seq<Text>, p: nat, n: nat) {
    && p < |tokens| && tokens[p].kind == Identifier && ArgumentIndex(params, tokens[p].content) == Some(n)
    && !IsConcatAt(tokens, p - 1) && !IsConcatAt(tokens, p + 1)
    && !(p > 0 && tokens[p - 1].kind == Stringify)
  }

  /** No argument that 19.3.1 has expanded holds a macro name. */
  ghost predicate NothingToExpand(tokens: seq<Token>, params: seq<Text>, args: seq<seq<Token>>, context: Context) {
    forall p: nat, n: nat :: ExpandedUse(tokens, params, p, n) && n < |args| ==> !HasMacroName(args[n], context)
  }

  /** An operand may start at i: no # or ## is right before it. */
  predicate Starts(tokens: seq<Token>, i: nat) {
    !IsConcatAt(tokens, i) && !IsConcatAt(tokens, i - 1) && !(0 < i <= |tokens| && tokens[i - 1].kind == Stringify)
  }

  // ---- what depends on the expanded arguments ----

  lemma {:induction false} ChainsAgree(tokens: seq<Token>, params: seq<Text>, a: Call, b: Call, left: seq<Token>, i: nat)
    requires i < |tokens| && a.args == b.args && a.paste == b.paste
    ensures Chain(tokens, params, a, left, i) == Chain(tokens, params, b, left, i)
    decreases |tokens| - i
  {
    hide Operand, OperandEnd;
    var joined, j := Joined(left, Operand(tokens, params, a, i, true), a), OperandEnd(tokens, i);
    RawOperandsAgree(tokens, params, a, b, i);
    assert joined == Joined(left, Operand(tokens, params, b, i, true), b);
    hide Joined;
    if IsConcatAt(tokens, j) && j + 1 < |tokens| {
      ChainsAgree(tokens, params, a, b, joined, j + 1);
    }
  }

  /** After an operand of a well-formed list that no ## follows, the next one starts. */
  lemma OperandsStart(tokens: seq<Token>, params: seq<Text>, i: nat)
    requires WellFormedList(tokens, params) && i < |tokens| && tokens[i].kind != Concat
    requires !IsConcatAt(tokens, OperandEnd(tokens, i))
    ensures Starts(tokens, OperandEnd(tokens, i))
  {
    OperandIsNoConcat(tokens, params, i);
    assert WellFormedAt(tokens, params, i);
    if i + 1 < |tokens| { assert WellFormedAt(tokens, params, i + 1); }
  }

  lemma {:induction false} ChainEndStarts(tokens: seq<Token>, params: seq<Text>, call: Call, left: seq<Token>, i: nat)
    requires WellFormedList(tokens, params) && i < |tokens| && tokens[i].kind != Concat
    ensures Starts(tokens, Chain(tokens, params, call, left, i).1)
    decreases |tokens| - i
  {
    hide WellFormedList, Starts, Operand, Joined;
    var j := OperandEnd(tokens, i);
    if IsConcatAt(tokens, j) {
      ConcatIsBeforeOperand(tokens, params, j);
      ChainEndStarts(tokens, params, call, Joined(left, Operand(tokens, params, call, i, true), call), j + 1);
    } else {
      OperandsStart(tokens, params, i);
    }
  }

  /** A parameter that is expanded is in no chain. */
  lemma {:induction false} UseIsAfterChain(tokens: seq<Token>, params: seq<Text>, call: Call, left: seq<Token>,
                                           i: nat, p: nat, n: nat)
    requires WellFormedList(tokens, params) && i < |tokens| && IsConcatAt(tokens, i - 1) && tokens[i].kind != Concat
    requires ExpandedUse(tokens, params, p, n) && i <= p
    ensures Chain(tokens, params, call, left, i).1 <= p
    decreases |tokens| - i
  {
    hide Operand, Joined, ArgumentIndex;
    var j := OperandEnd(tokens, i);
    assert WellFormedAt(tokens, params, i);
    if IsConcatAt(tokens, j) {
      ConcatIsBeforeOperand(tokens, params, j);
      UseIsAfterChain(tokens, params, call, Joined(left, Operand(tokens, params, call, i, true), call), j + 1, p, n);
    }
  }

  lemma OneOperandAgrees(tokens: seq<Token>, params: seq<Text>, a: Call, b: Call, i: nat)
    requires WellFormedList(tokens, params) && i < |tokens| && Starts(tokens, i) && a.args == b.args
    requires !IsConcatAt(tokens, OperandEnd(tokens, i))
    requires forall p: nat, n: nat :: ExpandedUse(tokens, params, p, n) ==> ExpandedNth(a, n) == ExpandedNth(b, n)
    ensures Operand(tokens, params, a, i, false) == Operand(tokens, params, b, i, false)
  {
    hide ExpandedNth, ArgumentIndex;
    if tokens[i].kind == Identifier && ArgumentIndex(params, tokens[i].content).Some? {
      assert ExpandedUse(tokens, params, i, ArgumentIndex(params, tokens[i].content).value);
    }
  }

  /** Calls that agree on the arguments that are expanded are substituted alike. */
  lemma {:induction false} SubstitutionsAgree(tokens: seq<Token>, params: seq<Text>, a: Call, b: Call, i: nat, started: bool)
    requires WellFormedList(tokens, params) && i <= |tokens| && Starts(tokens, i)
    requires a.args == b.args && a.paste == b.paste
    requires forall p: nat, n: nat :: ExpandedUse(tokens, params, p, n) ==> ExpandedNth(a, n) == ExpandedNth(b, n)
    ensures Substituted(tokens, params, a, i) == Substituted(tokens, params, b, i)
    ensures NoChainStartsEmpty(tokens, params, a, i, started) == NoChainStartsEmpty(tokens, params, b, i, started)
    decreases |tokens| - i
  {
    hide WellFormedList, Operand, Chain, ExpandedUse, ExpandedNth, Starts, OperandEnd;
    if i < |tokens| {
      assert tokens[i].kind != Concat by { StartIsNoConcat(tokens, i); }
      var j := OperandEnd(tokens, i);
      if IsConcatAt(tokens, j) {
        ConcatIsBeforeOperand(tokens, params, j);
        var first := Operand(tokens, params, a, i, true);
        RawOperandsAgree(tokens, params, a, b, i);
        ChainsAgree(tokens, params, a, b, first, j + 1);
        ChainEndStarts(tokens, params, a, first, j + 1);
        var (joined, k) := Chain(tokens, params, a, first, j + 1);
        SubstitutionsAgree(tokens, params, a, b, k, started || joined != []);
      } else {
        OperandsStart(tokens, params, i);
        OneOperandAgrees(tokens, params, a, b, i);
        SubstitutionsAgree(tokens, params, a, b, j, started || Operand(tokens, params, a, i, false) != []);
      }
    }
  }

  lemma StartIsNoConcat(tokens: seq<Token>, i: nat)
    requires i < |tokens| && Starts(tokens, i)
    ensures tokens[i].kind != Concat
  {
  }

  lemma RawOperandsAgree(tokens: seq<Token>, params: seq<Text>, a: Call, b: Call, i: nat)
    requires i < |tokens| && a.args == b.args
    ensures Operand(tokens, params, a, i, true) == Operand(tokens, params, b, i, true)
  {
  }

  /** Longer expansions make a longer substitution, by one token at least when the argument
      of a later parameter grew. */
  lemma {:induction false} SubstitutionGrows(tokens: seq<Token>, params: seq<Text>, a: Call, b: Call, i: nat, p: nat, n: nat)
    requires WellFormedList(tokens, params) && i <= |tokens| && Starts(tokens, i)
    requires a.args == b.args && a.paste == b.paste
    requires forall m: nat :: |ExpandedNth(a, m)| <= |ExpandedNth(b, m)|
    requires ExpandedUse(tokens, params, p, n) && |ExpandedNth(a, n)| < |ExpandedNth(b, n)|
    ensures |Substituted(tokens, params, a, i)| + (if i <= p then 1 else 0) <= |Substituted(tokens, params, b, i)|
    decreases |tokens| - i
  {
    hide WellFormedList, Operand, Chain, ExpandedNth, Starts, ArgumentIndex, Joined, Nth;
    if i < |tokens| {
      assert tokens[i].kind != Concat by { StartIsNoConcat(tokens, i); }
      var j := OperandEnd(tokens, i);
      if IsConcatAt(tokens, j) {
        ConcatIsBeforeOperand(tokens, params, j);
        var first := Operand(tokens, params, a, i, true);
        RawOperandsAgree(tokens, params, a, b, i);
        ChainsAgree(tokens, params, a, b, first, j + 1);
        ChainEndStarts(tokens, params, a, first, j + 1);
        var (joined, k) := Chain(tokens, params, a, first, j + 1);
        SubstitutionGrows(tokens, params, a, b, k, p, n);
        if i <= p {
          UseIsNotHere(tokens, params, i, p, n);
          UseIsAfterChain(tokens, params, a, first, j + 1, p, n);
        }
      } else {
        OperandsStart(tokens, params, i);
        OperandGrows(tokens, params, a, b, i);
        SubstitutionGrows(tokens, params, a, b, j, p, n);
        if i < p { UseIsNotHere(tokens, params, i, p, n); }
        if i == p { UseGrows(tokens, params, a, b, p, n); }
      }
    }
  }

  lemma UseIsNotHere(tokens: seq<Token>, params: seq<Text>, i: nat, p: nat, n: nat)
    requires ExpandedUse(tokens, params, p, n) && i <= p
    requires i < p || IsConcatAt(tokens, OperandEnd(tokens, i))
    ensures OperandEnd(tokens, i) <= p
    ensures IsConcatAt(tokens, OperandEnd(tokens, i)) ==> OperandEnd(tokens, i) + 1 <= p
  {
    hide ArgumentIndex;
  }

  lemma OperandGrows(tokens: seq<Token>, params: seq<Text>, a: Call, b: Call, i: nat)
    requires i < |tokens| && a.args == b.args
    requires forall m: nat :: |ExpandedNth(a, m)| <= |ExpandedNth(b, m)|
    ensures |Operand(tokens, params, a, i, false)| <= |Operand(tokens, params, b, i, false)|
  {
    hide ExpandedNth, ArgumentIndex;
  }

  lemma UseGrows(tokens: seq<Token>, params: seq<Text>, a: Call, b: Call, p: nat, n: nat)
    requires ExpandedUse(tokens, params, p, n) && |ExpandedNth(a, n)| < |ExpandedNth(b, n)|
    ensures |Operand(tokens, params, a, p, false)| < |Operand(tokens, params, b, p, false)|
  {
    hide ExpandedNth, ArgumentIndex;
  }

  // ---- a whole call ----

  /** What a compiled macro puts out is what the standard substitutes, whatever expanding
      the arguments means, exactly when no ## chain starts empty and no argument that is
      to be expanded holds a macro name. */
  lemma SubstitutesExactly(tokens: seq<Token>, params: seq<Text>, args: seq<seq<Token>>, context: Context)
    requires WellFormedList(tokens, params)
    ensures (forall expand: seq<Token> -> seq<Token> :: Expands(expand, context) ==>
               RunParts(Components(tokens, params, 0, 0), tokens, Call(args, args, context.paste), [], false)
               == Substituted(tokens, params, ExpandedCall(args, expand, context), 0))
       <==> NoChainStartsEmpty(tokens, params, Call(args, args, context.paste), 0, false)
            && NothingToExpand(tokens, params, args, context)
  {
    hide RunParts, Components, Substituted, NoChainStartsEmpty, ExpandedCall, HasMacroName, Expands, WellFormedList;
    var raw := Call(args, args, context.paste);
    var out := RunParts(Components(tokens, params, 0, 0), tokens, raw, [], false);
    CompiledMacroMeansSubstitution(tokens, params, raw);
    if NoChainStartsEmpty(tokens, params, raw, 0, false) && NothingToExpand(tokens, params, args, context) {
      forall expand: seq<Token> -> seq<Token> | Expands(expand, context)
        ensures out == Substituted(tokens, params, ExpandedCall(args, expand, context), 0)
      {
        NothingExpanded(tokens, params, args, expand, context);
      }
    } else if forall expand: seq<Token> -> seq<Token> :: Expands(expand, context) ==>
        out == Substituted(tokens, params, ExpandedCall(args, expand, context), 0) {
      var same := (ts: seq<Token>) => ts;
      SameExpands(args, context);
      assert out == Substituted(tokens, params, ExpandedCall(args, same, context), 0);
      assert NoChainStartsEmpty(tokens, params, raw, 0, false);
      var p: nat, n: nat :| ExpandedUse(tokens, params, p, n) && n < |args| && HasMacroName(args[n], context);
      SomeExpansionGrows(tokens, params, args, context, p, n);
      assert false;
    }
  }

  lemma ListStarts(tokens: seq<Token>, params: seq<Text>)
    requires WellFormedList(tokens, params)
    ensures Starts(tokens, 0)
  {
  }

  lemma NothingExpanded(tokens: seq<Token>, params: seq<Text>, args: seq<seq<Token>>,
                        expand: seq<Token> -> seq<Token>, context: Context)
    requires WellFormedList(tokens, params) && Expands(expand, context) && NothingToExpand(tokens, params, args, context)
    ensures Substituted(tokens, params, ExpandedCall(args, expand, context), 0)
         == Substituted(tokens, params, Call(args, args, context.paste), 0)
  {
    hide WellFormedList, Substituted, HasMacroName, ExpandedUse;
    var raw, std := Call(args, args, context.paste), ExpandedCall(args, expand, context);
    forall p: nat, n: nat | ExpandedUse(tokens, params, p, n) ensures ExpandedNth(std, n) == ExpandedNth(raw, n) {
      if n < |args| { assert expand(args[n]) == args[n]; }
    }
    ListStarts(tokens, params);
    SubstitutionsAgree(tokens, params, std, raw, 0, false);
  }

  lemma SameExpands(args: seq<seq<Token>>, context: Context)
    ensures Expands((ts: seq<Token>) => ts, context)
    ensures ExpandedCall(args, (ts: seq<Token>) => ts, context) == Call(args, args, context.paste)
  {
    assert seq(|args|, i requires 0 <= i < |args| => args[i]) == args;
  }

  /** An expansion that puts one more token to whatever holds a macro name. */
  function Longer(context: Context): seq<Token> -> seq<Token> {
    (ts: seq<Token>) => if HasMacroName(ts, context) then ts + [COMMA] else ts
  }

  lemma SomeExpansionGrows(tokens: seq<Token>, params: seq<Text>, args: seq<seq<Token>>, context: Context, p: nat, n: nat)
    requires WellFormedList(tokens, params)
    requires ExpandedUse(tokens, params, p, n) && n < |args| && HasMacroName(args[n], context)
    ensures Expands(Longer(context), context)
    ensures Substituted(tokens, params, ExpandedCall(args, Longer(context), context), 0)
         != Substituted(tokens, params, Call(args, args, context.paste), 0)
  {
    hide WellFormedList, Substituted, HasMacroName, ExpandedUse;
    var raw, std := Call(args, args, context.paste), ExpandedCall(args, Longer(context), context);
    ListStarts(tokens, params);
    SubstitutionGrows(tokens, params, raw, std, 0, p, n);
  }

  /** A closed call in the code is replaced by what 19.3.1 to 19.3.3 substitute, whatever
      the macros mean, exactly when no ## chain starts empty after output and no argument
      used outside # and ## holds a macro name. */
  lemma CallsMeanSubstitutionExactly(code: seq<Token>, pos: nat, macro: Macro, context: Context)
    requires RawCode(code) && CallAt(code, pos, macro).Some?
    requires WellFormedList(macro.value, macro.params.value)
    requires macro.parts == Components(macro.value, macro.params.value, 0, 0)
    ensures var (tokens, params, args) := (macro.value, macro.params.value, CallAt(code, pos, macro).value.args);
      (forall expand: seq<Token> -> seq<Token> :: Expands(expand, context) ==>
         Unrolled(macro, args, context) == Substituted(tokens, params, ExpandedCall(args, expand, context), 0))
      <==> NoChainStartsEmpty(tokens, params, Call(args, args, context.paste), 0, false)
           && NothingToExpand(tokens, params, args, context)
  {
    hide RunParts, Components, Substituted, NoChainStartsEmpty, ExpandedCall,
      NothingToExpand, Expands, WellFormedList, Collect;
    var args := CallAt(code, pos, macro).value.args;
    forall i | 0 <= i < |args| ensures UpToEnd(args[i]) == args[i] {
      ArgumentsAreNotExpanded(code, pos, macro, i);
    }
    assert seq(|args|, i requires 0 <= i < |args| => UpToEnd(args[i])) == args;
    SubstitutesExactly(macro.value, macro.params.value, args, context);
  }

  /** F(G) for F(a) defined as a: the macro name G is what comes out, and no use of it. */
  lemma ArgumentMacroStays(macro: Macro, g: Token, context: Context)
    requires macro.params.Some? && |macro.params.value| == 1 && g.kind == Identifier && g.content in context.macros
    requires macro.value == [Token(Identifier, macro.params.value[0])]
    requires macro.parts == Components(macro.value, macro.params.value, 0, 0)
    ensures Unrolled(macro, [[g]], context) == [g]
    ensures !NothingToExpand(macro.value, macro.params.value, [[g]], context)
  {
    var tokens, params := macro.value, macro.params.value;
    assert ParamIndex(params, params[0]) == Some(0);
    assert Components(tokens, params, 1, 1) == [];
    assert Step(tokens, params, 0, 0) == ([] + [ExpandedArgument(0)], 1, 1);
    assert macro.parts == [ExpandedArgument(0)];
    assert UpToEnd([g]) == [g] by { UpToEndKeeps([g]); }
    var args := [[g]];
    var call := Call(args, seq(|args|, i requires 0 <= i < |args| => UpToEnd(args[i])), context.paste);
    assert call.expanded == args;
    RunOne(ExpandedArgument(0), [], tokens, call, [], false);
    assert ComponentTokens(ExpandedArgument(0), tokens, call) == [g];
    assert [ExpandedArgument(0)] + [] == macro.parts && [] + [g] == [g];
    assert RunParts([], tokens, call, [g], false) == [g];
    assert ExpandedUse(tokens, params, 0, 0);
    assert [g][0] == g && HasMacroName([g], context);
  }
}
