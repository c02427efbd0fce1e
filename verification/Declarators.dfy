// Declarators: modifier stack to C text, text to declarator tree, tree back to stack,
// and the split of the text around the declared name.
module DeclaratorText {
  import opened Decimal
  import opened Options

  const SIZE_LIMIT := 0x1_0000_0000_0000_0000

  /** A size_t. */
  type Size = n: nat | n < SIZE_LIMIT

  /** One level of jdi::ref_stack. A stack lists them from the name outward; an array
      of unknown bound has size 0. */
  datatype Modifier = Pointer | Reference | Array(size: Size)

  function SizeText(n: Size): string {
    if n != 0 then "[" + Numeral(n) + "]" else "[]"
  }

  /** Pointers and references have to be parenthesised before an array bound. */
  predicate EndsInPrefix(stack: seq<Modifier>) {
    stack != [] && !stack[|stack| - 1].Array?
  }

  function Front(stack: seq<Modifier>): seq<Modifier>
    requires stack != []
  {
    stack[..|stack| - 1]
  }

  function Last(stack: seq<Modifier>): Modifier
    requires stack != []
  {
    stack[|stack| - 1]
  }

  /** The text of a stack around the name, built from the name outward. */
  function Spell(stack: seq<Modifier>, name: string): string {
    if stack == [] then name
    else
      var inner := Spell(Front(stack), name);
      match Last(stack)
      case Pointer => "*" + inner
      case Reference => "&" + inner
      case Array(n) => Parenthesised(Front(stack), inner) + SizeText(n)
  }

  function Parenthesised(stack: seq<Modifier>, text: string): string {
    if EndsInPrefix(stack) then "(" + text + ")" else text
  }

  /** The whole text for a type without specifier flags. */
  function FullType(stack: seq<Modifier>, name: string): string {
    if stack == [] then (if name != "" then name + " " else "") else Spell(stack, name)
  }

  method GetFullType(stack: seq<Modifier>, name: string) returns (text: string)
    ensures text == FullType(stack, name)
  {
    text := "";
    if name != "" && |stack| == 0 {
      text := text + (name + " ");
    }
    var ref := "";
    var flag := false;
    var printName := true;
    for i := 0 to |stack|
      invariant printName <==> i == 0
      invariant flag <==> EndsInPrefix(stack[..i])
      invariant ref == if i == 0 then "" else Spell(stack[..i], name)
    {
      var it := stack[i];
      assert Front(stack[..i + 1]) == stack[..i] && Last(stack[..i + 1]) == it;
      if it.Pointer? {
        flag := true;
        ref := "*" + ref;
      } else if it.Reference? {
        flag := true;
        ref := "&" + ref;
      } else {
        if flag {
          ref := "(" + ref + ")";
        }
        ref := ref + SizeText(it.size);
        flag := false;
      }
      if printName {
        if name != "" {
          if it.Array? {
            ref := name + ref;
          } else {
            ref := ref + name;
          }
        }
        printName := false;
      }
    }
    assert stack[..|stack|] == stack;
    text := text + ref;
  }

  // ---- reading the text back ----

  predicate IsIdentifierChar(c: char) {
    'a' <= c <= 'z' || 'A' <= c <= 'Z' || '0' <= c <= '9' || c == '_'
  }

  /** An identifier, or nothing for an abstract declarator. */
  predicate IsName(name: string) {
    forall i :: 0 <= i < |name| ==> IsIdentifierChar(name[i])
  }

  datatype PrefixOperator = Star | Ampersand | DoubleAmpersand

  /** Declarator expression trees: UnaryPrefix, subscript BinaryExpression, Parenthetical
      and the identifier leaf. */
  datatype Declarator =
    | Leaf(name: string)
    | Prefix(op: PrefixOperator, operand: Declarator)
    | Subscript(operand: Declarator, size: string)
    | Group(inner: Declarator)

  type Parsed = Option<(Declarator, string)>

  function NameLength(s: string): (n: nat)
    ensures n <= |s| && IsName(s[..n]) && (n < |s| ==> !IsIdentifierChar(s[n]))
  {
    if s == "" || !IsIdentifierChar(s[0]) then 0 else 1 + NameLength(s[1..])
  }

  function DigitsLength(s: string): (n: nat)
    ensures n <= |s| && AllDigits(s[..n]) && (n < |s| ==> !IsDigit(s[n]))
  {
    if s == "" || !IsDigit(s[0]) then 0 else 1 + DigitsLength(s[1..])
  }

  /** ptr-declarator (section 11.3 of ISO/IEC 14882:2017). && is one token. */
  function ParseDeclarator(s: string): (r: Parsed)
    ensures r.Some? ==> |r.value.1| <= |s|
    decreases |s|, 1
  {
    if s != "" && s[0] == '*' then Prefixed(Star, ParseDeclarator(s[1..]))
    else if |s| > 1 && s[0] == '&' && s[1] == '&' then Prefixed(DoubleAmpersand, ParseDeclarator(s[2..]))
    else if s != "" && s[0] == '&' then Prefixed(Ampersand, ParseDeclarator(s[1..]))
    else if s != "" && s[0] == '(' then
      match ParseDeclarator(s[1..])
      case Some((d, rest)) => if rest != "" && rest[0] == ')' then ParseBounds(Group(d), rest[1..]) else None
      case None => None
    else ParseBounds(Leaf(s[..NameLength(s)]), s[NameLength(s)..])
  }

  function Prefixed(op: PrefixOperator, r: Parsed): Parsed {
    match r
    case Some((d, rest)) => Some((Prefix(op, d), rest))
    case None => None
  }

  /** Array bounds after a declarator. */
  function ParseBounds(d: Declarator, s: string): (r: Parsed)
    ensures r.Some? ==> |r.value.1| <= |s|
    decreases |s|, 0
  {
    if s == "" || s[0] != '[' then Some((d, s))
    else
      var n := DigitsLength(s[1..]);
      var rest := s[1..][n..];
      if rest != "" && rest[0] == ']' then ParseBounds(Subscript(d, s[1..][..n]), rest[1..]) else None
  }

  /** std::stoul on a digit literal; 0 when it is missing or out of range. */
  function BoundOf(digits: string): Size {
    if AllDigits(digits) && Value(digits) < SIZE_LIMIT then Value(digits) else 0
  }

  /** walk_declarator_expr: the stack, or failure for an operator that is no modifier. */
  function WalkDeclarator(d: Declarator): Option<seq<Modifier>> {
    match d
    case Leaf(_) => Some([])
    case Prefix(op, x) => (
      match (op, WalkDeclarator(x))
      case (Star, Some(stack)) => Some(stack + [Pointer])
      case (Ampersand, Some(stack)) => Some(stack + [Reference])
      case _ => None
    )
    case Subscript(x, digits) => (
      match WalkDeclarator(x)
      case Some(stack) => Some(stack + [Array(BoundOf(digits))])
      case None => None
    )
    case Group(x) => WalkDeclarator(x)
  }

  /** The text is followed only by what cannot continue a declarator. */
  predicate Ends(rest: string) {
    rest == "" || rest[0] == ' ' || rest[0] == ')'
  }

  /** Reads a declarator up to the end of the text, blanks aside. */
  function ReadDeclarator(text: string): Option<Declarator> {
    match ParseDeclarator(text)
    case Some((d, rest)) => if rest == "" || rest == " " then Some(d) else None
    case None => None
  }

  // ---- what a declarator means (sections 11.3.1, 11.3.2 and 11.3.4) ----

  datatype Type = Base | PointerTo(of: Type) | ReferenceTo(of: Type)
    | RvalueReferenceTo(of: Type) | ArrayOf(size: Size, of: Type)

  /** The type the declarator gives its name when declared with type t. */
  function Declares(d: Declarator, t: Type): Type {
    match d
    case Leaf(_) => t
    case Prefix(Star, x) => Declares(x, PointerTo(t))
    case Prefix(Ampersand, x) => Declares(x, ReferenceTo(t))
    case Prefix(DoubleAmpersand, x) => Declares(x, RvalueReferenceTo(t))
    case Subscript(x, digits) => Declares(x, ArrayOf(BoundOf(digits), t))
    case Group(x) => Declares(x, t)
  }

  /** The type a stack stands for: its first modifier, of the rest, of the base type. */
  function StackType(stack: seq<Modifier>, t: Type): Type {
    if stack == [] then t
    else
      match stack[0]
      case Pointer => PointerTo(StackType(stack[1..], t))
      case Reference => ReferenceTo(StackType(stack[1..], t))
      case Array(n) => ArrayOf(n, StackType(stack[1..], t))
  }
}

module DeclaratorRoundTrip {
  import opened Decimal
  import opened Options
  import opened Sequences
  import opened DeclaratorText

  /** Two references in a row: their text is the one token &&. */
  predicate HasAdjacentReferences(stack: seq<Modifier>) {
    exists i :: 0 <= i < |stack| - 1 && stack[i].Reference? && stack[i + 1].Reference?
  }

  function DigitsOf(n: Size): string {
    if n != 0 then Numeral(n) else ""
  }

  /** The tree the spelled stack parses to. */
  function TreeOf(stack: seq<Modifier>, name: string): Declarator
    decreases |stack|
  {
    if stack == [] then Leaf(name)
    else
      var front := Front(stack);
      match Last(stack)
      case Pointer => Prefix(Star, TreeOf(front, name))
      case Reference =>
        if front != [] && Last(front).Reference? then Prefix(DoubleAmpersand, TreeOf(Front(front), name))
        else Prefix(Ampersand, TreeOf(front, name))
      case Array(n) =>
        Subscript(if EndsInPrefix(front) then Group(TreeOf(front, name)) else TreeOf(front, name), DigitsOf(n))
  }

  lemma {:induction false} NameEnds(name: string, rest: string)
    requires IsName(name) && (rest == "" || !IsIdentifierChar(rest[0]))
    ensures NameLength(name + rest) == |name|
  {
    if name != "" {
      assert (name + rest)[1..] == name[1..] + rest;
      NameEnds(name[1..], rest);
    }
  }

  lemma {:induction false} DigitsEnd(digits: string, rest: string)
    requires AllDigits(digits) && (rest == "" || !IsDigit(rest[0]))
    ensures DigitsLength(digits + rest) == |digits|
  {
    if digits != "" {
      assert (digits + rest)[1..] == digits[1..] + rest;
      DigitsEnd(digits[1..], rest);
    }
  }

  lemma BoundParses(d: Declarator, n: Size, rest: string)
    ensures ParseBounds(d, SizeText(n) + rest) == ParseBounds(Subscript(d, DigitsOf(n)), rest)
  {
    var s := SizeText(n) + rest;
    var tail := "]" + rest;
    assert s[1..] == DigitsOf(n) + tail;
    DigitsEnd(DigitsOf(n), tail);
    assert s[1..][..|DigitsOf(n)|] == DigitsOf(n) && s[1..][|DigitsOf(n)|..] == tail;
    assert tail[1..] == rest;
  }

  lemma NameParses(name: string, rest: string)
    requires IsName(name) && (rest == "" || !IsIdentifierChar(rest[0]))
    requires Ends(rest) || rest[0] == '['
    ensures ParseDeclarator(name + rest) == ParseBounds(Leaf(name), rest)
  {
    NameEnds(name, rest);
    assert (name + rest)[..|name|] == name && (name + rest)[|name|..] == rest;
    if name != "" { assert (name + rest)[0] == name[0]; }
  }

  // One unfolding of the parser for each prefix.

  lemma StarStep(s: string, d: Declarator, rest: string)
    requires ParseDeclarator(s) == Some((d, rest))
    ensures ParseDeclarator("*" + s) == Some((Prefix(Star, d), rest))
  {
    assert ("*" + s)[1..] == s;
  }

  lemma AmpersandStep(s: string, d: Declarator, rest: string)
    requires ParseDeclarator(s) == Some((d, rest)) && (s == "" || s[0] != '&')
    ensures ParseDeclarator("&" + s) == Some((Prefix(Ampersand, d), rest))
  {
    assert ("&" + s)[1..] == s;
  }

  lemma DoubleAmpersandStep(s: string, d: Declarator, rest: string)
    requires ParseDeclarator(s) == Some((d, rest))
    ensures ParseDeclarator("&" + ("&" + s)) == Some((Prefix(DoubleAmpersand, d), rest))
  {
    assert ("&" + ("&" + s))[2..] == s;
  }

  lemma GroupStep(s: string, d: Declarator, rest: string)
    requires ParseDeclarator(s) == Some((d, ")" + rest))
    ensures ParseDeclarator("(" + s) == ParseBounds(Group(d), rest)
  {
    assert ("(" + s)[1..] == s && (")" + rest)[1..] == rest;
  }

  /** Parsing a spelled stack reaches its tree, with the bounds that follow still to read. */
  lemma {:induction false} SpellParses(stack: seq<Modifier>, name: string, rest: string)
    requires IsName(name)
    requires Ends(rest) || (!EndsInPrefix(stack) && rest[0] == '[')
    ensures ParseDeclarator(Spell(stack, name) + rest) == ParseBounds(TreeOf(stack, name), rest)
    decreases |stack|, 1
  {
    if stack == [] {
      NameParses(name, rest);
    } else {
      var front := Front(stack);
      match Last(stack)
      case Pointer =>
        SpellParses(front, name, rest);
        StarStep(Spell(front, name) + rest, TreeOf(front, name), rest);
        Assoc("*", Spell(front, name), rest);
      case Reference => ReferenceParses(stack, name, rest);
      case Array(n) => ArrayParses(stack, name, n, rest);
    }
  }

  lemma {:induction false} ArrayParses(stack: seq<Modifier>, name: string, n: Size, rest: string)
    requires IsName(name) && stack != [] && Last(stack) == Array(n)
    requires Ends(rest) || rest[0] == '['
    ensures ParseDeclarator(Spell(stack, name) + rest) == ParseBounds(TreeOf(stack, name), rest)
    decreases |stack|, 0
  {
    var front, inner := Front(stack), Spell(Front(stack), name);
    var bound := SizeText(n) + rest;
    Assoc(Parenthesised(front, inner), SizeText(n), rest);
    if EndsInPrefix(front) {
      SpellParses(front, name, ")" + bound);
      GroupStep(inner + (")" + bound), TreeOf(front, name), bound);
      Assoc("(" + inner, ")", bound);
      Assoc("(", inner, ")" + bound);
      BoundParses(Group(TreeOf(front, name)), n, rest);
    } else {
      SpellParses(front, name, bound);
      BoundParses(TreeOf(front, name), n, rest);
    }
  }

  lemma {:induction false} ReferenceParses(stack: seq<Modifier>, name: string, rest: string)
    requires IsName(name) && stack != [] && Last(stack).Reference? && Ends(rest)
    ensures ParseDeclarator(Spell(stack, name) + rest) == ParseBounds(TreeOf(stack, name), rest)
    decreases |stack|, 0
  {
    var front := Front(stack);
    Assoc("&", Spell(front, name), rest);
    if front != [] && Last(front).Reference? {
      var inner := Spell(Front(front), name);
      SpellParses(Front(front), name, rest);
      Assoc("&", inner, rest);
      DoubleAmpersandStep(inner + rest, TreeOf(Front(front), name), rest);
    } else {
      SpellStart(front, name);
      SpellParses(front, name, rest);
      AmpersandStep(Spell(front, name) + rest, TreeOf(front, name), rest);
    }
  }

  lemma {:induction false} SpellStart(stack: seq<Modifier>, name: string)
    requires IsName(name) && (stack == [] || !Last(stack).Reference?)
    ensures Spell(stack, name) == "" || Spell(stack, name)[0] != '&'
    decreases |stack|
  {
    if stack != [] && Last(stack).Array? && !EndsInPrefix(Front(stack)) {
      SpellStart(Front(stack), name);
    }
  }

  /** Walking the tree gives the stack back unless two references met. */
  lemma {:induction false} TreeWalks(stack: seq<Modifier>, name: string)
    ensures WalkDeclarator(TreeOf(stack, name))
         == if HasAdjacentReferences(stack) then None else Some(stack)
    decreases |stack|
  {
    if stack != [] {
      var front := Front(stack);
      assert stack == front + [Last(stack)];
      TreeWalks(front, name);
      LastReference(stack);
      hide HasAdjacentReferences, BoundOf, DigitsOf;
      match Last(stack)
      case Array(n) => BoundIsRead(n);
      case _ =>
    }
  }

  lemma BoundIsRead(n: Size)
    ensures BoundOf(DigitsOf(n)) == n
  {
    if n != 0 { ValueOfNumeral(n); }
  }

  lemma LastReference(stack: seq<Modifier>)
    requires stack != []
    ensures HasAdjacentReferences(stack)
       <==> HasAdjacentReferences(Front(stack))
            || (Front(stack) != [] && Last(Front(stack)).Reference? && Last(stack).Reference?)
  {
    var front := Front(stack);
    if HasAdjacentReferences(front) {
      var i :| 0 <= i < |front| - 1 && front[i].Reference? && front[i + 1].Reference?;
      assert stack[i].Reference? && stack[i + 1].Reference?;
    }
    if front != [] && Last(front).Reference? && Last(stack).Reference? {
      assert stack[|stack| - 2].Reference? && stack[|stack| - 1].Reference?;
    } else if HasAdjacentReferences(stack) {
      var i :| 0 <= i < |stack| - 1 && stack[i].Reference? && stack[i + 1].Reference?;
      assert front[i].Reference? && front[i + 1].Reference?;
    }
  }

  /** The text of a stack, read and walked, gives the stack back exactly when no two
      references are adjacent in it. */
  lemma DeclaratorsRoundTrip(stack: seq<Modifier>, name: string)
    requires IsName(name)
    ensures ReadDeclarator(FullType(stack, name)).Some?
    ensures WalkDeclarator(ReadDeclarator(FullType(stack, name)).value) == Some(stack)
        <==> !HasAdjacentReferences(stack)
  {
    var rest := if stack == [] && name != "" then " " else "";
    assert FullType(stack, name) == Spell(stack, name) + rest;
    SpellParses(stack, name, rest);
    TreeWalks(stack, name);
  }

  /** Two references in a row are not read back. */
  lemma TwoReferencesAreRejected(name: string)
    requires IsName(name)
    ensures FullType([Reference, Reference], name) == "&&" + name
    ensures ReadDeclarator(FullType([Reference, Reference], name)).Some?
    ensures WalkDeclarator(ReadDeclarator(FullType([Reference, Reference], name)).value) == None
  {
    var stack := [Reference, Reference];
    assert stack[0].Reference? && stack[1].Reference?;
    assert Front(stack) == [Reference] && Front([Reference]) == [];
    assert Spell([Reference], name) == "&" + name;
    assert "&" + ("&" + name) == "&&" + name;
    SpellParses(stack, name, "");
    TreeWalks(stack, name);
    assert Spell(stack, name) + "" == Spell(stack, name);
  }

  lemma {:induction false} StackTypeSplits(stack: seq<Modifier>, m: Modifier, t: Type)
    ensures StackType(stack + [m], t) == StackType(stack, StackType([m], t))
  {
    if stack == [] {
      assert stack + [m] == [m];
    } else {
      assert (stack + [m])[1..] == stack[1..] + [m] && (stack + [m])[0] == stack[0];
      StackTypeSplits(stack[1..], m, t);
    }
  }

  /** The text declares its name with the type the stack stands for. */
  lemma {:induction false} WalkKeepsType(d: Declarator, t: Type)
    requires WalkDeclarator(d).Some?
    ensures Declares(d, t) == StackType(WalkDeclarator(d).value, t)
  {
    match d
    case Leaf(_) =>
    case Group(x) => WalkKeepsType(x, t);
    case Prefix(op, x) =>
      var m := if op == Star then Pointer else Reference;
      var t' := StackType([m], t);
      assert [m][1..] == [];
      WalkKeepsType(x, t');
      StackTypeSplits(WalkDeclarator(x).value, m, t);
    case Subscript(x, digits) =>
      var m := Array(BoundOf(digits));
      assert [m][1..] == [];
      WalkKeepsType(x, StackType([m], t));
      StackTypeSplits(WalkDeclarator(x).value, m, t);
  }

  lemma DeclaratorTextMeansStack(stack: seq<Modifier>, name: string, t: Type)
    requires IsName(name) && !HasAdjacentReferences(stack)
    ensures ReadDeclarator(FullType(stack, name)).Some?
    ensures Declares(ReadDeclarator(FullType(stack, name)).value, t) == StackType(stack, t)
  {
    DeclaratorsRoundTrip(stack, name);
    WalkKeepsType(ReadDeclarator(FullType(stack, name)).value, t);
  }
}

// VisitDeclarationStatement: the text is cut at the first occurrence of the name.
module DeclaratorSplit {
  import opened Decimal
  import opened Options
  import opened Sequences
  import opened DeclaratorText

  predicate OccursAt(s: string, name: string, p: nat) {
    p + |name| <= |s| && s[p..p + |name|] == name
  }

  /** What std::string::find returns. */
  ghost predicate FirstAt(s: string, name: string, pos: nat) {
    OccursAt(s, name, pos) && forall p: nat :: p < pos ==> !OccursAt(s, name, p)
  }

  method Find(s: string, name: string) returns (pos: Option<nat>)
    ensures match pos
      case Some(p) => FirstAt(s, name, p)
      case None => forall p: nat :: !OccursAt(s, name, p)
  {
    var i := 0;
    while i + |name| <= |s|
      invariant forall p: nat :: p < i ==> !OccursAt(s, name, p)
    {
      if s[i..i + |name|] == name { return Some(i); }
      i := i + 1;
    }
    return None;
  }

  /** The text left and right of the name. */
  function Left(stack: seq<Modifier>): string {
    if stack == [] then ""
    else
      match Last(stack)
      case Pointer => "*" + Left(Front(stack))
      case Reference => "&" + Left(Front(stack))
      case Array(_) => if EndsInPrefix(Front(stack)) then "(" + Left(Front(stack)) else Left(Front(stack))
  }

  function Right(stack: seq<Modifier>): string {
    if stack == [] then ""
    else
      match Last(stack)
      case Pointer | Reference => Right(Front(stack))
      case Array(n) =>
        if EndsInPrefix(Front(stack)) then Right(Front(stack)) + ")" + SizeText(n)
        else Right(Front(stack)) + SizeText(n)
  }

  lemma {:induction false} SpellSurroundsName(stack: seq<Modifier>, name: string)
    ensures Spell(stack, name) == Left(stack) + name + Right(stack)
    decreases |stack|
  {
    if stack != [] {
      SpellSurroundsName(Front(stack), name);
      var l, r := Left(Front(stack)), Right(Front(stack));
      match Last(stack)
      case Array(n) =>
        if EndsInPrefix(Front(stack)) {
          assert "(" + (l + name + r) + ")" == ("(" + l) + name + (r + ")");
          Assoc(("(" + l) + name, r + ")", SizeText(n));
        } else {
          Assoc(l + name, r, SizeText(n));
        }
      case _ =>
    }
  }

  /** Leading and trailing blanks go; inner runs shrink to one blank. */
  function Squeeze(s: string, start: bool): string
    decreases |s|
  {
    if s == "" then ""
    else if s[0] != ' ' then [s[0]] + Squeeze(s[1..], false)
    else
      var rest := SkipBlanks(s);
      if start || rest == "" then Squeeze(rest, false) else " " + Squeeze(rest, false)
  }

  function SkipBlanks(s: string): (r: string)
    ensures |r| <= |s| && (s != "" && s[0] == ' ' ==> |r| < |s|)
  {
    if s != "" && s[0] == ' ' then SkipBlanks(s[1..]) else s
  }

  lemma {:induction false} SqueezeKeeps(s: string, start: bool)
    requires ' ' !in s
    ensures Squeeze(s, start) == s
  {
    if s != "" { SqueezeKeeps(s[1..], false); }
  }

  method SplitDeclarator(stack: seq<Modifier>, name: string) returns (prefix: string, suffix: string)
    requires IsName(name)
    ensures (prefix, suffix) == if name == "" then ("", FullType(stack, name)) else (Left(stack), Right(stack))
  {
    var ftype := GetFullType(stack, name);
    var pos := Find(ftype, name);
    prefix, suffix := "", "";
    NameFirst(stack, name);
    if pos.Some? {
      prefix := ftype[..pos.value];
      suffix := ftype[pos.value + |name|..];
    }
    assert prefix == (if name == "" then "" else Left(stack));
    assert suffix == (if name == "" then ftype else Right(stack) + Trailing(stack));
    PartsHaveNoBlank(stack, name);
    SqueezeKeeps(prefix, true);
    if stack != [] || name == "" {
      assert stack != [] ==> Right(stack) + Trailing(stack) == Right(stack);
      SqueezeKeeps(suffix, true);
    } else {
      assert suffix == " " && " "[1..] == "" && SkipBlanks("") == "";
      assert SkipBlanks(suffix) == "" && Squeeze(suffix, true) == Squeeze("", false) == "" == Right(stack);
    }
    prefix := Squeeze(prefix, true);
    suffix := Squeeze(suffix, true);
  }

  /** The blank GetFullType leaves after a name without modifiers. */
  function Trailing(stack: seq<Modifier>): string {
    if stack == [] then " " else ""
  }

  lemma {:induction false} LeftHasNoNameChar(stack: seq<Modifier>)
    ensures forall i :: 0 <= i < |Left(stack)| ==> !IsIdentifierChar(Left(stack)[i]) && Left(stack)[i] != ' '
    decreases |stack|
  {
    if stack != [] { LeftHasNoNameChar(Front(stack)); }
  }

  lemma {:induction false} RightHasNoBlank(stack: seq<Modifier>)
    ensures ' ' !in Right(stack)
    decreases |stack|
  {
    if stack != [] {
      RightHasNoBlank(Front(stack));
      if Last(stack).Array? {
        var digits := Numeral(Last(stack).size);
        assert forall i :: 0 <= i < |digits| ==> digits[i] != ' ';
      }
    }
  }

  lemma PartsHaveNoBlank(stack: seq<Modifier>, name: string)
    requires IsName(name)
    ensures ' ' !in Left(stack) && ' ' !in Right(stack)
    ensures name == "" ==> ' ' !in FullType(stack, name)
  {
    LeftHasNoNameChar(stack);
    RightHasNoBlank(stack);
    SpellSurroundsName(stack, name);
  }

  /** The declared name is the first occurrence of itself. */
  lemma NameFirst(stack: seq<Modifier>, name: string)
    requires IsName(name)
    ensures var at := if name == "" then 0 else |Left(stack)|;
      FirstAt(FullType(stack, name), name, at)
    ensures name != "" ==> FullType(stack, name) == Left(stack) + name + (Right(stack) + Trailing(stack))
  {
    SpellSurroundsName(stack, name);
    LeftHasNoNameChar(stack);
    if name != "" {
      var l, r := Left(stack), Right(stack) + Trailing(stack);
      var s := l + name + r;
      if stack != [] { assert r == Right(stack); }
      assert FullType(stack, name) == s;
      assert s[|l|..|l| + |name|] == name;
      forall p: nat | p < |l| ensures !OccursAt(s, name, p) {
        if p + |name| <= |s| {
          assert s[p..p + |name|][0] == s[p] == l[p];
        }
      }
    }
  }

  /** Prefix, name and suffix rejoin to the declarator text exactly, except that a plain
      name loses the blank after it. */
  lemma PartsRejoin(stack: seq<Modifier>, name: string)
    requires IsName(name) && name != ""
    ensures Left(stack) + name + Right(stack) + Trailing(stack) == FullType(stack, name)
    ensures Left(stack) + name + Right(stack) == FullType(stack, name) <==> stack != []
  {
    SpellSurroundsName(stack, name);
  }

  /** The blank a plain name is printed with is in neither part. */
  lemma BlankIsLost()
    ensures FullType([], "x") == "x " && Left([]) + "x" + Right([]) == "x"
  {
  }
}
