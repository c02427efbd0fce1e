// String and character literals: what VisitLiteral and QuoteString write, and what a
// C++ compiler reads back.
module Literals {
  import opened Options
  import opened Sequences

  /** A char of the source program: one byte. */
  type Byte = n: nat | n < 256

  const BACKSLASH: Byte := 92
  const DOUBLE_QUOTE: Byte := 34
  const SINGLE_QUOTE: Byte := 39
  const QUESTION: Byte := 63
  const ALERT: Byte := 7
  const BACKSPACE: Byte := 8
  const TAB: Byte := 9
  const NEWLINE: Byte := 10
  const VERTICAL_TAB: Byte := 11
  const FORM_FEED: Byte := 12
  const CARRIAGE_RETURN: Byte := 13

  function Ascii(c: char): Byte
    requires c as int < 128
  {
    c as int
  }

  function OctalDigit(n: nat): Byte
    requires n < 8
  {
    48 + n
  }

  /** \ and three octal digits. */
  function OctalEscape(c: Byte): seq<Byte> {
    [BACKSLASH, OctalDigit(c / 64), OctalDigit(c / 8 % 8), OctalDigit(c % 8)]
  }

  /** The spelling of one byte in the literal's body. */
  function Spelling(c: Byte): seq<Byte> {
    if c == BACKSLASH then [BACKSLASH, BACKSLASH]
    else if c == DOUBLE_QUOTE || c == SINGLE_QUOTE then [BACKSLASH, c]
    else if 32 <= c <= 126 then [c]
    else if c == NEWLINE then [BACKSLASH, Ascii('n')]
    else if c == TAB then [BACKSLASH, Ascii('t')]
    else if c == VERTICAL_TAB then [BACKSLASH, Ascii('v')]
    else if c == BACKSPACE then [BACKSLASH, Ascii('b')]
    else if c == CARRIAGE_RETURN then [BACKSLASH, Ascii('r')]
    else if c == FORM_FEED then [BACKSLASH, Ascii('f')]
    else if c == ALERT then [BACKSLASH, Ascii('a')]
    else OctalEscape(c)
  }

  function Body(value: seq<Byte>): seq<Byte> {
    if value == [] then [] else Body(value[..|value| - 1]) + Spelling(value[|value| - 1])
  }

  datatype LiteralKind = CharLiteral | StringLiteral

  /** A character literal of more than one byte is printed as a string. */
  function PrintedKind(kind: LiteralKind, value: seq<Byte>): LiteralKind {
    if kind == CharLiteral && |value| > 1 then StringLiteral else kind
  }

  function Delimiter(kind: LiteralKind): Byte {
    if kind == CharLiteral then SINGLE_QUOTE else DOUBLE_QUOTE
  }

  function LiteralText(kind: LiteralKind, value: seq<Byte>): seq<Byte> {
    var q := Delimiter(PrintedKind(kind, value));
    [q] + Body(value) + [q]
  }

  method VisitLiteral(kind: LiteralKind, value: seq<Byte>) returns (out: seq<Byte>)
    ensures out == LiteralText(kind, value)
  {
    var printed := kind;
    if kind == CharLiteral && |value| > 1 {
      printed := StringLiteral;
    }
    out := [if printed == CharLiteral then SINGLE_QUOTE else DOUBLE_QUOTE];
    var toPrint: seq<Byte> := [];
    for i := 0 to |value|
      invariant toPrint == Body(value[..i])
    {
      var c := value[i];
      assert value[..i + 1][..i] == value[..i];
      if c == BACKSLASH {
        toPrint := toPrint + [BACKSLASH, BACKSLASH];
      } else if c == DOUBLE_QUOTE || c == SINGLE_QUOTE {
        toPrint := toPrint + [BACKSLASH, c];
      } else if Ascii(' ') <= c <= Ascii('~') {
        toPrint := toPrint + [c];
      } else if c == NEWLINE {
        toPrint := toPrint + [BACKSLASH, Ascii('n')];
      } else if c == TAB {
        toPrint := toPrint + [BACKSLASH, Ascii('t')];
      } else if c == VERTICAL_TAB {
        toPrint := toPrint + [BACKSLASH, Ascii('v')];
      } else if c == BACKSPACE {
        toPrint := toPrint + [BACKSLASH, Ascii('b')];
      } else if c == CARRIAGE_RETURN {
        toPrint := toPrint + [BACKSLASH, Ascii('r')];
      } else if c == FORM_FEED {
        toPrint := toPrint + [BACKSLASH, Ascii('f')];
      } else if c == ALERT {
        toPrint := toPrint + [BACKSLASH, Ascii('a')];
      } else {
        toPrint := toPrint + OctalEscape(c);
      }
    }
    assert value[..|value|] == value;
    out := out + toPrint;
    out := out + [if printed == CharLiteral then SINGLE_QUOTE else DOUBLE_QUOTE];
  }

  // ---- reading a literal (sections 5.13.3 and 5.13.5 of ISO/IEC 14882:2017) ----

  predicate IsOctal(c: Byte) {
    48 <= c <= 55
  }

  /** The value of a simple escape sequence. */
  function SimpleEscape(c: Byte): Option<Byte> {
    if c == SINGLE_QUOTE || c == DOUBLE_QUOTE || c == QUESTION || c == BACKSLASH then Some(c)
    else if c == Ascii('a') then Some(ALERT)
    else if c == Ascii('b') then Some(BACKSPACE)
    else if c == Ascii('f') then Some(FORM_FEED)
    else if c == Ascii('n') then Some(NEWLINE)
    else if c == Ascii('r') then Some(CARRIAGE_RETURN)
    else if c == Ascii('t') then Some(TAB)
    else if c == Ascii('v') then Some(VERTICAL_TAB)
    else None
  }

  /** How many octal digits an octal escape takes: at most three. */
  function OctalRun(s: seq<Byte>): (n: nat)
    ensures n <= 3 && n <= |s|
  {
    if s == [] || !IsOctal(s[0]) then 0
    else if |s| == 1 || !IsOctal(s[1]) then 1
    else if |s| == 2 || !IsOctal(s[2]) then 2
    else 3
  }

  function OctalValue(s: seq<Byte>): int {
    if s == [] then 0 else 8 * OctalValue(s[..|s| - 1]) + (s[|s| - 1] as int - 48)
  }

  /** The bytes up to the closing delimiter and what follows it. None for an unterminated
      body, a raw newline, or an escape with no value. Hexadecimal and universal names
      are not needed here. */
  function ReadBody(q: Byte, s: seq<Byte>): Option<(seq<Byte>, seq<Byte>)>
    decreases |s|
  {
    if s == [] || s[0] == NEWLINE then None
    else if s[0] == q then Some(([], s[1..]))
    else if s[0] != BACKSLASH then Prepend(s[0], ReadBody(q, s[1..]))
    else if |s| == 1 then None
    else if SimpleEscape(s[1]).Some? then Prepend(SimpleEscape(s[1]).value, ReadBody(q, s[2..]))
    else
      var n := OctalRun(s[1..]);
      if n == 0 then None
      else
        var v := OctalValue(s[1..1 + n]);
        if 0 <= v < 256 then Prepend(v, ReadBody(q, s[1 + n..])) else None
  }

  function Prepend(c: Byte, r: Option<(seq<Byte>, seq<Byte>)>): Option<(seq<Byte>, seq<Byte>)> {
    match r
    case Some((bytes, rest)) => Some(([c] + bytes, rest))
    case None => None
  }

  /** The value of a whole literal: a character literal holds exactly one byte. */
  function ReadLiteral(s: seq<Byte>): Option<(LiteralKind, seq<Byte>)> {
    if s == [] then None
    else if s[0] == DOUBLE_QUOTE then
      match ReadBody(DOUBLE_QUOTE, s[1..])
      case Some((bytes, rest)) => if rest == [] then Some((StringLiteral, bytes)) else None
      case None => None
    else if s[0] == SINGLE_QUOTE then
      match ReadBody(SINGLE_QUOTE, s[1..])
      case Some((bytes, rest)) => if rest == [] && |bytes| == 1 then Some((CharLiteral, bytes)) else None
      case None => None
    else None
  }

  /** An octal escape never takes in a digit that follows it. */
  lemma OctalEscapeReads(q: Byte, c: Byte, rest: seq<Byte>)
    requires q == SINGLE_QUOTE || q == DOUBLE_QUOTE
    ensures ReadBody(q, OctalEscape(c) + rest) == Prepend(c, ReadBody(q, rest))
  {
    var s := OctalEscape(c) + rest;
    var digits := [OctalDigit(c / 64), OctalDigit(c / 8 % 8), OctalDigit(c % 8)];
    assert s[1..] == digits + rest;
    assert OctalRun(s[1..]) == 3;
    assert s[1..4] == digits && s[4..] == rest;
    OctalValueOfThree(c / 64, c / 8 % 8, c % 8);
    assert c / 64 * 64 + c / 8 % 8 * 8 + c % 8 == c;
  }

  lemma OctalValueOfThree(a: nat, b: nat, c: nat)
    requires a < 8 && b < 8 && c < 8
    ensures OctalValue([OctalDigit(a), OctalDigit(b), OctalDigit(c)]) == 64 * a + 8 * b + c
  {
    var s := [OctalDigit(a), OctalDigit(b), OctalDigit(c)];
    assert s[..2] == [OctalDigit(a), OctalDigit(b)];
    assert s[..2][..1] == [OctalDigit(a)];
    assert s[..2][..1][..0] == [];
    assert OctalValue(s[..2][..1]) == a;
    assert OctalValue(s[..2]) == 8 * a + b;
  }

  lemma SpellingReads(q: Byte, c: Byte, rest: seq<Byte>)
    requires q == SINGLE_QUOTE || q == DOUBLE_QUOTE
    ensures ReadBody(q, Spelling(c) + rest) == Prepend(c, ReadBody(q, rest))
  {
    var s := Spelling(c) + rest;
    if |Spelling(c)| == 1 {
      assert s[1..] == rest;
    } else if |Spelling(c)| == 2 {
      assert s[2..] == rest && s[1] == Spelling(c)[1];
    } else {
      OctalEscapeReads(q, c, rest);
    }
  }

  /** Reading a printed body, whatever text follows it, gives the bytes it was printed
      from and stops at the delimiter put after it. */
  lemma {:induction false} BodyReads(q: Byte, value: seq<Byte>, rest: seq<Byte>, tail: seq<Byte>, after: seq<Byte>)
    requires q == SINGLE_QUOTE || q == DOUBLE_QUOTE
    requires ReadBody(q, rest) == Some((tail, after))
    ensures ReadBody(q, Body(value) + rest) == Some((value + tail, after))
    decreases |value|
  {
    hide ReadBody, Spelling, OctalEscape, SimpleEscape;
    if value == [] {
      assert Body(value) == [] && [] + rest == rest && value + tail == tail;
    } else {
      var front, c := value[..|value| - 1], value[|value| - 1];
      SpellingReads(q, c, rest);
      BodyReads(q, front, Spelling(c) + rest, [c] + tail, after);
      Assoc(Body(front), Spelling(c), rest);
      assert value == front + [c];
      Assoc(front, [c], tail);
    }
  }

  /** Every printed literal is read back as its value, except the empty character
      literal, which C++ does not have. */
  lemma LiteralsRoundTrip(kind: LiteralKind, value: seq<Byte>)
    ensures ReadLiteral(LiteralText(kind, value))
         == Some((if kind == CharLiteral && |value| > 1 then StringLiteral else kind, value))
        <==> !(kind == CharLiteral && value == [])
  {
    var q := Delimiter(PrintedKind(kind, value));
    var text := LiteralText(kind, value);
    assert [q][1..] == [];
    BodyReads(q, value, [q], [], []);
    assert text[1..] == Body(value) + [q];
    assert value + [] == value;
  }

  /** '' is what an empty character literal is printed as, and no literal. */
  lemma EmptyCharacterIsNoLiteral()
    ensures LiteralText(CharLiteral, []) == [SINGLE_QUOTE, SINGLE_QUOTE]
    ensures ReadLiteral([SINGLE_QUOTE, SINGLE_QUOTE]) == None
  {
    assert Body([]) == [];
    assert [SINGLE_QUOTE, SINGLE_QUOTE][1..] == [SINGLE_QUOTE];
    assert ReadBody(SINGLE_QUOTE, [SINGLE_QUOTE]) == Some(([], []));
  }

  // ---- QuoteString, the # operator's quoting ----

  function QuotedByte(c: Byte): seq<Byte> {
    if c == CARRIAGE_RETURN then [BACKSLASH, Ascii('r')]
    else if c == NEWLINE then [BACKSLASH, Ascii('n')]
    else if c == BACKSLASH || c == DOUBLE_QUOTE || c == SINGLE_QUOTE then [BACKSLASH, c]
    else [c]
  }

  function QuotedBody(s: seq<Byte>): seq<Byte> {
    if s == [] then [] else QuotedBody(s[..|s| - 1]) + QuotedByte(s[|s| - 1])
  }

  function Quoted(s: seq<Byte>): seq<Byte> {
    [DOUBLE_QUOTE] + QuotedBody(s) + [DOUBLE_QUOTE]
  }

  method QuoteString(s: seq<Byte>) returns (res: seq<Byte>)
    ensures res == Quoted(s)
  {
    res := [DOUBLE_QUOTE];
    for i := 0 to |s|
      invariant res == [DOUBLE_QUOTE] + QuotedBody(s[..i])
    {
      var c := s[i];
      assert s[..i + 1][..i] == s[..i];
      if c == CARRIAGE_RETURN {
        res := res + [BACKSLASH, Ascii('r')];
      } else if c == NEWLINE {
        res := res + [BACKSLASH, Ascii('n')];
      } else if c == BACKSLASH || c == DOUBLE_QUOTE || c == SINGLE_QUOTE {
        res := res + [BACKSLASH, c];
      } else {
        res := res + [c];
      }
    }
    assert s[..|s|] == s;
    res := res + [DOUBLE_QUOTE];
  }

  lemma QuotedByteReads(c: Byte, rest: seq<Byte>)
    ensures ReadBody(DOUBLE_QUOTE, QuotedByte(c) + rest) == Prepend(c, ReadBody(DOUBLE_QUOTE, rest))
  {
    var s := QuotedByte(c) + rest;
    if |QuotedByte(c)| == 1 {
      assert s[1..] == rest;
    } else {
      assert s[2..] == rest && s[1] == QuotedByte(c)[1];
    }
  }

  lemma {:induction false} QuotedBodyReads(s: seq<Byte>, rest: seq<Byte>, tail: seq<Byte>, after: seq<Byte>)
    requires ReadBody(DOUBLE_QUOTE, rest) == Some((tail, after))
    ensures ReadBody(DOUBLE_QUOTE, QuotedBody(s) + rest) == Some((s + tail, after))
    decreases |s|
  {
    hide ReadBody, QuotedByte;
    if s == [] {
      assert QuotedBody(s) == [] && [] + rest == rest && s + tail == tail;
    } else {
      var front, c := s[..|s| - 1], s[|s| - 1];
      QuotedByteReads(c, rest);
      QuotedBodyReads(front, QuotedByte(c) + rest, [c] + tail, after);
      Assoc(QuotedBody(front), QuotedByte(c), rest);
      assert s == front + [c];
      Assoc(front, [c], tail);
    }
  }

  /** A stringified argument is one string literal whose value is the argument's text. */
  lemma QuotedRoundTrips(s: seq<Byte>)
    ensures ReadLiteral(Quoted(s)) == Some((StringLiteral, s))
  {
    assert [DOUBLE_QUOTE][1..] == [];
    QuotedBodyReads(s, [DOUBLE_QUOTE], [], []);
    assert Quoted(s)[1..] == QuotedBody(s) + [DOUBLE_QUOTE];
    assert s + [] == s;
  }
}
