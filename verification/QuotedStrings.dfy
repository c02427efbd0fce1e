// Quoted strings of EGM files: the escaping writer and the reader.
module QuotedStrings {
  import opened Options
  import opened Sequences

  const BACKSPACE: char := 8 as char
  const VERTICAL_TAB: char := 11 as char
  const FORM_FEED: char := 12 as char

  predicate Escaped(c: char) {
    c == '\\' || c == '"' || c == '\''
  }

  function Written(s: string): string {
    if s == "" then ""
    else (if Escaped(s[0]) then ['\\', s[0]] else [s[0]]) + Written(s[1..])
  }

  method EscapeString(str: string) returns (res: string)
    ensures res == Written(str)
  {
    res := "";
    for i := 0 to |str|
      invariant res + Written(str[i..]) == Written(str)
    {
      var c := str[i];
      assert str[i..][1..] == str[i + 1..];
      ghost var was := res;
      if Escaped(c) {
        res := res + ['\\'];
      }
      res := res + [c];
      assert res == was + (if Escaped(c) then ['\\', c] else [c]);
      Assoc(was, if Escaped(c) then ['\\', c] else [c], Written(str[i + 1..]));
    }
    assert str[|str|..] == "";
    assert res + "" == res;
  }

  /** Text read, and how many characters it took. */
  datatype Read = Read(text: string, taken: nat)

  function Then(text: string, taken: nat, rest: Read): Read {
    Read(text + rest.text, taken + rest.taken)
  }

  predicate IsOctal(c: char) {
    '0' <= c <= '7'
  }

  predicate IsHex(c: char) {
    '0' <= c <= '9' || 'a' <= c <= 'f' || 'A' <= c <= 'F'
  }

  function HexValue(c: char): (n: nat)
    requires IsHex(c)
    ensures n < 16
  {
    if c <= '9' then c as int - '0' as int
    else if c <= 'F' then c as int - 'A' as int + 10
    else c as int - 'a' as int + 10
  }

  function OctalValue(c: char): (n: nat)
    requires IsOctal(c)
    ensures n < 8
  {
    c as int - '0' as int
  }

  /** One, two or three digits; the third only while the value stays a byte. */
  function OctalEscape(s: string): (r: Read)
    requires s != "" && IsOctal(s[0])
    ensures r.taken <= |s|
  {
    var one := OctalValue(s[0]);
    if |s| == 1 || !IsOctal(s[1]) then Read([one as char], 1)
    else
      var two := one * 8 + OctalValue(s[1]);
      if |s| == 2 || !IsOctal(s[2]) || two * 8 >= 256 then Read([two as char], 2)
      else Read([(two * 8 + OctalValue(s[2])) as char], 3)
  }

  function HexEscape(s: string): (r: Read)
    requires s != "" && s[0] == 'x'
    ensures r.taken <= |s|
  {
    if |s| == 1 || !IsHex(s[1]) then Read("\\x", 1)
    else if |s| == 2 || !IsHex(s[2]) then Read([HexValue(s[1]) as char], 2)
    else Read([(HexValue(s[1]) * 16 + HexValue(s[2])) as char], 3)
  }

  function SimpleEscape(e: char): Option<char> {
    match e
    case 'b' => Some(BACKSPACE)
    case 'f' => Some(FORM_FEED)
    case 'n' => Some('\n')
    case 'r' => Some('\r')
    case 't' => Some('\t')
    case 'v' => Some(VERTICAL_TAB)
    case '"' => Some('"')
    case '\'' => Some('\'')
    case '\\' => Some('\\')
    case _ => None
  }

  /** What follows a backslash. Past the end of the data a NUL is read; the letter of an
      escape that is not known is kept, and left to be read again. */
  function Escape(s: string): (r: Read)
    ensures r.taken <= |s|
  {
    if s == "" then Read(['\\', '\0'], 0)
    else if SimpleEscape(s[0]).Some? then Read([SimpleEscape(s[0]).value], 1)
    else if IsOctal(s[0]) then OctalEscape(s)
    else if s[0] == 'x' then HexEscape(s)
    else Read(['\\', s[0]], 0)
  }

  /** The string up to the quote that closes it. */
  function Quoted(s: string, quote: char): (r: Read)
    ensures r.taken <= |s|
    ensures r.taken < |s| ==> s[r.taken] == quote
    decreases |s|
  {
    if s == "" || s[0] == quote then Read("", 0)
    else if s[0] != '\\' then
      var rest := Quoted(s[1..], quote);
      Then([s[0]], 1, rest)
    else
      var e := Escape(s[1..]);
      var rest := Quoted(s[1 + e.taken..], quote);
      Then(e.text, 1 + e.taken, rest)
  }

  method ReadEscape(data: string, start: nat) returns (str: string, i: nat)
    requires start < |data| && data[start] == '\\'
    ensures i == start + 1 + Escape(data[start + 1..]).taken <= |data|
    ensures str == Escape(data[start + 1..]).text
  {
    i := start + 1;
    ghost var s := data[i..];
    var e := if i < |data| then data[i] else '\0';
    assert i < |data| ==> s[0] == e;
    if i < |data| && SimpleEscape(e).Some? {
      str := [SimpleEscape(e).value];
      i := i + 1;
    } else if IsOctal(e) {
      var oct: nat := OctalValue(e);
      i := i + 1;
      assert i < |data| ==> s[1] == data[i];
      if i < |data| && IsOctal(data[i]) {
        oct := oct * 8 + OctalValue(data[i]);
        i := i + 1;
        assert i < |data| ==> s[2] == data[i];
        if i < |data| && IsOctal(data[i]) && oct * 8 < 256 {
          oct := oct * 8 + OctalValue(data[i]);
          i := i + 1;
        }
      }
      str := [oct as char];
    } else if e == 'x' {
      i := i + 1;
      assert i < |data| ==> s[1] == data[i];
      if i >= |data| || !IsHex(data[i]) {
        str := "\\x";
      } else {
        var n: nat := HexValue(data[i]);
        i := i + 1;
        assert i < |data| ==> s[2] == data[i];
        if i < |data| && IsHex(data[i]) {
          n := n * 16 + HexValue(data[i]);
          i := i + 1;
        }
        str := [n as char];
      }
    } else {
      str := ['\\', e];
    }
  }

  lemma QuotedAt(data: string, i: nat, quote: char)
    requires i < |data| && data[i] != quote
    ensures data[i] != '\\' ==>
              Quoted(data[i..], quote) == Then([data[i]], 1, Quoted(data[i + 1..], quote))
    ensures data[i] == '\\' ==>
              var e := Escape(data[i + 1..]);
              Quoted(data[i..], quote) == Then(e.text, 1 + e.taken, Quoted(data[i + 1 + e.taken..], quote))
  {
    hide Escape;
    var s := data[i..];
    assert s[1..] == data[i + 1..];
    if data[i] == '\\' {
      var e := Escape(data[i + 1..]);
      assert s[1 + e.taken..] == data[i + 1 + e.taken..];
    }
  }

  method ReadQuotedString(data: string, start: nat) returns (str: string, i: nat)
    requires start < |data|
    ensures str == Quoted(data[start + 1..], data[start]).text
    ensures i == start + 1 + Quoted(data[start + 1..], data[start]).taken <= |data|
    ensures i < |data| ==> data[i] == data[start]
  {
    hide Escape, Quoted;
    var quote := data[start];
    ghost var whole := Quoted(data[start + 1..], quote);
    str, i := "", start + 1;
    assert "" + whole.text == whole.text;
    while i < |data| && data[i] != quote
      invariant start < i <= |data|
      invariant Then(str, i - start - 1, Quoted(data[i..], quote)) == whole
    {
      ghost var was := str;
      QuotedAt(data, i, quote);
      var piece;
      if data[i] != '\\' {
        piece := [data[i]];
        i := i + 1;
      } else {
        piece, i := ReadEscape(data, i);
      }
      str := str + piece;
      Assoc(was, piece, Quoted(data[i..], quote).text);
    }
    QuotedEnds(data[i..], quote);
    assert str + "" == str;
  }

  lemma QuotedEnds(s: string, quote: char)
    requires s == "" || s[0] == quote
    ensures Quoted(s, quote) == Read("", 0)
  {
  }

  // ---- the reader undoes the writer ----

  lemma PlainStep(c: char, rest: string, quote: char)
    requires c != quote && c != '\\'
    ensures Quoted([c] + rest, quote) == Read([c] + Quoted(rest, quote).text, 1 + Quoted(rest, quote).taken)
  {
    assert ([c] + rest)[1..] == rest;
  }

  lemma EscapedStep(c: char, rest: string, quote: char)
    requires Escaped(c) && quote != '\\'
    ensures Quoted(['\\', c] + rest, quote) == Read([c] + Quoted(rest, quote).text, 2 + Quoted(rest, quote).taken)
  {
    hide OctalEscape, HexEscape;
    var text := ['\\', c] + rest;
    assert text[1..] == [c] + rest && text[2..] == rest;
    assert Escape([c] + rest) == Read([c], 1);
  }

  lemma WrittenStep(s: string, quote: char, after: string)
    requires s != ""
    ensures Written(s) + [quote] + after
         == (if Escaped(s[0]) then ['\\', s[0]] else [s[0]]) + (Written(s[1..]) + [quote] + after)
  {
    var piece := if Escaped(s[0]) then ['\\', s[0]] else [s[0]];
    Assoc(piece, Written(s[1..]), [quote]);
    Assoc(piece, Written(s[1..]) + [quote], after);
  }

  lemma {:induction false} WrittenReadsBack(s: string, quote: char, after: string)
    requires quote == '"' || quote == '\'' || quote !in Written(s)
    ensures Quoted(Written(s) + [quote] + after, quote) == Read(s, |Written(s)|)
  {
    if s == "" {
      assert (Written(s) + [quote] + after)[0] == quote;
    } else {
      hide Quoted;
      var c, rest := s[0], Written(s[1..]) + [quote] + after;
      assert Written(s)[0] == (if Escaped(c) then '\\' else c);
      assert quote !in Written(s) ==> quote !in Written(s[1..]);
      WrittenReadsBack(s[1..], quote, after);
      WrittenStep(s, quote, after);
      if Escaped(c) {
        EscapedStep(c, rest, quote);
      } else {
        PlainStep(c, rest, quote);
      }
      assert [c] + s[1..] == s;
    }
  }

  lemma {:induction false} OtherQuotesStopEarly(s: string, quote: char, after: string)
    requires quote != '"' && quote != '\'' && quote in Written(s)
    ensures Quoted(Written(s) + [quote] + after, quote).taken < |Written(s)|
  {
    var c, rest := s[0], Written(s[1..]) + [quote] + after;
    WrittenStep(s, quote, after);
    if (if Escaped(c) then '\\' else c) == quote {
      assert (Written(s) + [quote] + after)[0] == quote;
    } else {
      hide Quoted;
      assert quote in Written(s[1..]);
      OtherQuotesStopEarly(s[1..], quote, after);
      if Escaped(c) {
        EscapedStep(c, rest, quote);
      } else {
        PlainStep(c, rest, quote);
      }
    }
  }

  /** The writer puts out no quote of this kind that the reader would stop at. */
  predicate NeverWritten(s: string, quote: char) {
    quote !in s && (quote == '\\' ==> forall i :: 0 <= i < |s| ==> !Escaped(s[i]))
  }

  lemma {:induction false} WrittenHolds(s: string, quote: char)
    requires quote != '"' && quote != '\''
    ensures quote !in Written(s) <==> NeverWritten(s, quote)
  {
    if s != "" {
      WrittenHolds(s[1..], quote);
      assert s == [s[0]] + s[1..];
    }
  }

  /** The reader gives back the string that was written, and the place of its closing
      quote, exactly when the quote is one the writer escapes, or is not in the string and,
      if it is a backslash, nothing in the string is escaped. */
  lemma ReaderUndoesWriter(s: string, quote: char, after: string)
    ensures Quoted(Written(s) + [quote] + after, quote) == Read(s, |Written(s)|)
       <==> quote == '"' || quote == '\'' || NeverWritten(s, quote)
  {
    if quote != '"' && quote != '\'' { WrittenHolds(s, quote); }
    if quote == '"' || quote == '\'' || quote !in Written(s) {
      WrittenReadsBack(s, quote, after);
    } else {
      OtherQuotesStopEarly(s, quote, after);
    }
  }

  // ---- what the reader makes of any text ----

  /** The simple escapes of section 5.13.3 of ISO/IEC 14882:2017 the reader knows, by the
      ASCII codes of their characters. */
  function SimpleCode(e: char): Option<nat> {
    match e
    case 'b' => Some(8)
    case 't' => Some(9)
    case 'n' => Some(10)
    case 'v' => Some(11)
    case 'f' => Some(12)
    case 'r' => Some(13)
    case '"' => Some(34)
    case '\'' => Some(39)
    case '\\' => Some(92)
    case _ => None
  }

  /** The value of a digit of either case. */
  function DigitCode(c: char): Option<nat> {
    var code := c as int;
    if 48 <= code <= 57 then Some(code - 48)
    else if 65 <= code <= 70 then Some(code - 55)
    else if 97 <= code <= 102 then Some(code - 87)
    else None
  }

  predicate IsDigitIn(base: int, c: char) {
    DigitCode(c).Some? && DigitCode(c).value < base
  }

  /** The number the digits denote. */
  function NumberIn(base: int, s: string): int
    requires forall i :: 0 <= i < |s| ==> IsDigitIn(base, s[i])
  {
    if s == "" then 0
    else
      assert IsDigitIn(base, s[|s| - 1]);
      base * NumberIn(base, s[..|s| - 1]) + DigitCode(s[|s| - 1]).value
  }

  function Character(code: int): char {
    (code % 256) as char
  }

  /** The escape is a simple one, an octal one, or x. */
  predicate Known(e: char) {
    SimpleCode(e).Some? || IsDigitIn(8, e) || e == 'x'
  }

  /** How many digits an octal escape has: three at most, while the code is a byte's. */
  function OctalLength(s: string): (n: nat)
    requires s != "" && IsDigitIn(8, s[0])
    ensures 0 < n <= |s| && forall i :: 0 <= i < n ==> IsDigitIn(8, s[i])
  {
    if |s| == 1 || !IsDigitIn(8, s[1]) then 1
    else if |s| == 2 || !IsDigitIn(8, s[2]) || NumberIn(8, s[..3]) > 255 then 2
    else 3
  }

  /** An escape decoded when it is known, and kept as it is written when it is not; an x
      without a digit after it is kept too. */
  function Faithful(s: string): (r: Read)
    ensures r.taken <= |s|
  {
    if s == "" then Read("\\", 0)
    else if SimpleCode(s[0]).Some? then Read([Character(SimpleCode(s[0]).value)], 1)
    else if IsDigitIn(8, s[0]) then Read([Character(NumberIn(8, s[..OctalLength(s)]))], OctalLength(s))
    else if s[0] != 'x' || |s| == 1 || !IsDigitIn(16, s[1]) then Read(['\\', s[0]], 1)
    else
      var n := if |s| == 2 || !IsDigitIn(16, s[2]) then 1 else 2;
      Read([Character(NumberIn(16, s[1..1 + n]))], 1 + n)
  }

  lemma DigitsHaveValues(c: char)
    ensures IsOctal(c) <==> IsDigitIn(8, c)
    ensures IsHex(c) <==> IsDigitIn(16, c)
    ensures IsOctal(c) ==> OctalValue(c) == DigitCode(c).value
    ensures IsHex(c) ==> HexValue(c) == DigitCode(c).value
  {
  }

  lemma ShortNumbers(base: int, s: string)
    requires forall i :: 0 <= i < |s| ==> IsDigitIn(base, s[i])
    ensures |s| == 1 ==> NumberIn(base, s) == DigitCode(s[0]).value
    ensures |s| == 2 ==> NumberIn(base, s) == base * DigitCode(s[0]).value + DigitCode(s[1]).value
    ensures |s| == 3 ==>
      NumberIn(base, s) == base * (base * DigitCode(s[0]).value + DigitCode(s[1]).value) + DigitCode(s[2]).value
  {
    hide IsDigitIn;
    assert NumberIn(base, "") == 0;
    if |s| > 0 { assert s[..1][..0] == ""; }
    if |s| > 1 { assert s[..2][..1] == s[..1]; }
    if |s| == 3 { assert s[..3][..2] == s[..2] && s[..3] == s; }
    if |s| == 2 { assert s[..2] == s; }
    if |s| == 1 { assert s[..1] == s; }
  }

  /** The value of the first n octal digits. */
  lemma OctalNumber(s: string, n: nat)
    requires 0 < n <= 3 && n <= |s| && forall i :: 0 <= i < n ==> IsOctal(s[i])
    ensures forall i :: 0 <= i < n ==> IsDigitIn(8, s[i])
    ensures NumberIn(8, s[..n])
         == if n == 1 then OctalValue(s[0])
            else if n == 2 then OctalValue(s[0]) * 8 + OctalValue(s[1])
            else (OctalValue(s[0]) * 8 + OctalValue(s[1])) * 8 + OctalValue(s[2])
  {
    hide DigitCode, NumberIn, OctalValue, IsOctal;
    forall i | 0 <= i < n ensures IsDigitIn(8, s[i]) && OctalValue(s[i]) == DigitCode(s[i]).value {
      DigitsHaveValues(s[i]);
    }
    ShortNumbers(8, s[..n]);
  }

  lemma OctalIsDecoded(s: string)
    requires s != "" && IsOctal(s[0]) && SimpleCode(s[0]).None?
    ensures OctalEscape(s) == Faithful(s)
  {
    hide IsDigitIn, DigitCode, NumberIn, IsOctal, SimpleCode;
    DigitsHaveValues(s[0]);
    OctalNumber(s, 1);
    if |s| > 1 {
      DigitsHaveValues(s[1]);
      if IsOctal(s[1]) {
        OctalNumber(s, 2);
        if |s| > 2 {
          DigitsHaveValues(s[2]);
          if IsOctal(s[2]) { OctalNumber(s, 3); }
        }
      }
    }
  }

  /** The value of one or two hexadecimal digits. */
  lemma HexNumber(s: string)
    requires 0 < |s| <= 2 && forall i :: 0 <= i < |s| ==> IsHex(s[i])
    ensures forall i :: 0 <= i < |s| ==> IsDigitIn(16, s[i])
    ensures NumberIn(16, s) == if |s| == 1 then HexValue(s[0]) else HexValue(s[0]) * 16 + HexValue(s[1])
  {
    hide DigitCode, NumberIn, HexValue, IsHex;
    forall i | 0 <= i < |s| ensures IsDigitIn(16, s[i]) && HexValue(s[i]) == DigitCode(s[i]).value {
      DigitsHaveValues(s[i]);
    }
    ShortNumbers(16, s);
  }

  lemma XIsNoDigit()
    ensures !IsDigitIn(8, 'x') && SimpleCode('x').None?
  {
  }

  lemma HexIsDecoded(s: string)
    requires s != "" && s[0] == 'x'
    ensures HexEscape(s) == Faithful(s)
  {
    hide IsDigitIn, DigitCode, NumberIn, HexValue, IsHex, SimpleCode, OctalLength;
    XIsNoDigit();
    if |s| > 1 {
      DigitsHaveValues(s[1]);
      if IsHex(s[1]) {
        HexNumber(s[1..2]);
        if |s| > 2 {
          DigitsHaveValues(s[2]);
          if IsHex(s[2]) { HexNumber(s[1..3]); }
        }
      }
    }
  }

  lemma SimpleIsDecoded(c: char)
    ensures SimpleEscape(c).Some? <==> SimpleCode(c).Some?
    ensures SimpleCode(c).Some? ==> SimpleEscape(c).value == Character(SimpleCode(c).value)
  {
  }

  /** The reader decodes every escape it knows. */
  lemma KnownIsDecoded(s: string)
    requires s != "" && Known(s[0])
    ensures Escape(s) == Faithful(s)
  {
    hide OctalEscape, HexEscape, SimpleEscape, SimpleCode, DigitCode, NumberIn;
    SimpleIsDecoded(s[0]);
    DigitsHaveValues(s[0]);
    if SimpleCode(s[0]).None? {
      if IsOctal(s[0]) { OctalIsDecoded(s); } else { HexIsDecoded(s); }
    }
  }

  /** The string up to the closing quote with its escapes decoded or kept. */
  function Decoded(s: string, quote: char): (r: Read)
    ensures r.taken <= |s|
    decreases |s|
  {
    if s == "" || s[0] == quote then Read("", 0)
    else if s[0] != '\\' then Then([s[0]], 1, Decoded(s[1..], quote))
    else
      var e := Faithful(s[1..]);
      Then(e.text, 1 + e.taken, Decoded(s[1 + e.taken..], quote))
  }

  /** Every backslash before the closing quote begins a known escape. */
  predicate EscapesKnown(s: string, quote: char)
    decreases |s|
  {
    if s == "" || s[0] == quote then true
    else if s[0] != '\\' then EscapesKnown(s[1..], quote)
    else |s| > 1 && Known(s[1]) && EscapesKnown(s[1 + Faithful(s[1..]).taken..], quote)
  }

  lemma PlainCharacter(s: string, quote: char)
    requires s != "" && s[0] != quote && s[0] != '\\'
    ensures Quoted(s, quote) == Then([s[0]], 1, Quoted(s[1..], quote))
    ensures Decoded(s, quote) == Then([s[0]], 1, Decoded(s[1..], quote))
    ensures EscapesKnown(s, quote) == EscapesKnown(s[1..], quote)
  {
  }

  lemma KnownEscape(s: string, quote: char)
    requires |s| > 1 && s[0] != quote && s[0] == '\\' && Known(s[1])
    ensures var e := Escape(s[1..]);
      && Quoted(s, quote) == Then(e.text, 1 + e.taken, Quoted(s[1 + e.taken..], quote))
      && Decoded(s, quote) == Then(e.text, 1 + e.taken, Decoded(s[1 + e.taken..], quote))
      && EscapesKnown(s, quote) == EscapesKnown(s[1 + e.taken..], quote)
  {
    hide Escape, Known, Faithful;
    assert s[1..][0] == s[1];
    KnownIsDecoded(s[1..]);
  }

  /** The reader never gives less than is decoded or kept, unless it stops before. */
  lemma {:induction false} ReaderGivesMore(s: string, quote: char)
    ensures var (r, d) := (Quoted(s, quote), Decoded(s, quote));
      if EscapesKnown(s, quote) then r == d
      else r.taken < d.taken || (r.taken == d.taken && |r.text| > |d.text|)
    decreases |s|
  {
    if s != "" && s[0] != quote {
      hide Escape, Faithful, Known, Quoted, Decoded, EscapesKnown;
      if s[0] != '\\' {
        PlainCharacter(s, quote);
        ReaderGivesMore(s[1..], quote);
      } else if |s| == 1 {
        assert s == "\\";
        DanglingBackslash(quote);
      } else if Known(s[1]) {
        KnownEscape(s, quote);
        ReaderGivesMore(s[1 + Escape(s[1..]).taken..], quote);
      } else {
        UnknownEscape(s, quote);
        if s[1] != quote { ReaderGivesMore(s[2..], quote); }
      }
    }
  }

  lemma DanglingBackslash(quote: char)
    requires quote != '\\'
    ensures Quoted("\\", quote) == Read(['\\', '\0'], 1) && Decoded("\\", quote) == Read("\\", 1)
    ensures !EscapesKnown("\\", quote)
  {
    assert "\\"[1..] == "" && ['\\', '\0'] + "" == ['\\', '\0'];
  }

  lemma UnknownEscape(s: string, quote: char)
    requires quote != '\\' && |s| > 1 && s[0] == '\\' && !Known(s[1])
    ensures !EscapesKnown(s, quote)
    ensures Decoded(s, quote) == Then(['\\', s[1]], 2, Decoded(s[2..], quote))
    ensures s[1] == quote ==> Quoted(s, quote).taken == 1
    ensures s[1] != quote ==> Quoted(s, quote) == Then(['\\', s[1], s[1]], 2, Quoted(s[2..], quote))
  {
    hide OctalEscape, HexEscape, SimpleEscape, IsDigitIn;
    var e := s[1];
    SimpleIsDecoded(e);
    DigitsHaveValues(e);
    assert s[1..][0] == e && s[1..][1..] == s[2..] && s[1 + 0..] == s[1..];
    assert Escape(s[1..]) == Read(['\\', e], 0);
    if e != quote {
      assert e != '\\';
      var rest := Quoted(s[2..], quote);
      assert Quoted(s[1..], quote) == Then([e], 1, rest);
      Assoc(['\\', e], [e], rest.text);
      assert ['\\', e] + [e] == ['\\', e, e];
    }
  }

  /** The reader decodes a text, or keeps its escapes as written, exactly when it knows
      every escape in it. */
  lemma ReaderDecodesExactly(s: string, quote: char)
    ensures Quoted(s, quote) == Decoded(s, quote) <==> EscapesKnown(s, quote)
  {
    ReaderGivesMore(s, quote);
  }

  /** \q: its letter comes out twice. */
  lemma UnknownEscapeRepeats()
    ensures Quoted("\\q\"", '"').text == "\\qq" && Decoded("\\q\"", '"').text == "\\q"
  {
    var s := "\\q\"";
    assert !Known('q');
    UnknownEscape(s, '"');
    assert s[2..] == "\"" && Quoted("\"", '"') == Read("", 0) && Decoded("\"", '"') == Read("", 0);
    assert ['\\', 'q'] + "" == "\\q" && ['\\', 'q', 'q'] + "" == "\\qq";
  }
}
