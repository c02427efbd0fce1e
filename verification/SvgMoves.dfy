// SVG-d moves: the shortest text that takes the reader from one position to another, and
// the tokenizer and commands that read it back.
module SvgText {
  import opened Decimal
  import opened Options
  import opened Sequences
  import QuotedStrings

  predicate IsSpace(c: char) {
    c == ' ' || 9 <= c as int <= 13
  }

  predicate IsAlpha(c: char) {
    'a' <= c <= 'z' || 'A' <= c <= 'Z'
  }

  function DigitRun(s: string): (n: nat)
    ensures n <= |s| && AllDigits(s[..n]) && (n < |s| ==> !IsDigit(s[n]))
  {
    if s == "" || !IsDigit(s[0]) then 0
    else
      var n := DigitRun(s[1..]);
      assert s[..n + 1] == [s[0]] + s[1..][..n];
      n + 1
  }

  function SpaceRun(s: string): (n: nat)
    ensures n <= |s| && (n < |s| ==> !IsSpace(s[n]))
  {
    if s == "" || !IsSpace(s[0]) then 0 else 1 + SpaceRun(s[1..])
  }

  /** Digits, and a point with the digits after it. */
  function NumberRun(s: string): (n: nat)
    ensures n <= |s| && (s != "" && IsDigit(s[0]) ==> n > 0)
  {
    var n := DigitRun(s);
    if n < |s| && s[n] == '.' then n + 1 + DigitRun(s[n + 1..]) else n
  }

  /** The tokens of SVG-d text. */
  function Tokens(s: string): seq<string>
    decreases |s|
  {
    if s == "" then []
    else if IsDigit(s[0]) then
      var n := NumberRun(s);
      [s[..n]] + Tokens(s[n..])
    else if IsAlpha(s[0]) then [[s[0]]] + Tokens(s[1..])
    else if s[0] == '+' || s[0] == '-' then
      var from := 1 + SpaceRun(s[1..]);
      var n := NumberRun(s[from..]);
      [[s[0]] + s[from..from + n]] + Tokens(s[from + n..])
    else if s[0] == '"' || s[0] == '\'' then
      var r := QuotedStrings.Quoted(s[1..], s[0]);
      [r.text] + Tokens(Beyond(s, 2 + r.taken))
    else Tokens(s[1..])
  }

  /** The text from i on; none when i is past the end. */
  function Beyond(s: string, i: nat): (t: string)
    ensures i > 0 && s != "" ==> |t| < |s|
  {
    if i <= |s| then s[i..] else ""
  }

  method SkipDigits(data: string, start: nat) returns (i: nat)
    requires start <= |data|
    ensures i == start + DigitRun(data[start..])
    ensures start <= i <= |data|
  {
    i := start;
    while i < |data| && IsDigit(data[i])
      invariant start <= i <= |data|
      invariant i + DigitRun(data[i..]) == start + DigitRun(data[start..])
    {
      assert data[i..][1..] == data[i + 1..];
      i := i + 1;
    }
  }

  method SkipNumber(data: string, start: nat) returns (i: nat)
    requires start <= |data|
    ensures i == start + NumberRun(data[start..])
    ensures start <= i <= |data|
  {
    hide DigitRun;
    i := SkipDigits(data, start);
    if i < |data| && data[i] == '.' {
      assert data[start..][i - start..] == data[i..];
      assert data[start..][i - start + 1..] == data[i + 1..];
      i := SkipDigits(data, i + 1);
    }
  }

  method SkipSpaces(data: string, start: nat) returns (i: nat)
    requires start <= |data|
    ensures i == start + SpaceRun(data[start..])
    ensures start <= i <= |data|
  {
    i := start;
    while i < |data| && IsSpace(data[i])
      invariant start <= i <= |data|
      invariant i + SpaceRun(data[i..]) == start + SpaceRun(data[start..])
    {
      assert data[i..][1..] == data[i + 1..];
      i := i + 1;
    }
  }

  method SignedNumber(data: string, start: nat) returns (token: string, i: nat)
    requires start < |data| && data[start] in ['+', '-']
    ensures start < i <= |data| && Tokens(data[start..]) == [token] + Tokens(data[i..])
  {
    hide NumberRun, SpaceRun, Tokens;
    var from := SkipSpaces(data, start + 1);
    i := SkipNumber(data, from);
    token := [data[start]] + data[from..i];
    SignedStep(data, start);
  }

  method QuotedToken(data: string, start: nat) returns (token: string, i: nat)
    requires start < |data| && data[start] in ['"', '\'']
    ensures start < i && Tokens(data[start..]) == [token] + Tokens(Beyond(data, i))
  {
    hide Tokens, QuotedStrings.Quoted;
    var end;
    token, end := QuotedStrings.ReadQuotedString(data, start);
    i := end + 1;
    QuotedStep(data, start);
  }

  /** One turn of the tokenizer's loop: the token read, if any, and where to go on. */
  method NextToken(data: string, start: nat) returns (token: Option<string>, i: nat)
    requires start < |data|
    ensures start < i
    ensures Tokens(data[start..]) == (if token.Some? then [token.value] else []) + Tokens(Beyond(data, i))
  {
    hide NumberRun, Tokens;
    var c := data[start];
    if IsDigit(c) {
      i := SkipNumber(data, start);
      token := Some(data[start..i]);
      NumberStep(data, start);
    } else if IsAlpha(c) {
      token, i := Some([c]), start + 1;
      PlainStep(data, start);
    } else if c == '+' || c == '-' {
      var number;
      number, i := SignedNumber(data, start);
      token := Some(number);
    } else if c == '"' || c == '\'' {
      var str;
      str, i := QuotedToken(data, start);
      token := Some(str);
    } else {
      token, i := None, start + 1;
      PlainStep(data, start);
      assert [] + Tokens(data[i..]) == Tokens(data[i..]);
    }
  }

  lemma NumberStep(data: string, start: nat)
    requires start < |data| && IsDigit(data[start])
    ensures var i := start + NumberRun(data[start..]);
            Tokens(data[start..]) == [data[start..i]] + Tokens(data[i..])
  {
    hide NumberRun;
    var s, n := data[start..], NumberRun(data[start..]);
    assert s[..n] == data[start..start + n] && s[n..] == data[start + n..];
  }

  lemma PlainStep(data: string, start: nat)
    requires start < |data| && !IsDigit(data[start]) && data[start] !in ['+', '-', '"', '\'']
    ensures IsAlpha(data[start]) ==> Tokens(data[start..]) == [[data[start]]] + Tokens(data[start + 1..])
    ensures !IsAlpha(data[start]) ==> Tokens(data[start..]) == Tokens(data[start + 1..])
  {
    assert data[start..][1..] == data[start + 1..];
  }

  lemma SignedStep(data: string, start: nat)
    requires start < |data| && data[start] in ['+', '-']
    ensures var from := start + 1 + SpaceRun(data[start + 1..]);
            var i := from + NumberRun(data[from..]);
            Tokens(data[start..]) == [[data[start]] + data[from..i]] + Tokens(data[i..])
  {
    hide NumberRun, SpaceRun, Beyond, QuotedStrings.Quoted;
    var s := data[start..];
    assert s[1..] == data[start + 1..];
    var k := 1 + SpaceRun(s[1..]);
    assert s[k..] == data[start + k..];
    var n := NumberRun(s[k..]);
    assert s[k..k + n] == data[start + k..start + k + n] && s[k + n..] == data[start + k + n..];
  }

  lemma QuotedStep(data: string, start: nat)
    requires start < |data| && data[start] in ['"', '\'']
    ensures var r := QuotedStrings.Quoted(data[start + 1..], data[start]);
            Tokens(data[start..]) == [r.text] + Tokens(Beyond(data, start + 2 + r.taken))
  {
    var s := data[start..];
    assert s[1..] == data[start + 1..];
    var r := QuotedStrings.Quoted(s[1..], s[0]);
    assert Beyond(s, 2 + r.taken) == Beyond(data, start + 2 + r.taken);
  }

  method TokenizeSVGD(data: string) returns (res: seq<string>)
    ensures res == Tokens(data)
  {
    hide Tokens;
    res := [];
    var i := 0;
    assert Beyond(data, 0) == data;
    while i < |data|
      invariant res + Tokens(Beyond(data, i)) == Tokens(data)
      decreases |data| - i
    {
      ghost var was := res;
      var token;
      ghost var from := i;
      token, i := NextToken(data, i);
      if token.Some? {
        res := res + [token.value];
      }
      Assoc(was, if token.Some? then [token.value] else [], Tokens(Beyond(data, i)));
    }
    NoTokens();
    assert Beyond(data, i) == "";
  }

  lemma NoTokens()
    ensures Tokens("") == []
  {
  }

  // ---- numbers ----

  function Power10(n: nat): (p: nat)
    ensures p > 0
  {
    if n == 0 then 1 else 10 * Power10(n - 1)
  }

  function Magnitude(u: string): Option<real> {
    var n := DigitRun(u);
    var f := if n < |u| && u[n] == '.' then DigitRun(u[n + 1..]) else 0;
    if n + f == 0 then None
    else
      var fraction := if f == 0 then 0.0 else Value(u[n + 1..][..f]) as real / Power10(f) as real;
      Some(Value(u[..n]) as real + fraction)
  }

  /** The number a token starts with, in plain decimal. */
  function Strtod(token: string): Option<real> {
    var s := token[SpaceRun(token)..];
    var signed := s != "" && (s[0] == '+' || s[0] == '-');
    match Magnitude(if signed then s[1..] else s)
    case Some(v) => Some(if signed && s[0] == '-' then -v else v)
    case None => None
  }

  lemma {:induction false} AllDigitsRun(s: string, rest: string)
    requires AllDigits(s) && (rest == "" || !IsDigit(rest[0]))
    ensures DigitRun(s + rest) == |s|
  {
    if s == "" {
      assert s + rest == rest;
    } else {
      assert (s + rest)[1..] == s[1..] + rest;
      AllDigitsRun(s[1..], rest);
    }
  }

  lemma NoSpace(c: char)
    requires IsDigit(c) || c == '-'
    ensures !IsSpace(c)
  {
  }

  lemma StrtodOfInt(v: int)
    ensures Strtod(IntText(v)) == Some(v as real)
  {
    hide Numeral, Value, DigitRun, IsSpace;
    assert !IsSpace('-') by { NoSpace('-'); }
    var digits := Numeral(if v < 0 then -v else v);
    ValueOfNumeral(if v < 0 then -v else v);
    AllDigitsRun(digits, "");
    assert digits + "" == digits && IsDigit(digits[0]);
    NoSpace(digits[0]);
    assert IntText(v)[0..] == IntText(v);
    if v < 0 {
      assert IntText(v)[1..] == digits;
    }
    assert digits[..|digits|] == digits;
  }

  lemma StrtodOfLetter(c: char)
    requires IsAlpha(c)
    ensures Strtod([c]) == None
  {
    assert [c][0..] == [c];
  }

  /** The text cannot be taken for more digits of a number before it. */
  predicate Apart(rest: string) {
    rest == "" || (!IsDigit(rest[0]) && rest[0] != '.')
  }

  lemma TokensOfDigits(s: string, rest: string)
    requires s != "" && AllDigits(s) && Apart(rest)
    ensures NumberRun(s + rest) == |s| && Tokens(s + rest) == [s] + Tokens(rest)
  {
    AllDigitsRun(s, rest);
    assert (s + rest)[..|s|] == s && (s + rest)[|s|..] == rest;
  }

  lemma TokensOfInt(v: int, rest: string)
    requires Apart(rest)
    ensures Tokens(IntText(v) + rest) == [IntText(v)] + Tokens(rest)
  {
    var digits := Numeral(if v < 0 then -v else v);
    TokensOfDigits(digits, rest);
    if v < 0 {
      var t := digits + rest;
      Assoc("-", digits, rest);
      assert ("-" + t)[1..] == t && IsDigit(t[0]) && SpaceRun(t) == 0;
      assert ("-" + t)[1..1 + |digits|] == digits && ("-" + t)[1 + |digits|..] == rest;
    }
  }

  lemma TokensSkip(c: char, rest: string)
    requires c == ' ' || c == ','
    ensures Tokens([c] + rest) == Tokens(rest)
  {
    assert ([c] + rest)[1..] == rest;
  }

  lemma TokensOfLetter(c: char, rest: string)
    requires IsAlpha(c)
    ensures Tokens([c] + rest) == [[c]] + Tokens(rest)
  {
    assert ([c] + rest)[1..] == rest;
  }

  // ---- numbers as a stream prints them: six significant digits ----

  /** Printed in plain decimal, all of its digits. */
  predicate Plain(v: int) {
    -1_000_000 < v < 1_000_000
  }

  /** The first six digits of a number, how many follow, the number those make, and ten
      to the power of how many they are. */
  datatype Scaled = Scaled(lead: nat, dropped: nat, low: nat, unit: nat)

  function Leading(n: nat, dropped: nat, low: nat, unit: nat): (r: Scaled)
    requires n >= 100_000
    ensures 100_000 <= r.lead < 1_000_000
  {
    if n < 1_000_000 then Scaled(n, dropped, low, unit)
    else Leading(n / 10, dropped + 1, low + unit * (n % 10), 10 * unit)
  }

  /** Six digits and a decimal exponent: to the nearest, and from the middle to the even. */
  function Significant(n: nat): (r: (nat, nat))
    requires n >= 100_000
    ensures 100_000 <= r.0 < 1_000_000
  {
    var s := Leading(n, 0, 0, 1);
    var up := 2 * s.low > s.unit || (2 * s.low == s.unit && s.lead % 2 == 1);
    if !up then (s.lead, s.dropped + 5)
    else if s.lead == 999_999 then (100_000, s.dropped + 6)
    else (s.lead + 1, s.dropped + 5)
  }

  lemma OneDigitLess(n: nat, low: nat, unit: nat)
    requires low < unit
    ensures n / 10 * (10 * unit) + (low + unit * (n % 10)) == n * unit + low
    ensures low + unit * (n % 10) < 10 * unit
  {
    var q, d := n / 10, n % 10;
    assert n * unit == (10 * q + d) * unit == 10 * q * unit + d * unit;
    assert unit * d <= unit * 9;
  }

  /** Digits move from the number to the dropped ones, and nothing is lost. */
  lemma {:induction false} LeadingKeeps(n: nat, dropped: nat, low: nat, unit: nat)
    requires n >= 100_000 && low < unit == Power10(dropped)
    ensures var r := Leading(n, dropped, low, unit);
      r.lead * r.unit + r.low == n * unit + low && r.low < r.unit == Power10(r.dropped)
    decreases n
  {
    if n >= 1_000_000 {
      OneDigitLess(n, low, unit);
      LeadingKeeps(n / 10, dropped + 1, low + unit * (n % 10), 10 * unit);
    }
  }

  /** Rounding the lead up or not, by what was dropped. */
  lemma RoundingIsNearest(n: nat, lead: nat, unit: int, low: int)
    requires n == lead * unit + low && 0 <= low < unit
    ensures n - lead * unit == low && n - (lead + 1) * unit == low - unit
    ensures lead == 999_999 ==> n - 100_000 * (10 * unit) == low - unit
  {
  }

  /** Six digits and the exponent are the nearest such number, the even one of two. */
  lemma SignificantIsNearest(n: nat)
    requires n >= 1_000_000
    ensures var (m, x) := Significant(n);
      && x >= 5
      && var unit: int := Power10(x - 5);
         -unit <= 2 * (n - m * unit) <= unit && (2 * (n - m * unit) in {unit, -unit} ==> m % 2 == 0)
  {
    hide Leading;
    LeadingKeeps(n, 0, 0, 1);
    var s := Leading(n, 0, 0, 1);
    RoundingIsNearest(n, s.lead, s.unit, s.low);
  }

  /** The digits of a fraction of this width, without the zeros at its end. */
  function Fraction(f: nat, width: nat): (s: string)
    requires f < Power10(width)
    ensures AllDigits(s) && |s| <= width && (s == "" <==> f == 0)
  {
    if f == 0 then ""
    else
      DigitFits(f, width);
      var unit := Power10(width - 1);
      [DigitChar(f / unit)] + Fraction(f % unit, width - 1)
  }

  lemma DigitFits(f: nat, width: nat)
    requires 0 < f < Power10(width)
    ensures width > 0 && f / Power10(width - 1) < 10
  {
  }

  /** A number without an exponent: a digit, and a point with more of them. */
  function Short(d: char, fraction: string): string {
    [d] + (if fraction == "" then "" else "." + fraction)
  }

  function Significand(v: int): string
    requires !Plain(v)
  {
    var m := Significant(if v < 0 then -v else v).0;
    assert Power10(5) == 100_000;
    var fraction := Fraction(m % 100_000, 5);
    (if v < 0 then "-" else "") + Short(DigitChar(m / 100_000), fraction)
  }

  /** The exponent's sign and digits, two at least. */
  function Exponent(v: int): string
    requires !Plain(v)
  {
    var x := Significant(if v < 0 then -v else v).1;
    "+" + (if x < 10 then "0" else "") + Numeral(x)
  }

  function Printed(v: int): string {
    if Plain(v) then IntText(v) else Significand(v) + "e" + Exponent(v)
  }

  /** The tokenizer knows no exponents. */
  function NumberTokens(v: int): (ts: seq<string>)
    ensures ts != []
  {
    if Plain(v) then [IntText(v)] else [Significand(v), "e", Exponent(v)]
  }

  lemma {:induction false} ValueFits(s: string)
    requires AllDigits(s)
    ensures Value(s) < Power10(|s|)
  {
    if s != "" { ValueFits(s[..|s| - 1]); }
  }

  lemma {:induction false} ValueJoins(a: string, b: string)
    requires AllDigits(a) && AllDigits(b)
    ensures AllDigits(a + b) && Value(a + b) == Value(a) * Power10(|b|) + Value(b)
  {
    if b == "" {
      assert a + b == a;
    } else {
      var front := b[..|b| - 1];
      assert (a + b)[..|a + b| - 1] == a + front;
      ValueJoins(a, front);
      OneDigitMore(Value(a), Power10(|front|), Value(front), DigitValue(b[|b| - 1]));
    }
  }

  lemma OneDigitMore(x: nat, unit: nat, y: nat, d: nat)
    ensures 10 * (x * unit + y) + d == x * (10 * unit) + (10 * y + d)
  {
  }

  lemma SumOfParts(whole: nat, part: nat, unit: nat)
    requires unit > 0
    ensures whole as real + part as real / unit as real == (whole * unit + part) as real / unit as real
  {
  }

  /** A point divides by ten for every digit after it. */
  lemma MagnitudeIsDecimal(whole: string, fraction: string)
    requires whole != "" && AllDigits(whole) && AllDigits(fraction)
    ensures Magnitude(whole) == Some(Value(whole) as real)
    ensures AllDigits(whole + fraction)
    ensures Magnitude(whole + ("." + fraction)) == Some(Value(whole + fraction) as real / Power10(|fraction|) as real)
  {
    hide DigitRun, Value;
    var text := whole + ("." + fraction);
    assert whole + "" == whole && whole[..|whole|] == whole;
    AllDigitsRun(whole, "");
    AllDigitsRun(whole, "." + fraction);
    assert text[..|whole|] == whole && text[|whole|] == '.' && text[|whole| + 1..] == fraction;
    assert fraction + "" == fraction && fraction[..|fraction|] == fraction;
    AllDigitsRun(fraction, "");
    ValueJoins(whole, fraction);
    if fraction == "" {
      assert Value("") == 0 by { NoValue(); }
    }
    SumOfParts(Value(whole), Value(fraction), Power10(|fraction|));
  }

  lemma NoValue()
    ensures Value("") == 0
  {
  }

  lemma OneDigit(d: char)
    requires IsDigit(d)
    ensures Value([d]) == DigitValue(d)
  {
    assert [d][..0] == "";
  }

  lemma Below(part: nat, whole: nat)
    requires part < whole
    ensures 0.0 <= part as real / whole as real < 1.0
  {
  }

  lemma ShortRuns(d: char, fraction: string)
    requires IsDigit(d) && AllDigits(fraction)
    ensures var u := Short(d, fraction);
      && DigitRun(u) == 1 && u[..1] == [d]
      && (fraction == "" ==> u == [d])
      && (fraction != "" ==> u[1] == '.' && u[2..] == fraction && DigitRun(u[2..]) == |fraction|)
  {
    hide DigitRun;
    var tail := if fraction == "" then "" else "." + fraction;
    AllDigitsRun([d], tail);
    if fraction != "" {
      assert fraction + "" == fraction && Short(d, fraction)[2..] == fraction;
      AllDigitsRun(fraction, "");
    }
  }

  lemma StrtodOfSigned(u: string, negative: bool)
    requires u != "" && IsDigit(u[0]) && Magnitude(u).Some?
    ensures Strtod((if negative then "-" else "") + u)
         == Some(if negative then -Magnitude(u).value else Magnitude(u).value)
  {
    hide IsSpace, Magnitude;
    var token := (if negative then "-" else "") + u;
    NoSpace(u[0]);
    NoSpace('-');
    assert token[0..] == token && (negative ==> token[1..] == u) && (!negative ==> token == u);
  }

  lemma MagnitudeOfShort(d: char, fraction: string)
    requires IsDigit(d) && d != '0' && AllDigits(fraction)
    ensures Magnitude(Short(d, fraction)).Some? && 1.0 <= Magnitude(Short(d, fraction)).value < 10.0
  {
    hide Value, DigitRun;
    ShortRuns(d, fraction);
    OneDigit(d);
    if fraction != "" {
      assert fraction[..|fraction|] == fraction;
      ValueFits(fraction);
      Below(Value(fraction), Power10(|fraction|));
    }
  }

  /** What the tokenizer leaves first of a printed number: all of it when it is printed
      without an exponent, and less than ten otherwise. */
  function Reading(v: int): (r: real)
    ensures Strtod(NumberTokens(v)[0]) == Some(r)
    ensures r == v as real <==> Plain(v)
  {
    StrtodOfNumber(v);
    Strtod(NumberTokens(v)[0]).value
  }

  lemma StrtodOfNumber(v: int)
    ensures Strtod(NumberTokens(v)[0]).Some?
    ensures Strtod(NumberTokens(v)[0]).value == v as real <==> Plain(v)
  {
    hide Strtod, Magnitude, IntText, Significant, Fraction;
    if Plain(v) {
      StrtodOfInt(v);
    } else {
      var m := Significant(if v < 0 then -v else v).0;
      assert Power10(5) == 100_000;
      MagnitudeOfShort(DigitChar(m / 100_000), Fraction(m % 100_000, 5));
      StrtodOfSigned(Short(DigitChar(m / 100_000), Fraction(m % 100_000, 5)), v < 0);
    }
  }

  lemma TokensOfRun(u: string, rest: string)
    requires u != "" && IsDigit(u[0]) && NumberRun(u + rest) == |u|
    ensures Tokens(u + rest) == [u] + Tokens(rest)
  {
    hide NumberRun;
    assert (u + rest)[..|u|] == u && (u + rest)[|u|..] == rest;
  }

  lemma NumberRuns(whole: string, rest: string)
    requires AllDigits(whole)
    ensures Apart(rest) ==> NumberRun(whole + rest) == |whole|
    ensures NumberRun(whole + ("." + rest)) == |whole| + 1 + DigitRun(rest)
  {
    hide DigitRun;
    if Apart(rest) { AllDigitsRun(whole, rest); }
    var tail := "." + rest;
    AllDigitsRun(whole, tail);
    assert (whole + tail)[|whole|] == '.' && (whole + tail)[|whole| + 1..] == rest;
  }

  lemma ShortNumberRun(d: char, fraction: string, rest: string)
    requires IsDigit(d) && AllDigits(fraction) && Apart(rest)
    ensures NumberRun(Short(d, fraction) + rest) == |Short(d, fraction)|
  {
    hide DigitRun, NumberRun;
    if fraction == "" {
      assert Short(d, fraction) == [d];
      NumberRuns([d], rest);
    } else {
      Assoc([d], "." + fraction, rest);
      Assoc(".", fraction, rest);
      AllDigitsRun(fraction, rest);
      NumberRuns([d], fraction + rest);
    }
  }

  lemma TokensOfShort(d: char, fraction: string, rest: string)
    requires IsDigit(d) && AllDigits(fraction) && Apart(rest)
    ensures var u := Short(d, fraction);
            NumberRun(u + rest) == |u| && Tokens(u + rest) == [u] + Tokens(rest)
  {
    hide NumberRun, Tokens;
    ShortNumberRun(d, fraction, rest);
    TokensOfRun(Short(d, fraction), rest);
  }

  lemma TokensOfSigned(sign: char, u: string, rest: string)
    requires (sign == '-' || sign == '+') && u != "" && IsDigit(u[0])
    requires NumberRun(u + rest) == |u|
    ensures Tokens([sign] + u + rest) == [[sign] + u] + Tokens(rest)
  {
    var t := u + rest;
    Assoc([sign], u, rest);
    assert ([sign] + t)[1..] == t && SpaceRun(t) == 0;
    assert ([sign] + t)[1..1 + |u|] == u && ([sign] + t)[1 + |u|..] == rest;
  }

  lemma TokensOfSignificand(v: int, rest: string)
    requires !Plain(v) && Apart(rest)
    ensures Tokens(Significand(v) + rest) == [Significand(v)] + Tokens(rest)
  {
    hide Tokens, NumberRun, Significant, Fraction;
    var m := Significant(if v < 0 then -v else v).0;
    assert Power10(5) == 100_000;
    var d, fraction := DigitChar(m / 100_000), Fraction(m % 100_000, 5);
    var u := Short(d, fraction);
    TokensOfShort(d, fraction, rest);
    if v < 0 {
      TokensOfSigned('-', u, rest);
      assert Significand(v) == ['-'] + u;
    } else {
      assert Significand(v) == u;
    }
  }

  lemma TokensOfExponent(v: int, rest: string)
    requires !Plain(v) && Apart(rest)
    ensures Tokens(Exponent(v) + rest) == [Exponent(v)] + Tokens(rest) && |Exponent(v)| > 1
  {
    hide Tokens, Significant, Numeral;
    var x := Significant(if v < 0 then -v else v).1;
    var digits := (if x < 10 then "0" else "") + Numeral(x);
    TokensOfDigits(digits, rest);
    TokensOfSigned('+', digits, rest);
    assert Exponent(v) == ['+'] + digits;
  }

  /** A printed number not followed by a digit or point is read as these tokens. */
  lemma TokensOfPrinted(v: int, rest: string)
    requires Apart(rest)
    ensures Tokens(Printed(v) + rest) == NumberTokens(v) + Tokens(rest)
  {
    hide Tokens, IntText, Significand, Exponent;
    if Plain(v) {
      TokensOfInt(v, rest);
    } else {
      var more := Exponent(v) + rest;
      Assoc(Significand(v) + "e", Exponent(v), rest);
      Assoc(Significand(v), "e", more);
      TokensOfSignificand(v, "e" + more);
      TokensOfLetter('e', more);
      TokensOfExponent(v, rest);
    }
  }
}

module SvgMoves {
  import opened Decimal
  import opened Options
  import opened Sequences
  import opened SvgText

  datatype Coords = Coords(x: int, y: int, z: int)

  datatype Point = Point(x: real, y: real, z: real)

  function At(c: Coords): Point {
    Point(c.x as real, c.y as real, c.z as real)
  }

  function Minus(to: Coords, from: Coords): Coords {
    Coords(to.x - from.x, to.y - from.y, to.z - from.z)
  }

  // ---- the writer ----

  function Single(command: char, v: int): string {
    " " + [command] + " " + Printed(v)
  }

  function SVGDComponentMove(abs: char, rel: char, comp: int, prev: int): (text: string)
    ensures text == Single(abs, comp) || text == Single(rel, comp - prev)
    ensures |text| <= |Single(abs, comp)| && |text| <= |Single(rel, comp - prev)|
  {
    var rabs, rrel := Single(abs, comp), Single(rel, comp - prev);
    if |rabs| <= |rrel| then rabs else rrel
  }

  function ComponentMoves(to: Coords, from: Coords): string {
    (if to.x != from.x then SVGDComponentMove('X', 'x', to.x, from.x) else "")
    + (if to.y != from.y then SVGDComponentMove('Y', 'y', to.y, from.y) else "")
    + (if to.z != from.z then SVGDComponentMove('Z', 'z', to.z, from.z) else "")
  }

  /** A position command; the third number only when it is asked for. */
  function Whole(command: char, c: Coords, third: bool): string {
    " " + [command] + " " + Printed(c.x) + ", " + Printed(c.y) + (if third then ", " + Printed(c.z) else "")
  }

  function SVGDMove(coords: Coords, prev: Coords): (text: string)
    ensures |text| <= |Whole('P', coords, coords.z != prev.z)|
    ensures |text| <= |Whole('p', Minus(coords, prev), coords.z != prev.z)|
    ensures |text| <= |ComponentMoves(coords, prev)|
  {
    var rabs := Whole('P', coords, coords.z != prev.z);
    var rrel := Whole('p', Minus(coords, prev), coords.z != prev.z);
    var rcomp := ComponentMoves(coords, prev);
    if |rabs| <= |rrel| && |rabs| <= |rcomp| then rabs
    else if |rrel| <= |rcomp| then rrel
    else rcomp
  }

  // ---- the reader ----

  datatype Axis = X | Y | Z

  datatype Command = Coordinate(relative: bool) | SingleAttribute(axis: Axis, relative: bool)

  /** The position commands of kInstanceParameters. */
  function Commands(c: char): Option<Command> {
    match c
    case 'P' => Some(Coordinate(false))
    case 'X' => Some(SingleAttribute(X, false))
    case 'Y' => Some(SingleAttribute(Y, false))
    case 'Z' => Some(SingleAttribute(Z, false))
    case 'p' => Some(Coordinate(true))
    case 'x' => Some(SingleAttribute(X, true))
    case 'y' => Some(SingleAttribute(Y, true))
    case 'z' => Some(SingleAttribute(Z, true))
    case _ => None
  }

  function Field(p: Point, axis: Axis): real {
    match axis case X => p.x case Y => p.y case Z => p.z
  }

  function Set(p: Point, axis: Axis, v: real): Point {
    match axis case X => p.(x := v) case Y => p.(y := v) case Z => p.(z := v)
  }

  function Moved(p: Point, axis: Axis, relative: bool, v: real): Point {
    Set(p, axis, if relative then v + Field(p, axis) else v)
  }

  /** The numbers the tokens start with, at most max of them. */
  function Values(tokens: seq<string>, max: nat): (vs: seq<real>)
    ensures |vs| <= max && |vs| <= |tokens|
    decreases max
  {
    if max == 0 || tokens == [] || Strtod(tokens[0]).None? then []
    else [Strtod(tokens[0]).value] + Values(tokens[1..], max - 1)
  }

  function MovedBy(p: Point, vs: seq<real>, relative: bool): Point {
    var p1 := if |vs| > 0 then Moved(p, X, relative, vs[0]) else p;
    var p2 := if |vs| > 1 then Moved(p1, Y, relative, vs[1]) else p1;
    if |vs| > 2 then Moved(p2, Z, relative, vs[2]) else p2
  }

  /** Where a command followed by these tokens leads, and how many of them it takes. */
  function Handled(command: Command, tokens: seq<string>, p: Point): (r: (Point, nat))
    ensures r.1 <= |tokens|
  {
    match command
    case SingleAttribute(axis, relative) =>
      if tokens == [] || Strtod(tokens[0]).None? then (p, 0)
      else (Moved(p, axis, relative, Strtod(tokens[0]).value), 1)
    case Coordinate(relative) =>
      var vs := Values(tokens, 3);
      (MovedBy(p, vs, relative), |vs|)
  }

  /** Where a run over the tokens ends; tokens that are no position command are passed over. */
  function Run(tokens: seq<string>, p: Point): Point
    decreases |tokens|
  {
    if tokens == [] then p
    else if |tokens[0]| == 1 && Commands(tokens[0][0]).Some? then
      var r := Handled(Commands(tokens[0][0]).value, tokens[1..], p);
      Run(tokens[1 + r.1..], r.0)
    else Run(tokens[1..], p)
  }

  class Instance {
    var x: real
    var y: real
    var z: real

    constructor (p: Point)
      ensures Position() == p
    {
      x, y, z := p.x, p.y, p.z;
    }

    function Position(): Point
      reads this
    {
      Point(x, y, z)
    }

    method SetField(axis: Axis, v: real)
      modifies this
      ensures Position() == Set(old(Position()), axis, v)
    {
      match axis
      case X => x := v;
      case Y => y := v;
      case Z => z := v;
    }

    static method ReadValues(data: seq<string>, pos: nat, countMax: nat) returns (res: seq<real>)
      requires pos <= |data|
      ensures res == Values(data[pos..], countMax)
    {
      hide Strtod;
      res := [];
      var i := 0;
      while i < countMax && pos + i < |data| && Strtod(data[pos + i]).Some?
        invariant i <= countMax && pos + i <= |data|
        invariant res + Values(data[pos + i..], countMax - i) == Values(data[pos..], countMax)
      {
        ghost var was := res;
        assert data[pos + i..][1..] == data[pos + i + 1..];
        res := res + [Strtod(data[pos + i]).value];
        Assoc(was, [Strtod(data[pos + i]).value], Values(data[pos + i + 1..], countMax - i - 1));
        i := i + 1;
      }
    }

    method HandleSingle(axis: Axis, relative: bool, data: seq<string>, pos: nat) returns (used: nat)
      requires pos < |data|
      modifies this
      ensures (Position(), used) == Handled(SingleAttribute(axis, relative), data[pos + 1..], old(Position()))
    {
      hide Strtod;
      if pos + 1 >= |data| || Strtod(data[pos + 1]).None? {
        return 0;
      }
      var val := Strtod(data[pos + 1]).value;
      if relative {
        val := val + Field(Position(), axis);
      }
      SetField(axis, val);
      return 1;
    }

    method HandleCoordinate(relative: bool, data: seq<string>, pos: nat) returns (used: nat)
      requires pos < |data|
      modifies this
      ensures (Position(), used) == Handled(Coordinate(relative), data[pos + 1..], old(Position()))
    {
      hide Values, Strtod;
      var args := ReadValues(data, pos + 1, 3);
      if |args| == 0 { return 0; }
      SetField(X, if relative then args[0] + x else args[0]);
      if |args| == 1 { return 1; }
      SetField(Y, if relative then args[1] + y else args[1]);
      if |args| == 2 { return 2; }
      SetField(Z, if relative then args[2] + z else args[2]);
      return 3;
    }

    method Interpret(layer: string)
      modifies this
      ensures Position() == Run(Tokens(layer), old(Position()))
    {
      hide Handled, Tokens, Run;
      var data := TokenizeSVGD(layer);
      var i := 0;
      ghost var start := Position();
      assert data[0..] == data;
      while i < |data|
        invariant i <= |data| && Run(data[i..], Position()) == Run(data, start)
      {
        RunAt(data, i, Position());
        var tk := data[i];
        var used := 0;
        if |tk| == 1 && Commands(tk[0]).Some? {
          match Commands(tk[0]).value
          case SingleAttribute(axis, relative) => used := HandleSingle(axis, relative, data, i);
          case Coordinate(relative) => used := HandleCoordinate(relative, data, i);
        }
        i := i + 1 + used;
      }
      assert data[i..] == [];
      RunEnds(Position());
    }
  }

  lemma RunAt(data: seq<string>, i: nat, p: Point)
    requires i < |data|
    ensures |data[i]| == 1 && Commands(data[i][0]).Some? ==>
              var r := Handled(Commands(data[i][0]).value, data[i + 1..], p);
              Run(data[i..], p) == Run(data[i + 1 + r.1..], r.0)
    ensures !(|data[i]| == 1 && Commands(data[i][0]).Some?) ==> Run(data[i..], p) == Run(data[i + 1..], p)
  {
    hide Handled;
    assert data[i..][0] == data[i] && data[i..][1..] == data[i + 1..];
    if |data[i]| == 1 && Commands(data[i][0]).Some? {
      var r := Handled(Commands(data[i][0]).value, data[i + 1..], p);
      assert data[i..][1 + r.1..] == data[i + 1 + r.1..];
    }
  }

  lemma RunEnds(p: Point)
    ensures Run([], p) == p
  {
  }

  // ---- a move is read back ----

  /** Tokens no command starts at. */
  predicate Idle(tokens: seq<string>) {
    forall i :: 0 <= i < |tokens| ==> !(|tokens[i]| == 1 && Commands(tokens[i][0]).Some?)
  }

  lemma {:induction false} IdleIsSkipped(tokens: seq<string>, more: seq<string>, p: Point)
    requires Idle(tokens)
    ensures Run(tokens + more, p) == Run(more, p)
  {
    if tokens == [] {
      assert tokens + more == more;
    } else {
      RunAt(tokens + more, 0, p);
      assert (tokens + more)[0] == tokens[0] && (tokens + more)[0..] == tokens + more;
      assert (tokens + more)[1..] == tokens[1..] + more;
      IdleIsSkipped(tokens[1..], more, p);
    }
  }

  lemma NumbersAreIdle(v: int)
    ensures Idle(NumberTokens(v))
  {
    hide Significant, Fraction, Numeral;
    if Plain(v) {
      assert IntText(v)[0] == '-' || IsDigit(IntText(v)[0]);
    } else {
      assert Significand(v)[0] == '-' || IsDigit(Significand(v)[0]);
      assert Exponent(v)[0] == '+';
    }
  }

  lemma IdleJoins(a: seq<string>, b: seq<string>)
    requires Idle(a) && Idle(b)
    ensures Idle(a + b)
  {
  }

  /** A position command with one number moves its coordinate to what is read of it. */
  lemma SingleIsRead(command: char, v: int, rest: string, p: Point)
    requires Apart(rest)
    requires Commands(command).Some? && Commands(command).value.SingleAttribute?
    ensures var to := Moved(p, Commands(command).value.axis, Commands(command).value.relative, Reading(v));
            Run(Tokens(Single(command, v) + rest), p) == Run(Tokens(rest), to)
  {
    hide Tokens, Strtod, Printed, NumberTokens, Reading;
    SingleTokens(command, v, rest);
    var number := NumberTokens(v);
    var left := number[1..];
    var tail := number + Tokens(rest);
    var all := [[command]] + tail;
    assert all[0] == [command] && all[1..] == tail && tail[0] == number[0];
    assert all[0..] == all && all[2..] == left + Tokens(rest);
    RunAt(all, 0, p);
    NumbersAreIdle(v);
    IdleIsSkipped(left, Tokens(rest),
                  Moved(p, Commands(command).value.axis, Commands(command).value.relative, Reading(v)));
  }

  lemma SingleTokens(command: char, v: int, rest: string)
    requires Apart(rest) && IsAlpha(command)
    ensures Tokens(Single(command, v) + rest) == [[command]] + (NumberTokens(v) + Tokens(rest))
  {
    hide Tokens, Printed, NumberTokens;
    var number := Printed(v) + rest;
    assert Single(command, v) + rest == " " + ([command] + (" " + number));
    TokensSkip(' ', [command] + (" " + number));
    TokensOfLetter(command, " " + number);
    TokensSkip(' ', number);
    TokensOfPrinted(v, rest);
  }

  /** No number is there for the command before to take. */
  ghost predicate NoNumber(rest: string) {
    Tokens(rest) == [] || Strtod(Tokens(rest)[0]) == None
  }

  lemma WholeTokens(command: char, c: Coords, third: bool, rest: string)
    requires Apart(rest) && IsAlpha(command)
    ensures Tokens(Whole(command, c, third) + rest)
         == [[command]] + (NumberTokens(c.x)
            + (NumberTokens(c.y) + (if third then NumberTokens(c.z) + Tokens(rest) else Tokens(rest))))
  {
    hide Tokens, Printed, NumberTokens;
    var end := if third then ", " + Printed(c.z) + rest else rest;
    var ys := Printed(c.y) + end;
    var xs := Printed(c.x) + (", " + ys);
    WholeText(command, c, third, rest);
    TokensSkip(' ', [command] + (" " + xs));
    TokensOfLetter(command, " " + xs);
    TokensSkip(' ', xs);
    TokensOfPrinted(c.x, ", " + ys);
    CommaSkip(ys);
    TokensOfPrinted(c.y, end);
    if third {
      Assoc(", ", Printed(c.z), rest);
      CommaSkip(Printed(c.z) + rest);
      TokensOfPrinted(c.z, rest);
    }
  }

  lemma CommaSkip(rest: string)
    ensures Tokens(", " + rest) == Tokens(rest) && Apart(", " + rest)
  {
    hide Tokens;
    assert ", " == "," + " ";
    Assoc(",", " ", rest);
    TokensSkip(',', " " + rest);
    TokensSkip(' ', rest);
  }

  lemma WholeText(command: char, c: Coords, third: bool, rest: string)
    ensures Whole(command, c, third) + rest
         == " " + ([command] + (" " + (Printed(c.x) + (", " + (Printed(c.y)
          + (if third then ", " + Printed(c.z) + rest else rest))))))
  {
    hide Printed;
    var end := if third then ", " + Printed(c.z) else "";
    assert "" + rest == rest;
    Assoc(" " + [command] + " " + Printed(c.x) + ", " + Printed(c.y), end, rest);
    Assoc(" " + [command] + " " + Printed(c.x) + ", ", Printed(c.y), end + rest);
    Assoc(" " + [command] + " " + Printed(c.x), ", ", Printed(c.y) + (end + rest));
    Assoc(" " + [command] + " ", Printed(c.x), ", " + (Printed(c.y) + (end + rest)));
    Assoc(" " + [command], " ", Printed(c.x) + (", " + (Printed(c.y) + (end + rest))));
    Assoc(" ", [command], " " + (Printed(c.x) + (", " + (Printed(c.y) + (end + rest)))));
  }

  /** What a position command takes of its numbers: those up to the first with an exponent. */
  function Taken(c: Coords, third: bool): seq<real> {
    [Reading(c.x)]
    + if !Plain(c.x) then []
      else [Reading(c.y)] + (if Plain(c.y) && third then [Reading(c.z)] else [])
  }

  lemma CommandIsRead(command: char, numbers: seq<string>, more: seq<string>, p: Point)
    requires Commands(command).Some? && Commands(command).value.Coordinate?
    requires Idle(numbers) && |Values(numbers + more, 3)| <= |numbers|
    ensures Run([[command]] + (numbers + more), p)
         == Run(more, MovedBy(p, Values(numbers + more, 3), Commands(command).value.relative))
  {
    hide Strtod, Values, MovedBy;
    var all := [[command]] + (numbers + more);
    var vs := Values(numbers + more, 3);
    assert all[0] == [command] && all[1..] == numbers + more && all[0..] == all;
    RunAt(all, 0, p);
    var left := numbers[|vs|..];
    assert all[1 + |vs|..] == left + more;
    IdleIsSkipped(left, more, MovedBy(p, vs, Commands(command).value.relative));
  }

  lemma WholeIsIdle(c: Coords, third: bool)
    ensures Idle(NumberTokens(c.x) + (NumberTokens(c.y) + if third then NumberTokens(c.z) else []))
  {
    hide NumberTokens;
    NumbersAreIdle(c.x);
    NumbersAreIdle(c.y);
    NumbersAreIdle(c.z);
    IdleJoins(NumberTokens(c.y), if third then NumberTokens(c.z) else []);
    IdleJoins(NumberTokens(c.x), NumberTokens(c.y) + if third then NumberTokens(c.z) else []);
  }

  /** A position command with two or three numbers. */
  lemma WholeIsRead(command: char, c: Coords, third: bool, rest: string, p: Point)
    requires Apart(rest) && (third || NoNumber(rest))
    requires Commands(command).Some? && Commands(command).value.Coordinate?
    ensures Run(Tokens(Whole(command, c, third) + rest), p)
         == Run(Tokens(rest), MovedBy(p, Taken(c, third), Commands(command).value.relative))
  {
    hide Tokens, Strtod, Printed, NumberTokens, Reading, MovedBy, NoNumber, Taken, Idle, Run, Values, Whole;
    WholeTokens(command, c, third, rest);
    var more := Tokens(rest);
    var x, y, z := NumberTokens(c.x), NumberTokens(c.y), if third then NumberTokens(c.z) else [];
    assert [] + more == more;
    Assoc(y, z, more);
    Assoc(x, y + z, more);
    WholeValues(c, third, rest);
    WholeIsIdle(c, third);
    CommandIsRead(command, x + (y + z), more, p);
  }

  /** The numbers are read until one leaves its exponent behind. */
  lemma WholeValues(c: Coords, third: bool, rest: string)
    requires third || NoNumber(rest)
    ensures var numbers := NumberTokens(c.x) + (NumberTokens(c.y) + if third then NumberTokens(c.z) else []);
            Values(numbers + Tokens(rest), 3) == Taken(c, third) && |Taken(c, third)| <= |numbers|
  {
    hide Tokens, Strtod, IntText, Significand, Exponent, Reading;
    var more := Tokens(rest);
    var zs := if third then NumberTokens(c.z) else [];
    Assoc(NumberTokens(c.x), NumberTokens(c.y) + zs, more);
    Assoc(NumberTokens(c.y), zs, more);
    assert [] + more == more;
    NumberIsTaken(c.x, NumberTokens(c.y) + zs + more, 3);
    if Plain(c.x) {
      NumberIsTaken(c.y, zs + more, 2);
      if Plain(c.y) && third {
        NumberIsTaken(c.z, more, 1);
        assert Values(more, 0) == [];
      }
    }
  }

  lemma NumberIsTaken(v: int, more: seq<string>, max: nat)
    requires max > 0
    ensures Values(NumberTokens(v) + more, max) == [Reading(v)] + (if Plain(v) then Values(more, max - 1) else [])
  {
    hide Strtod, IntText, Significand, Exponent, Reading;
    var all := NumberTokens(v) + more;
    assert all[0] == NumberTokens(v)[0];
    if Plain(v) {
      assert all[1..] == more;
    } else {
      StrtodOfLetter('e');
      assert all[1] == "e";
    }
  }

  /** Where the component's command takes a coordinate that was at prev. */
  function ComponentReading(abs: char, rel: char, comp: int, prev: int): real {
    if |Single(abs, comp)| <= |Single(rel, comp - prev)| then Reading(comp)
    else Reading(comp - prev) + prev as real
  }

  lemma ComponentIsRead(axis: Axis, abs: char, rel: char, comp: int, prev: int, rest: string, p: Point)
    requires Apart(rest) && Field(p, axis) == prev as real
    requires Commands(abs) == Some(SingleAttribute(axis, false)) && Commands(rel) == Some(SingleAttribute(axis, true))
    ensures Run(Tokens(SVGDComponentMove(abs, rel, comp, prev) + rest), p)
         == Run(Tokens(rest), Set(p, axis, ComponentReading(abs, rel, comp, prev)))
  {
    hide Run, Tokens, Single, Reading, Strtod, NumberTokens, Apart;
    SingleIsRead(abs, comp, rest, p);
    SingleIsRead(rel, comp - prev, rest, p);
  }

  /** Where the component commands lead. */
  function ByComponents(to: Coords, from: Coords): Point {
    Point(if to.x == from.x then from.x as real else ComponentReading('X', 'x', to.x, from.x),
          if to.y == from.y then from.y as real else ComponentReading('Y', 'y', to.y, from.y),
          if to.z == from.z then from.z as real else ComponentReading('Z', 'z', to.z, from.z))
  }

  lemma ComponentsAreRead(to: Coords, from: Coords, rest: string)
    requires Apart(rest)
    ensures Run(Tokens(ComponentMoves(to, from) + rest), At(from)) == Run(Tokens(rest), ByComponents(to, from))
  {
    hide Run, Tokens, SVGDComponentMove, ComponentReading, Strtod, Reading, NumberTokens, Apart, Single;
    var xs := if to.x != from.x then SVGDComponentMove('X', 'x', to.x, from.x) else "";
    var ys := if to.y != from.y then SVGDComponentMove('Y', 'y', to.y, from.y) else "";
    var zs := if to.z != from.z then SVGDComponentMove('Z', 'z', to.z, from.z) else "";
    Assoc(xs + ys, zs, rest);
    Assoc(xs, ys, zs + rest);
    assert "" + rest == rest && "" + (zs + rest) == zs + rest && "" + (ys + (zs + rest)) == ys + (zs + rest);
    ComponentIsApart('Z', 'z', to.z, from.z, rest);
    ComponentIsApart('Y', 'y', to.y, from.y, zs + rest);
    var end := ByComponents(to, from);
    var p1 := At(from).(x := end.x);
    var p2 := p1.(y := end.y);
    if to.x != from.x { ComponentIsRead(X, 'X', 'x', to.x, from.x, ys + (zs + rest), At(from)); }
    if to.y != from.y { ComponentIsRead(Y, 'Y', 'y', to.y, from.y, zs + rest, p1); }
    if to.z != from.z { ComponentIsRead(Z, 'Z', 'z', to.z, from.z, rest, p2); }
  }

  lemma ComponentIsApart(abs: char, rel: char, comp: int, prev: int, rest: string)
    ensures Apart(SVGDComponentMove(abs, rel, comp, prev) + rest)
  {
    hide Printed;
    assert Single(abs, comp)[0] == ' ' && Single(rel, comp - prev)[0] == ' ';
  }

  // ---- when a move lands ----

  /** The shorter command of a component prints its number without an exponent. */
  predicate ComponentPlain(abs: char, rel: char, comp: int, prev: int) {
    if |Single(abs, comp)| <= |Single(rel, comp - prev)| then Plain(comp) else Plain(comp - prev)
  }

  predicate WholePlain(c: Coords, third: bool) {
    Plain(c.x) && Plain(c.y) && (third ==> Plain(c.z))
  }

  /** The shortest of the three texts has no number of seven digits or more. */
  predicate PrintsPlain(to: Coords, from: Coords) {
    var third := to.z != from.z;
    var rabs, rrel := Whole('P', to, third), Whole('p', Minus(to, from), third);
    var rcomp := ComponentMoves(to, from);
    if |rabs| <= |rrel| && |rabs| <= |rcomp| then WholePlain(to, third)
    else if |rrel| <= |rcomp| then WholePlain(Minus(to, from), third)
    else
      && (to.x != from.x ==> ComponentPlain('X', 'x', to.x, from.x))
      && (to.y != from.y ==> ComponentPlain('Y', 'y', to.y, from.y))
      && (to.z != from.z ==> ComponentPlain('Z', 'z', to.z, from.z))
  }

  /** Where reading the shortest text leads. */
  function Landing(to: Coords, from: Coords): Point {
    var third := to.z != from.z;
    var rabs, rrel := Whole('P', to, third), Whole('p', Minus(to, from), third);
    var rcomp := ComponentMoves(to, from);
    if |rabs| <= |rrel| && |rabs| <= |rcomp| then MovedBy(At(from), Taken(to, third), false)
    else if |rrel| <= |rcomp| then MovedBy(At(from), Taken(Minus(to, from), third), true)
    else ByComponents(to, from)
  }

  lemma MoveIsRead(to: Coords, from: Coords, rest: string)
    requires Apart(rest) && NoNumber(rest)
    ensures Run(Tokens(SVGDMove(to, from) + rest), At(from)) == Run(Tokens(rest), Landing(to, from))
  {
    hide Run, Tokens, Whole, ComponentMoves, ByComponents, Taken, MovedBy;
    var third := to.z != from.z;
    WholeIsRead('P', to, third, rest, At(from));
    WholeIsRead('p', Minus(to, from), third, rest, At(from));
    ComponentsAreRead(to, from, rest);
  }

  lemma AbsoluteLands(to: Coords, from: Coords)
    ensures var third := to.z != from.z;
      MovedBy(At(from), Taken(to, third), false) == At(to) <==> WholePlain(to, third)
  {
    hide Reading, Plain, Strtod, NumberTokens, IntText;
    var x, y, z := Reading(to.x), Reading(to.y), Reading(to.z);
    if Plain(to.x) {
      assert Taken(to, false) == [x, y];
      if Plain(to.y) { assert Taken(to, true) == [x, y, z]; }
    } else {
      assert Taken(to, true) == Taken(to, false) == [x];
    }
  }

  lemma RelativeLands(to: Coords, from: Coords)
    ensures var third := to.z != from.z;
      MovedBy(At(from), Taken(Minus(to, from), third), true) == At(to) <==> WholePlain(Minus(to, from), third)
  {
    hide Reading, Plain, Strtod, NumberTokens, IntText;
    var delta := Minus(to, from);
    var x, y, z := Reading(delta.x), Reading(delta.y), Reading(delta.z);
    if Plain(delta.x) {
      assert Taken(delta, false) == [x, y];
      if Plain(delta.y) { assert Taken(delta, true) == [x, y, z]; }
    } else {
      assert Taken(delta, true) == Taken(delta, false) == [x];
    }
  }

  lemma ComponentLands(abs: char, rel: char, comp: int, prev: int)
    ensures ComponentReading(abs, rel, comp, prev) == comp as real <==> ComponentPlain(abs, rel, comp, prev)
  {
    hide Reading, Plain, Single;
  }

  lemma LandsExactly(to: Coords, from: Coords)
    ensures Landing(to, from) == At(to) <==> PrintsPlain(to, from)
  {
    hide Whole, ComponentMoves, Taken, MovedBy, ComponentReading, ComponentPlain, WholePlain;
    AbsoluteLands(to, from);
    RelativeLands(to, from);
    ComponentLands('X', 'x', to.x, from.x);
    ComponentLands('Y', 'y', to.y, from.y);
    ComponentLands('Z', 'z', to.z, from.z);
  }

  /** Whichever text is the shortest, reading it from the position before lands on the
      position asked for exactly when it has no number of seven digits or more. */
  lemma MovesLandExactly(to: Coords, from: Coords)
    ensures Run(Tokens(SVGDMove(to, from)), At(from)) == At(to) <==> PrintsPlain(to, from)
  {
    hide Run, SVGDMove, Landing, PrintsPlain;
    NoTokens();
    RunEnds(Landing(to, from));
    MoveIsRead(to, from, "");
    assert SVGDMove(to, from) + "" == SVGDMove(to, from);
    LandsExactly(to, from);
  }

  /** Below a million, coordinates and differences alike, every move lands. */
  lemma SmallMovesLand(to: Coords, from: Coords)
    requires WholePlain(to, true) && WholePlain(Minus(to, from), true)
    ensures PrintsPlain(to, from)
  {
    hide Whole, ComponentMoves, Single;
  }

  lemma MillionPrints()
    ensures Printed(1_000_000) == "1e+06" && Reading(1_000_000) == 1.0
  {
    hide Strtod;
    var v := 1_000_000;
    assert Leading(v, 0, 0, 1) == Leading(100_000, 1, 0, 10) == Scaled(100_000, 1, 0, 10);
    assert Significant(v) == (100_000, 6);
    assert Power10(5) == 100_000;
    assert Significand(v) == "1" == IntText(1);
    assert Exponent(v) == "+06";
    StrtodOfInt(1);
  }

  /** A move to 1000000 is printed as 1e+06 and read as a move to 1. */
  lemma MillionIsReadAsOne()
    ensures SVGDMove(Coords(1_000_000, 0, 0), Coords(0, 0, 0)) == " X 1e+06"
    ensures Run(Tokens(" X 1e+06"), Point(0.0, 0.0, 0.0)) == Point(1.0, 0.0, 0.0)
  {
    hide Run, Tokens, Strtod, Printed, Reading, NumberTokens, Significant;
    var to, from := Coords(1_000_000, 0, 0), Coords(0, 0, 0);
    MillionPrints();
    assert Printed(0) == "0" by { ZeroPrints(); }
    assert Single('X', 1_000_000) == " X 1e+06" && Single('x', 1_000_000) == " x 1e+06";
    assert ComponentMoves(to, from) == " X 1e+06";
    assert |Whole('P', to, false)| > 8 && |Whole('p', to, false)| > 8;
    NoTokens();
    RunEnds(Point(1.0, 0.0, 0.0));
    assert " X 1e+06" + "" == " X 1e+06";
    ComponentsAreRead(to, from, "");
  }

  lemma ZeroPrints()
    ensures Printed(0) == "0"
  {
  }

  /** The text after a move is read from the position it asks for. */
  lemma MovesLandOnTarget(to: Coords, from: Coords, rest: string)
    requires PrintsPlain(to, from) && Apart(rest) && NoNumber(rest)
    ensures Run(Tokens(SVGDMove(to, from) + rest), At(from)) == Run(Tokens(rest), At(to))
  {
    hide Run, Tokens, SVGDMove, Landing, PrintsPlain;
    MoveIsRead(to, from, rest);
    LandsExactly(to, from);
  }

  // ---- a whole path ----

  predicate PlainPath(from: Coords, path: seq<Coords>)
    decreases |path|
  {
    path == [] || (PrintsPlain(path[0], from) && PlainPath(path[0], path[1..]))
  }

  function PathText(from: Coords, path: seq<Coords>): string
    decreases |path|
  {
    if path == [] then "" else SVGDMove(path[0], from) + PathText(path[0], path[1..])
  }

  lemma LetterFirst(command: char, more: seq<string>, text: string)
    requires IsAlpha(command) && Tokens(text) == [[command]] + more
    ensures NoNumber(text)
  {
    hide Tokens, Strtod;
    StrtodOfLetter(command);
  }

  lemma WholeStarts(command: char, c: Coords, third: bool, rest: string)
    requires Apart(rest) && IsAlpha(command)
    ensures Apart(Whole(command, c, third) + rest) && NoNumber(Whole(command, c, third) + rest)
  {
    hide Tokens, Printed, NumberTokens, NoNumber;
    WholeTokens(command, c, third, rest);
    LetterFirst(command, Tokens(Whole(command, c, third) + rest)[1..], Whole(command, c, third) + rest);
    assert Whole(command, c, third)[0] == ' ';
  }

  lemma ComponentStarts(abs: char, rel: char, comp: int, prev: int, rest: string)
    requires Apart(rest) && IsAlpha(abs) && IsAlpha(rel)
    ensures Apart(SVGDComponentMove(abs, rel, comp, prev) + rest)
    ensures NoNumber(SVGDComponentMove(abs, rel, comp, prev) + rest)
  {
    hide Tokens, NumberTokens, NoNumber, Single;
    ComponentIsApart(abs, rel, comp, prev, rest);
    SingleTokens(abs, comp, rest);
    SingleTokens(rel, comp - prev, rest);
    LetterFirst(abs, NumberTokens(comp) + Tokens(rest), Single(abs, comp) + rest);
    LetterFirst(rel, NumberTokens(comp - prev) + Tokens(rest), Single(rel, comp - prev) + rest);
  }

  lemma ComponentsStart(to: Coords, from: Coords, rest: string)
    requires Apart(rest) && NoNumber(rest)
    ensures Apart(ComponentMoves(to, from) + rest) && NoNumber(ComponentMoves(to, from) + rest)
  {
    hide SVGDComponentMove, NoNumber, Apart, Tokens, Strtod, Single;
    var xs := if to.x != from.x then SVGDComponentMove('X', 'x', to.x, from.x) else "";
    var ys := if to.y != from.y then SVGDComponentMove('Y', 'y', to.y, from.y) else "";
    var zs := if to.z != from.z then SVGDComponentMove('Z', 'z', to.z, from.z) else "";
    Assoc(xs + ys, zs, rest);
    Assoc(xs, ys, zs + rest);
    assert "" + rest == rest && "" + (zs + rest) == zs + rest && "" + (ys + (zs + rest)) == ys + (zs + rest);
    if to.z != from.z { ComponentStarts('Z', 'z', to.z, from.z, rest); }
    if to.y != from.y { ComponentStarts('Y', 'y', to.y, from.y, zs + rest); }
    if to.x != from.x { ComponentStarts('X', 'x', to.x, from.x, ys + (zs + rest)); }
  }

  /** A move starts with a command letter, or is no text at all. */
  lemma MoveKeepsApart(to: Coords, from: Coords, rest: string)
    requires Apart(rest) && NoNumber(rest)
    ensures Apart(SVGDMove(to, from) + rest) && NoNumber(SVGDMove(to, from) + rest)
  {
    hide NoNumber, Apart, Whole, ComponentMoves;
    WholeStarts('P', to, to.z != from.z, rest);
    WholeStarts('p', Minus(to, from), to.z != from.z, rest);
    ComponentsStart(to, from, rest);
  }

  function Last(from: Coords, path: seq<Coords>): Coords {
    if path == [] then from else path[|path| - 1]
  }

  lemma NoMoves(from: Coords)
    ensures PathText(from, []) == ""
  {
  }

  lemma LastOfNone(from: Coords)
    ensures Last(from, []) == from
  {
  }

  lemma LastOfRest(from: Coords, path: seq<Coords>)
    requires path != []
    ensures Last(from, path) == Last(path[0], path[1..])
  {
  }

  lemma PathStep(from: Coords, path: seq<Coords>, rest: string)
    requires path != []
    ensures PathText(from, path) + rest == SVGDMove(path[0], from) + (PathText(path[0], path[1..]) + rest)
    ensures PlainPath(from, path) <==> PrintsPlain(path[0], from) && PlainPath(path[0], path[1..])
  {
    hide SVGDMove, PrintsPlain, Last;
    Assoc(SVGDMove(path[0], from), PathText(path[0], path[1..]), rest);
  }

  /** Moves written one after the other, each from the last, lead along the whole path. */
  lemma {:induction false} PathsAreFollowed(from: Coords, path: seq<Coords>, rest: string)
    requires PlainPath(from, path) && Apart(rest) && NoNumber(rest)
    ensures Apart(PathText(from, path) + rest) && NoNumber(PathText(from, path) + rest)
    ensures Run(Tokens(PathText(from, path) + rest), At(from)) == Run(Tokens(rest), At(Last(from, path)))
    decreases |path|
  {
    hide Run, Tokens, SVGDMove, Strtod, PrintsPlain, NoNumber, Apart, PathText, PlainPath, Last;
    if path == [] {
      NoMoves(from);
      assert "" + rest == rest && Last(from, []) == from by { LastOfNone(from); }
    } else {
      PathStep(from, path, rest);
      LastOfRest(from, path);
      var more := PathText(path[0], path[1..]) + rest;
      PathsAreFollowed(path[0], path[1..], rest);
      MoveKeepsApart(path[0], from, more);
      MovesLandOnTarget(path[0], from, more);
    }
  }

  /** The first k moves lead to the k-th position. */
  predicate Visits(from: Coords, path: seq<Coords>, k: nat) {
    k <= |path|
    && Run(Tokens(PathText(from, path[..k])), At(from)) == At(Last(from, path[..k]))
  }

  lemma {:induction false} PathGrows(from: Coords, path: seq<Coords>, to: Coords)
    ensures PathText(from, path + [to]) == PathText(from, path) + SVGDMove(to, Last(from, path))
    ensures PlainPath(from, path + [to]) <==> PlainPath(from, path) && PrintsPlain(to, Last(from, path))
    decreases |path|
  {
    hide SVGDMove, PrintsPlain;
    assert PathText(to, []) == "" && PlainPath(to, []);
    if path == [] {
      assert [] + [to] == [to] && [to][1..] == [];
      assert SVGDMove(to, from) + "" == SVGDMove(to, from) && "" + SVGDMove(to, from) == SVGDMove(to, from);
    } else {
      var rest := path[1..];
      assert (path + [to])[1..] == rest + [to] && (path + [to])[0] == path[0];
      PathGrows(path[0], rest, to);
      Assoc(SVGDMove(path[0], from), PathText(path[0], rest), SVGDMove(to, Last(from, path)));
    }
  }

  lemma NextIsReached(from: Coords, path: seq<Coords>, to: Coords)
    requires PlainPath(from, path)
    ensures Run(Tokens(PathText(from, path + [to])), At(from)) == At(to) <==> PrintsPlain(to, Last(from, path))
  {
    hide Run, Tokens, SVGDMove, PrintsPlain, NoNumber, Apart, PathText, PlainPath;
    PathGrows(from, path, to);
    assert NoNumber("") && Apart("") by { NothingFollows(); }
    var move := SVGDMove(to, Last(from, path));
    MoveKeepsApart(to, Last(from, path), "");
    assert move + "" == move;
    PathsAreFollowed(from, path, move);
    MovesLandExactly(to, Last(from, path));
  }

  lemma NothingFollows()
    ensures NoNumber("") && Apart("")
  {
    NoTokens();
  }

  lemma StartIsVisited(from: Coords, path: seq<Coords>)
    ensures Visits(from, path, 0) && PlainPath(from, path[..0])
  {
    hide Run, Tokens;
    assert path[..0] == [];
    NoMoves(from);
    NoTokens();
    RunEnds(At(from));
  }

  lemma NextIsVisited(from: Coords, path: seq<Coords>, n: nat)
    requires n < |path|
    ensures PlainPath(from, path[..n]) ==> (Visits(from, path, n + 1) <==> PlainPath(from, path[..n + 1]))
    ensures PlainPath(from, path[..n + 1]) ==> PlainPath(from, path[..n])
  {
    hide Run, Tokens, PrintsPlain, PathText, PlainPath;
    assert path[..n + 1] == path[..n] + [path[n]];
    PathGrows(from, path[..n], path[n]);
    if PlainPath(from, path[..n]) { NextIsReached(from, path[..n], path[n]); }
  }

  lemma {:induction false} PlainSoFar(from: Coords, path: seq<Coords>, n: nat)
    requires n <= |path|
    ensures (forall k :: 0 <= k <= n ==> Visits(from, path, k)) <==> PlainPath(from, path[..n])
  {
    hide Visits, PlainPath;
    if n == 0 {
      StartIsVisited(from, path);
    } else {
      PlainSoFar(from, path, n - 1);
      NextIsVisited(from, path, n - 1);
    }
  }

  /** Moves written one after the other lead through every position of the path exactly
      when none of them prints a number of seven digits or more. */
  lemma PathsAreVisitedExactly(from: Coords, path: seq<Coords>)
    ensures (forall k :: 0 <= k <= |path| ==> Visits(from, path, k)) <==> PlainPath(from, path)
  {
    hide Visits, PlainPath;
    PlainSoFar(from, path, |path|);
    assert path[..|path|] == path;
  }
}
