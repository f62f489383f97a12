/** The string operations of the Rust standard library that the codecs rely on. */
module Text {
  import opened Arrow

  /** Unicode White_Space, the class `str::trim` removes. */
  predicate IsWhitespace(c: char) {
    var n := c as int;
    9 <= n <= 13 || n == 0x20 || n == 0x85 || n == 0xA0 || n == 0x1680 || 0x2000 <= n <= 0x200A
    || n == 0x2028 || n == 0x2029 || n == 0x202F || n == 0x205F || n == 0x3000
  }

  function TrimStart(s: string): (r: string)
    ensures |r| <= |s|
  {
    if s != [] && IsWhitespace(s[0]) then TrimStart(s[1..]) else s
  }

  function TrimEnd(s: string): (r: string)
    ensures |r| <= |s|
    ensures r <= s
  {
    if s != [] && IsWhitespace(s[|s| - 1]) then TrimEnd(s[..|s| - 1]) else s
  }

  function Trim(s: string): (r: string)
    ensures |r| <= |s|
  {
    TrimEnd(TrimStart(s))
  }

  /** A string that trimming leaves alone. */
  predicate Trimmed(s: string) {
    s == [] || (!IsWhitespace(s[0]) && !IsWhitespace(s[|s| - 1]))
  }

  lemma TrimIsTrimmed(s: string)
    ensures Trimmed(Trim(s))
  {
    TrimStartResult(s);
    TrimEndResult(TrimStart(s));
  }

  lemma {:induction false} TrimEndResult(s: string)
    ensures var r := TrimEnd(s); r == [] || !IsWhitespace(r[|r| - 1])
  {
    if s != [] && IsWhitespace(s[|s| - 1]) {
      TrimEndResult(s[..|s| - 1]);
    }
  }

  lemma {:induction false} TrimStartWithin(s: string, c: char)
    requires c in TrimStart(s)
    ensures c in s
  {
    if s != [] && IsWhitespace(s[0]) {
      TrimStartWithin(s[1..], c);
    }
  }

  /** Trimming adds no character. */
  lemma TrimWithin(s: string, c: char)
    requires c in Trim(s)
    ensures c in s
  {
    TrimStartWithin(s, c);
  }

  lemma {:induction false} TrimStartResult(s: string)
    ensures var r := TrimStart(s); r == [] || !IsWhitespace(r[0])
  {
    if s != [] && IsWhitespace(s[0]) {
      TrimStartResult(s[1..]);
    }
  }

  /** ASCII lower-casing, character by character. */
  function LowerChar(c: char): char {
    if 'A' <= c <= 'Z' then (c as int + 32) as char else c
  }

  function ToLower(s: string): (r: string)
    ensures |r| == |s|
  {
    seq(|s|, i requires 0 <= i < |s| => LowerChar(s[i]))
  }

  lemma LowerConcat(a: string, b: string)
    ensures ToLower(a + b) == ToLower(a) + ToLower(b)
  {
  }

  lemma LowerIdempotent(s: string)
    ensures ToLower(ToLower(s)) == ToLower(s)
  {
  }

  /** Lower-casing and trimming commute: no whitespace character is a letter. */
  lemma {:induction false} LowerTrimStart(s: string)
    ensures TrimStart(ToLower(s)) == ToLower(TrimStart(s))
  {
    if s != [] {
      assert ToLower(s)[0] == LowerChar(s[0]);
      if IsWhitespace(s[0]) {
        assert ToLower(s)[1..] == ToLower(s[1..]);
        LowerTrimStart(s[1..]);
      }
    }
  }

  lemma {:induction false} LowerTrimEnd(s: string)
    ensures TrimEnd(ToLower(s)) == ToLower(TrimEnd(s))
  {
    if s != [] {
      var n := |s| - 1;
      assert ToLower(s)[n] == LowerChar(s[n]);
      if IsWhitespace(s[n]) {
        assert ToLower(s)[..n] == ToLower(s[..n]);
        LowerTrimEnd(s[..n]);
      }
    }
  }

  lemma LowerTrim(s: string)
    ensures Trim(ToLower(s)) == ToLower(Trim(s))
  {
    LowerTrimStart(s);
    LowerTrimEnd(TrimStart(s));
  }

  predicate StartsWith(s: string, p: string) {
    |p| <= |s| && forall i :: 0 <= i < |p| ==> s[i] == p[i]
  }

  /** `strip_prefix(p)` followed by `strip_suffix(c)`. */
  function Strip(s: string, p: string, c: char): (r: Option<string>)
    ensures r.Some? ==> |r.value| + |p| + 1 == |s|
  {
    if StartsWith(s, p) && |p| < |s| && s[|s| - 1] == c then Some(s[|p|..|s| - 1]) else None
  }

  lemma StripEnclosed(p: string, body: string, c: char)
    ensures StartsWith(p + body + [c], p)
    ensures Strip(p + body + [c], p, c) == Some(body)
  {
    var s := p + body + [c];
    assert s[|p|..|s| - 1] == body;
  }

  predicate Distinct(names: seq<string>) {
    forall i, j :: 0 <= i < j < |names| ==> names[i] != names[j]
  }

  /** `split_once`: the part before the first `c` and the part after it. */
  function SplitOnce(s: string, c: char): (r: Option<(string, string)>)
    ensures r.Some? ==> r.value.0 + [c] + r.value.1 == s && c !in r.value.0
    ensures r.None? <==> c !in s
  {
    if s == [] then None
    else if s[0] == c then
      assert [] + [c] + s[1..] == s;
      Some(([], s[1..]))
    else
      match SplitOnce(s[1..], c)
      case None => None
      case Some(r) =>
        assert [s[0]] + r.0 + [c] + r.1 == [s[0]] + (r.0 + [c] + r.1) == s;
        Some(([s[0]] + r.0, r.1))
  }

  lemma {:induction false} SplitOnceConcat(a: string, c: char, b: string)
    requires c !in a
    ensures SplitOnce(a + [c] + b, c) == Some((a, b))
  {
    var s := a + [c] + b;
    if a == [] {
      assert s[1..] == b;
    } else {
      assert s[1..] == a[1..] + [c] + b;
      assert a == [a[0]] + a[1..];
      SplitOnceConcat(a[1..], c, b);
    }
  }

  /** `split(c)`: at least one piece. */
  function SplitOn(s: string, c: char): (r: seq<string>)
    ensures |r| >= 1
    decreases |s|
  {
    match SplitOnce(s, c)
    case None => [s]
    case Some(p) => [p.0] + SplitOn(p.1, c)
  }

  function Join(parts: seq<string>, sep: string): string {
    if |parts| == 0 then ""
    else if |parts| == 1 then parts[0]
    else parts[0] + sep + Join(parts[1..], sep)
  }

  /** A non-empty word of lower-case letters and underscores. */
  predicate LowerWord(s: string) {
    s != [] && forall i :: 0 <= i < |s| ==> 'a' <= s[i] <= 'z' || s[i] == '_'
  }

  lemma LowerWordText(s: string)
    requires LowerWord(s)
    ensures Trim(s) == s && ToLower(s) == s
  {
    assert !IsWhitespace(s[0]) && !IsWhitespace(s[|s| - 1]);
  }

  // Decimal numerals

  const DIGITS: string := "0123456789"

  predicate IsDigit(c: char) {
    '0' <= c <= '9'
  }

  function NatToString(n: nat): (s: string)
    ensures |s| >= 1
    ensures forall i :: 0 <= i < |s| ==> IsDigit(s[i])
  {
    if n < 10 then [DIGITS[n]] else NatToString(n / 10) + [DIGITS[n % 10]]
  }

  function IntToString(n: int): string {
    if n < 0 then "-" + NatToString(-n) else NatToString(n)
  }

  /** The value of a non-empty run of digits. */
  function DigitsValue(s: string): Option<nat> {
    if s == [] || !IsDigit(s[|s| - 1]) then None
    else
      var d := s[|s| - 1] as int - '0' as int;
      if |s| == 1 then Some(d)
      else
        match DigitsValue(s[..|s| - 1])
        case None => None
        case Some(v) => Some(10 * v + d)
  }

  /** `str::parse` for an unsigned type with the given maximum. */
  function ParseUnsigned(s: string, max: nat): (r: Option<nat>)
    ensures r.Some? ==> r.value <= max
  {
    var digits := if s != [] && s[0] == '+' then s[1..] else s;
    match DigitsValue(digits)
    case None => None
    case Some(v) => if v <= max then Some(v) else None
  }

  function ParseU8(s: string): Option<u8> {
    match ParseUnsigned(s, 255)
    case None => None
    case Some(v) => Some(v)
  }

  function ParseI8(s: string): Option<i8> {
    if s != [] && s[0] == '-' then
      match DigitsValue(s[1..])
      case None => None
      case Some(v) => if v <= 128 then Some(0 - v as int) else None
    else
      match ParseUnsigned(s, 127)
      case None => None
      case Some(v) => Some(v)
  }

  lemma {:induction false} DigitsRoundTrip(n: nat)
    ensures DigitsValue(NatToString(n)) == Some(n)
  {
    if n >= 10 {
      var s := NatToString(n);
      assert s[..|s| - 1] == NatToString(n / 10);
      DigitsRoundTrip(n / 10);
    }
  }

  lemma UnsignedRoundTrip(n: nat, max: nat)
    requires n <= max
    ensures ParseUnsigned(NatToString(n), max) == Some(n)
  {
    assert IsDigit(NatToString(n)[0]);
    DigitsRoundTrip(n);
  }

  lemma NegativeRoundTrip(m: nat)
    requires 0 < m <= 128
    ensures ParseI8("-" + NatToString(m)) == Some(0 - m as int)
  {
    var s := "-" + NatToString(m);
    assert s[1..] == NatToString(m);
    DigitsRoundTrip(m);
  }

  lemma NonNegativeRoundTrip(m: nat)
    requires m <= 127
    ensures ParseI8(NatToString(m)) == Some(m)
  {
    assert IsDigit(NatToString(m)[0]);
    UnsignedRoundTrip(m, 127);
  }

  lemma I8RoundTrip(n: i8)
    ensures ParseI8(IntToString(n)) == Some(n)
  {
    var m: int := n;
    if m < 0 {
      NegativeRoundTrip(-m);
      assert IntToString(n) == "-" + NatToString(-m);
      assert 0 - (-m) == n;
    } else {
      NonNegativeRoundTrip(m);
    }
  }

  lemma NatToStringInjective(m: nat, n: nat)
    requires NatToString(m) == NatToString(n)
    ensures m == n
  {
    DigitsRoundTrip(m);
    DigitsRoundTrip(n);
  }

  /** The characters of a printed integer. */
  lemma IntToStringChars(n: int)
    ensures var s := IntToString(n); |s| >= 1 && forall i :: 0 <= i < |s| ==> s[i] == '-' || IsDigit(s[i])
  {
  }
}
