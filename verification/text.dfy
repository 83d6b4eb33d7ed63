/** The .NET string and number primitives the service and the controller call:
    `Trim`, `string.IsNullOrWhiteSpace`, `ToLowerInvariant`, `StartsWith`,
    `Split(c)[0]` and `int.TryParse`, each stated on `seq<char>`. */
module Text {
  import opened Wrappers
  import opened Numerics

  /** `char.IsWhiteSpace`: the Unicode space, line and paragraph separators
      together with U+0009..U+000D and U+0085. `Trim` and
      `IsNullOrWhiteSpace` use this set. */
  predicate IsWhiteSpace(c: char) {
    || ('\t' <= c <= '\r')
    || c == ' '
    || c == '\U{85}'
    || c == '\U{A0}'
    || c == '\U{1680}'
    || ('\U{2000}' <= c <= '\U{200A}')
    || c == '\U{2028}'
    || c == '\U{2029}'
    || c == '\U{202F}'
    || c == '\U{205F}'
    || c == '\U{3000}'
  }

  /** The white space `int.TryParse` skips around a number: U+0009..U+000D
      and U+0020 only. */
  predicate IsNumberWhite(c: char) {
    ('\t' <= c <= '\r') || c == ' '
  }

  /** Which of the two white-space sets a trim removes. */
  datatype WhiteSet = CharWhiteSpace | NumberWhite

  predicate IsWhite(white: WhiteSet, c: char) {
    match white
    case CharWhiteSpace => IsWhiteSpace(c)
    case NumberWhite => IsNumberWhite(c)
  }

  /** Drops the leading characters of the set `white`. */
  function TrimStartBy(s: string, white: WhiteSet): (r: string)
    ensures |r| <= |s| && r == s[|s| - |r|..]
    ensures r == [] || !IsWhite(white, r[0])
    decreases |s|
  {
    if |s| > 0 && IsWhite(white, s[0]) then TrimStartBy(s[1..], white) else s
  }

  /** What `TrimStartBy` drops is white. */
  lemma {:induction false} TrimStartDropsWhite(s: string, white: WhiteSet)
    ensures forall i :: 0 <= i < |s| - |TrimStartBy(s, white)| ==> IsWhite(white, s[i])
    decreases |s|
  {
    if |s| > 0 && IsWhite(white, s[0]) {
      TrimStartDropsWhite(s[1..], white);
      forall i | 1 <= i < |s| - |TrimStartBy(s, white)|
        ensures IsWhite(white, s[i])
      {
        assert s[i] == s[1..][i - 1];
      }
    }
  }

  /** Drops the trailing characters of the set `white`. */
  function TrimEndBy(s: string, white: WhiteSet): (r: string)
    ensures |r| <= |s| && r == s[..|r|]
    ensures r == [] || !IsWhite(white, r[|r| - 1])
    decreases |s|
  {
    if |s| > 0 && IsWhite(white, s[|s| - 1]) then TrimEndBy(s[..|s| - 1], white) else s
  }

  /** What `TrimEndBy` drops is white. */
  lemma {:induction false} TrimEndDropsWhite(s: string, white: WhiteSet)
    ensures forall i :: |TrimEndBy(s, white)| <= i < |s| ==> IsWhite(white, s[i])
    decreases |s|
  {
    if |s| > 0 && IsWhite(white, s[|s| - 1]) {
      TrimEndDropsWhite(s[..|s| - 1], white);
    }
  }

  /** A string that neither starts nor ends with a character of the set `white`. */
  predicate IsTrimmedBy(s: string, white: WhiteSet) {
    s == [] || (!IsWhite(white, s[0]) && !IsWhite(white, s[|s| - 1]))
  }

  /** The number of leading characters of the set `white`. */
  function Lead(s: string, white: WhiteSet): nat {
    |s| - |TrimStartBy(s, white)|
  }

  /** Drops the characters of the set `white` at both ends, leaving the infix
      that starts after the leading white space. */
  function TrimBy(s: string, white: WhiteSet): (r: string)
    ensures IsTrimmedBy(r, white)
    ensures Lead(s, white) + |r| <= |s| && r == s[Lead(s, white)..Lead(s, white) + |r|]
  {
    TrimEndBy(TrimStartBy(s, white), white)
  }

  /** Only characters of `white` lie outside the trimmed infix, and trimming
      leaves nothing exactly when every character of `s` is in `white`. */
  lemma TrimDropsOnlyWhite(s: string, white: WhiteSet)
    ensures var r := TrimBy(s, white);
      && (forall i :: 0 <= i < Lead(s, white) ==> IsWhite(white, s[i]))
      && (forall i :: Lead(s, white) + |r| <= i < |s| ==> IsWhite(white, s[i]))
    ensures TrimBy(s, white) == [] <==> forall i :: 0 <= i < |s| ==> IsWhite(white, s[i])
  {
    var t := TrimStartBy(s, white);
    var r := TrimBy(s, white);
    var lead := Lead(s, white);
    TrimStartDropsWhite(s, white);
    TrimEndDropsWhite(t, white);
    forall i | lead + |r| <= i < |s|
      ensures IsWhite(white, s[i])
    {
      assert s[i] == t[i - lead];
    }
  }

  /** Trimming a string that is already trimmed changes nothing. */
  lemma TrimmedIsFixedPoint(s: string, white: WhiteSet)
    requires IsTrimmedBy(s, white)
    ensures TrimBy(s, white) == s
  {
  }

  /** `String.Trim()`. */
  function Trim(s: string): (r: string)
    ensures IsTrimmedBy(r, CharWhiteSpace)
    ensures |r| <= |s|
  {
    TrimBy(s, CharWhiteSpace)
  }

  /** `string.IsNullOrWhiteSpace`; `None` stands for `null`. */
  predicate IsNullOrWhiteSpace(s: Option<string>) {
    match s
    case None => true
    case Some(t) => forall i :: 0 <= i < |t| ==> IsWhiteSpace(t[i])
  }

  /** A non-null string is blank exactly when trimming leaves nothing of it. */
  lemma BlankIffTrimEmpty(s: string)
    ensures IsNullOrWhiteSpace(Some(s)) <==> Trim(s) == []
  {
    TrimDropsOnlyWhite(s, CharWhiteSpace);
  }

  /** `char.ToLowerInvariant` on the ASCII letters; every other character is
      kept as it is. */
  function LowerChar(c: char): (r: char)
    ensures 'A' <= c <= 'Z' ==> r as int == c as int + 32
    ensures !('A' <= c <= 'Z') ==> r == c
  {
    if 'A' <= c <= 'Z' then (c as int + 32) as char else c
  }

  /** `String.ToLowerInvariant()`, character by character. */
  function ToLowerInvariant(s: string): (r: string)
    ensures |r| == |s|
    ensures forall i :: 0 <= i < |s| ==> r[i] == LowerChar(s[i])
  {
    seq(|s|, i requires 0 <= i < |s| => LowerChar(s[i]))
  }

  /** Lower-casing keeps white space white and everything else not white. */
  lemma LowerKeepsWhiteSpace(c: char)
    ensures IsWhiteSpace(LowerChar(c)) <==> IsWhiteSpace(c)
  {
  }

  /** Lower-casing a lower-cased string changes nothing. */
  lemma LowerIdempotent(s: string)
    ensures ToLowerInvariant(ToLowerInvariant(s)) == ToLowerInvariant(s)
  {
  }

  /** Lower-casing a trimmed string leaves it trimmed. */
  lemma LowerKeepsTrimmed(s: string)
    requires IsTrimmedBy(s, CharWhiteSpace)
    ensures IsTrimmedBy(ToLowerInvariant(s), CharWhiteSpace)
  {
    if s != [] {
      LowerKeepsWhiteSpace(s[0]);
      LowerKeepsWhiteSpace(s[|s| - 1]);
    }
  }

  /** A string of lower-case ASCII letters is left alone by trimming and by
      lower-casing. */
  lemma LowerLettersAreNormal(s: string)
    requires forall i :: 0 <= i < |s| ==> 'a' <= s[i] <= 'z'
    ensures ToLowerInvariant(Trim(s)) == s
  {
    if s != [] {
      assert !IsWhiteSpace(s[0]) && !IsWhiteSpace(s[|s| - 1]);
    }
    TrimmedIsFixedPoint(s, CharWhiteSpace);
  }

  /** `s.StartsWith(prefix)`, simplified to an ordinal, character-by-character
      comparison; the culture-sensitive overload the code calls also skips
      ignorable characters such as the soft hyphen. */
  predicate StartsWith(s: string, prefix: string) {
    |prefix| <= |s| && s[..|prefix|] == prefix
  }

  /** `s.Split(sep)[0]`: the text before the first `sep`, or all of `s` when it
      holds none. */
  function FirstField(s: string, sep: char): (r: string)
    ensures sep !in r
    ensures |r| <= |s| && r == s[..|r|]
    ensures |r| < |s| ==> s[|r|] == sep
  {
    if s == [] || s[0] == sep then [] else [s[0]] + FirstField(s[1..], sep)
  }

  predicate IsDigit(c: char) {
    '0' <= c <= '9'
  }

  /** Every character of `s` is a decimal digit (checked from the end, the
      way `DigitsValue` reads the string). */
  predicate AllDigits(s: string) {
    s == [] || (IsDigit(s[|s| - 1]) && AllDigits(s[..|s| - 1]))
  }

  lemma {:induction false} AllDigitsEach(s: string)
    ensures AllDigits(s) <==> forall i :: 0 <= i < |s| ==> IsDigit(s[i])
    decreases |s|
  {
    if s != [] {
      AllDigitsEach(s[..|s| - 1]);
    }
  }

  function DigitValue(c: char): (d: nat)
    requires IsDigit(c)
    ensures d <= 9
  {
    c as int - '0' as int
  }

  /** The value of a string of decimal digits, most significant first. */
  function DigitsValue(s: string): (v: nat)
    requires AllDigits(s)
  {
    if s == [] then 0 else DigitsValue(s[..|s| - 1]) * 10 + DigitValue(s[|s| - 1])
  }

  /** `int.TryParse(s, out v)` with the default `NumberStyles.Integer`: white
      space around the number, an optional sign, at least one decimal digit,
      and a value that fits an `int`. */
  function ParseInt32(s: string): (r: Option<int32>)
    ensures r.Some? && r.value < 0 ==> '-' in s
  {
    var t := TrimBy(s, NumberWhite);
    var r := ParseSigned(t);
    assert r.Some? && r.value < 0 ==> s[Lead(s, NumberWhite)] == t[0];
    r
  }

  /** The number a string without surrounding white space spells: an optional
      sign followed by at least one decimal digit, within the range of `int`. */
  function ParseSigned(t: string): (r: Option<int32>)
    ensures r.Some? && r.value < 0 ==> |t| > 0 && t[0] == '-'
  {
    var negative := |t| > 0 && t[0] == '-';
    var digits := if |t| > 0 && (t[0] == '-' || t[0] == '+') then t[1..] else t;
    if digits == [] || !AllDigits(digits) then None
    else
      var v: int := if negative then 0 - DigitsValue(digits) else DigitsValue(digits);
      if MinInt32 <= v <= MaxInt32 then Some(v) else None
  }

  /** The decimal spelling of `n` without leading zeros, as `n.ToString()`. */
  function NatToString(n: nat): (s: string)
    ensures s != [] && AllDigits(s)
    decreases n
  {
    if n < 10 then ['0' + (n as char)]
    else
      var s := NatToString(n / 10) + ['0' + ((n % 10) as char)];
      assert s[..|s| - 1] == NatToString(n / 10);
      s
  }

  /** Reading back the decimal spelling of `n` yields `n`. */
  lemma {:induction false} DigitsValueOfNatToString(n: nat)
    ensures DigitsValue(NatToString(n)) == n
    decreases n
  {
    if n >= 10 {
      var s := NatToString(n);
      assert s[..|s| - 1] == NatToString(n / 10);
      DigitsValueOfNatToString(n / 10);
    }
  }

  /** `int.TryParse` reads back the decimal spelling of every non-negative `int`. */
  lemma ParseInt32OfNatToString(n: nat)
    requires n <= MaxInt32
    ensures ParseInt32(NatToString(n)) == Some(n)
  {
    var s := NatToString(n);
    DigitsAreTrimmed(s);
    DigitsValueOfNatToString(n);
    UnsignedDigits(s);
  }

  /** A non-empty string of digits has no white space to trim. */
  lemma DigitsAreTrimmed(s: string)
    requires s != [] && AllDigits(s)
    ensures TrimBy(s, NumberWhite) == s
  {
    AllDigitsEach(s);
    assert IsDigit(s[0]) && IsDigit(s[|s| - 1]);
    TrimmedIsFixedPoint(s, NumberWhite);
  }

  /** A non-empty string of digits spelling an `int` parses as its value. */
  lemma UnsignedDigits(s: string)
    requires s != [] && AllDigits(s) && DigitsValue(s) <= MaxInt32
    ensures ParseSigned(s) == Some(DigitsValue(s))
  {
    AllDigitsEach(s);
    assert IsDigit(s[0]);
  }

  /** A string without digits never parses as a number. */
  lemma NoDigitsNoNumber(s: string)
    requires forall i :: 0 <= i < |s| ==> !IsDigit(s[i])
    ensures ParseInt32(s) == None
  {
    var t := TrimBy(s, NumberWhite);
    var lead := Lead(s, NumberWhite);
    forall i | 0 <= i < |t|
      ensures !IsDigit(t[i])
    {
      assert t[i] == s[lead + i];
    }
    NoDigitsNoSigned(t);
  }

  lemma NoDigitsNoSigned(t: string)
    requires forall i :: 0 <= i < |t| ==> !IsDigit(t[i])
    ensures ParseSigned(t) == None
  {
    var k := if |t| > 0 && (t[0] == '-' || t[0] == '+') then 1 else 0;
    if k < |t| {
      AllDigitsEach(t[k..]);
      assert t[k..][0] == t[k];
    }
  }
}
