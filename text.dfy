/**
 * The .NET string primitives the application relies on, over `seq<char>`:
 * `char.IsWhiteSpace`, `string.IsNullOrWhiteSpace`, `Trim`, ordinal and
 * ASCII case-insensitive comparison, `Split` with `RemoveEmptyEntries`,
 * decimal formatting of integers and `int.TryParse`.
 */
module Text {
  import opened Wrappers

  const Int32Min: int := -0x8000_0000
  const Int32Max: int := 0x7FFF_FFFF

  predicate InInt32(x: int) {
    Int32Min <= x <= Int32Max
  }

  /** A C# `int`. */
  type Int32 = x: int | Int32Min <= x <= Int32Max

  // ---------------------------------------------------------------------
  // White space

  /** `char.IsWhiteSpace`: the Unicode space separators, line and paragraph
      separators, and the control characters U+0009..U+000D and U+0085. */
  predicate IsWhiteSpace(c: char) {
    ('\t' <= c <= '\r') || c == ' ' || c == '\U{85}' || c == '\U{A0}'
    || c == '\U{1680}' || ('\U{2000}' <= c <= '\U{200A}')
    || c == '\U{2028}' || c == '\U{2029}' || c == '\U{202F}'
    || c == '\U{205F}' || c == '\U{3000}'
  }

  /** `string.IsNullOrWhiteSpace` on a non-null string. */
  predicate IsBlank(s: string) {
    forall i :: 0 <= i < |s| ==> IsWhiteSpace(s[i])
  }

  /** `string.IsNullOrWhiteSpace` on a possibly null string. */
  predicate IsNullOrWhiteSpace(s: Option<string>) {
    s.None? || IsBlank(s.value)
  }

  /** `string.IsNullOrEmpty`. */
  predicate IsNullOrEmpty(s: Option<string>) {
    s.None? || s.value == ""
  }

  function TrimStart(s: string): (r: string)
    ensures |r| <= |s| && r == s[|s| - |r|..]
    ensures |r| > 0 ==> !IsWhiteSpace(r[0])
    ensures forall i :: 0 <= i < |s| - |r| ==> IsWhiteSpace(s[i])
  {
    if |s| > 0 && IsWhiteSpace(s[0]) then TrimStart(s[1..]) else s
  }

  function TrimEnd(s: string): (r: string)
    ensures |r| <= |s| && r == s[..|r|]
    ensures |r| > 0 ==> !IsWhiteSpace(r[|r| - 1])
    ensures forall i :: |r| <= i < |s| ==> IsWhiteSpace(s[i])
  {
    if |s| > 0 && IsWhiteSpace(s[|s| - 1]) then TrimEnd(s[..|s| - 1]) else s
  }

  /** `string.Trim()`: removes leading and trailing white space. */
  function Trim(s: string): (r: string)
    ensures |r| <= |s|
    ensures |r| > 0 ==> !IsWhiteSpace(r[0]) && !IsWhiteSpace(r[|r| - 1])
    ensures IsBlank(s) <==> r == ""
  {
    var t := TrimEnd(TrimStart(s));
    assert t == "" ==> IsBlank(s) by {
      if t == "" {
        assert TrimStart(s) == "";
      }
    }
    t
  }

  // ---------------------------------------------------------------------
  // Ordinal and case-insensitive comparison

  /** Upper-casing of ASCII letters; every other character is kept. */
  function UpperChar(c: char): char {
    if 'a' <= c <= 'z' then (c as int - 32) as char else c
  }

  function Upper(s: string): (r: string)
    ensures |r| == |s|
    ensures forall i :: 0 <= i < |s| ==> r[i] == UpperChar(s[i])
  {
    seq(|s|, i requires 0 <= i < |s| => UpperChar(s[i]))
  }

  /** Lower-casing of ASCII letters; every other character is kept. */
  function LowerChar(c: char): char {
    if 'A' <= c <= 'Z' then (c as int + 32) as char else c
  }

  function Lower(s: string): (r: string)
    ensures |r| == |s|
    ensures forall i :: 0 <= i < |s| ==> r[i] == LowerChar(s[i])
  {
    seq(|s|, i requires 0 <= i < |s| => LowerChar(s[i]))
  }

  /** `sub` occurs in `s` at position `i` (ordinal comparison). */
  predicate OccursAt(s: string, sub: string, i: int) {
    0 <= i && i + |sub| <= |s| && s[i..i + |sub|] == sub
  }

  /** `string.Contains(sub)`, ordinal. */
  predicate Contains(s: string, sub: string) {
    exists i :: 0 <= i <= |s| - |sub| && OccursAt(s, sub, i)
  }

  /** `Contains(sub, StringComparison.OrdinalIgnoreCase)`. */
  predicate ContainsIgnoreCase(s: string, sub: string) {
    Contains(Upper(s), Upper(sub))
  }

  /** `string.Equals(a, b, StringComparison.OrdinalIgnoreCase)`. */
  predicate EqualsIgnoreCase(a: string, b: string) {
    Upper(a) == Upper(b)
  }

  /** `IndexOf(sub, StringComparison.Ordinal)`: the first occurrence, or -1. */
  function IndexOf(s: string, sub: string): (r: int)
    requires |sub| > 0
    ensures r == -1 <==> !Contains(s, sub)
    ensures r != -1 ==>
      OccursAt(s, sub, r) && forall j :: 0 <= j < r ==> !OccursAt(s, sub, j)
    decreases |s|
  {
    if |s| < |sub| then -1
    else if s[..|sub|] == sub then
      assert OccursAt(s, sub, 0);
      0
    else
      var k := IndexOf(s[1..], sub);
      if k == -1 then
        assert !Contains(s, sub) by {
          forall i | 0 <= i <= |s| - |sub| ensures !OccursAt(s, sub, i) {
            if i > 0 {
              OccursAtTail(s, sub, i);
              assert !OccursAt(s[1..], sub, i - 1);
            }
          }
        }
        -1
      else
        OccursAtTail(s, sub, k + 1);
        forall j | 0 <= j < k + 1 ensures !OccursAt(s, sub, j) {
          if j > 0 {
            OccursAtTail(s, sub, j);
          }
        }
        k + 1
  }

  lemma OccursAtTail(s: string, sub: string, i: int)
    requires 1 <= i && |s| >= 1
    ensures OccursAt(s, sub, i) <==> OccursAt(s[1..], sub, i - 1)
  {
    if i + |sub| <= |s| {
      var a, b := s[i..i + |sub|], s[1..][i - 1..i - 1 + |sub|];
      assert |a| == |b|;
      forall k | 0 <= k < |a| ensures a[k] == b[k] {
        assert a[k] == s[i + k];
        assert b[k] == s[1..][i - 1 + k] == s[i + k];
      }
      assert a == b;
    }
  }

  /** `string.Split(sep)` without options: the pieces between the
      non-overlapping occurrences of `sep`, found from the left. */
  function SplitOn(s: string, sep: string): (r: seq<string>)
    requires |sep| > 0
    ensures |r| >= 1
    ensures !Contains(s, sep) ==> r == [s]
    decreases |s|
  {
    var k := IndexOf(s, sep);
    if k == -1 then [s]
    else [s[..k]] + SplitOn(s[k + |sep|..], sep)
  }

  /** The `StringSplitOptions.RemoveEmptyEntries` filter. */
  function RemoveEmpty(parts: seq<string>): (r: seq<string>)
    ensures |r| <= |parts|
    ensures forall i :: 0 <= i < |r| ==> r[i] != "" && r[i] in parts
  {
    if parts == [] then []
    else if parts[0] == "" then RemoveEmpty(parts[1..])
    else [parts[0]] + RemoveEmpty(parts[1..])
  }

  /** `s.Split(sep, StringSplitOptions.RemoveEmptyEntries)`. */
  function Split(s: string, sep: string): (r: seq<string>)
    requires |sep| > 0
    ensures forall i :: 0 <= i < |r| ==> r[i] != ""
  {
    RemoveEmpty(SplitOn(s, sep))
  }

  // ---------------------------------------------------------------------
  // Decimal digits

  predicate IsDigit(c: char) {
    '0' <= c <= '9'
  }

  predicate AllDigits(s: string) {
    forall i :: 0 <= i < |s| ==> IsDigit(s[i])
  }

  function DigitChar(d: int): (c: char)
    requires 0 <= d <= 9
    ensures IsDigit(c) && c as int - '0' as int == d
  {
    ('0' as int + d) as char
  }

  /** The value of a string of decimal digits, most significant first. */
  function DigitsValue(s: string): (v: nat)
    requires AllDigits(s)
  {
    if s == [] then 0
    else 10 * DigitsValue(s[..|s| - 1]) + (s[|s| - 1] as int - '0' as int)
  }

  /** Decimal text of a natural number, without leading zeros. */
  function FormatNat(n: nat): (r: string)
    ensures |r| >= 1 && AllDigits(r)
    ensures |r| > 1 ==> r[0] != '0'
  {
    if n < 10 then [DigitChar(n)]
    else FormatNat(n / 10) + [DigitChar(n % 10)]
  }

  /** `int.ToString()` with the invariant negative sign. */
  function FormatInt(n: int): (r: string)
    ensures |r| >= 1
    ensures n >= 0 ==> AllDigits(r)
    ensures n < 0 ==> r[0] == '-' && AllDigits(r[1..])
  {
    if n < 0 then "-" + FormatNat(-n) else FormatNat(n)
  }

  /** The `D2` format of a non-negative integer: at least two digits. */
  function FormatD2(n: nat): (r: string)
    ensures |r| >= 2 && AllDigits(r)
  {
    if n < 10 then "0" + FormatNat(n) else FormatNat(n)
  }

  lemma {:induction false} DigitsValueOfFormatNat(n: nat)
    ensures DigitsValue(FormatNat(n)) == n
    decreases n
  {
    if n >= 10 {
      var s := FormatNat(n);
      assert s[..|s| - 1] == FormatNat(n / 10);
      DigitsValueOfFormatNat(n / 10);
    }
  }

  lemma {:induction false} DigitsValueLeadingZero(s: string)
    requires AllDigits(s)
    ensures AllDigits("0" + s) && DigitsValue("0" + s) == DigitsValue(s)
    decreases |s|
  {
    if s != [] {
      assert ("0" + s)[..|"0" + s| - 1] == "0" + s[..|s| - 1];
      DigitsValueLeadingZero(s[..|s| - 1]);
    }
  }

  lemma DigitsValueOfFormatD2(n: nat)
    ensures DigitsValue(FormatD2(n)) == n
  {
    DigitsValueOfFormatNat(n);
    if n < 10 {
      DigitsValueLeadingZero(FormatNat(n));
    }
  }

  // ---------------------------------------------------------------------
  // int.TryParse

  /** The white space `NumberStyles.Integer` allows around a number. */
  predicate IsNumberWhite(c: char) {
    ('\t' <= c <= '\r') || c == ' '
  }

  function SkipNumberWhite(s: string): (r: string)
    ensures |r| <= |s| && r == s[|s| - |r|..]
  {
    if |s| > 0 && IsNumberWhite(s[0]) then SkipNumberWhite(s[1..]) else s
  }

  function DropNumberWhiteEnd(s: string): (r: string)
    ensures |r| <= |s| && r == s[..|r|]
  {
    if |s| > 0 && IsNumberWhite(s[|s| - 1]) then DropNumberWhiteEnd(s[..|s| - 1]) else s
  }

  /** The signed value of an optional sign followed by decimal digits. */
  function SignedDigits(t: string): Option<int> {
    var negative := |t| > 0 && t[0] == '-';
    var body := if |t| > 0 && (t[0] == '-' || t[0] == '+') then t[1..] else t;
    if body == [] || !AllDigits(body) then None
    else
      var v: int := if negative then -(DigitsValue(body) as int) else DigitsValue(body);
      if InInt32(v) then Some(v) else None
  }

  /** `int.TryParse(s, out v)` with the default `NumberStyles.Integer`:
      surrounding white space, an optional sign, ASCII digits, and a value
      that fits in 32 bits; a null string gives `false`. */
  function TryParseInt(s: Option<string>): (r: Option<int>)
    ensures r.Some? ==> InInt32(r.value)
  {
    match s
    case None => None
    case Some(text) => SignedDigits(DropNumberWhiteEnd(SkipNumberWhite(text)))
  }

  lemma ParseOfDigits(s: string)
    requires s != [] && AllDigits(s) && DigitsValue(s) <= Int32Max
    ensures TryParseInt(Some(s)) == Some(DigitsValue(s))
  {
    assert SkipNumberWhite(s) == s;
    assert DropNumberWhiteEnd(s) == s;
  }

  /** Formatting a 32-bit non-negative integer and parsing it back is the identity. */
  lemma ParseFormatNat(n: nat)
    requires n <= Int32Max
    ensures TryParseInt(Some(FormatNat(n))) == Some(n)
  {
    DigitsValueOfFormatNat(n);
    ParseOfDigits(FormatNat(n));
  }

  lemma ParseFormatD2(n: nat)
    requires n <= Int32Max
    ensures TryParseInt(Some(FormatD2(n))) == Some(n)
  {
    DigitsValueOfFormatD2(n);
    ParseOfDigits(FormatD2(n));
  }

  // ---------------------------------------------------------------------
  // Splitting two digit strings joined by a separator

  lemma NoOccurrenceInDigits(s: string, sep: string)
    requires AllDigits(s) && |sep| > 0 && !IsDigit(sep[0])
    ensures !Contains(s, sep)
  {
    forall i | 0 <= i <= |s| - |sep| ensures !OccursAt(s, sep, i) {
      assert s[i..i + |sep|][0] == s[i];
    }
  }

  /** Two non-empty digit strings joined by a separator that starts with a
      non-digit split back into exactly those two strings. */
  lemma SplitJoinedDigits(a: string, sep: string, b: string)
    requires a != [] && b != [] && AllDigits(a) && AllDigits(b)
    requires |sep| > 0 && forall i :: 0 <= i < |sep| ==> !IsDigit(sep[i])
    ensures Split(a + sep + b, sep) == [a, b]
  {
    var s := a + sep + b;
    assert OccursAt(s, sep, |a|) by {
      assert s[|a|..|a| + |sep|] == sep;
    }
    forall j | 0 <= j < |a| ensures !OccursAt(s, sep, j) {
      assert s[j..j + |sep|][0] == s[j] == a[j];
    }
    var k := IndexOf(s, sep);
    assert k == |a|;
    assert s[..k] == a;
    assert s[k + |sep|..] == b;
    NoOccurrenceInDigits(b, sep);
    assert SplitOn(s, sep) == [a, b];
    assert RemoveEmpty([b]) == [b];
  }
}
