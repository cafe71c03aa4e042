/** Character classes, trimming and integer/decimal conversions used by the
    Konklav parser and formatter. Each follows the .NET routine the original
    code calls (`char.IsWhiteSpace`, `string.IsNullOrWhiteSpace`,
    `string.Trim`, `int.ToString`). */
module Text {

  /** .NET `char.IsWhiteSpace`: the Unicode space, line and paragraph
      separators plus U+0009..U+000D and U+0085. */
  predicate IsWhiteSpace(c: char) {
    ('\U{0009}' <= c <= '\U{000D}') || c == ' ' || c == '\U{0085}' || c == '\U{00A0}'
    || c == '\U{1680}' || ('\U{2000}' <= c <= '\U{200A}') || c == '\U{2028}'
    || c == '\U{2029}' || c == '\U{202F}' || c == '\U{205F}' || c == '\U{3000}'
  }

  /** .NET `string.IsNullOrWhiteSpace` on a non-null string. */
  predicate IsBlank(s: string) {
    forall i :: 0 <= i < |s| ==> IsWhiteSpace(s[i])
  }

  /** .NET `string.Trim()`: drops leading and trailing white space. */
  function Trim(s: string): (r: string)
    ensures |r| <= |s|
    ensures r == [] || (!IsWhiteSpace(r[0]) && !IsWhiteSpace(r[|r| - 1]))
    ensures IsBlank(s) <==> r == []
  {
    TrimEnd(TrimStart(s))
  }

  function TrimStart(s: string): (r: string)
    ensures |r| <= |s|
    ensures r == [] || !IsWhiteSpace(r[0])
    ensures IsBlank(s) <==> r == []
    ensures IsBlank(r) ==> IsBlank(s)
  {
    if s != [] && IsWhiteSpace(s[0]) then
      var r := TrimStart(s[1..]);
      assert IsBlank(s[1..]) ==> IsBlank(s) by {
        if IsBlank(s[1..]) {
          forall k | 0 < k < |s| ensures IsWhiteSpace(s[k]) { assert s[k] == s[1..][k - 1]; }
        }
      }
      r
    else
      s
  }

  function TrimEnd(s: string): (r: string)
    ensures |r| <= |s|
    ensures r == [] || !IsWhiteSpace(r[|r| - 1])
    ensures IsBlank(s) <==> r == []
    ensures r != [] ==> r[0] == s[0]
  {
    if s != [] && IsWhiteSpace(s[|s| - 1]) then
      var r := TrimEnd(s[..|s| - 1]);
      assert IsBlank(s[..|s| - 1]) ==> IsBlank(s) by {
        if IsBlank(s[..|s| - 1]) {
          forall k | 0 <= k < |s| - 1 ensures IsWhiteSpace(s[k]) { assert s[k] == s[..|s| - 1][k]; }
        }
      }
      r
    else
      s
  }

  predicate IsDigit(c: char) { '0' <= c <= '9' }

  predicate AllDigits(s: string) { forall i :: 0 <= i < |s| ==> IsDigit(s[i]) }

  function DigitValue(c: char): (d: nat)
    requires IsDigit(c)
    ensures d < 10
  {
    (c as int) - ('0' as int)
  }

  function DigitChar(d: nat): (c: char)
    requires d < 10
    ensures IsDigit(c) && DigitValue(c) == d
  {
    (('0' as int) + d) as char
  }

  /** The value of a run of decimal digits, most significant first. */
  function DigitsValue(ds: string): nat
    requires AllDigits(ds)
  {
    if ds == [] then 0 else DigitsValue(ds[..|ds| - 1]) * 10 + DigitValue(ds[|ds| - 1])
  }

  /** Writing b after a shifts a's value left by |b| decimal places. */
  lemma {:induction false} DigitsValueAppend(a: string, b: string)
    requires AllDigits(a) && AllDigits(b)
    ensures AllDigits(a + b)
    ensures DigitsValue(a + b) == DigitsValue(a) * Pow10(|b|) + DigitsValue(b)
    decreases |b|
  {
    if b == [] {
      assert a + b == a;
    } else {
      var b', d := b[..|b| - 1], b[|b| - 1];
      assert a + b == (a + b') + [d];
      DigitsValueAppend(a, b');
      var va, vb', p' := DigitsValue(a), DigitsValue(b'), Pow10(|b'|);
      assert (a + b)[..|a + b| - 1] == a + b';
      assert b[..|b| - 1] == b';
      assert DigitsValue(a + b) == (va * p' + vb') * 10 + DigitValue(d);
      assert DigitsValue(b) == vb' * 10 + DigitValue(d) && Pow10(|b|) == p' * 10;
      ShiftByOneDigit(va, p', vb', DigitValue(d));
    }
  }

  lemma ShiftByOneDigit(va: int, p: int, vb: int, dv: int)
    ensures (va * p + vb) * 10 + dv == va * (p * 10) + (vb * 10 + dv)
  {
  }

  /** Decimal text of a natural number, without sign or leading zeros
      (.NET `ToString()` on a non-negative `int`). */
  function NatToString(n: nat): (r: string)
    ensures |r| > 0 && AllDigits(r)
    ensures DigitsValue(r) == n
  {
    if n < 10 then [DigitChar(n)]
    else
      var r := NatToString(n / 10) + [DigitChar(n % 10)];
      assert r[..|r| - 1] == NatToString(n / 10);
      r
  }

  /** .NET `int.ToString()` with the invariant culture: an optional '-'
      followed by the digits of the magnitude. */
  function IntToString(v: int): (r: string)
    ensures v < 0 ==> r == "-" + NatToString(-v)
    ensures v >= 0 ==> r == NatToString(v)
  {
    if v < 0 then "-" + NatToString(-v) else NatToString(v)
  }

  /** The decimal text of an int32 magnitude has at most ten digits. */
  lemma Int32MagnitudeDigits(n: nat)
    requires n <= 2147483648
    ensures |NatToString(n)| <= 10
  {
    assert Pow10(10) == 10000000000;
    BoundedLength(n, 10);
  }

  lemma {:induction false} BoundedLength(n: nat, k: nat)
    requires n < Pow10(k)
    requires k > 0
    ensures |NatToString(n)| <= k
  {
    if n >= 10 {
      assert Pow10(1) == 10;
      assert n / 10 < Pow10(k - 1);
      BoundedLength(n / 10, k - 1);
    }
  }

  function Pow10(k: nat): (r: nat)
    ensures r >= 1
  {
    if k == 0 then 1 else 10 * Pow10(k - 1)
  }

  /** `haystack.Contains(needle)` on strings. */
  predicate ContainsText(haystack: string, needle: string) {
    exists i :: 0 <= i <= |haystack| - |needle| && OccursAt(haystack, needle, i)
  }

  predicate OccursAt(haystack: string, needle: string, i: nat)
    requires i + |needle| <= |haystack|
  {
    haystack[i..i + |needle|] == needle
  }
}
