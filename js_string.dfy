/**
 * The two pieces of JavaScript string behaviour the application relies on:
 * `String.prototype.substring` and the decimal rendering of an integral
 * number inside a template literal (`${n}`).
 */
module JsString {

  /** ToIntegerOrInfinity followed by the clamp to `[0, len]` that `substring` applies. */
  function Clamp(x: int, len: nat): (r: nat)
    ensures r <= len
    ensures 0 <= x <= len ==> r == x
    ensures x < 0 ==> r == 0
    ensures x > len ==> r == len
  {
    if x < 0 then 0 else if x > len then len else x
  }

  /** `r` is a run of consecutive characters of `s`. */
  ghost predicate IsContiguousSubstring(r: string, s: string)
  {
    exists lo: nat, hi: nat :: lo <= hi <= |s| && r == s[lo..hi]
  }

  /**
   * `s.substring(start, end)`: both indices are clamped to `[0, |s|]` and
   * swapped when out of order, so the result is always a slice of `s`.
   */
  function Substring(s: string, start: int, end: int): (r: string)
    ensures IsContiguousSubstring(r, s)
    ensures 0 <= start <= end <= |s| ==> r == s[start..end]
    ensures 0 <= end <= start <= |s| ==> r == s[end..start]
    ensures 0 <= start <= |s| <= end ==> r == s[start..]
    ensures 0 <= end <= |s| <= start ==> r == s[end..]
    ensures start <= 0 <= end <= |s| ==> r == s[..end]
    ensures end <= 0 <= start <= |s| ==> r == s[..start]
    ensures |r| == if Clamp(start, |s|) <= Clamp(end, |s|)
                   then Clamp(end, |s|) - Clamp(start, |s|)
                   else Clamp(start, |s|) - Clamp(end, |s|)
  {
    var a := Clamp(start, |s|);
    var b := Clamp(end, |s|);
    if a <= b then s[a..b] else s[b..a]
  }

  /** `substring` does not care in which order its two indices come. */
  lemma SubstringSymmetric(s: string, start: int, end: int)
    ensures Substring(s, start, end) == Substring(s, end, start)
  {
  }

  predicate IsDigit(c: char)
  {
    '0' <= c <= '9'
  }

  function DigitChar(d: int): (c: char)
    requires 0 <= d < 10
    ensures IsDigit(c) && c as int - '0' as int == d
  {
    ('0' as int + d) as char
  }

  /** Decimal digits of `n`, most significant first, without leading zeros. */
  function NatToString(n: nat): (r: string)
    ensures |r| >= 1
    ensures forall i :: 0 <= i < |r| ==> IsDigit(r[i])
    ensures r[0] == '0' ==> n == 0 && r == "0"
    decreases n
  {
    if n < 10 then [DigitChar(n)] else NatToString(n / 10) + [DigitChar(n % 10)]
  }

  /** `${n}` for an integral number: an optional minus sign, then its decimal digits. */
  function NumberToString(n: int): (r: string)
    ensures |r| >= 1 && (r[0] == '-' <==> n < 0)
    ensures n < 0 ==> (forall i :: 1 <= i < |r| ==> IsDigit(r[i])) && DigitsValue(r[1..]) == -n
    ensures n >= 0 ==> (forall i :: 0 <= i < |r| ==> IsDigit(r[i])) && DigitsValue(r) == n
  {
    if n < 0 then
      var digits := NatToString(-n);
      NatToStringRoundTrip(-n);
      assert ("-" + digits)[1..] == digits;
      "-" + digits
    else
      NatToStringRoundTrip(n);
      NatToString(n)
  }

  /** The value of a string of decimal digits; the inverse of `NatToString`. */
  function DigitsValue(s: string): nat
    requires forall i :: 0 <= i < |s| ==> IsDigit(s[i])
  {
    if s == [] then 0
    else
      assert IsDigit(s[|s| - 1]);
      10 * DigitsValue(s[..|s| - 1]) + (s[|s| - 1] as int - '0' as int)
  }

  /** Reading the rendered digits back gives the number. */
  lemma {:induction false} NatToStringRoundTrip(n: nat)
    ensures DigitsValue(NatToString(n)) == n
    decreases n
  {
    if n >= 10 {
      var r := NatToString(n);
      assert r[..|r| - 1] == NatToString(n / 10);
      NatToStringRoundTrip(n / 10);
    }
  }

  /** A digit string that does not start with 0 has a value of at least 1. */
  lemma {:induction false} LeadingDigitPositive(s: string)
    requires |s| >= 1 && forall i :: 0 <= i < |s| ==> IsDigit(s[i])
    requires s[0] != '0'
    ensures DigitsValue(s) >= 1
    decreases |s|
  {
    if |s| > 1 {
      var init := s[..|s| - 1];
      assert init[0] == s[0];
      LeadingDigitPositive(init);
    }
  }

  /** A digit string with no leading zero is the rendering of its own value. */
  lemma {:induction false} DigitsRoundTrip(s: string)
    requires |s| >= 1 && forall i :: 0 <= i < |s| ==> IsDigit(s[i])
    requires s[0] != '0' || |s| == 1
    ensures NatToString(DigitsValue(s)) == s
    decreases |s|
  {
    var v := DigitsValue(s);
    if |s| > 1 {
      var init := s[..|s| - 1];
      var d := s[|s| - 1] as int - '0' as int;
      assert init[0] == s[0];
      LeadingDigitPositive(init);
      DigitsRoundTrip(init);
      assert v == 10 * DigitsValue(init) + d;
      assert v / 10 == DigitsValue(init) && v % 10 == d;
      assert s == init + [s[|s| - 1]];
    }
  }
}
