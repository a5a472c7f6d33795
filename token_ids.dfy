/**
 * Token identifiers and example indices as text: the trailing `_`-separated
 * segment of a token id read as an integer (`int(id.split("_")[-1])`), and the
 * decimal rendering of an example index (`str(exampleIndex)`).
 */
module TokenIds {
  import opened Wrappers

  predicate IsDigit(c: char) { '0' <= c <= '9' }

  /** The characters Python's `int()` skips around a number: space, \t, \n, \v, \f, \r. */
  predicate IsSpace(c: char) { c == ' ' || '\t' <= c <= '\r' }

  /** Every character of `s[lo..hi]` is a digit. */
  predicate DigitsIn(s: string, lo: nat, hi: nat)
    requires lo <= hi <= |s|
  {
    forall k :: lo <= k < hi ==> IsDigit(s[k])
  }

  predicate AllDigits(s: string) { DigitsIn(s, 0, |s|) }

  /** The text after the last underscore, or all of `s` when it has none. */
  function LastSegment(s: string): string
  {
    if |s| == 0 then ""
    else if s[|s| - 1] == '_' then ""
    else LastSegment(s[..|s| - 1]) + [s[|s| - 1]]
  }

  /** The last segment is a suffix free of underscores, and an underscore precedes it unless it is all of `s`. */
  lemma {:induction false} LastSegmentSpec(s: string)
    ensures var r := LastSegment(s);
            && '_' !in r
            && |r| <= |s| && r == s[|s| - |r|..]
            && (|r| < |s| ==> s[|s| - |r| - 1] == '_')
  {
    if |s| > 0 && s[|s| - 1] != '_' {
      var init := s[..|s| - 1];
      LastSegmentSpec(init);
      var r := LastSegment(init);
      assert s[|s| - |r| - 1..] == r + [s[|s| - 1]];
    }
  }

  lemma {:induction false} LastSegmentAfterUnderscore(prefix: string, segment: string)
    requires '_' !in segment
    ensures LastSegment(prefix + "_" + segment) == segment
  {
    var s := prefix + "_" + segment;
    if segment != [] {
      var init := segment[..|segment| - 1];
      assert s[..|s| - 1] == prefix + "_" + init;
      assert s[|s| - 1] == segment[|segment| - 1];
      LastSegmentAfterUnderscore(prefix, init);
      assert segment == init + [segment[|segment| - 1]];
    }
  }

  /** `s` without its leading white space, read from the left one character at a time. */
  function TrimLeft(s: string): string
  {
    if |s| == 0 then ""
    else
      var t := TrimLeft(s[..|s| - 1]);
      if |t| == 0 && IsSpace(s[|s| - 1]) then "" else t + [s[|s| - 1]]
  }

  /** `TrimLeft` removes exactly the white space in front of the first other character. */
  lemma {:induction false} TrimLeftSpec(s: string)
    ensures var r := TrimLeft(s);
            && |r| <= |s| && r == s[|s| - |r|..]
            && (forall k :: 0 <= k < |s| - |r| ==> IsSpace(s[k]))
            && (|r| > 0 ==> !IsSpace(r[0]))
  {
    if |s| > 0 {
      var init := s[..|s| - 1];
      TrimLeftSpec(init);
      var t := TrimLeft(init);
      if |t| > 0 || !IsSpace(s[|s| - 1]) {
        assert s[|s| - |t| - 1..] == t + [s[|s| - 1]];
      }
    }
  }

  /** A string that does not start with white space is its own `TrimLeft`. */
  lemma {:induction false} TrimLeftNoSpace(s: string)
    requires |s| > 0 && !IsSpace(s[0])
    ensures TrimLeft(s) == s
  {
    if |s| > 1 {
      var init := s[..|s| - 1];
      TrimLeftNoSpace(init);
      assert init + [s[|s| - 1]] == s;
    } else {
      assert s == [s[0]];
    }
  }

  function TrimRight(s: string): string
  {
    if |s| > 0 && IsSpace(s[|s| - 1]) then TrimRight(s[..|s| - 1]) else s
  }

  function DigitValue(c: char): nat
    requires IsDigit(c)
  {
    c as int - '0' as int
  }

  /** The value of the decimal digits `s[lo..hi]`, most significant first. */
  function DigitsValueIn(s: string, lo: nat, hi: nat): nat
    requires lo <= hi <= |s| && DigitsIn(s, lo, hi)
    decreases hi
  {
    if hi == lo then 0 else DigitsValueIn(s, lo, hi - 1) * 10 + DigitValue(s[hi - 1])
  }

  /** The value of a string of decimal digits. */
  function DigitsValue(ds: string): nat
    requires AllDigits(ds)
  {
    DigitsValueIn(ds, 0, |ds|)
  }

  /** Characters appended after `hi` do not change the digits in front of it. */
  lemma {:induction false} DigitsValueAppend(a: string, b: string, lo: nat, hi: nat)
    requires lo <= hi <= |a| && DigitsIn(a, lo, hi)
    ensures DigitsIn(a + b, lo, hi) && DigitsValueIn(a + b, lo, hi) == DigitsValueIn(a, lo, hi)
    decreases hi
  {
    assert forall k :: lo <= k < hi ==> (a + b)[k] == a[k];
    if hi > lo {
      DigitsValueAppend(a, b, lo, hi - 1);
    }
  }

  /** Characters prepended before the digits do not change their value. */
  lemma {:induction false} DigitsValuePrepend(p: string, d: string, hi: nat)
    requires hi <= |d| && DigitsIn(d, 0, hi)
    ensures DigitsIn(p + d, |p|, |p| + hi) && DigitsValueIn(p + d, |p|, |p| + hi) == DigitsValueIn(d, 0, hi)
  {
    assert forall k :: |p| <= k < |p| + hi ==> (p + d)[k] == d[k - |p|];
    if hi > 0 {
      DigitsValuePrepend(p, d, hi - 1);
    }
  }

  /** The first position at or after `k` that does not hold white space (`|t|` if none). */
  function SkipSpace(t: string, k: nat): (r: nat)
    requires k <= |t|
    ensures k <= r <= |t|
    ensures forall m :: k <= m < r ==> IsSpace(t[m])
    ensures r < |t| ==> !IsSpace(t[r])
    decreases |t| - k
  {
    if k < |t| && IsSpace(t[k]) then SkipSpace(t, k + 1) else k
  }

  /**
   * The decimal integers Python 2's `int()` accepts from a string: optional
   * surrounding white space, an optional sign, optional white space after
   * the sign, then at least one ASCII digit.
   */
  function ParseInt(s: string): Option<int>
  {
    var t := TrimRight(TrimLeft(s));
    var signed := |t| > 0 && (t[0] == '-' || t[0] == '+');
    var lo := if signed then SkipSpace(t, 1) else 0;
    if lo < |t| && DigitsIn(t, lo, |t|) then
      var v := DigitsValueIn(t, lo, |t|);
      Some(if signed && t[0] == '-' then 0 - v as int else v)
    else None
  }

  function DigitChar(d: nat): (c: char)
    requires d < 10
    ensures IsDigit(c) && DigitValue(c) == d
  {
    ('0' as int + d) as char
  }

  /** `str(n)` for a non-negative integer. */
  function DecimalString(n: nat): (r: string)
    ensures |r| > 0 && AllDigits(r)
    ensures DigitsValue(r) == n
  {
    if n < 10 then
      var r := [DigitChar(n)];
      assert DigitsValueIn(r, 0, 0) == 0;
      r
    else
      var init := DecimalString(n / 10);
      var r := init + [DigitChar(n % 10)];
      DigitsValueAppend(init, [DigitChar(n % 10)], 0, |init|);
      r
  }

  lemma ParseDigitsNoSpace(ds: string)
    requires |ds| > 0 && AllDigits(ds)
    ensures TrimRight(TrimLeft(ds)) == ds
  {
    assert !IsSpace(ds[0]) && !IsSpace(ds[|ds| - 1]);
    TrimLeftNoSpace(ds);
  }

  /** Reading back the decimal rendering of a number gives the number. */
  lemma DecimalRoundTrip(n: nat)
    ensures ParseInt(DecimalString(n)) == Some(n)
  {
    ParseDigitsNoSpace(DecimalString(n));
  }

  /** A negative number written with a leading minus is read back as itself. */
  lemma NegativeRoundTrip(n: nat)
    ensures ParseInt("-" + DecimalString(n)) == Some(0 - n as int)
  {
    var d := DecimalString(n);
    var s := "-" + d;
    assert !IsSpace(s[0]) && !IsSpace(s[|s| - 1]);
    TrimLeftNoSpace(s);
    assert !IsSpace(s[1]);
    DigitsValuePrepend("-", d, |d|);
  }

  /** A string already trimmed, led by `-`, whose digits start after the white space that follows the sign. */
  lemma ParseNegative(s: string, lo: nat)
    requires |s| > 1 && s[0] == '-' && !IsSpace(s[|s| - 1])
    requires lo == SkipSpace(s, 1) && lo < |s| && DigitsIn(s, lo, |s|)
    ensures ParseInt(s) == Some(0 - DigitsValueIn(s, lo, |s|) as int)
  {
    TrimLeftNoSpace(s);
    assert TrimRight(TrimLeft(s)) == s;
  }

  /** White space between the sign and the digits is skipped: `int("- 5") == -5`. */
  lemma SpaceAfterSign(n: nat)
    ensures ParseInt("- " + DecimalString(n)) == Some(0 - n as int)
  {
    var d := DecimalString(n);
    var s := "- " + d;
    assert s[|s| - 1] == d[|d| - 1] && IsDigit(s[|s| - 1]);
    assert IsSpace(s[1]) && IsDigit(s[2]);
    assert SkipSpace(s, 1) == 2;
    DigitsValuePrepend("- ", d, |d|);
    ParseNegative(s, 2);
  }

  /** Two indices render to the same text only when they are equal. */
  lemma DecimalInjective(m: nat, n: nat)
    requires DecimalString(m) == DecimalString(n)
    ensures m == n
  {
  }

  /** The number of a token id: the integer after its last underscore. */
  function TokenNumber(id: string): Option<int>
  {
    ParseInt(LastSegment(id))
  }

  /** An id of the form `<prefix>_<n>` has token number `n`, whatever the prefix holds. */
  lemma TokenNumberOfId(prefix: string, n: nat)
    ensures TokenNumber(prefix + "_" + DecimalString(n)) == Some(n)
  {
    var d := DecimalString(n);
    assert '_' !in d by {
      forall k | 0 <= k < |d| ensures d[k] != '_' { assert IsDigit(d[k]); }
    }
    LastSegmentAfterUnderscore(prefix, d);
    DecimalRoundTrip(n);
  }

  /** An id whose last segment is empty (it ends in `_`, or is empty) has no number. */
  lemma TokenNumberMissing(prefix: string)
    ensures TokenNumber(prefix + "_") == None
  {
    var s := prefix + "_";
    assert s[|s| - 1] == '_';
    assert LastSegment(s) == "";
  }
}
