/** Integer width and numeric-token parsing used by the command adapters.

    The source stores pin indices and durations in `int32_t` and divides with
    C's `/`, which truncates toward zero; both are written out here.  The token
    parser `raat_parse_single_numeric` belongs to an external library; this
    module gives a leading-digits stand-in for it (see README). */
module Numeric {

  /** The values of C's `int32_t`. */
  type Int32 = x: int | -0x8000_0000 <= x < 0x8000_0000

  const INT32_MAX: int := 0x7fff_ffff

  datatype Option<T> = None | Some(value: T)

  /** C's signed division by a positive divisor: the quotient is truncated toward
      zero, where Dafny's `/` rounds toward negative infinity for negative `a`. */
  function TruncDiv(a: int, b: int): int
    requires b > 0
  {
    if a >= 0 then a / b else -((-a) / b)
  }

  predicate IsDigit(c: char) { '0' <= c <= '9' }

  predicate AllDigits(s: string) { forall k :: 0 <= k < |s| ==> IsDigit(s[k]) }

  function DigitValue(c: char): (v: nat)
    requires IsDigit(c)
    ensures v < 10
  {
    c as int - '0' as int
  }

  function DigitChar(v: nat): (c: char)
    requires v < 10
    ensures IsDigit(c) && DigitValue(c) == v
  {
    ('0' as int + v) as char
  }

  /** The value of the decimal digits `s[lo..hi]`, most significant first.  It is
      stated on positions rather than on a slice so that reasoning about it
      needs no new sequences. */
  function DigitsValue(s: string, lo: nat, hi: nat): nat
    requires lo <= hi <= |s|
    requires forall k :: lo <= k < hi ==> IsDigit(s[k])
    decreases hi - lo
  {
    if lo == hi then 0 else 10 * DigitsValue(s, lo, hi - 1) + DigitValue(s[hi - 1])
  }

  /** The value of digits depends on the characters only, not on where they stand. */
  lemma {:induction false} DigitsValueSame(s: string, lo: nat, t: string, tlo: nat, n: nat)
    requires lo + n <= |s| && tlo + n <= |t|
    requires forall k :: lo <= k < lo + n ==> IsDigit(s[k]) && t[tlo + (k - lo)] == s[k]
    ensures forall k :: tlo <= k < tlo + n ==> IsDigit(t[k])
    ensures DigitsValue(s, lo, lo + n) == DigitsValue(t, tlo, tlo + n)
    decreases n
  {
    forall k | tlo <= k < tlo + n
      ensures IsDigit(t[k])
    {
      assert t[tlo + ((lo + (k - tlo)) - lo)] == s[lo + (k - tlo)];
    }
    if n > 0 {
      DigitsValueSame(s, lo, t, tlo, n - 1);
      assert t[tlo + ((lo + n - 1) - lo)] == s[lo + n - 1];
    }
  }

  /** A non-empty string of digits. */
  predicate Numeral(ds: string) { |ds| > 0 && AllDigits(ds) }

  function NumeralValue(ds: string): nat
    requires Numeral(ds)
  {
    DigitsValue(ds, 0, |ds|)
  }

  /** The decimal spelling of `v`, without leading zeros. */
  function Decimal(v: nat): (ds: string)
    ensures Numeral(ds) && NumeralValue(ds) == v
  {
    if v < 10 then
      var ds := [DigitChar(v)];
      assert DigitsValue(ds, 0, 1) == 10 * DigitsValue(ds, 0, 0) + DigitValue(ds[0]);
      ds
    else
      var front := Decimal(v / 10);
      var ds := front + [DigitChar(v % 10)];
      DigitsValueSame(front, 0, ds, 0, |front|);
      ds
  }

  /** `s[pos..pos + n]` is the longest run of digits that starts at `pos`. */
  predicate MaximalDigitRun(s: string, pos: nat, n: nat)
  {
    pos + n <= |s|
    && (forall k :: pos <= k < pos + n ==> IsDigit(s[k]))
    && (pos + n == |s| || !IsDigit(s[pos + n]))
  }

  /** The length of the run of digits in `s` that starts at `pos`. */
  function DigitRun(s: string, pos: nat): (n: nat)
    requires pos <= |s|
    ensures MaximalDigitRun(s, pos, n)
    decreases |s| - pos
  {
    if pos < |s| && IsDigit(s[pos]) then 1 + DigitRun(s, pos + 1) else 0
  }

  lemma {:induction false} DigitRunUnique(s: string, pos: nat, n: nat)
    requires MaximalDigitRun(s, pos, n)
    ensures DigitRun(s, pos) == n
    decreases n
  {
    if n > 0 {
      DigitRunUnique(s, pos + 1, n - 1);
    }
  }

  /** A parsed token: its value and the position of the first character after it. */
  datatype Parsed = Parsed(value: Int32, end: nat)

  /** Stand-in for `raat_parse_single_numeric`: reads the decimal digits that
      start at `pos`.  It fails when there is no digit at `pos` (including when
      `pos` lies at or past the end of `s`) and when the value does not fit in
      an `int32_t`. */
  function ParseNumeric(s: string, pos: nat): (r: Option<Parsed>)
    ensures r.Some? ==> pos < r.value.end <= |s| && 0 <= r.value.value
    ensures r.Some? ==> MaximalDigitRun(s, pos, r.value.end - pos)
    ensures r.Some? ==> r.value.value == DigitsValue(s, pos, r.value.end)
    ensures r.None? <==>
      (pos >= |s| || !IsDigit(s[pos]) || DigitsValue(s, pos, pos + DigitRun(s, pos)) > INT32_MAX)
  {
    if pos > |s| then None
    else
      var n := DigitRun(s, pos);
      if n == 0 then None
      else
        var v := DigitsValue(s, pos, pos + n);
        if v > INT32_MAX then None else Some(Parsed(v, pos + n))
  }

  /** A numeral in the middle of a string, followed by a non-digit or by the
      end, is read as its value and consumed exactly. */
  lemma ParseNumeral(pre: string, ds: string, post: string)
    requires Numeral(ds) && NumeralValue(ds) <= INT32_MAX
    requires post == [] || !IsDigit(post[0])
    ensures ParseNumeric(pre + ds + post, |pre|) == Some(Parsed(NumeralValue(ds), |pre| + |ds|))
  {
    var s := pre + ds + post;
    forall k | 0 <= k < |ds|
      ensures IsDigit(ds[k]) && s[|pre| + (k - 0)] == ds[k]
    {
    }
    DigitsValueSame(ds, 0, s, |pre|, |ds|);
    if |pre| + |ds| < |s| {
      assert s[|pre| + |ds|] == post[0];
    }
    DigitRunUnique(s, |pre|, |ds|);
  }

  /** Parsing undoes printing: `Decimal(v)` is read back as `v`. */
  lemma ParseDecimal(pre: string, v: nat, post: string)
    requires v <= INT32_MAX
    requires post == [] || !IsDigit(post[0])
    ensures ParseNumeric(pre + Decimal(v) + post, |pre|) == Some(Parsed(v, |pre| + |Decimal(v)|))
  {
    ParseNumeral(pre, Decimal(v), post);
  }
}
