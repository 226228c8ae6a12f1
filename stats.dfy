/**
 * Sums and means over reals, folded left to right as `Array.prototype.reduce`
 * does in the source, with the bounds a mean keeps.
 */
module Stats {

  function Max(a: real, b: real): (m: real)
    ensures m >= a && m >= b
    ensures m == a || m == b
  {
    if a >= b then a else b
  }

  /** The sum `s.reduce((sum, x) => sum + x, 0)`. */
  function Sum(s: seq<real>): real
  {
    if |s| == 0 then 0.0 else Sum(s[..|s| - 1]) + s[|s| - 1]
  }

  /** The arithmetic mean `Sum(s) / s.length` of a non-empty sequence. */
  function Mean(s: seq<real>): real
    requires |s| > 0
  {
    Sum(s) / (|s| as real)
  }

  lemma CountOneMore(c: real, n: nat)
    ensures c * ((n + 1) as real) == c * (n as real) + c
  {
  }

  lemma {:induction false} SumWithin(s: seq<real>, lo: real, hi: real)
    requires forall i :: 0 <= i < |s| ==> lo <= s[i] <= hi
    ensures lo * (|s| as real) <= Sum(s) <= hi * (|s| as real)
  {
    if |s| > 0 {
      var n := |s| - 1;
      SumWithin(s[..n], lo, hi);
      assert Sum(s) == Sum(s[..n]) + s[n];
      CountOneMore(lo, n);
      CountOneMore(hi, n);
    }
  }

  lemma {:induction false} SumStrictlyWithin(s: seq<real>, lo: real, hi: real)
    requires |s| > 0
    requires forall i :: 0 <= i < |s| ==> lo < s[i] < hi
    ensures lo * (|s| as real) < Sum(s) < hi * (|s| as real)
  {
    var n := |s| - 1;
    assert Sum(s) == Sum(s[..n]) + s[n];
    assert lo < s[n] < hi;
    if n > 0 {
      SumStrictlyWithin(s[..n], lo, hi);
    } else {
      assert Sum(s[..n]) == 0.0;
    }
    CountOneMore(lo, n);
    CountOneMore(hi, n);
  }

  /** A mean lies between any lower and upper bound of its entries. */
  lemma MeanWithin(s: seq<real>, lo: real, hi: real)
    requires |s| > 0
    requires forall i :: 0 <= i < |s| ==> lo <= s[i] <= hi
    ensures lo <= Mean(s) <= hi
  {
    SumWithin(s, lo, hi);
    DivideBounds(Sum(s), |s| as real, lo, hi);
  }

  /** A mean lies strictly inside any open interval holding all its entries. */
  lemma MeanStrictlyWithin(s: seq<real>, lo: real, hi: real)
    requires |s| > 0
    requires forall i :: 0 <= i < |s| ==> lo < s[i] < hi
    ensures lo < Mean(s) < hi
  {
    SumStrictlyWithin(s, lo, hi);
    var n := |s| as real;
    assert Sum(s) / n * n == Sum(s);
  }

  lemma DivideBounds(x: real, n: real, lo: real, hi: real)
    requires n > 0.0
    requires lo * n <= x <= hi * n
    ensures lo <= x / n <= hi
  {
    assert x / n * n == x;
  }
}
