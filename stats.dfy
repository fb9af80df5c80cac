/**
 * The arithmetic of a numeric column summary: sum, minimum, maximum, the
 * average printed with two decimals, and the whole-number percentage of a
 * top value. Numbers are exact reals; binary floating-point error is not
 * modelled.
 */
module Stats {

  /** `xs.reduce((a, b) => a + b, 0)`. */
  function Sum(xs: seq<real>): real
  {
    if xs == [] then 0.0 else Sum(xs[..|xs| - 1]) + xs[|xs| - 1]
  }

  /** `Math.min(...xs)` on a non-empty list: an element no other element undercuts. */
  function Min(xs: seq<real>): (m: real)
    requires |xs| > 0
    ensures m in xs
    ensures forall x :: x in xs ==> m <= x
  {
    if |xs| == 1 then xs[0]
    else
      var rest := Min(xs[1..]);
      assert xs == [xs[0]] + xs[1..];
      if xs[0] <= rest then xs[0] else rest
  }

  /** `Math.max(...xs)` on a non-empty list: an element no other element exceeds. */
  function Max(xs: seq<real>): (m: real)
    requires |xs| > 0
    ensures m in xs
    ensures forall x :: x in xs ==> x <= m
  {
    if |xs| == 1 then xs[0]
    else
      var rest := Max(xs[1..]);
      assert xs == [xs[0]] + xs[1..];
      if xs[0] >= rest then xs[0] else rest
  }

  /** The unrounded average `sum / count`. */
  function Mean(xs: seq<real>): real
    requires |xs| > 0
  {
    Sum(xs) / (|xs| as real)
  }

  lemma {:induction false} SumBelow(xs: seq<real>, lo: real, hi: real)
    requires forall x :: x in xs ==> lo <= x <= hi
    ensures (|xs| as real) * lo <= Sum(xs) <= (|xs| as real) * hi
  {
    if xs != [] {
      var init := xs[..|xs| - 1];
      assert forall x :: x in init ==> x in xs;
      SumBelow(init, lo, hi);
      assert xs[|xs| - 1] in xs;
      assert (|xs| as real) * lo == (|init| as real) * lo + lo;
      assert (|xs| as real) * hi == (|init| as real) * hi + hi;
    }
  }

  /** The unrounded average of a non-empty list lies between its minimum and maximum. */
  lemma MeanWithinRange(xs: seq<real>)
    requires |xs| > 0
    ensures Min(xs) <= Mean(xs) <= Max(xs)
  {
    MeanBetween(xs, Min(xs), Max(xs));
  }

  lemma MeanBetween(xs: seq<real>, lo: real, hi: real)
    requires |xs| > 0
    requires forall x :: x in xs ==> lo <= x <= hi
    ensures lo <= Mean(xs) <= hi
  {
    SumBelow(xs, lo, hi);
    DivideBounds(Sum(xs), |xs| as real, lo, hi);
  }

  lemma DivideBounds(total: real, n: real, lo: real, hi: real)
    requires n > 0.0 && n * lo <= total <= n * hi
    ensures lo <= total / n <= hi
  {
    var q := total / n;
    assert n * q == total;
    assert n * (q - lo) >= 0.0;
    assert n * (hi - q) >= 0.0;
  }

  /**
   * `Number(x.toFixed(2))`: the value with at most two decimals nearest to x,
   * a tie going away from zero (toFixed rounds the magnitude, halves up).
   */
  function RoundTo2(x: real): (r: real)
    ensures (r * 100.0).Floor as real == r * 100.0
    ensures x >= 0.0 ==> x - 0.005 < r <= x + 0.005
    ensures x < 0.0 ==> x - 0.005 <= r < x + 0.005
  {
    var k := if x < 0.0 then -Hundredths(-x) else Hundredths(x);
    WholeHundredths(k);
    k as real / 100.0
  }

  lemma WholeHundredths(k: int)
    ensures ((k as real / 100.0) * 100.0).Floor as real == (k as real / 100.0) * 100.0
  {
    assert (k as real / 100.0) * 100.0 == k as real;
  }

  /** The number of hundredths a non-negative magnitude rounds to, halves up. */
  function Hundredths(y: real): (k: int)
    requires y >= 0.0
    ensures y * 100.0 - 0.5 < k as real <= y * 100.0 + 0.5
  {
    (y * 100.0 + 0.5).Floor
  }

  /**
   * `Math.round(count / rowCount * 100)`: the whole percentage nearest to
   * count / rowCount, a tie going up.
   */
  function Percent(count: nat, rowCount: nat): (p: nat)
    requires rowCount > 0
    ensures 2 * rowCount * p <= 200 * count + rowCount < 2 * rowCount * p + 2 * rowCount
  {
    var num, den := 200 * count + rowCount, 2 * rowCount;
    assert num == den * (num / den) + num % den;
    num / den
  }

  /** A share of the rows prints as a percentage between 0 and 100; all of them as exactly 100. */
  lemma PercentBounds(count: nat, rowCount: nat)
    requires 0 < rowCount && count <= rowCount
    ensures 0 <= Percent(count, rowCount) <= 100
    ensures count == rowCount ==> Percent(count, rowCount) == 100
    ensures count == 0 ==> Percent(count, rowCount) == 0
  {
    PercentAtMost100(count, rowCount);
    if count == rowCount {
      PercentOfAll(rowCount);
    }
    if count == 0 {
      PercentOfNone(rowCount);
    }
  }

  lemma PercentAtMost100(count: nat, rowCount: nat)
    requires 0 < rowCount && count <= rowCount
    ensures Percent(count, rowCount) <= 100
  {
    var p, a := Percent(count, rowCount), 2 * rowCount;
    assert a * p <= 200 * count + rowCount;
    if p > 100 {
      MulMonotone(a, 101, p);
      assert false;
    }
  }

  lemma PercentOfAll(rowCount: nat)
    requires 0 < rowCount
    ensures Percent(rowCount, rowCount) == 100
  {
    var p, a := Percent(rowCount, rowCount), 2 * rowCount;
    assert 200 * rowCount + rowCount < a * p + a;
    if p < 100 {
      MulMonotone(a, p + 1, 100);
      assert false;
    }
    PercentAtMost100(rowCount, rowCount);
  }

  lemma PercentOfNone(rowCount: nat)
    requires 0 < rowCount
    ensures Percent(0, rowCount) == 0
  {
    var p, a := Percent(0, rowCount), 2 * rowCount;
    assert a * p <= rowCount;
    if p > 0 {
      MulMonotone(a, 1, p);
      assert false;
    }
  }

  lemma MulMonotone(a: nat, b: int, c: int)
    requires b <= c
    ensures a * b <= a * c
  {
  }
}
