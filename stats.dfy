/** Exact-arithmetic versions of the pandas aggregates the pipeline uses:
    sum, mean and the sum of squared deviations behind the sample standard
    deviation (ddof = 1). */
module Stats {

  function Sum(xs: seq<real>): real
  {
    if xs == [] then 0.0 else xs[0] + Sum(xs[1..])
  }

  /** `Series.mean()`; callers only take it over a non-empty group. */
  function Mean(xs: seq<real>): real
    requires |xs| > 0
  {
    Sum(xs) / |xs| as real
  }

  /** Sum of the deviations from `m`. */
  function Dev(xs: seq<real>, m: real): real
  {
    if xs == [] then 0.0 else (xs[0] - m) + Dev(xs[1..], m)
  }

  /** Sum of squared deviations from `m`; the sample variance is
      `SqDev(xs, Mean(xs)) / (|xs| - 1)`. */
  function SqDev(xs: seq<real>, m: real): real
  {
    if xs == [] then 0.0 else (xs[0] - m) * (xs[0] - m) + SqDev(xs[1..], m)
  }

  lemma {:induction false} DevIsSum(xs: seq<real>, m: real)
    ensures Dev(xs, m) == Sum(xs) - |xs| as real * m
  {
    if xs != [] { DevIsSum(xs[1..], m); }
  }

  /** Deviations from the mean cancel out. */
  lemma {:induction false} DevFromMeanIsZero(xs: seq<real>)
    requires |xs| > 0
    ensures Dev(xs, Mean(xs)) == 0.0
  {
    DevIsSum(xs, Mean(xs));
  }

  lemma {:induction false} ConcatSums(a: seq<real>, b: seq<real>, m: real)
    ensures Dev(a + b, m) == Dev(a, m) + Dev(b, m)
    ensures SqDev(a + b, m) == SqDev(a, m) + SqDev(b, m)
  {
    if a == [] {
      assert a + b == b;
    } else {
      assert (a + b)[0] == a[0] && (a + b)[1..] == a[1..] + b;
      ConcatSums(a[1..], b, m);
    }
  }

  lemma {:induction false} SquareNonNegative(x: real)
    ensures x * x >= 0.0
  {
    if x < 0.0 { assert x * x == (-x) * (-x); }
  }

  lemma {:induction false} ScaleLeq(c: real, x: real, y: real)
    requires c >= 0.0 && x <= y
    ensures c * x <= c * y
  {
    assert c * y - c * x == c * (y - x);
  }

  /** One induction step of the quadratic-mean inequality, on plain numbers. */
  lemma {:induction false} QuadraticMeanStep(a: real, y: real, q: real, k: real)
    requires k > 0.0 && y * y <= k * q
    ensures (a + y) * (a + y) <= (k + 1.0) * (a * a + q)
  {
    var gap := (k + 1.0) * (a * a + q) - (a + y) * (a + y);
    assert gap == k * (a * a) + (k + 1.0) * q - 2.0 * (a * y) - y * y;
    assert k * gap == k * k * (a * a) + (k + 1.0) * (k * q) - 2.0 * k * (a * y) - k * (y * y);
    ScaleLeq(k + 1.0, y * y, k * q);
    assert k * gap >= k * k * (a * a) - 2.0 * k * (a * y) + y * y;
    assert k * k * (a * a) - 2.0 * k * (a * y) + y * y == (k * a - y) * (k * a - y);
    SquareNonNegative(k * a - y);
  }

  /** The quadratic-mean inequality: (sum of deviations)^2 <= n * (sum of squares). */
  lemma {:induction false} DevSquaredBound(ys: seq<real>, m: real)
    ensures Dev(ys, m) * Dev(ys, m) <= |ys| as real * SqDev(ys, m)
  {
    if ys != [] {
      var rest := ys[1..];
      var a, y, q, k := ys[0] - m, Dev(rest, m), SqDev(rest, m), |rest| as real;
      assert Dev(ys, m) == a + y && SqDev(ys, m) == a * a + q;
      assert |ys| as real == k + 1.0;
      if k == 0.0 {
        assert rest == [];
        assert y == 0.0 && q == 0.0;
      } else {
        DevSquaredBound(rest, m);
        QuadraticMeanStep(a, y, q, k);
      }
    }
  }

  /** The closing arithmetic of Samuelson's inequality, on plain numbers:
      `e` is the sum of the other deviations, `rest` their squares, `c` their count. */
  lemma {:induction false} SamuelsonStep(d: real, e: real, rest: real, total: real, n: real, c: real, c': real)
    requires e == -d && total == rest + d * d && c == n - 1.0 && c' == n - 1.0 && n >= 1.0
    requires e * e <= c * rest
    ensures n * (d * d) <= c' * total
  {
    assert e * e == d * d;
    assert c' * total == c * rest + c * (d * d);
    assert n * (d * d) == d * d + c * (d * d);
  }

  /** Samuelson's inequality: no element of a group lies further from the group
      mean than sqrt((n-1)/n * SqDev). */
  lemma {:induction false} Samuelson(xs: seq<real>, k: nat)
    requires k < |xs|
    ensures |xs| as real * ((xs[k] - Mean(xs)) * (xs[k] - Mean(xs)))
            <= (|xs| - 1) as real * SqDev(xs, Mean(xs))
  {
    var m := Mean(xs);
    DevFromMeanIsZero(xs);
    assert Dev(xs, m) == 0.0;
    SamuelsonAround(xs, k, m);
  }

  /** Samuelson's inequality around any centre the deviations cancel at. */
  lemma {:induction false} SamuelsonAround(xs: seq<real>, k: nat, m: real)
    requires k < |xs| && Dev(xs, m) == 0.0
    ensures |xs| as real * ((xs[k] - m) * (xs[k] - m)) <= (|xs| - 1) as real * SqDev(xs, m)
  {
    var ys := [xs[k]] + (xs[..k] + xs[k + 1..]);
    MoveToFront(xs, k, m);
    SamuelsonHead(ys, m);
  }

  /** Samuelson's inequality for the first element. */
  lemma {:induction false} SamuelsonHead(ys: seq<real>, m: real)
    requires |ys| > 0 && Dev(ys, m) == 0.0
    ensures |ys| as real * ((ys[0] - m) * (ys[0] - m)) <= (|ys| - 1) as real * SqDev(ys, m)
  {
    var rest := ys[1..];
    DevSquaredBound(rest, m);
    SamuelsonStep(ys[0] - m, Dev(rest, m), SqDev(rest, m), SqDev(ys, m),
                  |ys| as real, |rest| as real, (|ys| - 1) as real);
  }

  /** Moving element `k` to the front changes neither sum. */
  lemma {:induction false} MoveToFront(xs: seq<real>, k: nat, m: real)
    requires k < |xs|
    ensures var ys := [xs[k]] + (xs[..k] + xs[k + 1..]);
      && |ys| == |xs| && ys[0] == xs[k]
      && Dev(ys, m) == Dev(xs, m)
      && SqDev(ys, m) == SqDev(xs, m)
  {
    var pre, post := xs[..k], xs[k + 1..];
    assert xs == pre + [xs[k]] + post;
    ConcatSums(pre, [xs[k]], m);
    ConcatSums(pre + [xs[k]], post, m);
    ConcatSums(pre, post, m);
    ConcatSums([xs[k]], pre + post, m);
  }

  /** A group whose values are all `c` has mean `c` and no spread. */
  lemma {:induction false} ConstantGroup(xs: seq<real>, c: real)
    requires forall i :: 0 <= i < |xs| ==> xs[i] == c
    ensures Sum(xs) == |xs| as real * c
    ensures SqDev(xs, c) == 0.0
    ensures |xs| > 0 ==> Mean(xs) == c
  {
    if xs != [] { ConstantGroup(xs[1..], c); }
  }

  /** A mean lies between the smallest and largest value averaged. */
  lemma {:induction false} MeanBetween(xs: seq<real>, lo: real, hi: real)
    requires |xs| > 0
    requires forall i :: 0 <= i < |xs| ==> lo <= xs[i] <= hi
    ensures lo <= Mean(xs) <= hi
  {
    SumBetween(xs, lo, hi);
    var n := |xs| as real;
    assert n * lo <= Sum(xs) <= n * hi;
    assert Mean(xs) * n == Sum(xs);
  }

  lemma {:induction false} SumBetween(xs: seq<real>, lo: real, hi: real)
    requires forall i :: 0 <= i < |xs| ==> lo <= xs[i] <= hi
    ensures |xs| as real * lo <= Sum(xs) <= |xs| as real * hi
  {
    if xs != [] { SumBetween(xs[1..], lo, hi); }
  }

  lemma {:induction false} SqDevNonNegative(xs: seq<real>, m: real)
    ensures SqDev(xs, m) >= 0.0
  {
    if xs != [] {
      SqDevNonNegative(xs[1..], m);
      SquareNonNegative(xs[0] - m);
    }
  }

  /** In a group of at most ten values no value is more than three sample
      standard deviations from the mean: (x - m)^2 * (n - 1) <= 9 * SqDev. */
  lemma {:induction false} SmallGroupWithinThreeSigma(xs: seq<real>, k: nat)
    requires k < |xs| <= 10
    ensures (xs[k] - Mean(xs)) * (xs[k] - Mean(xs)) * (|xs| - 1) as real
            <= 9.0 * SqDev(xs, Mean(xs))
  {
    var m := Mean(xs);
    DevFromMeanIsZero(xs);
    SmallGroupAround(xs, k, m);
  }

  lemma {:induction false} SmallGroupAround(xs: seq<real>, k: nat, m: real)
    requires k < |xs| <= 10 && Dev(xs, m) == 0.0
    ensures (xs[k] - m) * (xs[k] - m) * (|xs| - 1) as real <= 9.0 * SqDev(xs, m)
  {
    var d, s := xs[k] - m, SqDev(xs, m);
    assert |xs| as real * (d * d) <= (|xs| - 1) as real * s && s >= 0.0 by {
      SamuelsonAround(xs, k, m);
      SqDevNonNegative(xs, m);
    }
    ThreeSigmaArith(d, s, |xs| as real, (|xs| - 1) as real, |xs|);
  }

  /** (n - 1)^2 <= 9 n for a count n of at most ten. */
  lemma {:induction false} SmallCountBound(c: real, nr: real)
    requires 0.0 <= c <= 9.0 && c == nr - 1.0
    ensures c * c <= 9.0 * nr
  {
    ScaleLeq(c, c, 9.0);
    assert c * c <= c * 9.0;
    assert c * 9.0 <= 9.0 * nr;
  }

  lemma {:induction false} ThreeSigmaArith(d: real, s: real, nr: real, c: real, n: nat)
    requires 1 <= n <= 10 && nr == n as real && c == nr - 1.0 && s >= 0.0
    requires nr * (d * d) <= c * s
    ensures d * d * c <= 9.0 * s
  {
    var dd := d * d;
    var p := dd * c;
    var q := 9.0 * s;
    assert nr * p <= nr * q by {
      SmallCountBound(c, nr);
      ScaleLeq(c, nr * dd, c * s);
      ScaleLeq(s, c * c, 9.0 * nr);
      assert c * (nr * dd) == nr * p;
      assert c * (c * s) == s * (c * c);
      assert s * (9.0 * nr) == nr * q;
    }
    CancelPositive(nr, p, q);
  }

  lemma {:induction false} CancelPositive(k: real, x: real, y: real)
    requires k > 0.0 && k * x <= k * y
    ensures x <= y
  {
  }

  /** |z| <= 3 with the sample standard deviation (ddof = 1), squared to avoid
      the root. A group of one value (std undefined) or of equal values (std
      zero) gives a NaN z-score, which fails the test. */
  predicate WithinThreeSigma(group: seq<real>, v: real)
  {
    && |group| >= 2
    && SqDev(group, Mean(group)) > 0.0
    && (v - Mean(group)) * (v - Mean(group)) * (|group| - 1) as real <= 9.0 * SqDev(group, Mean(group))
  }

  /** A group of two to ten values that do not all agree keeps every member. */
  lemma {:induction false} SmallGroupKeepsAll(xs: seq<real>, v: real)
    requires v in xs && 2 <= |xs| <= 10 && SqDev(xs, Mean(xs)) > 0.0
    ensures WithinThreeSigma(xs, v)
  {
    var k :| 0 <= k < |xs| && xs[k] == v;
    SmallGroupWithinThreeSigma(xs, k);
  }
}
