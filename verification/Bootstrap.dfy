/** The paired bootstrap, `paired_bootstrap_ci`: a percentile interval and a two-sided p-value for the mean
    of paired differences. Floats are reals; the random generator is any stream of indices that depends only
    on the seed, the number of differences, the resample and the position in it. */
module Bootstrap {
  import opened Prelude
  import opened Sorting

  type Stream = (int, nat, nat, nat) -> nat

  datatype Interval = Interval(estimate: real, ciLow: real, ciHigh: real, pValue: real, nBoot: nat, seed: int)

  datatype Error = NoDeltas | TooFewResamples | AlphaOutOfRange

  datatype Result = Ok(ci: Interval) | Err(error: Error)

  function Sum(s: seq<real>): real {
    if s == [] then 0.0 else Sum(s[..|s| - 1]) + s[|s| - 1]
  }

  function Mean(s: seq<real>): real
    requires s != []
  {
    Sum(s) / |s| as real
  }

  function Ceil(x: real): int {
    -(-x).Floor
  }

  /** `rng.randrange(n)` for position `k` of resample `b`. */
  function RandRange(g: Stream, seed: int, n: nat, b: nat, k: nat): (i: nat)
    requires n > 0
    ensures i < n
  {
    g(seed, n, b, k) % n
  }

  function Resample(d: seq<real>, g: Stream, seed: int, b: nat): (r: seq<real>)
    requires d != []
    ensures |r| == |d| && forall k :: 0 <= k < |d| ==> r[k] == d[RandRange(g, seed, |d|, b, k)]
  {
    seq(|d|, k requires 0 <= k < |d| => d[RandRange(g, seed, |d|, b, k)])
  }

  function Means(d: seq<real>, g: Stream, seed: int, n: nat): (m: seq<real>)
    requires d != []
    ensures |m| == n && forall b :: 0 <= b < n ==> m[b] == Mean(Resample(d, g, seed, b))
  {
    if n == 0 then [] else Means(d, g, seed, n - 1) + [Mean(Resample(d, g, seed, n - 1))]
  }

  /** How many of the first `n` values satisfy `f`. */
  function CountTo(s: seq<real>, f: real -> bool, n: nat): (c: nat)
    requires n <= |s|
    ensures c <= n
  {
    if n == 0 then 0 else CountTo(s, f, n - 1) + if f(s[n - 1]) then 1 else 0
  }

  function CountIf(s: seq<real>, f: real -> bool): (c: nat)
    ensures c <= |s|
  {
    CountTo(s, f, |s|)
  }

  predicate Negative(x: real) {
    x < 0.0
  }

  predicate Positive(x: real) {
    x > 0.0
  }

  function LowerIndex(n: nat, alpha: real): int {
    ((n - 1) as real * alpha / 2.0).Floor
  }

  function UpperIndex(n: nat, alpha: real): int {
    Ceil((n - 1) as real * (1.0 - alpha / 2.0))
  }

  function PValue(estimate: real, lower: nat, upper: nat, n: nat): real {
    var p := if estimate > 0.0 then 2.0 * (lower + 1) as real / (n + 1) as real
             else if estimate < 0.0 then 2.0 * (upper + 1) as real / (n + 1) as real
             else 1.0;
    if p < 1.0 then p else 1.0
  }

  lemma IndexRange(n: nat, alpha: real)
    requires n >= 2 && 0.0 < alpha < 1.0
    ensures 0 <= LowerIndex(n, alpha) <= UpperIndex(n, alpha) < n
    ensures UpperIndex(n, alpha) == n - 1 - LowerIndex(n, alpha)
    ensures LowerIndex(n, alpha) as real <= (n - 1) as real * alpha / 2.0
  {
    var k := (n - 1) as real;
    var x := k * alpha / 2.0;
    assert k * (1.0 - alpha / 2.0) == k - x;
    assert k * alpha >= 0.0;
    assert k * (1.0 - alpha) >= 0.0;
    assert x <= k / 2.0;
    FloorOfDifference(n - 1, x);
  }

  /** Rounding up what is left of a whole number leaves it less the rounding down. */
  lemma FloorOfDifference(k: int, x: real)
    ensures Ceil(k as real - x) == k - x.Floor
  {
    assert (x - k as real).Floor == x.Floor - k;
  }

  /** The result of the whole computation. */
  function PairedInterval(d: seq<real>, n: nat, seed: int, alpha: real, g: Stream): Result {
    if d == [] then Err(NoDeltas)
    else if n < 2 then Err(TooFewResamples)
    else if !(0.0 < alpha < 1.0) then Err(AlphaOutOfRange)
    else
      Ok(IntervalOf(Mean(d), Means(d, g, seed, n), seed, alpha))
  }

  /** The interval read off the resampled means. */
  function IntervalOf(estimate: real, m: seq<real>, seed: int, alpha: real): Interval
    requires |m| >= 2 && 0.0 < alpha < 1.0
  {
    var n, sorted := |m|, Sort(m, RealLeq);
    RealOrder();
    SortSorts(m, RealLeq);
    IndexRange(n, alpha);
    Interval(estimate, sorted[LowerIndex(n, alpha)], sorted[UpperIndex(n, alpha)],
             PValue(estimate, CountIf(m, Negative), CountIf(m, Positive), n), n, seed)
  }

  lemma SortedMeans(m: seq<real>, alpha: real)
    requires |m| >= 2 && 0.0 < alpha < 1.0
    ensures |Sort(m, RealLeq)| == |m| && 0 <= LowerIndex(|m|, alpha) <= UpperIndex(|m|, alpha) < |m|
  {
    RealOrder();
    SortSorts(m, RealLeq);
    IndexRange(|m|, alpha);
  }

  /** The resampling loop with its two tail counters. */
  method ResampleMeans(deltas: seq<real>, nBoot: nat, seed: int, g: Stream)
    returns (sampleMeans: seq<real>, lowerTail: nat, upperTail: nat)
    requires deltas != []
    ensures sampleMeans == Means(deltas, g, seed, nBoot)
    ensures lowerTail == CountIf(sampleMeans, Negative) && upperTail == CountIf(sampleMeans, Positive)
  {
    sampleMeans, lowerTail, upperTail := [], 0, 0;
    for b := 0 to nBoot
      invariant sampleMeans == Means(deltas, g, seed, b)
      invariant lowerTail == CountIf(sampleMeans, Negative) && upperTail == CountIf(sampleMeans, Positive)
    {
      var mean := Mean(Resample(deltas, g, seed, b));
      CountSnoc(sampleMeans, mean, Negative);
      CountSnoc(sampleMeans, mean, Positive);
      sampleMeans := sampleMeans + [mean];
      if mean < 0.0 {
        lowerTail := lowerTail + 1;
      } else if mean > 0.0 {
        upperTail := upperTail + 1;
      }
    }
  }

  method PairedBootstrapCi(deltas: seq<real>, nBoot: int, seed: int, alpha: real, g: Stream) returns (r: Result)
    ensures r == PairedInterval(deltas, if nBoot < 0 then 0 else nBoot, seed, alpha, g)
  {
    if deltas == [] {
      return Err(NoDeltas);
    }
    if nBoot < 2 {
      return Err(TooFewResamples);
    }
    if !(0.0 < alpha < 1.0) {
      return Err(AlphaOutOfRange);
    }
    var estimate := Mean(deltas);
    var sampleMeans, lowerTail, upperTail := ResampleMeans(deltas, nBoot, seed, g);
    SortedMeans(sampleMeans, alpha);
    sampleMeans := Sort(sampleMeans, RealLeq);
    var ciLow, ciHigh := sampleMeans[LowerIndex(nBoot, alpha)], sampleMeans[UpperIndex(nBoot, alpha)];
    r := Ok(Interval(estimate, ciLow, ciHigh, PValue(estimate, lowerTail, upperTail, nBoot), nBoot, seed));
  }

  // ----- the interval covers -----

  lemma {:induction false} CountPrefix(a: seq<real>, b: seq<real>, f: real -> bool, n: nat)
    requires n <= |a|
    ensures CountTo(a + b, f, n) == CountTo(a, f, n)
    decreases n
  {
    if n > 0 {
      CountPrefix(a, b, f, n - 1);
    }
  }

  lemma {:induction false} CountOnwards(a: seq<real>, b: seq<real>, f: real -> bool, n: nat)
    requires n <= |b|
    ensures CountTo(a + b, f, |a| + n) == CountIf(a, f) + CountTo(b, f, n)
    decreases n
  {
    if n == 0 {
      CountPrefix(a, b, f, |a|);
    } else {
      CountOnwards(a, b, f, n - 1);
    }
  }

  lemma CountConcat(a: seq<real>, b: seq<real>, f: real -> bool)
    ensures CountIf(a + b, f) == CountIf(a, f) + CountIf(b, f)
  {
    CountOnwards(a, b, f, |b|);
  }

  lemma CountSnoc(s: seq<real>, x: real, f: real -> bool)
    ensures CountIf(s + [x], f) == CountIf(s, f) + if f(x) then 1 else 0
  {
    CountPrefix(s, [x], f, |s|);
  }

  lemma CountMiddle(left: seq<real>, x: real, right: seq<real>, f: real -> bool)
    ensures CountIf((left + [x]) + right, f) == CountIf(left + right, f) + if f(x) then 1 else 0
  {
    CountSnoc(left, x, f);
    CountConcat(left + [x], right, f);
    CountConcat(left, right, f);
  }

  lemma SplitAt(b: seq<real>, i: nat)
    requires i < |b|
    ensures (b[..i] + [b[i]]) + b[i + 1..] == b
  {
  }

  lemma CountRemove(b: seq<real>, i: nat, f: real -> bool)
    requires i < |b|
    ensures CountIf(b, f) == CountIf(b[..i] + b[i + 1..], f) + if f(b[i]) then 1 else 0
  {
    SplitAt(b, i);
    CountMiddle(b[..i], b[i], b[i + 1..], f);
  }

  lemma {:induction false} CountPermutation(a: seq<real>, b: seq<real>, f: real -> bool)
    requires multiset(a) == multiset(b)
    ensures CountIf(a, f) == CountIf(b, f)
    decreases |a|
  {
    SameSize(a, b);
    if a != [] {
      var a', x := a[..|a| - 1], a[|a| - 1];
      RemoveAt(a, |a| - 1);
      assert a[..|a| - 1] + a[|a|..] == a';
      assert x in multiset(b);
      var i :| 0 <= i < |b| && b[i] == x;
      RemoveAt(b, i);
      CountPermutation(a', b[..i] + b[i + 1..], f);
      CountRemove(b, i, f);
      CountSnoc(a', x, f);
      assert a == a' + [x];
    }
  }

  lemma {:induction false} CountAll(s: seq<real>, f: real -> bool, n: nat)
    requires n <= |s| && forall i :: 0 <= i < n ==> f(s[i])
    ensures CountTo(s, f, n) == n
    decreases n
  {
    if n > 0 {
      CountAll(s, f, n - 1);
    }
  }

  lemma CountStretch(s: seq<real>, a: nat, b: nat, f: real -> bool)
    requires a <= b <= |s| && forall i :: a <= i < b ==> f(s[i])
    ensures CountIf(s, f) >= b - a
  {
    assert s == s[..a] + (s[a..b] + s[b..]);
    CountConcat(s[..a], s[a..b] + s[b..], f);
    CountConcat(s[a..b], s[b..], f);
    CountAll(s[a..b], f, b - a);
  }

  function Within(ci: Interval): real -> bool {
    x => ci.ciLow <= x <= ci.ciHigh
  }

  /** Between two positions of the sorted list lie as many of the values. */
  lemma StretchCovers(m: seq<real>, s: seq<real>, l: nat, u: nat, ci: Interval)
    requires Sorted(s, RealLeq) && multiset(m) == multiset(s) && l <= u < |s| && ci.ciLow == s[l] && ci.ciHigh == s[u]
    ensures ci.ciLow <= ci.ciHigh && CountIf(m, Within(ci)) >= u + 1 - l
  {
    assert l < u ==> RealLeq(s[l], s[u]);
    forall i | l <= i < u + 1 ensures Within(ci)(s[i]) {
      assert l < i ==> RealLeq(s[l], s[i]);
      assert i < u ==> RealLeq(s[i], s[u]);
    }
    CountStretch(s, l, u + 1, Within(ci));
    CountPermutation(m, s, Within(ci));
  }

  /** At least the fraction `1 - alpha` of the resampled means lies in the interval. */
  lemma IntervalCovers(d: seq<real>, n: nat, seed: int, alpha: real, g: Stream)
    requires PairedInterval(d, n, seed, alpha, g).Ok?
    ensures var ci := PairedInterval(d, n, seed, alpha, g).ci;
            ci.ciLow <= ci.ciHigh
            && CountIf(Means(d, g, seed, n), Within(ci)) as real >= (1.0 - alpha) * n as real
  {
    var m, ci := Means(d, g, seed, n), PairedInterval(d, n, seed, alpha, g).ci;
    RealOrder();
    SortSorts(m, RealLeq);
    IndexRange(n, alpha);
    StretchCovers(m, Sort(m, RealLeq), LowerIndex(n, alpha), UpperIndex(n, alpha), ci);
    CoverageArithmetic(n, alpha, LowerIndex(n, alpha));
  }

  lemma CoverageArithmetic(n: nat, alpha: real, l: nat)
    requires n >= 2 && 0.0 < alpha < 1.0 && l as real <= (n - 1) as real * alpha / 2.0
    ensures (n - 2 * l) as real >= (1.0 - alpha) * n as real
  {
    assert (n - 1) as real * alpha == n as real * alpha - alpha;
    assert (1.0 - alpha) * n as real == n as real - n as real * alpha;
  }

  // ----- the interval stays within the data -----

  lemma {:induction false} SumBounds(s: seq<real>, lo: real, hi: real)
    requires forall i :: 0 <= i < |s| ==> lo <= s[i] <= hi
    ensures lo * |s| as real <= Sum(s) <= hi * |s| as real
  {
    if s != [] {
      SumBounds(s[..|s| - 1], lo, hi);
      var k := (|s| - 1) as real;
      assert lo * (k + 1.0) == lo * k + lo && hi * (k + 1.0) == hi * k + hi;
    }
  }

  lemma ScaleStrictly(a: real, b: real, n: real)
    requires a < b && n > 0.0
    ensures a * n < b * n
  {
    assert (b - a) * n > 0.0;
  }

  lemma QuotientBounds(x: real, n: real, lo: real, hi: real)
    requires n > 0.0 && lo * n <= x <= hi * n
    ensures lo <= x / n <= hi
  {
    var q := x / n;
    assert q * n == x;
    if q < lo {
      ScaleStrictly(q, lo, n);
    }
    if hi < q {
      ScaleStrictly(hi, q, n);
    }
  }

  lemma MeanBounds(s: seq<real>, lo: real, hi: real)
    requires s != [] && forall i :: 0 <= i < |s| ==> lo <= s[i] <= hi
    ensures lo <= Mean(s) <= hi
  {
    SumBounds(s, lo, hi);
    QuotientBounds(Sum(s), |s| as real, lo, hi);
  }

  /** Both ends and the estimate lie between bounds of the differences, and the p-value is one. */
  lemma IntervalBounds(d: seq<real>, n: nat, seed: int, alpha: real, g: Stream, lo: real, hi: real)
    requires PairedInterval(d, n, seed, alpha, g).Ok?
    requires forall i :: 0 <= i < |d| ==> lo <= d[i] <= hi
    ensures var ci := PairedInterval(d, n, seed, alpha, g).ci;
            lo <= ci.ciLow && ci.ciHigh <= hi && lo <= ci.estimate <= hi && 0.0 < ci.pValue <= 1.0
  {
    var m := Means(d, g, seed, n);
    var s := Sort(m, RealLeq);
    RealOrder();
    SortSorts(m, RealLeq);
    IndexRange(n, alpha);
    forall b | 0 <= b < n ensures lo <= m[b] <= hi {
      MeanBounds(Resample(d, g, seed, b), lo, hi);
    }
    forall i | 0 <= i < |s| ensures lo <= s[i] <= hi {
      assert s[i] in multiset(s);
      assert s[i] in m;
    }
    MeanBounds(d, lo, hi);
    PValueRange(Mean(d), CountIf(m, Negative), CountIf(m, Positive), n);
  }

  lemma PValueRange(estimate: real, lower: nat, upper: nat, n: nat)
    ensures 0.0 < PValue(estimate, lower, upper, n) <= 1.0
  {
    var k := (n + 1) as real;
    assert 2.0 * (lower + 1) as real / k > 0.0;
    assert 2.0 * (upper + 1) as real / k > 0.0;
  }

  // ----- swapping the methods mirrors the interval -----

  function Negated(s: seq<real>): (r: seq<real>)
    ensures |r| == |s| && forall i :: 0 <= i < |s| ==> r[i] == -s[i]
  {
    seq(|s|, i requires 0 <= i < |s| => -s[i])
  }

  lemma {:induction false} NegatedSum(s: seq<real>)
    ensures Sum(Negated(s)) == -Sum(s)
  {
    if s != [] {
      NegatedSum(s[..|s| - 1]);
      assert Negated(s)[..|s| - 1] == Negated(s[..|s| - 1]);
    }
  }

  lemma NegatedMean(s: seq<real>)
    requires s != []
    ensures Mean(Negated(s)) == -Mean(s)
  {
    NegatedSum(s);
    NegatedQuotient(Sum(s), |s| as real);
  }

  lemma NegatedQuotient(x: real, n: real)
    requires n > 0.0
    ensures -x / n == -(x / n)
  {
    assert (x / n) * n == x;
  }

  lemma {:induction false} NegatedCounts(s: seq<real>, n: nat)
    requires n <= |s|
    ensures CountTo(Negated(s), Negative, n) == CountTo(s, Positive, n)
    ensures CountTo(Negated(s), Positive, n) == CountTo(s, Negative, n)
    decreases n
  {
    if n > 0 {
      NegatedCounts(s, n - 1);
    }
  }

  lemma NegatedMultiset(a: seq<real>, b: seq<real>)
    requires multiset(a) == multiset(b)
    ensures multiset(Negated(a)) == multiset(Negated(b))
  {
    MappedPermutation(a, b, (x: real) => -x);
    assert Negated(a) == Mapped(a, (x: real) => -x);
    assert Negated(b) == Mapped(b, (x: real) => -x);
  }

  lemma SortNegated(m: seq<real>)
    ensures |Sort(m, RealLeq)| == |m|
    ensures Sort(Negated(m), RealLeq) == Reversed(Negated(Sort(m, RealLeq)))
  {
    var s := Sort(m, RealLeq);
    RealOrder();
    SortSorts(m, RealLeq);
    SortSorts(Negated(m), RealLeq);
    NegatedMultiset(m, s);
    ReversedMultiset(Negated(s));
    SortedUnique(Sort(Negated(m), RealLeq), Reversed(Negated(s)), RealLeq);
  }

  lemma OneResampleNegated(d: seq<real>, g: Stream, seed: int, b: nat)
    requires d != []
    ensures Mean(Resample(Negated(d), g, seed, b)) == -Mean(Resample(d, g, seed, b))
  {
    assert Resample(Negated(d), g, seed, b) == Negated(Resample(d, g, seed, b));
    NegatedMean(Resample(d, g, seed, b));
  }

  lemma ResampleNegated(d: seq<real>, g: Stream, seed: int, n: nat)
    requires d != []
    ensures Means(Negated(d), g, seed, n) == Negated(Means(d, g, seed, n))
  {
    var a, b := Means(Negated(d), g, seed, n), Negated(Means(d, g, seed, n));
    forall k | 0 <= k < n ensures a[k] == b[k] {
      OneResampleNegated(d, g, seed, k);
    }
  }

  function Mirrored(ci: Interval): Interval {
    ci.(estimate := -ci.estimate, ciLow := -ci.ciHigh, ciHigh := -ci.ciLow)
  }

  lemma NegatedAt(m: seq<real>, k: nat)
    requires k < |m|
    ensures |Sort(m, RealLeq)| == |Sort(Negated(m), RealLeq)| == |m|
    ensures Sort(Negated(m), RealLeq)[k] == -Sort(m, RealLeq)[|m| - 1 - k]
  {
    SortNegated(m);
  }

  lemma IntervalOfNegated(estimate: real, m: seq<real>, seed: int, alpha: real)
    requires |m| >= 2 && 0.0 < alpha < 1.0
    ensures IntervalOf(-estimate, Negated(m), seed, alpha) == Mirrored(IntervalOf(estimate, m, seed, alpha))
  {
    NegatedCounts(m, |m|);
    IndexRange(|m|, alpha);
    NegatedAt(m, LowerIndex(|m|, alpha));
    NegatedAt(m, UpperIndex(|m|, alpha));
  }

  /** Negating the differences negates the estimate, mirrors the interval and keeps the p-value. */
  lemma IntervalMirrors(d: seq<real>, n: nat, seed: int, alpha: real, g: Stream)
    ensures PairedInterval(Negated(d), n, seed, alpha, g)
         == match PairedInterval(d, n, seed, alpha, g) case Ok(ci) => Ok(Mirrored(ci)) case Err(e) => Err(e)
  {
    if PairedInterval(d, n, seed, alpha, g).Ok? {
      ResampleNegated(d, g, seed, n);
      NegatedMean(d);
      IntervalOfNegated(Mean(d), Means(d, g, seed, n), seed, alpha);
    }
  }
}
