/** What `paired_bootstrap_ci` reports, said of the resampled means as a set of numbered values: the ends are order
    statistics, the p-value is twice the smaller-sign tail.  Exactly one report satisfies this. */
module BootstrapReport {
  import opened Bootstrap
  import opened Prelude
  import opened Sorting

  ghost function ResampleMean(d: seq<real>, g: Stream, seed: int, b: nat): real
    requires d != []
  {
    Mean(Resample(d, g, seed, b))
  }

  /** The resamples whose mean is below `x`, and so on. */
  ghost function Below(d: seq<real>, g: Stream, seed: int, n: nat, x: real): set<nat>
    requires d != []
  {
    set b: nat | b < n && ResampleMean(d, g, seed, b) < x
  }

  ghost function Above(d: seq<real>, g: Stream, seed: int, n: nat, x: real): set<nat>
    requires d != []
  {
    set b: nat | b < n && ResampleMean(d, g, seed, b) > x
  }

  ghost function UpTo(d: seq<real>, g: Stream, seed: int, n: nat, x: real): set<nat>
    requires d != []
  {
    set b: nat | b < n && ResampleMean(d, g, seed, b) <= x
  }

  ghost function DownTo(d: seq<real>, g: Stream, seed: int, n: nat, x: real): set<nat>
    requires d != []
  {
    set b: nat | b < n && ResampleMean(d, g, seed, b) >= x
  }

  /** The lower end leaves at most the share alpha / 2 of the means below it, and is the largest value that does;
      the upper end is its mirror image. */
  ghost predicate IsLow(d: seq<real>, g: Stream, seed: int, n: nat, alpha: real, x: real)
    requires d != [] && n >= 2
  {
    |Below(d, g, seed, n, x)| as real <= (n - 1) as real * alpha / 2.0 < |UpTo(d, g, seed, n, x)| as real
  }

  ghost predicate IsHigh(d: seq<real>, g: Stream, seed: int, n: nat, alpha: real, x: real)
    requires d != [] && n >= 2
  {
    |Above(d, g, seed, n, x)| as real <= (n - 1) as real * alpha / 2.0 < |DownTo(d, g, seed, n, x)| as real
  }

  /** `p` is the smaller of 1 and `2 (1 + tail) / (n + 1)`. */
  ghost predicate IsTailValue(p: real, tail: nat, n: nat) {
    p * (n + 1) as real == if 2 * (1 + tail) <= n + 1 then 2.0 * (1 + tail) as real else (n + 1) as real
  }

  /** The tail on the other side of zero; a mean of zero has none. */
  ghost predicate IsPValue(d: seq<real>, g: Stream, seed: int, n: nat, p: real)
    requires d != []
  {
    && (Mean(d) > 0.0 ==> IsTailValue(p, |Below(d, g, seed, n, 0.0)|, n))
    && (Mean(d) < 0.0 ==> IsTailValue(p, |Above(d, g, seed, n, 0.0)|, n))
    && (Mean(d) == 0.0 ==> p == 1.0)
  }

  ghost predicate IsReport(d: seq<real>, n: nat, seed: int, alpha: real, g: Stream, ci: Interval)
    requires d != [] && n >= 2
  {
    && ci.estimate == Mean(d) && ci.nBoot == n && ci.seed == seed
    && IsLow(d, g, seed, n, alpha, ci.ciLow) && IsHigh(d, g, seed, n, alpha, ci.ciHigh)
    && IsPValue(d, g, seed, n, ci.pValue)
  }

  // ----- counting -----

  ghost function Chosen(m: seq<real>, f: real -> bool, n: nat): set<nat>
    requires n <= |m|
  {
    set b: nat | b < n && f(m[b])
  }

  lemma {:induction false} CountIsSize(m: seq<real>, f: real -> bool, n: nat)
    requires n <= |m|
    ensures CountTo(m, f, n) == |Chosen(m, f, n)|
    decreases n
  {
    if n == 0 {
      assert Chosen(m, f, 0) == {};
    } else {
      CountIsSize(m, f, n - 1);
      if f(m[n - 1]) {
        assert Chosen(m, f, n) == Chosen(m, f, n - 1) + {n - 1};
      } else {
        assert Chosen(m, f, n) == Chosen(m, f, n - 1);
      }
    }
  }

  lemma {:induction false} CountWithin(s: seq<real>, f: real -> bool, l: nat, n: nat)
    requires l <= n <= |s| && forall i :: l <= i < n ==> !f(s[i])
    ensures CountTo(s, f, n) <= l
    decreases n
  {
    if l < n {
      CountWithin(s, f, l, n - 1);
    }
  }

  lemma CountBeyond(s: seq<real>, f: real -> bool, l: nat)
    requires l <= |s| && forall i :: 0 <= i < l ==> !f(s[i])
    ensures CountIf(s, f) <= |s| - l
  {
    assert s == s[..l] + s[l..];
    CountConcat(s[..l], s[l..], f);
    CountWithin(s[..l], f, 0, l);
  }

  function LessThan(x: real): real -> bool {
    y => y < x
  }

  function MoreThan(x: real): real -> bool {
    y => y > x
  }

  function AtMost(x: real): real -> bool {
    y => y <= x
  }

  function AtLeast(x: real): real -> bool {
    y => y >= x
  }

  /** Of a sorted list at most `l` values are below the one at position `l`, and more are up to it. */
  lemma RankFromBelow(s: seq<real>, l: nat)
    requires Sorted(s, RealLeq) && l < |s|
    ensures CountIf(s, LessThan(s[l])) <= l < CountIf(s, AtMost(s[l]))
  {
    forall i | l <= i < |s| ensures !LessThan(s[l])(s[i]) {
      assert l < i ==> RealLeq(s[l], s[i]);
    }
    CountWithin(s, LessThan(s[l]), l, |s|);
    forall i | 0 <= i < l + 1 ensures AtMost(s[l])(s[i]) {
      assert i < l ==> RealLeq(s[i], s[l]);
    }
    CountStretch(s, 0, l + 1, AtMost(s[l]));
  }

  lemma RankFromAbove(s: seq<real>, l: nat)
    requires Sorted(s, RealLeq) && l < |s|
    ensures CountIf(s, MoreThan(s[l])) <= |s| - 1 - l < CountIf(s, AtLeast(s[l]))
  {
    forall i | 0 <= i < l + 1 ensures !MoreThan(s[l])(s[i]) {
      assert i < l ==> RealLeq(s[i], s[l]);
    }
    CountBeyond(s, MoreThan(s[l]), l + 1);
    forall i | l <= i < |s| ensures AtLeast(s[l])(s[i]) {
      assert l < i ==> RealLeq(s[l], s[i]);
    }
    CountStretch(s, l, |s|, AtLeast(s[l]));
  }

  lemma SizesAre(d: seq<real>, g: Stream, seed: int, n: nat, x: real)
    requires d != []
    ensures var m := Means(d, g, seed, n);
            && CountIf(m, LessThan(x)) == |Below(d, g, seed, n, x)| && CountIf(m, MoreThan(x)) == |Above(d, g, seed, n, x)|
            && CountIf(m, AtMost(x)) == |UpTo(d, g, seed, n, x)| && CountIf(m, AtLeast(x)) == |DownTo(d, g, seed, n, x)|
  {
    var m := Means(d, g, seed, n);
    CountIsSize(m, LessThan(x), n);
    CountIsSize(m, MoreThan(x), n);
    CountIsSize(m, AtMost(x), n);
    CountIsSize(m, AtLeast(x), n);
    assert Chosen(m, LessThan(x), n) == Below(d, g, seed, n, x);
    assert Chosen(m, MoreThan(x), n) == Above(d, g, seed, n, x);
    assert Chosen(m, AtMost(x), n) == UpTo(d, g, seed, n, x);
    assert Chosen(m, AtLeast(x), n) == DownTo(d, g, seed, n, x);
  }

  lemma {:induction false} SameCount(s: seq<real>, f: real -> bool, h: real -> bool, n: nat)
    requires n <= |s| && forall x :: f(x) == h(x)
    ensures CountTo(s, f, n) == CountTo(s, h, n)
    decreases n
  {
    if n > 0 {
      SameCount(s, f, h, n - 1);
    }
  }

  /** The two counters of the loop. */
  lemma TailsAre(d: seq<real>, g: Stream, seed: int, n: nat)
    requires d != []
    ensures var m := Means(d, g, seed, n);
            CountIf(m, Negative) == |Below(d, g, seed, n, 0.0)| && CountIf(m, Positive) == |Above(d, g, seed, n, 0.0)|
  {
    var m := Means(d, g, seed, n);
    SizesAre(d, g, seed, n, 0.0);
    SameCount(m, Negative, LessThan(0.0), n);
    SameCount(m, Positive, MoreThan(0.0), n);
  }

  // ----- the report -----

  lemma FloorBetween(x: real, a: nat, b: nat)
    requires a <= x.Floor < b
    ensures a as real <= x < b as real
  {
  }

  lemma LowIsLow(d: seq<real>, n: nat, seed: int, alpha: real, g: Stream)
    requires PairedInterval(d, n, seed, alpha, g).Ok?
    ensures IsLow(d, g, seed, n, alpha, PairedInterval(d, n, seed, alpha, g).ci.ciLow)
  {
    var m, x := Means(d, g, seed, n), PairedInterval(d, n, seed, alpha, g).ci.ciLow;
    var s, l := Sort(m, RealLeq), LowerIndex(n, alpha);
    RealOrder();
    SortSorts(m, RealLeq);
    IndexRange(n, alpha);
    RankFromBelow(s, l);
    CountPermutation(m, s, LessThan(x));
    CountPermutation(m, s, AtMost(x));
    SizesAre(d, g, seed, n, x);
    FloorBetween((n - 1) as real * alpha / 2.0, |Below(d, g, seed, n, x)|, |UpTo(d, g, seed, n, x)|);
  }

  lemma HighIsHigh(d: seq<real>, n: nat, seed: int, alpha: real, g: Stream)
    requires PairedInterval(d, n, seed, alpha, g).Ok?
    ensures IsHigh(d, g, seed, n, alpha, PairedInterval(d, n, seed, alpha, g).ci.ciHigh)
  {
    var m, x := Means(d, g, seed, n), PairedInterval(d, n, seed, alpha, g).ci.ciHigh;
    var s, u := Sort(m, RealLeq), UpperIndex(n, alpha);
    RealOrder();
    SortSorts(m, RealLeq);
    IndexRange(n, alpha);
    SameSize(m, s);
    RankFromAbove(s, u);
    CountPermutation(m, s, MoreThan(x));
    CountPermutation(m, s, AtLeast(x));
    SizesAre(d, g, seed, n, x);
    FloorBetween((n - 1) as real * alpha / 2.0, |Above(d, g, seed, n, x)|, |DownTo(d, g, seed, n, x)|);
  }

  lemma TailValue(tail: nat, n: nat)
    ensures var p := 2.0 * (tail + 1) as real / (n + 1) as real;
            IsTailValue(if p < 1.0 then p else 1.0, tail, n)
  {
    var k := (n + 1) as real;
    var p := 2.0 * (tail + 1) as real / k;
    assert p * k == 2.0 * (tail + 1) as real;
    if p < 1.0 {
      ScaleStrictly(p, 1.0, k);
    } else if p > 1.0 {
      ScaleStrictly(1.0, p, k);
    }
  }

  lemma ValueIsPValue(d: seq<real>, n: nat, seed: int, alpha: real, g: Stream)
    requires PairedInterval(d, n, seed, alpha, g).Ok?
    ensures IsPValue(d, g, seed, n, PairedInterval(d, n, seed, alpha, g).ci.pValue)
  {
    TailsAre(d, g, seed, n);
    TailValue(|Below(d, g, seed, n, 0.0)|, n);
    TailValue(|Above(d, g, seed, n, 0.0)|, n);
  }

  lemma OneTailValue(p: real, q: real, tail: nat, n: nat)
    requires IsTailValue(p, tail, n) && IsTailValue(q, tail, n)
    ensures p == q
  {
    var k := (n + 1) as real;
    if p < q {
      ScaleStrictly(p, q, k);
    } else if q < p {
      ScaleStrictly(q, p, k);
    }
  }

  lemma SubsetSize(a: set<nat>, b: set<nat>)
    requires a <= b
    ensures |a| <= |b|
  {
    assert b == a + (b - a);
  }

  lemma OneLow(d: seq<real>, g: Stream, seed: int, n: nat, alpha: real, x: real, y: real)
    requires d != [] && n >= 2 && IsLow(d, g, seed, n, alpha, x) && IsLow(d, g, seed, n, alpha, y)
    ensures x >= y
  {
    if x < y {
      SubsetSize(UpTo(d, g, seed, n, x), Below(d, g, seed, n, y));
    }
  }

  lemma OneHigh(d: seq<real>, g: Stream, seed: int, n: nat, alpha: real, x: real, y: real)
    requires d != [] && n >= 2 && IsHigh(d, g, seed, n, alpha, x) && IsHigh(d, g, seed, n, alpha, y)
    ensures x >= y
  {
    if x < y {
      SubsetSize(DownTo(d, g, seed, n, y), Above(d, g, seed, n, x));
    }
  }

  lemma OneReport(d: seq<real>, n: nat, seed: int, alpha: real, g: Stream, a: Interval, b: Interval)
    requires d != [] && n >= 2 && IsReport(d, n, seed, alpha, g, a) && IsReport(d, n, seed, alpha, g, b)
    ensures a == b
  {
    OneLow(d, g, seed, n, alpha, a.ciLow, b.ciLow);
    OneLow(d, g, seed, n, alpha, b.ciLow, a.ciLow);
    OneHigh(d, g, seed, n, alpha, a.ciHigh, b.ciHigh);
    OneHigh(d, g, seed, n, alpha, b.ciHigh, a.ciHigh);
    if Mean(d) > 0.0 {
      OneTailValue(a.pValue, b.pValue, |Below(d, g, seed, n, 0.0)|, n);
    } else if Mean(d) < 0.0 {
      OneTailValue(a.pValue, b.pValue, |Above(d, g, seed, n, 0.0)|, n);
    }
  }

  /** The result is the one report there is, or an error for the first argument that is out of range. */
  lemma ReportIff(d: seq<real>, n: nat, seed: int, alpha: real, g: Stream, ci: Interval)
    ensures PairedInterval(d, n, seed, alpha, g) == Ok(ci)
       <==> d != [] && n >= 2 && 0.0 < alpha < 1.0 && IsReport(d, n, seed, alpha, g, ci)
  {
    var r := PairedInterval(d, n, seed, alpha, g);
    if r.Ok? {
      LowIsLow(d, n, seed, alpha, g);
      HighIsHigh(d, n, seed, alpha, g);
      ValueIsPValue(d, n, seed, alpha, g);
      assert IsReport(d, n, seed, alpha, g, r.ci);
      if IsReport(d, n, seed, alpha, g, ci) {
        OneReport(d, n, seed, alpha, g, ci, r.ci);
      }
    }
  }

  // ----- clear differences -----

  lemma {:induction false} SumPositive(s: seq<real>)
    requires s != [] && forall i :: 0 <= i < |s| ==> s[i] > 0.0
    ensures Sum(s) > 0.0
  {
    if |s| > 1 {
      SumPositive(s[..|s| - 1]);
    }
  }

  lemma MeanPositive(s: seq<real>)
    requires s != [] && forall i :: 0 <= i < |s| ==> s[i] > 0.0
    ensures Mean(s) > 0.0
  {
    SumPositive(s);
  }

  lemma NoneBelow(d: seq<real>, n: nat, seed: int, g: Stream)
    requires d != [] && forall i :: 0 <= i < |d| ==> d[i] > 0.0
    ensures Below(d, g, seed, n, 0.0) == {}
  {
    forall b: nat | b < n ensures ResampleMean(d, g, seed, b) > 0.0 {
      MeanPositive(Resample(d, g, seed, b));
    }
  }

  /** When the first method is better on every question, no resample contradicts and the p-value is as small as the
      number of resamples allows. */
  lemma AllPositive(d: seq<real>, n: nat, seed: int, alpha: real, g: Stream)
    requires PairedInterval(d, n, seed, alpha, g).Ok? && forall i :: 0 <= i < |d| ==> d[i] > 0.0
    ensures PairedInterval(d, n, seed, alpha, g).ci.pValue == 2.0 / (n + 1) as real
  {
    MeanPositive(d);
    NoneBelow(d, n, seed, g);
    ValueIsPValue(d, n, seed, alpha, g);
    EmptyTail(PairedInterval(d, n, seed, alpha, g).ci.pValue, n);
  }

  lemma EmptyTail(p: real, n: nat)
    requires n >= 2 && IsTailValue(p, 0, n)
    ensures p == 2.0 / (n + 1) as real
  {
    Quotient(p, (n + 1) as real, 2.0);
  }

  lemma Quotient(p: real, k: real, x: real)
    requires k > 0.0 && p * k == x
    ensures p == x / k
  {
  }
}
