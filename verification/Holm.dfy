/** Holm's step-down correction, `holm_adjust`. */
module Holm {
  import opened Sorting

  /** One hypothesis: its position in the family and its raw p-value. */
  datatype Hypothesis = Hypothesis(index: nat, p: real)

  predicate Before(a: Hypothesis, b: Hypothesis) {
    a.p < b.p || (a.p == b.p && a.index <= b.index)
  }

  function Enumerated(p: seq<real>): (h: seq<Hypothesis>)
    ensures |h| == |p| && forall i :: 0 <= i < |p| ==> h[i] == Hypothesis(i, p[i])
  {
    seq(|p|, i requires 0 <= i < |p| => Hypothesis(i, p[i]))
  }

  /** The family in ascending order of raw p-value, ties by position. */
  function Ordered(p: seq<real>): seq<Hypothesis> {
    Sort(Enumerated(p), Before)
  }

  function Lesser(x: real, y: real): real {
    if x <= y then x else y
  }

  function Greater(x: real, y: real): real {
    if x >= y then x else y
  }

  /** `n` times `x`, capped at one: Bonferroni's correction for `n` hypotheses. */
  function Capped(n: nat, x: real): real {
    Lesser(1.0, x * n as real)
  }

  /** The corrected values by rank: the hypothesis of rank `r` counts those from `r` on. */
  function Steps(h: seq<Hypothesis>): (s: seq<real>)
    ensures |s| == |h| && forall r :: 0 <= r < |h| ==> s[r] == Capped(|h| - r, h[r].p)
  {
    seq(|h|, r requires 0 <= r < |h| => Capped(|h| - r, h[r].p))
  }

  function RunningMax(s: seq<real>, rank: nat): (v: real)
    requires rank < |s|
  {
    if rank == 0 then s[0] else Greater(s[rank], RunningMax(s, rank - 1))
  }

  /** `v` lists the adjusted values of the family `p`. */
  ghost predicate IsHolm(p: seq<real>, v: seq<real>) {
    && Ranked(p, Ordered(p))
    && |v| == |p|
    && forall r :: 0 <= r < |p| ==> v[Ordered(p)[r].index] == RunningMax(Steps(Ordered(p)), r)
  }

  // ----- the order of the family -----

  ghost predicate HasRank(h: seq<Hypothesis>, i: nat) {
    exists r :: 0 <= r < |h| && h[r].index == i
  }

  /** `h` lists each hypothesis of the family once, in ascending order. */
  ghost predicate Ranked(p: seq<real>, h: seq<Hypothesis>) {
    && |h| == |p|
    && (forall r, s :: 0 <= r < s < |h| ==> h[r].p <= h[s].p)
    && (forall r :: 0 <= r < |h| ==> h[r].index < |p| && h[r].p == p[h[r].index])
    && (forall r, s :: 0 <= r < s < |h| ==> h[r].index != h[s].index)
    && (forall i: nat :: i < |p| ==> HasRank(h, i))
  }

  lemma BeforeOrder()
    ensures Order(Before)
  {
  }

  /** Sorting the enumerated family gives each hypothesis exactly one rank. */
  lemma OrderedFamily(p: seq<real>)
    ensures Ranked(p, Ordered(p))
  {
    var e, h := Enumerated(p), Ordered(p);
    BeforeOrder();
    SortSorts(e, Before);
    forall r | 0 <= r < |h| ensures h[r].index < |p| && h[r].p == p[h[r].index] {
      assert h[r] in multiset(h);
      assert h[r] in e;
    }
    assert Distinct(e);
    DistinctPermutation(e, h);
    forall i: nat | i < |p| ensures HasRank(h, i) {
      assert e[i] in multiset(e);
      assert e[i] in h;
    }
  }

  // ----- the algorithm -----

  /** The first loop: the corrected values by rank. */
  method FillSteps(ordered: seq<Hypothesis>) returns (a: array<real>)
    ensures a[..] == Steps(ordered) && fresh(a)
  {
    var m := |ordered|;
    a := new real[m](_ => 0.0);
    for rank := 0 to m
      invariant forall r :: 0 <= r < rank ==> a[r] == Capped(m - r, ordered[r].p)
    {
      a[rank] := Lesser(1.0, ordered[rank].p * (m - rank) as real);
    }
  }

  /** The second loop: each value becomes the largest up to it, in place. */
  method TakeRunningMax(a: array<real>)
    requires a.Length > 0
    modifies a
    ensures forall r :: 0 <= r < a.Length ==> a[r] == RunningMax(old(a[..]), r)
  {
    for rank := 1 to a.Length
      invariant forall r :: 0 <= r < rank ==> a[r] == RunningMax(old(a[..]), r)
      invariant forall r :: rank <= r < a.Length ==> a[r] == old(a[r])
    {
      a[rank] := Greater(a[rank], a[rank - 1]);
    }
  }

  /** The third loop: each value goes back to the position of its hypothesis. */
  method Scatter(ordered: seq<Hypothesis>, a: array<real>) returns (adjusted: array<real>)
    requires a.Length == |ordered|
    requires forall r :: 0 <= r < |ordered| ==> ordered[r].index < |ordered|
    requires forall r, s :: 0 <= r < s < |ordered| ==> ordered[r].index != ordered[s].index
    ensures adjusted.Length == |ordered|
    ensures forall r :: 0 <= r < |ordered| ==> adjusted[ordered[r].index] == a[r]
  {
    adjusted := new real[|ordered|](_ => 0.0);
    for rank := 0 to |ordered|
      invariant forall r :: 0 <= r < rank ==> adjusted[ordered[r].index] == a[r]
    {
      adjusted[ordered[rank].index] := a[rank];
    }
  }

  method HolmAdjust(rawP: seq<real>) returns (result: seq<real>)
    ensures IsHolm(rawP, result)
    ensures (forall i :: 0 <= i < |rawP| ==> rawP[i] >= 0.0) ==>
              forall i: nat :: i < |rawP| ==> ClosedTest(rawP, i, result[i])
  {
    var ordered := Ordered(rawP);
    OrderedFamily(rawP);
    if |ordered| == 0 {
      return [];
    }
    var sortedAdjusted := FillSteps(ordered);
    TakeRunningMax(sortedAdjusted);
    var adjusted := Scatter(ordered, sortedAdjusted);
    result := adjusted[..];
    if forall i :: 0 <= i < |rawP| ==> rawP[i] >= 0.0 {
      HolmIsClosedTesting(rawP, result);
    }
  }

  // ----- closed testing -----

  /** A non-empty set of hypotheses and its smallest raw p-value, that of `k`. */
  ghost predicate Subfamily(p: seq<real>, J: set<nat>, k: nat) {
    && (forall j :: j in J ==> j < |p|)
    && k in J
    && forall j :: j in J ==> p[k] <= p[j]
  }

  /** The Bonferroni p-value of the intersection hypothesis of `J`. */
  ghost function Bonferroni(p: seq<real>, J: set<nat>, k: nat): real
    requires Subfamily(p, J, k)
  {
    Capped(|J|, p[k])
  }

  /** `v` is the largest Bonferroni value over all the subfamilies that contain `i`. */
  ghost predicate ClosedTest(p: seq<real>, i: nat, v: real) {
    && (forall J: set<nat>, k: nat :: Subfamily(p, J, k) && i in J ==> Bonferroni(p, J, k) <= v)
    && (exists J: set<nat>, k: nat :: Subfamily(p, J, k) && i in J && Bonferroni(p, J, k) == v)
  }

  /** The hypotheses of rank `r` and above. */
  ghost function Upper(h: seq<Hypothesis>, r: nat): set<nat>
    requires r <= |h|
    decreases |h| - r
  {
    if r == |h| then {} else {h[r].index} + Upper(h, r + 1)
  }

  lemma {:induction false} UpperMembers(p: seq<real>, h: seq<Hypothesis>, r: nat)
    requires Ranked(p, h) && r <= |h|
    ensures |Upper(h, r)| == |h| - r
    ensures forall s :: 0 <= s < |h| ==> (h[s].index in Upper(h, r) <==> r <= s)
    ensures forall i :: i in Upper(h, r) ==> i < |p|
    decreases |h| - r
  {
    if r < |h| {
      UpperMembers(p, h, r + 1);
    }
  }

  lemma {:induction false} RunningMaxReached(s: seq<real>, rank: nat) returns (r: nat)
    requires rank < |s|
    ensures r <= rank && RunningMax(s, rank) == s[r]
  {
    if rank == 0 || s[rank] >= RunningMax(s, rank - 1) {
      r := rank;
    } else {
      r := RunningMaxReached(s, rank - 1);
    }
  }

  lemma {:induction false} RunningMaxBound(s: seq<real>, rank: nat, r: nat)
    requires r <= rank < |s|
    ensures s[r] <= RunningMax(s, rank)
    decreases rank
  {
    if r < rank {
      RunningMaxBound(s, rank - 1, r);
    }
  }

  /** The hypothesis of least rank in a subfamily; the subfamily lies at or above that rank. */
  lemma {:induction false} LeastRank(p: seq<real>, h: seq<Hypothesis>, J: set<nat>, r: nat) returns (s: nat)
    requires Ranked(p, h) && r <= |h| && J <= Upper(h, r) && J != {}
    ensures r <= s < |h| && h[s].index in J && J <= Upper(h, s)
    decreases |h| - r
  {
    if h[r].index in J {
      s := r;
    } else {
      s := LeastRank(p, h, J, r + 1);
    }
  }

  lemma RankOf(p: seq<real>, h: seq<Hypothesis>, i: nat) returns (r: nat)
    requires Ranked(p, h) && i < |p|
    ensures r < |h| && h[r].index == i
  {
    assert HasRank(h, i);
    r :| 0 <= r < |h| && h[r].index == i;
  }

  lemma {:induction false} SubsetSize<T>(a: set<T>, b: set<T>)
    requires a <= b
    ensures |a| <= |b|
  {
    if a != {} {
      var x :| x in a;
      SubsetSize(a - {x}, b - {x});
    }
  }

  lemma CappedMonotone(a: nat, b: nat, x: real, y: real)
    requires a <= b && 0.0 <= x <= y
    ensures Capped(a, x) <= Capped(b, y)
  {
    assert (y - x) * a as real >= 0.0;
    assert y * (b as real - a as real) >= 0.0;
  }

  /** Some rank holds the smallest raw p-value of a subfamily, and the subfamily is no larger than what
      lies from that rank on. */
  lemma SubfamilyRank(p: seq<real>, h: seq<Hypothesis>, J: set<nat>, k: nat) returns (s: nat)
    requires Ranked(p, h) && Subfamily(p, J, k)
    ensures s < |h| && h[s].p == p[k] && J <= Upper(h, s) && |J| <= |h| - s
  {
    UpperMembers(p, h, 0);
    forall j | j in J ensures j in Upper(h, 0) {
      var r := RankOf(p, h, j);
    }
    s := LeastRank(p, h, J, 0);
    UpperMembers(p, h, s);
    SubsetSize(J, Upper(h, s));
    var t := RankOf(p, h, k);
    assert s <= t;
  }

  /** No subfamily that contains the hypothesis of rank `rank` has a larger value than Holm's. */
  lemma SubfamilyBound(p: seq<real>, h: seq<Hypothesis>, rank: nat, J: set<nat>, k: nat)
    requires Ranked(p, h) && rank < |h| && (forall i :: 0 <= i < |p| ==> p[i] >= 0.0)
    requires Subfamily(p, J, k) && h[rank].index in J
    ensures Bonferroni(p, J, k) <= RunningMax(Steps(h), rank)
  {
    var s := SubfamilyRank(p, h, J, k);
    UpperMembers(p, h, s);
    CappedMonotone(|J|, |h| - s, p[k], p[k]);
    RunningMaxBound(Steps(h), rank, s);
  }

  lemma UpperIsSubfamily(p: seq<real>, h: seq<Hypothesis>, r: nat)
    requires Ranked(p, h) && r < |h|
    ensures Subfamily(p, Upper(h, r), h[r].index)
    ensures Bonferroni(p, Upper(h, r), h[r].index) == Steps(h)[r]
  {
    UpperMembers(p, h, r);
    forall j | j in Upper(h, r) ensures p[h[r].index] <= p[j] {
      var t := RankOf(p, h, j);
    }
  }

  lemma AdjustedIsClosedTest(p: seq<real>, h: seq<Hypothesis>, rank: nat)
    requires Ranked(p, h) && rank < |h| && forall i :: 0 <= i < |p| ==> p[i] >= 0.0
    ensures ClosedTest(p, h[rank].index, RunningMax(Steps(h), rank))
  {
    var i, v := h[rank].index, RunningMax(Steps(h), rank);
    forall J: set<nat>, k: nat | Subfamily(p, J, k) && i in J ensures Bonferroni(p, J, k) <= v {
      SubfamilyBound(p, h, rank, J, k);
    }
    var r := RunningMaxReached(Steps(h), rank);
    UpperIsSubfamily(p, h, r);
    UpperMembers(p, h, r);
  }

  /** Holm's correction is closed testing with Bonferroni's local tests. */
  lemma HolmIsClosedTesting(p: seq<real>, v: seq<real>)
    requires IsHolm(p, v) && forall i :: 0 <= i < |p| ==> p[i] >= 0.0
    ensures forall i: nat :: i < |p| ==> ClosedTest(p, i, v[i])
  {
    forall i: nat | i < |p| ensures ClosedTest(p, i, v[i]) {
      var rank := RankOf(p, Ordered(p), i);
      AdjustedIsClosedTest(p, Ordered(p), rank);
    }
  }

  // ----- what closed testing gives -----

  lemma ClosedTestUnique(p: seq<real>, i: nat, v: real, w: real)
    requires ClosedTest(p, i, v) && ClosedTest(p, i, w)
    ensures v == w
  {
  }

  lemma {:induction false} LeastExists(p: seq<real>, J: set<nat>) returns (k: nat)
    requires J != {} && forall j :: j in J ==> j < |p|
    ensures Subfamily(p, J, k)
    decreases |J|
  {
    var j :| j in J;
    if J == {j} {
      k := j;
    } else {
      var r := LeastExists(p, J - {j});
      k := if p[j] <= p[r] then j else r;
      assert J == (J - {j}) + {j};
    }
  }

  lemma ClosedTestMonotone(p: seq<real>, q: seq<real>, i: nat, v: real, w: real)
    requires |p| == |q| && forall j :: 0 <= j < |p| ==> 0.0 <= p[j] <= q[j]
    requires ClosedTest(p, i, v) && ClosedTest(q, i, w)
    ensures v <= w
  {
    var J: set<nat>, k: nat :| Subfamily(p, J, k) && i in J && Bonferroni(p, J, k) == v;
    var l := LeastExists(q, J);
    assert p[k] <= p[l];
    CappedMonotone(|J|, |J|, p[k], q[l]);
    assert Bonferroni(q, J, l) <= w;
  }

  /** Raising raw p-values lowers no adjusted value. */
  lemma AdjustedMonotone(p: seq<real>, q: seq<real>, v: seq<real>, w: seq<real>)
    requires IsHolm(p, v) && IsHolm(q, w) && |p| == |q|
    requires forall i :: 0 <= i < |p| ==> 0.0 <= p[i] <= q[i]
    ensures forall i :: 0 <= i < |p| ==> v[i] <= w[i]
  {
    HolmIsClosedTesting(p, v);
    HolmIsClosedTesting(q, w);
    forall i: nat | i < |p| ensures v[i] <= w[i] {
      ClosedTestMonotone(p, q, i, v[i], w[i]);
    }
  }

  /** `q` lists the family `p` in another order: position `i` of `q` is position `perm[i]` of `p`. */
  ghost predicate Reordered(p: seq<real>, q: seq<real>, perm: seq<nat>) {
    && |p| == |q| == |perm|
    && (forall i :: 0 <= i < |perm| ==> perm[i] < |p| && q[i] == p[perm[i]])
    && Distinct(perm)
  }

  ghost function Image(perm: seq<nat>, J: set<nat>): set<nat>
    requires forall j :: j in J ==> j < |perm|
  {
    set j | j in J :: perm[j]
  }

  lemma {:induction false} ImageSize(perm: seq<nat>, J: set<nat>)
    requires (forall j :: j in J ==> j < |perm|) && Distinct(perm)
    ensures |Image(perm, J)| == |J|
    decreases |J|
  {
    if J != {} {
      var j :| j in J;
      ImageSize(perm, J - {j});
      assert Image(perm, J) == Image(perm, J - {j}) + {perm[j]};
    }
  }

  /** Every subfamily of the reordered family is a subfamily of the original, with the same value. */
  lemma ReorderedBound(p: seq<real>, q: seq<real>, perm: seq<nat>, i: nat, v: real, w: real)
    requires Reordered(p, q, perm) && i < |q|
    requires ClosedTest(p, perm[i], v) && ClosedTest(q, i, w)
    ensures w <= v
  {
    var J: set<nat>, k: nat :| Subfamily(q, J, k) && i in J && Bonferroni(q, J, k) == w;
    var I := Image(perm, J);
    ImageSize(perm, J);
    assert Subfamily(p, I, perm[k]);
    assert Bonferroni(p, I, perm[k]) == w;
  }

  /** The reordering read backwards. */
  lemma {:induction false} InverseExists(p: seq<real>, q: seq<real>, perm: seq<nat>) returns (inv: seq<nat>)
    requires Reordered(p, q, perm)
    ensures Reordered(q, p, inv) && forall i :: 0 <= i < |perm| ==> inv[perm[i]] == i
  {
    Onto(perm);
    inv := seq(|perm|, i requires 0 <= i < |perm| => assert Hit(perm, i); Preimage(perm, i));
    forall i, j | 0 <= i < j < |inv| ensures inv[i] != inv[j] {
      assert perm[inv[i]] == i && perm[inv[j]] == j;
    }
  }

  ghost predicate Hit(perm: seq<nat>, i: nat) {
    exists j :: 0 <= j < |perm| && perm[j] == i
  }

  ghost function Preimage(perm: seq<nat>, i: nat): (j: nat)
    requires Hit(perm, i)
    ensures j < |perm| && perm[j] == i
  {
    var j :| 0 <= j < |perm| && perm[j] == i;
    j
  }

  ghost function Positions(n: nat): (s: set<nat>)
    ensures |s| == n && forall i: int :: i in s <==> 0 <= i < n
  {
    if n == 0 then {} else Positions(n - 1) + {n - 1}
  }

  /** A sequence of distinct positions reaches every position. */
  lemma Onto(perm: seq<nat>)
    requires Distinct(perm) && forall i :: 0 <= i < |perm| ==> perm[i] < |perm|
    ensures forall i: nat :: i < |perm| ==> Hit(perm, i)
  {
    var all := Positions(|perm|);
    var image := Image(perm, all);
    ImageSize(perm, all);
    if exists i: nat :: i < |perm| && !Hit(perm, i) {
      var i: nat :| i < |perm| && !Hit(perm, i);
      SubsetSize(image, all - {i});
    }
  }

  /** Adjustment commutes with reordering the family. */
  lemma AdjustedReordered(p: seq<real>, q: seq<real>, perm: seq<nat>, v: seq<real>, w: seq<real>)
    requires Reordered(p, q, perm) && IsHolm(p, v) && IsHolm(q, w)
    requires forall i :: 0 <= i < |p| ==> p[i] >= 0.0
    ensures forall i :: 0 <= i < |q| ==> w[i] == v[perm[i]]
  {
    HolmIsClosedTesting(p, v);
    HolmIsClosedTesting(q, w);
    var inv := InverseExists(p, q, perm);
    forall i: nat | i < |q| ensures w[i] == v[perm[i]] {
      ReorderedBound(p, q, perm, i, v[perm[i]], w[i]);
      ReorderedBound(q, p, inv, perm[i], w[i], v[perm[i]]);
    }
  }

  function Transposition(n: nat, i: nat, j: nat): (perm: seq<nat>)
    requires i < n && j < n
    ensures |perm| == n && Distinct(perm)
    ensures forall k :: 0 <= k < n ==> perm[k] == if k == i then j else if k == j then i else k
  {
    seq(n, k requires 0 <= k < n => if k == i then j else if k == j then i else k)
  }

  /** Equal raw p-values get equal adjusted values, however ties are broken. */
  lemma EqualRawEqualAdjusted(p: seq<real>, v: seq<real>, i: nat, j: nat)
    requires IsHolm(p, v) && forall k :: 0 <= k < |p| ==> p[k] >= 0.0
    requires i < |p| && j < |p| && p[i] == p[j]
    ensures v[i] == v[j]
  {
    AdjustedReordered(p, p, Transposition(|p|, i, j), v, v);
  }

  lemma RunningMaxMonotone(s: seq<real>, a: nat, b: nat)
    requires a <= b < |s|
    ensures RunningMax(s, a) <= RunningMax(s, b)
  {
    var r := RunningMaxReached(s, a);
    RunningMaxBound(s, b, r);
  }

  /** Within a family adjusted values do not decrease with the raw ones. */
  lemma AdjustedAscend(p: seq<real>, v: seq<real>, i: nat, j: nat)
    requires IsHolm(p, v) && i < |p| && j < |p| && p[i] <= p[j]
    requires p[i] < p[j] || forall k :: 0 <= k < |p| ==> p[k] >= 0.0
    ensures v[i] <= v[j]
  {
    if p[i] == p[j] {
      EqualRawEqualAdjusted(p, v, i, j);
    } else {
      var h := Ordered(p);
      var r := RankOf(p, h, i);
      var s := RankOf(p, h, j);
      RunningMaxMonotone(Steps(h), r, s);
    }
  }

  // ----- the sequential procedure -----

  /** How many hypotheses the step-down procedure rejects at level `alpha`: it walks up the ranks and stops
      at the first whose p-value times the number of hypotheses left is not below the level. */
  function StepDown(h: seq<Hypothesis>, alpha: real, rank: nat): (n: nat)
    requires rank <= |h|
    ensures rank <= n <= |h|
    decreases |h| - rank
  {
    if rank < |h| && h[rank].p * (|h| - rank) as real < alpha then StepDown(h, alpha, rank + 1) else rank
  }

  lemma {:induction false} StepDownRejects(h: seq<Hypothesis>, alpha: real, from: nat, rank: nat)
    requires from <= rank < |h| && alpha <= 1.0
    ensures rank < StepDown(h, alpha, from) <==> forall r :: from <= r <= rank ==> Steps(h)[r] < alpha
    decreases |h| - from
  {
    var s := Steps(h);
    assert s[from] == Capped(|h| - from, h[from].p);
    if s[from] < alpha && from < rank {
      StepDownRejects(h, alpha, from + 1, rank);
    } else if s[from] < alpha {
      assert StepDown(h, alpha, from) >= from + 1;
    }
  }

  lemma {:induction false} RunningMaxBelow(s: seq<real>, rank: nat, alpha: real)
    requires rank < |s|
    ensures RunningMax(s, rank) < alpha <==> forall r :: 0 <= r <= rank ==> s[r] < alpha
  {
    if rank > 0 {
      RunningMaxBelow(s, rank - 1, alpha);
    }
  }

  /** Comparing adjusted values with a level below one rejects what the step-down procedure rejects. */
  lemma DecisionRule(p: seq<real>, v: seq<real>, alpha: real, rank: nat)
    requires IsHolm(p, v) && rank < |p| && alpha <= 1.0
    ensures v[Ordered(p)[rank].index] < alpha <==> rank < StepDown(Ordered(p), alpha, 0)
  {
    StepDownRejects(Ordered(p), alpha, 0, rank);
    RunningMaxBelow(Steps(Ordered(p)), rank, alpha);
  }

  /** Adjusted values of p-values are p-values, and no smaller than the raw ones. */
  lemma AdjustedBounds(p: seq<real>, v: seq<real>, i: nat)
    requires IsHolm(p, v) && i < |p| && forall k :: 0 <= k < |p| ==> 0.0 <= p[k] <= 1.0
    ensures p[i] <= v[i] <= 1.0
    ensures |p| == 1 ==> v[i] == p[i]
  {
    var h := Ordered(p);
    var rank := RankOf(p, h, i);
    var r := RunningMaxReached(Steps(h), rank);
    RunningMaxBound(Steps(h), rank, rank);
    CappedMonotone(1, |h| - rank, p[i], p[i]);
    assert Capped(1, p[i]) == p[i];
  }
}
