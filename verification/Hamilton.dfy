/** What the largest-remainder allocation promises: quota, capacity, monotonicity, independence of the
    dictionary order, and optimality among all allocations of the same number of seats. */
module Hamilton {
  import opened Sorting
  import opened Apportionment

  function Fraction(x: real): (f: real)
    ensures 0.0 <= f < 1.0
  {
    x - x.Floor as real
  }

  /** The exact shares of a run of the algorithm. */
  function ExactShares(n: nat, names: seq<string>, sizes: map<string, int>): map<string, real>
    requires (forall i :: 0 <= i < |names| ==> names[i] in sizes) && Total(names, sizes) > 0
  {
    Ideals(n, sizes, Total(names, sizes))
  }

  /** The award order lists every stratum once, largest fraction first. */
  lemma AwardOrderSorted(names: seq<string>, ideals: map<string, real>)
    requires KeyOrder(names, ideals)
    ensures var order := AwardOrder(names, ideals);
            && KeyOrder(order, ideals) && |order| == |names|
            && forall i, j :: 0 <= i < j < |order| ==> Fraction(ideals[order[i]]) >= Fraction(ideals[order[j]])
  {
    var shares := Shares(names, ideals);
    var s, order := Sort(shares, ByRemainder), AwardOrder(names, ideals);
    AwardOrderPermutes(names, ideals);
    KeyOrderPermutation(names, order, ideals);
    ByRemainderOrder();
    SortSorts(shares, ByRemainder);
    forall j | 0 <= j < |order| ensures s[j].fraction == Fraction(ideals[order[j]]) {
      assert s[j] in multiset(s);
      assert s[j] in shares;
    }
    forall i, j | 0 <= i < j < |order| ensures Fraction(ideals[order[i]]) >= Fraction(ideals[order[j]]) {
      assert ByRemainder(s[i], s[j]);
    }
  }

  /** `seats` rounds the share `t` down or up on the side of the threshold `h` that its fraction lies on. */
  predicate RoundsAt(t: real, seats: int, h: real) {
    (seats == t.Floor && Fraction(t) <= h) || (seats == t.Floor + 1 && Fraction(t) >= h)
  }

  lemma RoundsAtPosition(order: seq<string>, left: nat, ideals: map<string, real>, seats: map<string, int>, j: nat)
    requires forall i :: 0 <= i < |order| ==> order[i] in ideals
    requires forall i, k :: 0 <= i < k < |order| ==> Fraction(ideals[order[i]]) >= Fraction(ideals[order[k]])
    requires left < |order| && AwardsTo(order, left, ideals, seats) && j < |order|
    ensures order[j] in seats && RoundsAt(ideals[order[j]], seats[order[j]], Fraction(ideals[order[left]]))
  {
  }

  /** One threshold decides every rounding. */
  lemma RoundingThreshold(n: nat, names: seq<string>, ideals: map<string, real>, seats: map<string, int>) returns (h: real)
    requires KeyOrder(names, ideals) && RoundsShares(n, names, ideals, seats)
    ensures 0.0 <= h < 1.0
    ensures forall q :: q in ideals ==> q in seats && RoundsAt(ideals[q], seats[q], h)
  {
    AwardOrderSorted(names, ideals);
    h := ThresholdOf(AwardOrder(names, ideals), n - Total(names, Floors(ideals)), ideals, seats);
  }

  lemma ThresholdOf(order: seq<string>, left: nat, ideals: map<string, real>, seats: map<string, int>) returns (h: real)
    requires KeyOrder(order, ideals) && left < |order| && AwardsTo(order, left, ideals, seats)
    requires forall i, k :: 0 <= i < k < |order| ==> Fraction(ideals[order[i]]) >= Fraction(ideals[order[k]])
    ensures 0.0 <= h < 1.0
    ensures forall q :: q in ideals ==> q in seats && RoundsAt(ideals[q], seats[q], h)
  {
    h := Fraction(ideals[order[left]]);
    forall q | q in ideals ensures q in seats && RoundsAt(ideals[q], seats[q], h) {
      assert q in order;
      var j :| 0 <= j < |order| && order[j] == q;
      RoundsAtPosition(order, left, ideals, seats, j);
    }
  }

  // ----- quota -----

  /** Strata without a fraction behind position `j` limit how much rounding down loses. */
  lemma {:induction false} FractionsBefore(order: seq<string>, ideals: map<string, real>, j: nat)
    requires forall i :: 0 <= i < |order| ==> order[i] in ideals
    requires forall i :: j <= i < |order| ==> Fraction(ideals[order[i]]) == 0.0
    ensures RealTotal(order, ideals) <= (Total(order, Floors(ideals)) + j) as real
    decreases |order|
  {
    if order != [] {
      var init := order[..|order| - 1];
      if j < |order| {
        FractionsBefore(init, ideals, j);
      } else {
        FloorsBound(order, ideals);
      }
    }
  }

  /** A seat is only awarded where the share has a fraction. */
  lemma AwardedHaveFractions(n: nat, names: seq<string>, ideals: map<string, real>, j: nat)
    requires KeyOrder(names, ideals) && RealTotal(names, ideals) == n as real
    requires j < n - Total(names, Floors(ideals)) && j < |AwardOrder(names, ideals)|
    ensures AwardOrder(names, ideals)[j] in ideals && Fraction(ideals[AwardOrder(names, ideals)[j]]) > 0.0
  {
    var order := AwardOrder(names, ideals);
    AwardOrderSorted(names, ideals);
    if Fraction(ideals[order[j]]) == 0.0 {
      AwardOrderPermutes(names, ideals);
      RealTotalPermutation(names, order, ideals);
      TotalPermutation(names, order, Floors(ideals));
      FractionsBefore(order, ideals, j);
    }
  }

  lemma {:induction false} RealTotalPermutation(a: seq<string>, b: seq<string>, m: map<string, real>)
    requires multiset(a) == multiset(b) && forall i :: 0 <= i < |a| ==> a[i] in m
    ensures forall i :: 0 <= i < |b| ==> b[i] in m
    ensures RealTotal(a, m) == RealTotal(b, m)
    decreases |a|
  {
    SameSize(a, b);
    forall i | 0 <= i < |b| ensures b[i] in m {
      assert b[i] in multiset(a);
    }
    if a != [] {
      var last := |a| - 1;
      RemoveAt(a, last);
      assert a[..last] + a[last + 1..] == a[..last];
      assert a[last] in multiset(b);
      var i := TakeOut(b, a[last]);
      RealTotalPermutation(a[..last], b[..i] + b[i + 1..], m);
      RealTotalWithout(b, i, m);
    }
  }

  lemma {:induction false} RealTotalWithout(b: seq<string>, i: nat, m: map<string, real>)
    requires i < |b| && forall k :: 0 <= k < |b| ==> b[k] in m
    ensures RealTotal(b, m) == RealTotal(b[..i] + b[i + 1..], m) + m[b[i]]
    decreases |b|
  {
    var last := |b| - 1;
    if i == last {
      assert b[..i] + b[i + 1..] == b[..last];
    } else {
      var c := b[..i] + b[i + 1..];
      RealTotalWithout(b[..last], i, m);
      assert c[..|c| - 1] == b[..last][..i] + b[..last][i + 1..];
      assert c[|c| - 1] == b[last];
    }
  }

  predicate Near(t: real, seats: int) {
    t - 1.0 < seats as real < t + 1.0
  }

  lemma RoundingNear(n: nat, names: seq<string>, ideals: map<string, real>, seats: map<string, int>)
    requires KeyOrder(names, ideals) && RoundsShares(n, names, ideals, seats)
    requires RealTotal(names, ideals) == n as real
    ensures forall q :: q in ideals ==> q in seats && Near(ideals[q], seats[q])
  {
    var order, left := AwardOrder(names, ideals), n - Total(names, Floors(ideals));
    AwardOrderSorted(names, ideals);
    forall q | q in ideals ensures Near(ideals[q], seats[q]) {
      assert q in order;
      var j :| 0 <= j < |order| && order[j] == q;
      if j < left {
        AwardedHaveFractions(n, names, ideals, j);
      }
    }
  }

  /** Every stratum gets its share rounded down or rounded up. */
  lemma Quota(n: nat, names: seq<string>, sizes: map<string, int>, seats: map<string, int>)
    requires KeyOrder(names, sizes) && IsHamilton(n, names, sizes, seats)
    ensures forall q :: q in sizes ==> q in seats && Near(ExactShares(n, names, sizes)[q], seats[q])
  {
    IdealsTotal(n, names, sizes, Total(names, sizes));
    CancelTotal(n, Total(names, sizes));
    RoundingNear(n, names, ExactShares(n, names, sizes), seats);
  }

  lemma ShareAtMostSize(n: nat, size: int, total: int)
    requires total > 0 && size >= 0
    ensures n <= total ==> (n * size) as real / total as real <= size as real
    ensures n >= total ==> (n * size) as real / total as real >= size as real
  {
    CancelTotal(size, total);
    if n <= total {
      assert (total - n) * size >= 0;
      DivideMonotone(n * size, size * total, total);
    } else {
      assert (n - total) * size >= 0;
      DivideMonotone(size * total, n * size, total);
    }
  }

  lemma DivideMonotone(a: int, b: int, c: int)
    requires a <= b && c > 0
    ensures a as real / c as real <= b as real / c as real
  {
  }

  /** No stratum gets more seats than it has members unless all of them are wanted, and then it gets at
      least as many as it has. */
  lemma Capacity(n: nat, names: seq<string>, sizes: map<string, int>, seats: map<string, int>)
    requires KeyOrder(names, sizes) && IsHamilton(n, names, sizes, seats)
    requires forall q :: q in sizes ==> sizes[q] >= 0
    ensures forall q :: q in sizes ==>
              (n <= Total(names, sizes) ==> 0 <= seats[q] <= sizes[q])
              && (n >= Total(names, sizes) ==> seats[q] >= sizes[q])
  {
    Quota(n, names, sizes, seats);
    var total := Total(names, sizes);
    IdealsNonNegative(n, sizes, total);
    forall q | q in sizes
      ensures (n <= total ==> 0 <= seats[q] <= sizes[q]) && (n >= total ==> seats[q] >= sizes[q])
    {
      ShareAtMostSize(n, sizes[q], total);
    }
  }

  lemma RoundsMonotone(s: real, t: real, a: int, b: int, h: real)
    requires s < t && RoundsAt(s, a, h) && RoundsAt(t, b, h)
    ensures a <= b
  {
  }

  lemma LargerShare(n: nat, a: int, b: int, total: int)
    requires n > 0 && a < b && total > 0
    ensures (n * a) as real / total as real < (n * b) as real / total as real
  {
    assert n * (b - a) > 0;
    DivideStrictly(n * a, n * b, total);
  }

  lemma SharesOrdered(n: nat, names: seq<string>, sizes: map<string, int>, p: string, q: string)
    requires KeyOrder(names, sizes) && Total(names, sizes) > 0 && n > 0
    requires p in sizes && q in sizes && sizes[p] > sizes[q]
    ensures ExactShares(n, names, sizes)[q] < ExactShares(n, names, sizes)[p]
  {
    LargerShare(n, sizes[q], sizes[p], Total(names, sizes));
  }

  lemma ZeroShare(size: int, total: int)
    requires total > 0
    ensures (0 * size) as real / total as real == 0.0
  {
  }

  lemma NothingToShare(names: seq<string>, sizes: map<string, int>, seats: map<string, int>, q: string)
    requires KeyOrder(names, sizes) && IsHamilton(0, names, sizes, seats) && q in sizes
    ensures seats[q] == 0
  {
    Quota(0, names, sizes, seats);
    ZeroShare(sizes[q], Total(names, sizes));
    assert ExactShares(0, names, sizes)[q] == 0.0;
  }

  /** A larger stratum never gets fewer seats. */
  lemma LargerGetsNoFewer(n: nat, names: seq<string>, sizes: map<string, int>, seats: map<string, int>,
                          p: string, q: string)
    requires KeyOrder(names, sizes) && IsHamilton(n, names, sizes, seats)
    requires p in sizes && q in sizes && sizes[p] > sizes[q]
    ensures seats[p] >= seats[q]
  {
    if n == 0 {
      NothingToShare(names, sizes, seats, p);
      NothingToShare(names, sizes, seats, q);
    } else {
      var h := RoundingThreshold(n, names, ExactShares(n, names, sizes), seats);
      SharesOrdered(n, names, sizes, p, q);
      RoundsMonotone(ExactShares(n, names, sizes)[q], ExactShares(n, names, sizes)[p], seats[q], seats[p], h);
    }
  }

  lemma DivideStrictly(a: int, b: int, c: int)
    requires a < b && c > 0
    ensures a as real / c as real < b as real / c as real
  {
  }

  // ----- the dictionary order does not matter -----

  lemma AwardsUnique(order: seq<string>, left: int, ideals: map<string, real>, a: map<string, int>, b: map<string, int>)
    requires KeyOrder(order, ideals) && AwardsTo(order, left, ideals, a) && AwardsTo(order, left, ideals, b)
    ensures a == b
  {
    forall q | q in ideals ensures a[q] == b[q] {
      assert q in order;
      var j :| 0 <= j < |order| && order[j] == q;
    }
  }

  /** Two orders of the same keys. */
  lemma SameNames<V>(names: seq<string>, names': seq<string>, m: map<string, V>)
    requires KeyOrder(names, m) && KeyOrder(names', m)
    ensures multiset(names) == multiset(names') && |names| == |names'|
  {
    DistinctSameMembers(names, names');
    SameSize(names, names');
  }

  lemma SameTotal(names: seq<string>, names': seq<string>, m: map<string, int>)
    requires KeyOrder(names, m) && KeyOrder(names', m)
    ensures Total(names', m) == Total(names, m)
  {
    SameNames(names, names', m);
    TotalPermutation(names, names', m);
  }

  lemma RoundsSharesAlike(n: nat, names: seq<string>, names': seq<string>, ideals: map<string, real>, seats: map<string, int>)
    requires KeyOrder(names, ideals) && KeyOrder(names', ideals) && RoundsShares(n, names, ideals, seats)
    ensures RoundsShares(n, names', ideals, seats)
  {
    SameNames(names, names', ideals);
    SameTotal(names, names', Floors(ideals));
    AwardOrderSame(names, names', ideals);
  }

  lemma SameKeys<V, W>(names: seq<string>, m: map<string, V>, w: map<string, W>)
    requires KeyOrder(names, m) && m.Keys == w.Keys
    ensures KeyOrder(names, w)
  {
  }

  /** The order of the dictionary has no influence on the allocation: one for some order is one for any. */
  lemma OrderIndependent(n: nat, names: seq<string>, names': seq<string>, sizes: map<string, int>, seats: map<string, int>)
    requires KeyOrder(names, sizes) && KeyOrder(names', sizes) && IsHamilton(n, names, sizes, seats)
    ensures IsHamilton(n, names', sizes, seats)
  {
    var ideals := ExactShares(n, names, sizes);
    SameKeys(names, sizes, ideals);
    SameKeys(names', sizes, ideals);
    SameTotal(names, names', sizes);
    RoundsSharesAlike(n, names, names', ideals, seats);
    ByShares(n, names', sizes, ideals, seats);
  }

  lemma ByShares(n: nat, names: seq<string>, sizes: map<string, int>, ideals: map<string, real>, seats: map<string, int>)
    requires KeyOrder(names, sizes) && Total(names, sizes) > 0 && ideals == Ideals(n, sizes, Total(names, sizes))
    requires KeyOrder(names, ideals) && RoundsShares(n, names, ideals, seats)
    ensures IsHamilton(n, names, sizes, seats)
  {
  }

  lemma RoundingUnique(n: nat, names: seq<string>, ideals: map<string, real>, seats: map<string, int>, seats': map<string, int>)
    requires KeyOrder(names, ideals) && RoundsShares(n, names, ideals, seats) && RoundsShares(n, names, ideals, seats')
    ensures seats == seats'
  {
    AwardOrderSorted(names, ideals);
    AwardsUnique(AwardOrder(names, ideals), n - Total(names, Floors(ideals)), ideals, seats, seats');
  }

  /** There is one allocation. */
  lemma HamiltonUnique(n: nat, names: seq<string>, sizes: map<string, int>, seats: map<string, int>, seats': map<string, int>)
    requires KeyOrder(names, sizes) && IsHamilton(n, names, sizes, seats) && IsHamilton(n, names, sizes, seats')
    ensures seats == seats'
  {
    RoundingUnique(n, names, ExactShares(n, names, sizes), seats, seats');
  }

  lemma AwardOrderSame(names: seq<string>, names': seq<string>, ideals: map<string, real>)
    requires KeyOrder(names, ideals) && KeyOrder(names', ideals) && multiset(names) == multiset(names')
    ensures AwardOrder(names, ideals) == AwardOrder(names', ideals)
  {
    var f := (q: string) => if q in ideals then Apportionment.Share(q, Fraction(ideals[q])) else Apportionment.Share(q, 0.0);
    MappedPermutation(names, names', f);
    assert Shares(names, ideals) == Mapped(names, f);
    assert Shares(names', ideals) == Mapped(names', f);
    ByRemainderOrder();
    SortPermutation(Shares(names, ideals), Shares(names', ideals), ByRemainder);
  }

  // ----- optimality -----

  function Square(x: real): real {
    x * x
  }

  function Distance(x: real): real {
    if x >= 0.0 then x else -x
  }

  /** The total of a penalty on how far the seats are from the shares. */
  function Penalty(names: seq<string>, t: map<string, real>, seats: map<string, int>, f: real -> real): real
    requires forall i :: 0 <= i < |names| ==> names[i] in t && names[i] in seats
  {
    if names == [] then 0.0
    else
      var q := names[|names| - 1];
      Penalty(names[..|names| - 1], t, seats, f) + f(seats[q] as real - t[q])
  }

  /** Moving a stratum with share `t` from `a` to `b` seats costs at least `1 - 2h` for each seat. */
  predicate Supported(t: real, a: int, b: int, h: real, f: real -> real) {
    f(b as real - t) - f(a as real - t) >= (1.0 - 2.0 * h) * (b - a) as real
  }

  lemma SquareSupported(t: real, a: int, b: int, h: real)
    requires RoundsAt(t, a, h) && 0.0 <= h < 1.0
    ensures Supported(t, a, b, h, Square)
  {
    var d, y := a as real - t, (b - a) as real;
    var c := 2.0 * d - 1.0 + 2.0 * h;
    assert b as real - t == d + y;
    SquareStep(d, y, h);
    IntegerProduct(b - a, c);
  }

  lemma SquareStep(d: real, y: real, h: real)
    ensures Square(d + y) - Square(d) == y * (y + (2.0 * d - 1.0 + 2.0 * h)) + (1.0 - 2.0 * h) * y
  {
  }

  lemma IntegerProduct(k: int, c: real)
    requires -1.0 <= c <= 1.0
    ensures k as real * (k as real + c) >= 0.0
  {
    if k >= 1 {
      assert k as real + c >= 0.0;
    } else if k <= -1 {
      assert k as real + c <= 0.0;
    }
  }

  lemma DistanceSupported(t: real, a: int, b: int, h: real)
    requires RoundsAt(t, a, h) && 0.0 <= h < 1.0
    ensures Supported(t, a, b, h, Distance)
  {
    var d, y := a as real - t, (b - a) as real;
    assert b as real - t == d + y;
    DistanceStep(d, b - a, h);
  }

  lemma ProductSign(x: real, y: real)
    requires x >= 0.0 && y >= 0.0
    ensures x * y >= 0.0
  {
  }

  lemma ScaleByInteger(x: real, k: int) returns (p: real)
    requires x >= 0.0
    ensures p == x * k as real
    ensures (k >= 1 ==> p >= x) && (k <= -1 ==> p <= -x) && (k == 0 ==> p == 0.0)
  {
    var y := k as real;
    p := x * y;
    if k >= 1 {
      ProductSign(x, y - 1.0);
      assert x * (y - 1.0) == p - x;
    } else if k <= -1 {
      ProductSign(x, -1.0 - y);
      assert x * (-1.0 - y) == -x - p;
    }
  }

  lemma WeightSum(h: real, y: real, u: real, v: real)
    requires u == h * y && v == (1.0 - h) * y
    ensures u + v == y && v - u == (1.0 - 2.0 * h) * y
  {
  }

  lemma SplitWeight(h: real, k: int) returns (u: real, v: real)
    requires 0.0 <= h < 1.0
    ensures u + v == k as real && v - u == (1.0 - 2.0 * h) * k as real
    ensures (k >= 1 ==> u >= h) && (k <= -1 ==> v <= h - 1.0) && (k == 0 ==> u == v == 0.0)
  {
    u := ScaleByInteger(h, k);
    v := ScaleByInteger(1.0 - h, k);
    WeightSum(h, k as real, u, v);
  }

  lemma DistanceStep(d: real, k: int, h: real)
    requires 0.0 <= h < 1.0 && ((-h <= d <= 0.0) || (0.0 < d <= 1.0 - h))
    ensures Distance(d + k as real) - Distance(d) >= (1.0 - 2.0 * h) * k as real
  {
    var u, v := SplitWeight(h, k);
    if d <= 0.0 {
      DistanceBelow(d, k, h, u, v);
    } else {
      DistanceAbove(d, k, h, u, v);
    }
  }

  lemma DistanceBelow(d: real, k: int, h: real, u: real, v: real)
    requires 0.0 <= h < 1.0 && -h <= d <= 0.0 && u + v == k as real
    requires (k >= 1 ==> u >= h) && (k <= -1 ==> v <= h - 1.0) && (k == 0 ==> u == v == 0.0)
    ensures Distance(d + k as real) - Distance(d) >= v - u
  {
  }

  lemma DistanceAbove(d: real, k: int, h: real, u: real, v: real)
    requires 0.0 <= h < 1.0 && 0.0 < d <= 1.0 - h && u + v == k as real
    requires (k >= 1 ==> u >= h) && (k <= -1 ==> v <= h - 1.0) && (k == 0 ==> u == v == 0.0)
    ensures Distance(d + k as real) - Distance(d) >= v - u
  {
  }

  lemma {:induction false} SupportedTotal(names: seq<string>, t: map<string, real>, a: map<string, int>, b: map<string, int>,
                                          h: real, f: real -> real)
    requires forall i :: 0 <= i < |names| ==> names[i] in t && names[i] in a && names[i] in b
    requires forall i :: 0 <= i < |names| ==> Supported(t[names[i]], a[names[i]], b[names[i]], h, f)
    ensures Penalty(names, t, b, f) - Penalty(names, t, a, f)
         >= (1.0 - 2.0 * h) * (Total(names, b) - Total(names, a)) as real
  {
    if names != [] {
      var init, q := names[..|names| - 1], names[|names| - 1];
      SupportedTotal(init, t, a, b, h, f);
      assert Supported(t[q], a[q], b[q], h, f);
      var x, y := Total(init, b) - Total(init, a), b[q] - a[q];
      assert Total(names, b) - Total(names, a) == x + y;
      Distribute(1.0 - 2.0 * h, x, y);
    }
  }

  lemma Distribute(x: real, m: int, n: int)
    ensures x * (m + n) as real == x * m as real + x * n as real
  {
    assert (m + n) as real == m as real + n as real;
  }

  lemma SupportedOptimal(names: seq<string>, t: map<string, real>, a: map<string, int>, b: map<string, int>,
                         h: real, f: real -> real)
    requires forall i :: 0 <= i < |names| ==> names[i] in t && names[i] in a && names[i] in b
    requires forall i :: 0 <= i < |names| ==> Supported(t[names[i]], a[names[i]], b[names[i]], h, f)
    requires Total(names, a) == Total(names, b)
    ensures Penalty(names, t, a, f) <= Penalty(names, t, b, f)
  {
    SupportedTotal(names, t, a, b, h, f);
    var k := Total(names, b) - Total(names, a);
    assert k == 0;
    assert (1.0 - 2.0 * h) * k as real == 0.0;
  }

  /** No other way of giving out the same number of seats has a smaller sum of squared deviations from the
      shares. */
  lemma LeastSquares(n: nat, names: seq<string>, sizes: map<string, int>, seats: map<string, int>, other: map<string, int>)
    requires KeyOrder(names, sizes) && IsHamilton(n, names, sizes, seats)
    requires other.Keys == sizes.Keys && Total(names, other) == Total(names, seats)
    ensures Penalty(names, ExactShares(n, names, sizes), seats, Square)
         <= Penalty(names, ExactShares(n, names, sizes), other, Square)
  {
    var t := ExactShares(n, names, sizes);
    var h := RoundingThreshold(n, names, ExactShares(n, names, sizes), seats);
    forall i | 0 <= i < |names| ensures Supported(t[names[i]], seats[names[i]], other[names[i]], h, Square) {
      SquareSupported(t[names[i]], seats[names[i]], other[names[i]], h);
    }
    SupportedOptimal(names, t, seats, other, h, Square);
  }

  /** Nor a smaller sum of absolute deviations. */
  lemma LeastDeviations(n: nat, names: seq<string>, sizes: map<string, int>, seats: map<string, int>, other: map<string, int>)
    requires KeyOrder(names, sizes) && IsHamilton(n, names, sizes, seats)
    requires other.Keys == sizes.Keys && Total(names, other) == Total(names, seats)
    ensures Penalty(names, ExactShares(n, names, sizes), seats, Distance)
         <= Penalty(names, ExactShares(n, names, sizes), other, Distance)
  {
    var t := ExactShares(n, names, sizes);
    var h := RoundingThreshold(n, names, ExactShares(n, names, sizes), seats);
    forall i | 0 <= i < |names| ensures Supported(t[names[i]], seats[names[i]], other[names[i]], h, Distance) {
      DistanceSupported(t[names[i]], seats[names[i]], other[names[i]], h);
    }
    SupportedOptimal(names, t, seats, other, h, Distance);
  }
}
