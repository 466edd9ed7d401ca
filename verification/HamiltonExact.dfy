/** The largest-remainder allocation without its algorithm: shares rounded down or up so that they sum to `n`, up
    first where the remainder is larger, and at equal remainders where the name comes first. */
module HamiltonExact {
  import opened Apportionment
  import opened Hamilton
  import opened Sorting

  /** A larger remainder precedes; equal ones go by name. */
  ghost predicate Precedes(shares: map<string, real>, p: string, q: string)
    requires p in shares && q in shares
  {
    || Fraction(shares[p]) > Fraction(shares[q])
    || (Fraction(shares[p]) == Fraction(shares[q]) && p != q && StringLeq(p, q))
  }

  ghost predicate RoundedUp(shares: map<string, real>, seats: map<string, int>, q: string)
    requires q in shares && q in seats
  {
    seats[q] == shares[q].Floor + 1
  }

  ghost predicate Rounded(shares: map<string, real>, seats: map<string, int>) {
    && seats.Keys == shares.Keys
    && forall q :: q in shares ==> seats[q] == shares[q].Floor || RoundedUp(shares, seats, q)
  }

  ghost predicate Prioritized(shares: map<string, real>, seats: map<string, int>)
    requires seats.Keys == shares.Keys
  {
    forall p, q :: p in shares && q in shares && Precedes(shares, p, q) && RoundedUp(shares, seats, q) ==>
      RoundedUp(shares, seats, p)
  }

  ghost predicate Remainders(n: nat, names: seq<string>, shares: map<string, real>, seats: map<string, int>)
    requires forall i :: 0 <= i < |names| ==> names[i] in shares
  {
    Rounded(shares, seats) && Total(names, seats) == n && Prioritized(shares, seats)
  }

  // ----- the award order -----

  lemma OrderRanks(names: seq<string>, shares: map<string, real>, i: nat, j: nat)
    requires KeyOrder(names, shares) && i < j < |AwardOrder(names, shares)|
    ensures var order := AwardOrder(names, shares);
            KeyOrder(order, shares) && Precedes(shares, order[i], order[j])
  {
    var rows := Shares(names, shares);
    var s, order := Sort(rows, ByRemainder), AwardOrder(names, shares);
    AwardOrderSorted(names, shares);
    ByRemainderOrder();
    SortSorts(rows, ByRemainder);
    RowOf(names, shares, i);
    RowOf(names, shares, j);
    assert ByRemainder(s[i], s[j]);
    assert order[i] != order[j];
  }

  lemma RowOf(names: seq<string>, shares: map<string, real>, i: nat)
    requires KeyOrder(names, shares) && i < |AwardOrder(names, shares)|
    ensures i < |Sort(Shares(names, shares), ByRemainder)|
    ensures AwardOrder(names, shares)[i] in shares
    ensures var order := AwardOrder(names, shares);
            Sort(Shares(names, shares), ByRemainder)[i] == Share(order[i], Fraction(shares[order[i]]))
  {
    var rows := Shares(names, shares);
    var s := Sort(rows, ByRemainder);
    ByRemainderOrder();
    SortSorts(rows, ByRemainder);
    assert s[i] in multiset(s);
    assert s[i] in rows;
  }

  lemma NotBoth(shares: map<string, real>, p: string, q: string)
    requires p in shares && q in shares && Precedes(shares, p, q)
    ensures !Precedes(shares, q, p)
  {
    if Precedes(shares, q, p) {
      StringAntisymmetric(p, q);
    }
  }

  lemma OneOfBoth(shares: map<string, real>, p: string, q: string)
    requires p in shares && q in shares && p != q
    ensures Precedes(shares, p, q) || Precedes(shares, q, p)
  {
    StringTotal(p, q);
  }

  // ----- what the algorithm gives -----

  lemma UpToLeft(names: seq<string>, shares: map<string, real>, seats: map<string, int>, left: int, q: string)
    returns (j: nat)
    requires KeyOrder(names, shares) && AwardsTo(AwardOrder(names, shares), left, shares, seats) && q in shares
    ensures j < |AwardOrder(names, shares)| && AwardOrder(names, shares)[j] == q
    ensures RoundedUp(shares, seats, q) <==> j < left
  {
    AwardOrderSorted(names, shares);
    assert q in AwardOrder(names, shares);
    j :| 0 <= j < |AwardOrder(names, shares)| && AwardOrder(names, shares)[j] == q;
  }

  lemma AwardsPrioritized(names: seq<string>, shares: map<string, real>, seats: map<string, int>, left: int)
    requires KeyOrder(names, shares) && AwardsTo(AwardOrder(names, shares), left, shares, seats)
    ensures Prioritized(shares, seats)
  {
    forall p, q | p in shares && q in shares && Precedes(shares, p, q) && RoundedUp(shares, seats, q)
      ensures RoundedUp(shares, seats, p)
    {
      var i := UpToLeft(names, shares, seats, left, p);
      var j := UpToLeft(names, shares, seats, left, q);
      NotBoth(shares, p, q);
      if j < i {
        OrderRanks(names, shares, j, i);
      }
    }
  }

  lemma AwardsRounded(names: seq<string>, shares: map<string, real>, seats: map<string, int>, left: int)
    requires KeyOrder(names, shares) && AwardsTo(AwardOrder(names, shares), left, shares, seats)
    ensures Rounded(shares, seats)
  {
    forall q | q in shares ensures seats[q] == shares[q].Floor || RoundedUp(shares, seats, q) {
      var j := UpToLeft(names, shares, seats, left, q);
    }
  }

  lemma {:induction false} AwardsTotal(order: seq<string>, left: nat, shares: map<string, real>, seats: map<string, int>, k: nat)
    requires k <= |order| && AwardsTo(order, left, shares, seats)
    ensures Total(order[..k], seats) == Total(order[..k], Floors(shares)) + if k <= left then k else left
    decreases k
  {
    if k > 0 {
      AwardsTotal(order, left, shares, seats, k - 1);
      assert order[..k][..k - 1] == order[..k - 1];
    }
  }

  lemma AwardsSum(n: nat, names: seq<string>, shares: map<string, real>, seats: map<string, int>)
    requires KeyOrder(names, shares) && RoundsShares(n, names, shares, seats)
    ensures KeyOrder(names, seats) && Total(names, seats) == n
  {
    var order, left := AwardOrder(names, shares), n - Total(names, Floors(shares));
    SameKeys(names, shares, seats);
    OrderTotals(names, shares, Floors(shares));
    OrderTotals(names, shares, seats);
    AllAwards(order, left, shares, seats);
  }

  lemma OrderTotals(names: seq<string>, shares: map<string, real>, m: map<string, int>)
    requires KeyOrder(names, shares) && m.Keys == shares.Keys
    ensures forall i :: 0 <= i < |AwardOrder(names, shares)| ==> AwardOrder(names, shares)[i] in m
    ensures Total(AwardOrder(names, shares), m) == Total(names, m)
  {
    AwardOrderPermutes(names, shares);
    TotalPermutation(names, AwardOrder(names, shares), m);
  }

  lemma AllAwards(order: seq<string>, left: nat, shares: map<string, real>, seats: map<string, int>)
    requires left <= |order| && AwardsTo(order, left, shares, seats)
    ensures Total(order, seats) == Total(order, Floors(shares)) + left
  {
    AwardsTotal(order, left, shares, seats, |order|);
    assert order[..|order|] == order;
  }

  lemma AwardsAreRemainders(n: nat, names: seq<string>, shares: map<string, real>, seats: map<string, int>)
    requires KeyOrder(names, shares) && RoundsShares(n, names, shares, seats)
    ensures Remainders(n, names, shares, seats)
  {
    AwardsSum(n, names, shares, seats);
    AwardsRounded(names, shares, seats, n - Total(names, Floors(shares)));
    AwardsPrioritized(names, shares, seats, n - Total(names, Floors(shares)));
  }

  // ----- there is one, and no other -----

  ghost predicate Early(order: seq<string>, left: int, q: string) {
    exists j :: 0 <= j < left && j < |order| && order[j] == q
  }

  lemma EarlyIff(order: seq<string>, left: int, j: nat)
    requires Distinct(order) && j < |order|
    ensures Early(order, left, order[j]) <==> j < left
  {
  }

  lemma AwardsExist(names: seq<string>, shares: map<string, real>, left: nat) returns (seats: map<string, int>)
    requires KeyOrder(names, shares)
    ensures AwardsTo(AwardOrder(names, shares), left, shares, seats)
  {
    var order := AwardOrder(names, shares);
    AwardOrderSorted(names, shares);
    seats := map q | q in shares :: shares[q].Floor + if Early(order, left, q) then 1 else 0;
    forall j | 0 <= j < |order| ensures seats[order[j]] == shares[order[j]].Floor + if j < left then 1 else 0 {
      EarlyIff(order, left, j);
    }
  }

  lemma {:induction false} SomeLess(names: seq<string>, a: map<string, int>, b: map<string, int>, p: string) returns (q: string)
    requires forall i :: 0 <= i < |names| ==> names[i] in a && names[i] in b
    requires p in names && a[p] > b[p] && Total(names, a) <= Total(names, b)
    ensures q in names && a[q] < b[q]
  {
    var init, last := names[..|names| - 1], names[|names| - 1];
    assert names == init + [last];
    if a[last] < b[last] {
      q := last;
    } else if p in init {
      q := SomeLess(init, a, b, p);
    } else {
      q := NoneMore(init, a, b);
    }
  }

  lemma {:induction false} NoneMore(names: seq<string>, a: map<string, int>, b: map<string, int>) returns (q: string)
    requires forall i :: 0 <= i < |names| ==> names[i] in a && names[i] in b
    requires Total(names, a) < Total(names, b)
    ensures q in names && a[q] < b[q]
  {
    var init, last := names[..|names| - 1], names[|names| - 1];
    assert names == init + [last];
    if a[last] < b[last] {
      q := last;
    } else {
      q := NoneMore(init, a, b);
    }
  }

  lemma NoMore(n: nat, names: seq<string>, shares: map<string, real>, a: map<string, int>, b: map<string, int>, p: string)
    requires KeyOrder(names, shares) && Remainders(n, names, shares, a) && Remainders(n, names, shares, b) && p in shares
    ensures a[p] <= b[p]
  {
    if a[p] > b[p] {
      var q := SomeLess(names, a, b, p);
      OneOfBoth(shares, p, q);
    }
  }

  lemma OneRemainders(n: nat, names: seq<string>, shares: map<string, real>, a: map<string, int>, b: map<string, int>)
    requires KeyOrder(names, shares) && Remainders(n, names, shares, a) && Remainders(n, names, shares, b)
    ensures a == b
  {
    forall q | q in shares ensures a[q] == b[q] {
      NoMore(n, names, shares, a, b, q);
      NoMore(n, names, shares, b, a, q);
    }
  }

  /** The allocation of the algorithm is the one that rounds the exact shares to the sum `n`, the larger remainders
      up first and equal remainders in alphabetical order. */
  lemma HamiltonIff(n: nat, names: seq<string>, sizes: map<string, int>, seats: map<string, int>)
    requires KeyOrder(names, sizes) && Total(names, sizes) > 0
    ensures IsHamilton(n, names, sizes, seats) <==> Remainders(n, names, ExactShares(n, names, sizes), seats)
  {
    var shares := ExactShares(n, names, sizes);
    FloorsFit(n, names, sizes);
    AwardOrderSorted(names, shares);
    if IsHamilton(n, names, sizes, seats) {
      AwardsAreRemainders(n, names, shares, seats);
    }
    if Remainders(n, names, shares, seats) {
      var other := AwardsExist(names, shares, n - Total(names, Floors(shares)));
      AwardsAreRemainders(n, names, shares, other);
      OneRemainders(n, names, shares, seats, other);
    }
  }

  /** Strata of equal size differ by at most one seat, and the one that comes first alphabetically has it. */
  lemma EqualSizes(n: nat, names: seq<string>, sizes: map<string, int>, seats: map<string, int>, p: string, q: string)
    requires KeyOrder(names, sizes) && IsHamilton(n, names, sizes, seats)
    requires p in sizes && q in sizes && sizes[p] == sizes[q] && StringLeq(p, q)
    ensures seats[q] <= seats[p] <= seats[q] + 1
  {
    HamiltonIff(n, names, sizes, seats);
    var shares := ExactShares(n, names, sizes);
    assert shares[p] == shares[q];
    if p != q && RoundedUp(shares, seats, q) {
      assert Precedes(shares, p, q);
    }
  }
}
