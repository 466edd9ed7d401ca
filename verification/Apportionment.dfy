/** Largest-remainder (Hamilton) apportionment, `largest_remainder_allocation`.

    A dictionary is a map together with its key order. The shares `ideals` are a parameter of the two loops,
    so that what they guarantee also holds when floating point gets the shares slightly wrong; the exact
    shares are real numbers. */
module Apportionment {
  import opened Sorting

  /** `names` is an iteration order of the keys of `m`. */
  ghost predicate KeyOrder<V>(names: seq<string>, m: map<string, V>) {
    Distinct(names) && forall q :: q in m <==> q in names
  }

  function Total(names: seq<string>, m: map<string, int>): int
    requires forall i :: 0 <= i < |names| ==> names[i] in m
  {
    if names == [] then 0 else Total(names[..|names| - 1], m) + m[names[|names| - 1]]
  }

  lemma {:induction false} TotalUpdate(names: seq<string>, m: map<string, int>, q: string, v: int)
    requires Distinct(names) && forall i :: 0 <= i < |names| ==> names[i] in m
    ensures Total(names, m[q := v]) == Total(names, m) + if q in names then v - m[q] else 0
  {
    if names != [] {
      TotalUpdate(names[..|names| - 1], m, q, v);
      assert names == names[..|names| - 1] + [names[|names| - 1]];
    }
  }

  lemma {:induction false} TotalSame(names: seq<string>, a: map<string, int>, b: map<string, int>)
    requires forall i :: 0 <= i < |names| ==> names[i] in a && names[i] in b && a[names[i]] == b[names[i]]
    ensures Total(names, a) == Total(names, b)
  {
    if names != [] {
      TotalSame(names[..|names| - 1], a, b);
    }
  }

  lemma {:induction false} TotalNonPositive(names: seq<string>, m: map<string, int>)
    requires forall i :: 0 <= i < |names| ==> names[i] in m && m[names[i]] <= 0
    ensures Total(names, m) <= 0
  {
    if names != [] {
      TotalNonPositive(names[..|names| - 1], m);
    }
  }

  // ----- walking round a list -----

  /** How often position `j` of a list of length `len` has been visited after `i` cyclic steps. */
  function Visits(j: nat, i: nat, len: nat): nat
    requires len > 0
  {
    i / len + if j < i % len then 1 else 0
  }

  lemma NextStep(i: nat, len: nat)
    requires len > 0
    ensures (i + 1) / len == if i % len + 1 < len then i / len else i / len + 1
    ensures (i + 1) % len == if i % len + 1 < len then i % len + 1 else 0
  {
    var q, r := i / len, i % len;
    assert i == q * len + r;
    if r + 1 < len {
      Quotient(q, r + 1, len);
    } else {
      assert i + 1 == (q + 1) * len + 0;
      Quotient(q + 1, 0, len);
    }
  }

  lemma Quotient(q: nat, r: nat, len: nat)
    requires r < len
    ensures (q * len + r) / len == q && (q * len + r) % len == r
  {
    var n := q * len + r;
    var x, y := n / len, n % len;
    assert n == x * len + y && 0 <= y < len;
    if x < q {
      Gap(x, q, len);
    } else if q < x {
      Gap(q, x, len);
    }
  }

  lemma Gap(a: int, b: int, len: nat)
    requires a < b
    ensures a * len + len <= b * len
  {
    assert (b - a - 1) * len >= 0;
  }

  lemma VisitsStep(j: nat, i: nat, len: nat)
    requires j < len
    ensures Visits(j, i + 1, len) == Visits(j, i, len) + if j == i % len then 1 else 0
  {
    NextStep(i, len);
  }

  lemma VisitsOnce(j: nat, i: nat, len: nat)
    requires j < len && i <= len
    ensures Visits(j, i, len) == if j < i then 1 else 0
  {
    if i < len {
      Quotient(0, i, len);
    } else {
      Quotient(1, 0, len);
    }
  }

  // ----- the two loops -----

  function Less(a: nat, b: nat): nat {
    if a <= b then 0 else a - b
  }

  /** After `i` steps of the loop every stratum has lost a seat per visit, down to none. */
  ghost predicate StrippedFor(order: seq<string>, start: map<string, int>, alloc: map<string, int>, i: nat) {
    && alloc.Keys == start.Keys
    && forall j :: 0 <= j < |order| ==>
         order[j] in start && start[order[j]] >= 0 && alloc[order[j]] == Less(start[order[j]], Visits(j, i, |order|))
  }

  lemma StrippedBounds(order: seq<string>, start: map<string, int>, alloc: map<string, int>, i: nat)
    requires KeyOrder(order, start) && StrippedFor(order, start, alloc, i)
    ensures forall q :: q in alloc ==> 0 <= alloc[q] <= start[q]
  {
    forall q | q in alloc ensures 0 <= alloc[q] <= start[q] {
      assert q in order;
      var j :| 0 <= j < |order| && order[j] == q;
    }
  }

  lemma StripStep(order: seq<string>, start: map<string, int>, alloc: map<string, int>, after: map<string, int>, i: nat)
    requires order != [] && Distinct(order) && StrippedFor(order, start, alloc, i)
    requires var q := order[i % |order|]; after == if alloc[q] > 0 then alloc[q := alloc[q] - 1] else alloc
    ensures StrippedFor(order, start, after, i + 1)
  {
    forall j | 0 <= j < |order|
      ensures order[j] in start && start[order[j]] >= 0 && after[order[j]] == Less(start[order[j]], Visits(j, i + 1, |order|))
    {
      VisitsStep(j, i, |order|);
      assert order[j] in start && start[order[j]] >= 0 && alloc[order[j]] == Less(start[order[j]], Visits(j, i, |order|));
    }
  }

  /** One turn of the loop, whether it strips or skips. */
  lemma StripTurn(order: seq<string>, start: map<string, int>, alloc: map<string, int>, i: nat)
    requires order != [] && Distinct(order) && StrippedFor(order, start, alloc, i)
    ensures var q := order[i % |order|];
            && (alloc[q] > 0 ==> StrippedFor(order, start, alloc[q := alloc[q] - 1], i + 1)
                                 && Total(order, alloc[q := alloc[q] - 1]) == Total(order, alloc) - 1)
            && (alloc[q] <= 0 ==> StrippedFor(order, start, alloc, i + 1))
  {
    var q := order[i % |order|];
    if alloc[q] > 0 {
      StripStep(order, start, alloc, alloc[q := alloc[q] - 1], i);
      TotalUpdate(order, alloc, q, alloc[q] - 1);
    } else {
      StripStep(order, start, alloc, alloc, i);
    }
  }

  /** Rounding overshoot: strip one seat at a time from the strata in turn, skipping empty ones. */
  method Strip(order: seq<string>, start: map<string, int>, n: nat) returns (alloc: map<string, int>, ghost steps: nat)
    requires KeyOrder(order, start) && forall q :: q in start ==> start[q] >= 0
    requires Total(order, start) > n
    ensures alloc.Keys == start.Keys && Total(order, alloc) == n
    ensures forall j :: 0 <= j < |order| ==>
              alloc[order[j]] == Less(start[order[j]], Visits(j, steps, |order|))
    ensures forall q :: q in alloc ==> 0 <= alloc[q] <= start[q]
  {
    alloc := start;
    var remainder := n - Total(order, start);
    var i := 0;
    ghost var most := Largest(order, start);
    while remainder < 0
      invariant StrippedFor(order, start, alloc, i) && Total(order, alloc) == n - remainder && remainder <= 0
      decreases most * |order| - i
    {
      if i >= most * |order| {
        Exhausted(order, start, alloc, most, i);
      }
      StripTurn(order, start, alloc, i);
      var qtype := order[i % |order|];
      if alloc[qtype] > 0 {
        alloc := alloc[qtype := alloc[qtype] - 1];
        remainder := remainder + 1;
      }
      i := i + 1;
    }
    steps := i;
    StrippedBounds(order, start, alloc, i);
  }

  ghost function Largest(names: seq<string>, m: map<string, int>): (v: nat)
    requires forall i :: 0 <= i < |names| ==> names[i] in m
    ensures forall i :: 0 <= i < |names| ==> m[names[i]] <= v
  {
    if names == [] then 0
    else
      var v := Largest(names[..|names| - 1], m);
      if m[names[|names| - 1]] <= v then v else m[names[|names| - 1]]
  }

  lemma FullTurns(i: nat, turns: nat, len: nat)
    requires len > 0 && i >= turns * len
    ensures i / len >= turns
  {
    var q, r := i / len, i % len;
    assert i == q * len + r;
    if q < turns {
      Gap(q, turns, len);
    }
  }

  /** After enough turns every stratum is empty, so nothing is left to strip. */
  lemma Exhausted(order: seq<string>, start: map<string, int>, alloc: map<string, int>, most: nat, i: nat)
    requires KeyOrder(order, start) && order != [] && alloc.Keys == start.Keys
    requires forall q :: q in start ==> start[q] >= 0
    requires forall j :: 0 <= j < |order| ==> start[order[j]] <= most
    requires forall j :: 0 <= j < |order| ==> alloc[order[j]] == Less(start[order[j]], Visits(j, i, |order|))
    requires i >= most * |order|
    ensures Total(order, alloc) <= 0
  {
    FullTurns(i, most, |order|);
    TotalNonPositive(order, alloc);
  }

  /** The seats left over go to the strata in turn. */
  method Award(order: seq<string>, start: map<string, int>, remainder: nat) returns (alloc: map<string, int>)
    requires KeyOrder(order, start) && order != []
    ensures alloc.Keys == start.Keys && Total(order, alloc) == Total(order, start) + remainder
    ensures forall j :: 0 <= j < |order| ==>
              alloc[order[j]] == start[order[j]] + Visits(j, remainder, |order|)
  {
    alloc := start;
    for i := 0 to remainder
      invariant alloc.Keys == start.Keys && Total(order, alloc) == Total(order, start) + i
      invariant forall j :: 0 <= j < |order| ==> alloc[order[j]] == start[order[j]] + Visits(j, i, |order|)
    {
      var qtype := order[i % |order|];
      forall j | 0 <= j < |order| ensures Visits(j, i + 1, |order|) == Visits(j, i, |order|) + if j == i % |order| then 1 else 0 {
        VisitsStep(j, i, |order|);
      }
      TotalUpdate(order, alloc, qtype, alloc[qtype] + 1);
      alloc := alloc[qtype := alloc[qtype] + 1];
    }
  }

  // ----- the allocation -----

  datatype Share = Share(name: string, fraction: real)

  /** Largest fraction first, ties by name. */
  predicate ByRemainder(a: Share, b: Share) {
    a.fraction > b.fraction || (a.fraction == b.fraction && StringLeq(a.name, b.name))
  }

  datatype Stratum = Stratum(name: string, size: int)

  /** Largest stratum first, ties by name. */
  predicate BySize(a: Stratum, b: Stratum) {
    a.size > b.size || (a.size == b.size && StringLeq(a.name, b.name))
  }

  lemma ByRemainderOrder()
    ensures Order(ByRemainder)
  {
    StringOrder();
  }

  lemma BySizeOrder()
    ensures Order(BySize)
  {
    StringOrder();
  }

  function Floors(ideals: map<string, real>): (m: map<string, int>)
    ensures m.Keys == ideals.Keys && forall q :: q in m ==> m[q] == ideals[q].Floor
  {
    map q | q in ideals :: ideals[q].Floor
  }

  function Shares(names: seq<string>, ideals: map<string, real>): (s: seq<Share>)
    requires forall i :: 0 <= i < |names| ==> names[i] in ideals
    ensures |s| == |names|
    ensures forall i :: 0 <= i < |s| ==> s[i] == Share(names[i], ideals[names[i]] - ideals[names[i]].Floor as real)
  {
    seq(|names|, i requires 0 <= i < |names| => Share(names[i], ideals[names[i]] - ideals[names[i]].Floor as real))
  }

  function ShareName(s: Share): string {
    s.name
  }

  function StratumName(s: Stratum): string {
    s.name
  }

  /** The strata in the order in which left-over seats are awarded. */
  function AwardOrder(names: seq<string>, ideals: map<string, real>): seq<string>
    requires forall i :: 0 <= i < |names| ==> names[i] in ideals
  {
    Mapped(Sort(Shares(names, ideals), ByRemainder), ShareName)
  }

  function Strata(names: seq<string>, sizes: map<string, int>): (s: seq<Stratum>)
    requires forall i :: 0 <= i < |names| ==> names[i] in sizes
    ensures |s| == |names| && forall i :: 0 <= i < |s| ==> s[i] == Stratum(names[i], sizes[names[i]])
  {
    seq(|names|, i requires 0 <= i < |names| => Stratum(names[i], sizes[names[i]]))
  }

  /** The strata in the order in which excess seats are stripped. */
  function StripOrder(names: seq<string>, sizes: map<string, int>): seq<string>
    requires forall i :: 0 <= i < |names| ==> names[i] in sizes
  {
    Mapped(Sort(Strata(names, sizes), BySize), StratumName)
  }

  lemma AwardOrderPermutes(names: seq<string>, ideals: map<string, real>)
    requires forall i :: 0 <= i < |names| ==> names[i] in ideals
    ensures multiset(AwardOrder(names, ideals)) == multiset(names)
  {
    var s := Shares(names, ideals);
    ByRemainderOrder();
    SortSorts(s, ByRemainder);
    MappedPermutation(s, Sort(s, ByRemainder), ShareName);
    assert Mapped(s, ShareName) == names;
  }

  lemma StripOrderPermutes(names: seq<string>, sizes: map<string, int>)
    requires forall i :: 0 <= i < |names| ==> names[i] in sizes
    ensures multiset(StripOrder(names, sizes)) == multiset(names)
  {
    var s := Strata(names, sizes);
    BySizeOrder();
    SortSorts(s, BySize);
    MappedPermutation(s, Sort(s, BySize), StratumName);
    assert Mapped(s, StratumName) == names;
  }

  lemma KeyOrderPermutation<V>(a: seq<string>, b: seq<string>, m: map<string, V>)
    requires KeyOrder(a, m) && multiset(a) == multiset(b)
    ensures KeyOrder(b, m) && |a| == |b|
  {
    SameSize(a, b);
    DistinctPermutation(a, b);
    forall q ensures q in a <==> q in b {
      assert q in a <==> q in multiset(a);
      assert q in b <==> q in multiset(b);
    }
  }

  lemma {:induction false} TotalPermutation(a: seq<string>, b: seq<string>, m: map<string, int>)
    requires multiset(a) == multiset(b) && forall i :: 0 <= i < |a| ==> a[i] in m
    ensures forall i :: 0 <= i < |b| ==> b[i] in m
    ensures Total(a, m) == Total(b, m)
    decreases |a|
  {
    SameSize(a, b);
    forall i | 0 <= i < |b| ensures b[i] in m {
      assert b[i] in multiset(a);
    }
    if a != [] {
      var last := |a| - 1;
      RemoveAt(a, last);
      assert a[..last] + a[last + 1..] == a[..last];
      assert a[last] in multiset(b);
      var i := TakeOut(b, a[last]);
      TotalPermutation(a[..last], b[..i] + b[i + 1..], m);
      TotalWithout(b, i, m);
    }
  }

  lemma {:induction false} TotalWithout(b: seq<string>, i: nat, m: map<string, int>)
    requires i < |b| && forall k :: 0 <= k < |b| ==> b[k] in m
    ensures Total(b, m) == Total(b[..i] + b[i + 1..], m) + m[b[i]]
    decreases |b|
  {
    var last := |b| - 1;
    if i == last {
      assert b[..i] + b[i + 1..] == b[..last];
    } else {
      var c := b[..i] + b[i + 1..];
      TotalWithout(b[..last], i, m);
      assert c[..|c| - 1] == b[..last][..i] + b[..last][i + 1..];
      assert c[|c| - 1] == b[last];
    }
  }

  /** A larger stratum gives up seats before a smaller one, and of two alike the first by name. */
  ghost predicate GivesBefore(sizes: map<string, int>, p: string, q: string)
    requires p in sizes && q in sizes
  {
    sizes[p] > sizes[q] || (sizes[p] == sizes[q] && p != q && StringLeq(p, q))
  }

  ghost function Lost(floors: map<string, int>, alloc: map<string, int>, q: string): int
    requires q in floors && q in alloc
  {
    floors[q] - alloc[q]
  }

  /** Turn by turn: until it is used up, the one that gives first has given as much as the other or one seat more. */
  ghost predicate StripsInTurn(sizes: map<string, int>, floors: map<string, int>, alloc: map<string, int>)
    requires sizes.Keys == floors.Keys == alloc.Keys
  {
    forall p, q :: p in sizes && q in sizes && GivesBefore(sizes, p, q) ==>
      && (alloc[p] > 0 ==> Lost(floors, alloc, q) <= Lost(floors, alloc, p))
      && (alloc[q] > 0 ==> Lost(floors, alloc, p) <= Lost(floors, alloc, q) + 1)
  }

  lemma StripRanks(names: seq<string>, sizes: map<string, int>, i: nat, j: nat)
    requires KeyOrder(names, sizes) && i < j < |StripOrder(names, sizes)|
    ensures var order := StripOrder(names, sizes);
            order[i] in sizes && order[j] in sizes && !GivesBefore(sizes, order[j], order[i])
  {
    var rows := Strata(names, sizes);
    var s, order := Sort(rows, BySize), StripOrder(names, sizes);
    StripOrderPermutes(names, sizes);
    KeyOrderPermutation(names, order, sizes);
    BySizeOrder();
    SortSorts(rows, BySize);
    assert s[i] in multiset(s) && s[j] in multiset(s);
    assert s[i] in rows && s[j] in rows;
    assert BySize(s[i], s[j]);
    if order[i] != order[j] && StringLeq(order[j], order[i]) && StringLeq(order[i], order[j]) {
      StringAntisymmetric(order[i], order[j]);
    }
  }

  lemma VisitsRanked(i: nat, j: nat, steps: nat, len: nat)
    requires i < j < len
    ensures Visits(j, steps, len) <= Visits(i, steps, len) <= Visits(j, steps, len) + 1
  {
  }

  lemma StripPair(names: seq<string>, sizes: map<string, int>, floors: map<string, int>, alloc: map<string, int>,
                  steps: nat, i: nat, j: nat)
    requires KeyOrder(names, sizes) && sizes.Keys == floors.Keys == alloc.Keys
    requires StrippedFor(StripOrder(names, sizes), floors, alloc, steps)
    requires i < |StripOrder(names, sizes)| && j < |StripOrder(names, sizes)|
    requires var order := StripOrder(names, sizes);
             order[i] in sizes && order[j] in sizes && GivesBefore(sizes, order[i], order[j])
    ensures var p, q := StripOrder(names, sizes)[i], StripOrder(names, sizes)[j];
            && (alloc[p] > 0 ==> Lost(floors, alloc, q) <= Lost(floors, alloc, p))
            && (alloc[q] > 0 ==> Lost(floors, alloc, p) <= Lost(floors, alloc, q) + 1)
  {
    if j < i {
      StripRanks(names, sizes, j, i);
    } else if i < j {
      VisitsRanked(i, j, steps, |StripOrder(names, sizes)|);
    }
  }

  lemma StripPosition(names: seq<string>, sizes: map<string, int>, q: string) returns (j: nat)
    requires KeyOrder(names, sizes) && q in sizes
    ensures j < |StripOrder(names, sizes)| && StripOrder(names, sizes)[j] == q
  {
    StripOrderPermutes(names, sizes);
    KeyOrderPermutation(names, StripOrder(names, sizes), sizes);
    assert q in StripOrder(names, sizes);
    j :| 0 <= j < |StripOrder(names, sizes)| && StripOrder(names, sizes)[j] == q;
  }

  lemma StripTurns(names: seq<string>, sizes: map<string, int>, floors: map<string, int>, alloc: map<string, int>, steps: nat)
    requires KeyOrder(names, sizes) && sizes.Keys == floors.Keys == alloc.Keys
    requires StrippedFor(StripOrder(names, sizes), floors, alloc, steps)
    ensures StripsInTurn(sizes, floors, alloc)
  {
    forall p, q | p in sizes && q in sizes && GivesBefore(sizes, p, q)
      ensures alloc[p] > 0 ==> Lost(floors, alloc, q) <= Lost(floors, alloc, p)
      ensures alloc[q] > 0 ==> Lost(floors, alloc, p) <= Lost(floors, alloc, q) + 1
    {
      var i := StripPosition(names, sizes, p);
      var j := StripPosition(names, sizes, q);
      StripPair(names, sizes, floors, alloc, steps, i, j);
    }
  }

  /** The overshoot branch: the largest strata give up seats first. */
  method StripExcess(n: nat, names: seq<string>, sizes: map<string, int>, floors: map<string, int>)
    returns (alloc: map<string, int>)
    requires KeyOrder(names, sizes) && floors.Keys == sizes.Keys && Total(names, floors) > n
    requires forall q :: q in floors ==> floors[q] >= 0
    ensures alloc.Keys == floors.Keys && Total(names, alloc) == n
    ensures forall q :: q in alloc ==> 0 <= alloc[q] <= floors[q]
    ensures StripsInTurn(sizes, floors, alloc)
  {
    var order := StripOrder(names, sizes);
    StripOrderPermutes(names, sizes);
    Reordered(names, order, floors);
    ghost var steps;
    alloc, steps := Strip(order, floors, n);
    Reordered(names, order, alloc);
    StripTurns(names, sizes, floors, alloc, steps);
  }

  /** The usual branch: left-over seats go to the largest fractions first. */
  method AwardLeftOver(names: seq<string>, ideals: map<string, real>, remainder: nat)
    returns (alloc: map<string, int>)
    requires KeyOrder(names, ideals) && names != []
    requires forall q :: q in ideals ==> ideals[q] >= 0.0
    ensures alloc.Keys == ideals.Keys && Total(names, alloc) == Total(names, Floors(ideals)) + remainder
    ensures forall q :: q in alloc ==> alloc[q] >= 0
    ensures IsAwarded(names, ideals, remainder, alloc)
  {
    var floors, order := Floors(ideals), AwardOrder(names, ideals);
    AwardOrderPermutes(names, ideals);
    Reordered(names, order, floors);
    alloc := Award(order, floors, remainder);
    Reordered(names, order, alloc);
    AwardedNonNegative(order, floors, alloc, remainder);
  }

  /** Everything but the shares: round down, then strip or award. Whatever the shares, the seats add up. */
  method Allocate(n: nat, names: seq<string>, sizes: map<string, int>, ideals: map<string, real>)
    returns (alloc: map<string, int>)
    requires KeyOrder(names, sizes) && KeyOrder(names, ideals) && names != []
    requires forall q :: q in ideals ==> ideals[q] >= 0.0
    ensures alloc.Keys == sizes.Keys && Total(names, alloc) == n
    ensures forall q :: q in alloc ==> alloc[q] >= 0
    ensures Total(names, Floors(ideals)) <= n ==> IsAwarded(names, ideals, n - Total(names, Floors(ideals)), alloc)
    ensures Total(names, Floors(ideals)) > n ==> StripsInTurn(sizes, Floors(ideals), alloc)
  {
    var floors := Floors(ideals);
    var remainder := n - Total(names, floors);
    if remainder < 0 {
      alloc := StripExcess(n, names, sizes, floors);
    } else {
      alloc := AwardLeftOver(names, ideals, remainder);
    }
  }

  lemma Reordered(names: seq<string>, order: seq<string>, m: map<string, int>)
    requires KeyOrder(names, m) && multiset(names) == multiset(order)
    ensures KeyOrder(order, m) && |order| == |names| && Total(order, m) == Total(names, m)
  {
    KeyOrderPermutation(names, order, m);
    TotalPermutation(names, order, m);
  }

  lemma AwardedNonNegative(order: seq<string>, start: map<string, int>, alloc: map<string, int>, remainder: nat)
    requires KeyOrder(order, alloc) && order != [] && start.Keys == alloc.Keys
    requires forall q :: q in start ==> start[q] >= 0
    requires forall j :: 0 <= j < |order| ==> alloc[order[j]] == start[order[j]] + Visits(j, remainder, |order|)
    ensures forall q :: q in alloc ==> alloc[q] >= 0
  {
    forall q | q in alloc ensures alloc[q] >= 0 {
      var j :| 0 <= j < |order| && order[j] == q;
    }
  }

  /** Each stratum has its share rounded down, and the left-over seats went round in award order. */
  ghost predicate IsAwarded(names: seq<string>, ideals: map<string, real>, remainder: nat, alloc: map<string, int>)
    requires names != [] && forall i :: 0 <= i < |names| ==> names[i] in ideals
  {
    var order := AwardOrder(names, ideals);
    && |order| == |names|
    && alloc.Keys == ideals.Keys
    && forall j :: 0 <= j < |order| ==>
         order[j] in ideals && alloc[order[j]] == ideals[order[j]].Floor + Visits(j, remainder, |order|)
  }

  // ----- exact shares -----

  /** The proportional share of each stratum. */
  function Ideals(n: nat, sizes: map<string, int>, total: int): (m: map<string, real>)
    requires total > 0
    ensures m.Keys == sizes.Keys && forall q :: q in m ==> m[q] == (n * sizes[q]) as real / total as real
  {
    map q | q in sizes :: (n * sizes[q]) as real / total as real
  }

  datatype Outcome = NegativeCount | Allocated(seats: map<string, int>)

  method LargestRemainderAllocation(n: int, names: seq<string>, sizes: map<string, int>) returns (r: Outcome)
    requires KeyOrder(names, sizes) && forall q :: q in sizes ==> sizes[q] >= 0
    ensures n < 0 <==> r.NegativeCount?
    ensures r.Allocated? ==> r.seats.Keys == sizes.Keys
    ensures r.Allocated? && Total(names, sizes) == 0 ==> forall q :: q in r.seats ==> r.seats[q] == 0
    ensures r.Allocated? && Total(names, sizes) != 0 ==> IsHamilton(n, names, sizes, r.seats)
    ensures r.Allocated? ==> (Total(names, r.seats) == n <==> Total(names, sizes) > 0 || n == 0)
  {
    if n < 0 {
      return NegativeCount;
    }
    TotalNonNegative(names, sizes);
    var total := Total(names, sizes);
    if total == 0 {
      var none := map q | q in sizes :: 0;
      TotalZero(names, none);
      return Allocated(none);
    }
    SharesFit(n, names, sizes);
    var seats := Allocate(n, names, sizes, Ideals(n, sizes, total));
    AwardedIsHamilton(n, names, sizes, seats);
    r := Allocated(seats);
  }

  /** The exact shares rounded down, and one seat more for the strata with the largest fractions. */
  ghost predicate IsHamilton(n: nat, names: seq<string>, sizes: map<string, int>, seats: map<string, int>)
    requires forall i :: 0 <= i < |names| ==> names[i] in sizes
  {
    Total(names, sizes) > 0 && RoundsShares(n, names, Ideals(n, sizes, Total(names, sizes)), seats)
  }

  ghost predicate RoundsShares(n: nat, names: seq<string>, ideals: map<string, real>, seats: map<string, int>)
    requires forall i :: 0 <= i < |names| ==> names[i] in ideals
  {
    var order, left := AwardOrder(names, ideals), n - Total(names, Floors(ideals));
    0 <= left < |names| == |order| && AwardsTo(order, left, ideals, seats)
  }

  /** The first `left` strata of the award order get one seat more than their share rounded down. */
  ghost predicate AwardsTo(order: seq<string>, left: int, ideals: map<string, real>, seats: map<string, int>) {
    && seats.Keys == ideals.Keys
    && forall j :: 0 <= j < |order| ==>
         order[j] in ideals && seats[order[j]] == ideals[order[j]].Floor + if j < left then 1 else 0
  }

  lemma {:induction false} TotalNonNegative(names: seq<string>, m: map<string, int>)
    requires forall i :: 0 <= i < |names| ==> names[i] in m && m[names[i]] >= 0
    ensures Total(names, m) >= 0
    ensures names == [] ==> Total(names, m) == 0
  {
    if names != [] {
      TotalNonNegative(names[..|names| - 1], m);
    }
  }

  lemma {:induction false} TotalZero(names: seq<string>, m: map<string, int>)
    requires forall i :: 0 <= i < |names| ==> names[i] in m && m[names[i]] == 0
    ensures Total(names, m) == 0
  {
    if names != [] {
      TotalZero(names[..|names| - 1], m);
    }
  }

  function RealTotal(names: seq<string>, m: map<string, real>): real
    requires forall i :: 0 <= i < |names| ==> names[i] in m
  {
    if names == [] then 0.0 else RealTotal(names[..|names| - 1], m) + m[names[|names| - 1]]
  }

  lemma {:induction false} IdealsTotal(n: nat, names: seq<string>, sizes: map<string, int>, total: int)
    requires total > 0 && forall i :: 0 <= i < |names| ==> names[i] in sizes
    ensures RealTotal(names, Ideals(n, sizes, total)) == (n * Total(names, sizes)) as real / total as real
  {
    if names != [] {
      var q := names[|names| - 1];
      IdealsTotal(n, names[..|names| - 1], sizes, total);
      var t := Total(names[..|names| - 1], sizes);
      assert n * (t + sizes[q]) == n * t + n * sizes[q];
      assert (n * t) as real / total as real + (n * sizes[q]) as real / total as real
          == (n * t + n * sizes[q]) as real / total as real;
    }
  }

  lemma {:induction false} FloorsBound(names: seq<string>, ideals: map<string, real>)
    requires forall i :: 0 <= i < |names| ==> names[i] in ideals
    ensures Total(names, Floors(ideals)) as real <= RealTotal(names, ideals)
    ensures RealTotal(names, ideals) <= (Total(names, Floors(ideals)) + |names|) as real
    ensures names != [] ==> RealTotal(names, ideals) < (Total(names, Floors(ideals)) + |names|) as real
  {
    if names != [] {
      FloorsBound(names[..|names| - 1], ideals);
    }
  }

  lemma CancelTotal(n: nat, total: int)
    requires total > 0
    ensures (n * total) as real / total as real == n as real
  {
  }

  /** With exact shares the rounded-down seats never exceed `n`, and fewer seats than strata are left over. */
  lemma FloorsFit(n: nat, names: seq<string>, sizes: map<string, int>)
    requires KeyOrder(names, sizes) && Total(names, sizes) > 0
    ensures var f := Total(names, Floors(Ideals(n, sizes, Total(names, sizes)))); f <= n < f + |names|
    ensures names != []
  {
    var total := Total(names, sizes);
    IdealsTotal(n, names, sizes, total);
    FloorsBound(names, Ideals(n, sizes, total));
    CancelTotal(n, total);
  }

  lemma IdealsNonNegative(n: nat, sizes: map<string, int>, total: int)
    requires total > 0 && forall q :: q in sizes ==> sizes[q] >= 0
    ensures forall q :: q in sizes ==> Ideals(n, sizes, total)[q] >= 0.0
  {
    forall q | q in sizes ensures Ideals(n, sizes, total)[q] >= 0.0 {
      NonNegativeShare(n, sizes[q], total);
    }
  }

  /** The shares are what the allocation asks for. */
  lemma SharesFit(n: nat, names: seq<string>, sizes: map<string, int>)
    requires KeyOrder(names, sizes) && Total(names, sizes) > 0 && forall q :: q in sizes ==> sizes[q] >= 0
    ensures names != []
    ensures var ideals := Ideals(n, sizes, Total(names, sizes));
            && KeyOrder(names, ideals) && (forall q :: q in ideals ==> ideals[q] >= 0.0)
            && Total(names, Floors(ideals)) <= n
  {
    FloorsFit(n, names, sizes);
    IdealsNonNegative(n, sizes, Total(names, sizes));
  }

  lemma NonNegativeShare(n: nat, size: int, total: int)
    requires size >= 0 && total > 0
    ensures (n * size) as real / total as real >= 0.0
  {
    assert n * size >= 0;
  }

  lemma AwardedIsHamilton(n: nat, names: seq<string>, sizes: map<string, int>, seats: map<string, int>)
    requires KeyOrder(names, sizes) && Total(names, sizes) > 0 && names != []
    requires var ideals := Ideals(n, sizes, Total(names, sizes));
             Total(names, Floors(ideals)) <= n && IsAwarded(names, ideals, n - Total(names, Floors(ideals)), seats)
    ensures IsHamilton(n, names, sizes, seats)
  {
    FloorsFit(n, names, sizes);
    var ideals := Ideals(n, sizes, Total(names, sizes));
    var order, left := AwardOrder(names, ideals), n - Total(names, Floors(ideals));
    forall j | 0 <= j < |order| ensures seats[order[j]] == ideals[order[j]].Floor + if j < left then 1 else 0 {
      VisitsOnce(j, left, |order|);
    }
  }
}
