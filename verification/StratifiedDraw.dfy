/** The pre-registered sample, `stratified_sample`: an allocated number of questions from every stratum.
    The seeded shuffle is any permutation of each pool. */
module StratifiedDraw {
  import opened Sorting
  import opened Apportionment
  import Hamilton

  type Pools = map<string, seq<string>>

  function Sizes(pools: Pools): (m: map<string, int>)
    ensures m.Keys == pools.Keys && forall q :: q in m ==> m[q] == |pools[q]|
  {
    map q | q in pools :: |pools[q]|
  }

  /** `pool[:count]`. */
  function Taken(pool: seq<string>, count: int): (s: seq<string>)
    requires count >= 0
    ensures |s| == if count <= |pool| then count else |pool|
  {
    if count <= |pool| then pool[..count] else pool
  }

  ghost predicate Seated(names: seq<string>, pools: Pools, seats: map<string, int>) {
    forall i :: 0 <= i < |names| ==> names[i] in pools && names[i] in seats && seats[names[i]] >= 0
  }

  /** The questions drawn, stratum by stratum. */
  ghost function Drawn(names: seq<string>, pools: Pools, seats: map<string, int>): seq<string>
    requires Seated(names, pools, seats)
  {
    if names == [] then []
    else
      var q := names[|names| - 1];
      Drawn(names[..|names| - 1], pools, seats) + Taken(pools[q], seats[q])
  }

  /** Each shuffled pool is a permutation of the pool. */
  ghost predicate Shuffles(pools: Pools, shuffled: Pools) {
    shuffled.Keys == pools.Keys && forall q :: q in pools ==> multiset(shuffled[q]) == multiset(pools[q])
  }

  /** The loop over the allocated strata. */
  method DrawAll(names: seq<string>, pools: Pools, seats: map<string, int>) returns (selected: seq<string>)
    requires Seated(names, pools, seats)
    ensures selected == Drawn(names, pools, seats)
  {
    selected := [];
    for i := 0 to |names|
      invariant selected == Drawn(names[..i], pools, seats)
    {
      assert names[..i + 1][..i] == names[..i];
      selected := selected + Taken(pools[names[i]], seats[names[i]]);
    }
    assert names[..|names|] == names;
  }

  method StratifiedSample(n: int, names: seq<string>, pools: Pools, shuffled: Pools)
    returns (ok: bool, selected: seq<string>, ghost seats: map<string, int>)
    requires KeyOrder(names, pools) && Shuffles(pools, shuffled)
    ensures ok <==> n >= 0
    ensures ok ==> Sorted(selected, StringLeq)
    ensures ok ==> Seated(names, shuffled, seats) && multiset(selected) == multiset(Drawn(names, shuffled, seats))
    ensures ok && Total(names, Sizes(pools)) > 0 ==> IsHamilton(n, names, Sizes(pools), seats)
    ensures ok ==> |selected| == if n <= Total(names, Sizes(pools)) then n else Total(names, Sizes(pools))
  {
    var sizes := Sizes(pools);
    var r := LargestRemainderAllocation(n, names, sizes);
    if r.NegativeCount? {
      return false, [], map[];
    }
    ok, seats := true, r.seats;
    SeatsDraw(n, names, pools, shuffled, seats);
    selected := DrawSorted(names, shuffled, r.seats);
  }

  method DrawSorted(names: seq<string>, pools: Pools, seats: map<string, int>) returns (selected: seq<string>)
    requires Seated(names, pools, seats)
    ensures Sorted(selected, StringLeq) && multiset(selected) == multiset(Drawn(names, pools, seats))
    ensures |selected| == |Drawn(names, pools, seats)|
  {
    selected := DrawAll(names, pools, seats);
    StringOrder();
    SortSorts(selected, StringLeq);
    selected := Sort(selected, StringLeq);
  }

  lemma SeatsNonNegative(n: nat, names: seq<string>, sizes: map<string, int>, seats: map<string, int>)
    requires KeyOrder(names, sizes) && seats.Keys == sizes.Keys && forall q :: q in sizes ==> sizes[q] >= 0
    requires if Total(names, sizes) == 0 then forall q :: q in seats ==> seats[q] == 0
             else IsHamilton(n, names, sizes, seats)
    ensures forall q :: q in seats ==> seats[q] >= 0
  {
    if Total(names, sizes) != 0 {
      Hamilton.Capacity(n, names, sizes, seats);
    }
  }

  /** Allocated seats can be drawn, and give a sample of the size asked for, or everything. */
  lemma SeatsDraw(n: nat, names: seq<string>, pools: Pools, shuffled: Pools, seats: map<string, int>)
    requires KeyOrder(names, pools) && Shuffles(pools, shuffled) && seats.Keys == pools.Keys
    requires if Total(names, Sizes(pools)) == 0 then forall q :: q in seats ==> seats[q] == 0
             else IsHamilton(n, names, Sizes(pools), seats) && Total(names, seats) == n
    ensures Seated(names, shuffled, seats)
    ensures |Drawn(names, shuffled, seats)| == if n <= Total(names, Sizes(pools)) then n else Total(names, Sizes(pools))
  {
    SeatsNonNegative(n, names, Sizes(pools), seats);
    DrawnSize(n, names, pools, shuffled, seats);
  }

  lemma {:induction false} DrawnCount(names: seq<string>, pools: Pools, seats: map<string, int>, counts: map<string, int>)
    requires Seated(names, pools, seats)
    requires forall i :: 0 <= i < |names| ==>
               names[i] in counts && counts[names[i]] == |Taken(pools[names[i]], seats[names[i]])|
    ensures |Drawn(names, pools, seats)| == Total(names, counts)
  {
    if names != [] {
      DrawnCount(names[..|names| - 1], pools, seats, counts);
    }
  }

  lemma SameSizes(pools: Pools, shuffled: Pools)
    requires Shuffles(pools, shuffled)
    ensures forall q :: q in pools ==> |shuffled[q]| == Sizes(pools)[q]
  {
    forall q | q in pools ensures |shuffled[q]| == |pools[q]| {
      SameSize(shuffled[q], pools[q]);
    }
  }

  lemma DrawnSize(n: nat, names: seq<string>, pools: Pools, shuffled: Pools, seats: map<string, int>)
    requires KeyOrder(names, pools) && Shuffles(pools, shuffled) && Seated(names, shuffled, seats)
    requires seats.Keys == pools.Keys
    requires Total(names, Sizes(pools)) != 0 ==> IsHamilton(n, names, Sizes(pools), seats) && Total(names, seats) == n
    ensures var total := Total(names, Sizes(pools));
            |Drawn(names, shuffled, seats)| == if n <= total then n else total
  {
    var sizes := Sizes(pools);
    SameSizes(pools, shuffled);
    TotalNonNegative(names, sizes);
    if Total(names, sizes) == 0 {
      AllEmpty(names, sizes);
      DrawnCount(names, shuffled, seats, sizes);
    } else {
      Hamilton.Capacity(n, names, sizes, seats);
      DrawnCount(names, shuffled, seats, if n <= Total(names, sizes) then seats else sizes);
    }
  }

  lemma {:induction false} AllEmpty(names: seq<string>, m: map<string, int>)
    requires forall i :: 0 <= i < |names| ==> names[i] in m && m[names[i]] >= 0
    requires Total(names, m) == 0
    ensures forall i :: 0 <= i < |names| ==> m[names[i]] == 0
  {
    if names != [] {
      TotalNonNegative(names[..|names| - 1], m);
      AllEmpty(names[..|names| - 1], m);
    }
  }

  // ----- what is drawn from each stratum -----

  /** No question belongs to two strata. */
  ghost predicate Disjoint(pools: Pools) {
    forall p, q, id :: p in pools && q in pools && id in pools[p] && id in pools[q] ==> p == q
  }

  lemma {:induction false} DrawnFromStratum(names: seq<string>, pools: Pools, seats: map<string, int>, q: string, id: string)
    requires Seated(names, pools, seats) && Distinct(names) && Disjoint(pools) && q in pools && id in pools[q]
    ensures multiset(Drawn(names, pools, seats))[id]
         == if q in names && q in seats && seats[q] >= 0 then multiset(Taken(pools[q], seats[q]))[id] else 0
  {
    if names != [] {
      var init, p := names[..|names| - 1], names[|names| - 1];
      DrawnFromStratum(init, pools, seats, q, id);
      assert names == init + [p];
      var taken := Taken(pools[p], seats[p]);
      assert forall x :: x in multiset(taken) ==> x in pools[p];
    }
  }

  lemma ShuffledMembers(pools: Pools, shuffled: Pools, q: string, id: string)
    requires Shuffles(pools, shuffled) && q in pools
    ensures id in shuffled[q] <==> id in pools[q]
  {
    assert id in shuffled[q] <==> id in multiset(shuffled[q]);
    assert id in pools[q] <==> id in multiset(pools[q]);
  }

  /** From every stratum exactly the allocated questions are in the sample, or all it has. */
  lemma SampleOfStratum(names: seq<string>, pools: Pools, shuffled: Pools, seats: map<string, int>, selected: seq<string>,
                        q: string, id: string)
    requires KeyOrder(names, pools) && Shuffles(pools, shuffled) && Seated(names, shuffled, seats) && Disjoint(pools)
    requires multiset(selected) == multiset(Drawn(names, shuffled, seats)) && q in pools && id in pools[q]
    ensures seats.Keys >= {q} && seats[q] >= 0
    ensures multiset(selected)[id] == multiset(Taken(shuffled[q], seats[q]))[id]
  {
    ShuffledDisjoint(pools, shuffled);
    ShuffledMembers(pools, shuffled, q, id);
    assert q in names;
    DrawnFromStratum(names, shuffled, seats, q, id);
  }

  lemma ShuffledDisjoint(pools: Pools, shuffled: Pools)
    requires Shuffles(pools, shuffled) && Disjoint(pools)
    ensures Disjoint(shuffled)
  {
    forall p, q, id | p in shuffled && q in shuffled && id in shuffled[p] && id in shuffled[q] ensures p == q {
      ShuffledMembers(pools, shuffled, p, id);
      ShuffledMembers(pools, shuffled, q, id);
    }
  }

  lemma {:induction false} DrawnMembers(names: seq<string>, pools: Pools, seats: map<string, int>)
    requires Seated(names, pools, seats)
    ensures forall id :: id in Drawn(names, pools, seats) ==> exists q :: q in pools && id in pools[q]
  {
    if names != [] {
      DrawnMembers(names[..|names| - 1], pools, seats);
    }
  }

  /** Distinct questions in, distinct questions out. */
  lemma SampleDistinct(names: seq<string>, pools: Pools, shuffled: Pools, seats: map<string, int>, selected: seq<string>)
    requires KeyOrder(names, pools) && Shuffles(pools, shuffled) && Seated(names, shuffled, seats)
    requires Disjoint(pools) && forall q :: q in pools ==> Distinct(pools[q])
    requires multiset(selected) == multiset(Drawn(names, shuffled, seats))
    ensures Distinct(selected)
  {
    DistinctOnce(selected);
    forall id | id in multiset(selected) ensures multiset(selected)[id] == 1 {
      DrawnMembers(names, shuffled, seats);
      assert id in Drawn(names, shuffled, seats);
      var q :| q in shuffled && id in shuffled[q];
      ShuffledMembers(pools, shuffled, q, id);
      SampleOfStratum(names, pools, shuffled, seats, selected, q, id);
      DistinctPermutation(pools[q], shuffled[q]);
      DistinctOnce(Taken(shuffled[q], seats[q]));
    }
  }
}
