/** Python's `sorted`: a stable sort by a total preorder. */
module Sorting {

  ghost predicate Connected<T(!new)>(leq: (T, T) -> bool) {
    forall x, y :: leq(x, y) || leq(y, x)
  }

  ghost predicate Transitive<T(!new)>(leq: (T, T) -> bool) {
    forall x, y, z :: leq(x, y) && leq(y, z) ==> leq(x, z)
  }

  ghost predicate Antisymmetric<T(!new)>(leq: (T, T) -> bool) {
    forall x, y :: leq(x, y) && leq(y, x) ==> x == y
  }

  ghost predicate Preorder<T(!new)>(leq: (T, T) -> bool) {
    Connected(leq) && Transitive(leq)
  }

  ghost predicate Order<T(!new)>(leq: (T, T) -> bool) {
    Preorder(leq) && Antisymmetric(leq)
  }

  ghost predicate Sorted<T(!new)>(s: seq<T>, leq: (T, T) -> bool) {
    forall i, j :: 0 <= i < j < |s| ==> leq(s[i], s[j])
  }

  function Insert<T>(x: T, s: seq<T>, leq: (T, T) -> bool): seq<T> {
    if s == [] || leq(x, s[0]) then [x] + s else [s[0]] + Insert(x, s[1..], leq)
  }

  function Sort<T>(s: seq<T>, leq: (T, T) -> bool): seq<T> {
    if s == [] then [] else Insert(s[0], Sort(s[1..], leq), leq)
  }

  lemma {:induction false} InsertAdds<T>(x: T, s: seq<T>, leq: (T, T) -> bool)
    ensures multiset(Insert(x, s, leq)) == multiset{x} + multiset(s)
  {
    if s != [] && !leq(x, s[0]) {
      InsertAdds(x, s[1..], leq);
      assert s == [s[0]] + s[1..];
    }
  }

  lemma InsertMembers<T>(x: T, s: seq<T>, leq: (T, T) -> bool, y: T)
    requires y in Insert(x, s, leq)
    ensures y == x || y in s
  {
    InsertAdds(x, s, leq);
    assert y in multiset(Insert(x, s, leq));
    assert y in multiset(s) ==> y in s;
  }

  lemma SortedCons<T(!new)>(x: T, s: seq<T>, leq: (T, T) -> bool)
    requires Sorted(s, leq) && forall y :: y in s ==> leq(x, y)
    ensures Sorted([x] + s, leq)
  {
  }

  lemma {:induction false} InsertSorts<T(!new)>(x: T, s: seq<T>, leq: (T, T) -> bool)
    requires Preorder(leq) && Sorted(s, leq)
    ensures Sorted(Insert(x, s, leq), leq)
    ensures multiset(Insert(x, s, leq)) == multiset{x} + multiset(s)
  {
    InsertAdds(x, s, leq);
    if s != [] {
      forall y | y in s ensures leq(s[0], y) {
        var j :| 0 <= j < |s| && s[j] == y;
        assert j > 0 ==> leq(s[0], s[j]);
        assert leq(s[0], s[0]);
      }
      if leq(x, s[0]) {
        SortedCons(x, s, leq);
      } else {
        InsertSorts(x, s[1..], leq);
        forall y | y in Insert(x, s[1..], leq) ensures leq(s[0], y) {
          InsertMembers(x, s[1..], leq, y);
        }
        SortedCons(s[0], Insert(x, s[1..], leq), leq);
      }
    }
  }

  /** Sorting sorts, and neither loses nor invents an item. */
  lemma {:induction false} SortSorts<T(!new)>(s: seq<T>, leq: (T, T) -> bool)
    requires Preorder(leq)
    ensures Sorted(Sort(s, leq), leq)
    ensures multiset(Sort(s, leq)) == multiset(s)
    ensures |Sort(s, leq)| == |s|
  {
    if s != [] {
      SortSorts(s[1..], leq);
      InsertSorts(s[0], Sort(s[1..], leq), leq);
      assert s == [s[0]] + s[1..];
    }
    SameSize(Sort(s, leq), s);
  }

  lemma SameSize<T>(a: seq<T>, b: seq<T>)
    requires multiset(a) == multiset(b)
    ensures |a| == |b|
  {
    assert |multiset(a)| == |a| && |multiset(b)| == |b|;
  }

  lemma RemoveAt<T>(s: seq<T>, i: nat)
    requires i < |s|
    ensures multiset(s[..i] + s[i + 1..]) == multiset(s) - multiset{s[i]}
  {
    assert s == s[..i] + ([s[i]] + s[i + 1..]);
  }

  /** Takes one occurrence of an item out of a sequence. */
  lemma TakeOut<T>(s: seq<T>, x: T) returns (i: nat)
    requires x in multiset(s)
    ensures i < |s| && s[i] == x && multiset(s[..i] + s[i + 1..]) == multiset(s) - multiset{x}
  {
    assert x in s;
    i :| 0 <= i < |s| && s[i] == x;
    RemoveAt(s, i);
  }

  function Mapped<T, U>(s: seq<T>, f: T -> U): (r: seq<U>)
    ensures |r| == |s| && forall i :: 0 <= i < |s| ==> r[i] == f(s[i])
  {
    seq(|s|, i requires 0 <= i < |s| => f(s[i]))
  }

  lemma MappedWithout<T, U>(s: seq<T>, f: T -> U, i: nat)
    requires i < |s|
    ensures multiset(Mapped(s, f)) == multiset(Mapped(s[..i] + s[i + 1..], f)) + multiset{f(s[i])}
  {
    var m := Mapped(s, f);
    RemoveAt(m, i);
    assert m[..i] + m[i + 1..] == Mapped(s[..i] + s[i + 1..], f);
    assert m[i] in multiset(m);
  }

  lemma MappedCons<T, U>(s: seq<T>, f: T -> U)
    requires s != []
    ensures multiset(Mapped(s, f)) == multiset(Mapped(s[1..], f)) + multiset{f(s[0])}
  {
    assert Mapped(s, f) == [f(s[0])] + Mapped(s[1..], f);
  }

  lemma {:induction false} MappedPermutation<T, U>(a: seq<T>, b: seq<T>, f: T -> U)
    requires multiset(a) == multiset(b)
    ensures multiset(Mapped(a, f)) == multiset(Mapped(b, f))
    decreases |a|
  {
    SameSize(a, b);
    if a != [] {
      assert a[0] in multiset(b);
      var i := TakeOut(b, a[0]);
      TailMultiset(a);
      MappedPermutation(a[1..], b[..i] + b[i + 1..], f);
      MappedCons(a, f);
      MappedWithout(b, f, i);
    }
  }

  /** Of the items of `s` only equal ones tie. */
  ghost predicate TieFree<T(!new)>(s: seq<T>, leq: (T, T) -> bool) {
    forall x, y :: x in s && y in s && leq(x, y) && leq(y, x) ==> x == y
  }

  lemma TailMultiset<T>(s: seq<T>)
    requires s != []
    ensures multiset(s[1..]) == multiset(s) - multiset{s[0]}
  {
    assert s == [s[0]] + s[1..];
  }

  lemma SameHead<T(!new)>(a: seq<T>, b: seq<T>, leq: (T, T) -> bool)
    requires Preorder(leq) && TieFree(a, leq) && Sorted(a, leq) && Sorted(b, leq) && multiset(a) == multiset(b) && a != []
    ensures b != [] && a[0] == b[0] && multiset(a[1..]) == multiset(b[1..])
  {
    SameSize(a, b);
    assert a[0] in multiset(b) && b[0] in multiset(a);
    assert b[0] in a;
    assert leq(a[0], b[0]) && leq(b[0], a[0]);
    TailMultiset(a);
    TailMultiset(b);
  }

  lemma {:induction false} SortedUnique<T(!new)>(a: seq<T>, b: seq<T>, leq: (T, T) -> bool)
    requires Preorder(leq) && TieFree(a, leq) && Sorted(a, leq) && Sorted(b, leq) && multiset(a) == multiset(b)
    ensures a == b
  {
    SameSize(a, b);
    if a != [] {
      SameHead(a, b, leq);
      SortedUnique(a[1..], b[1..], leq);
      assert a == [a[0]] + a[1..] && b == [b[0]] + b[1..];
    }
  }

  /** Without ties between different items the outcome does not depend on the order of the input. */
  lemma SortPermutation<T(!new)>(a: seq<T>, b: seq<T>, leq: (T, T) -> bool)
    requires Preorder(leq) && TieFree(a, leq) && multiset(a) == multiset(b)
    ensures Sort(a, leq) == Sort(b, leq)
  {
    SortSorts(a, leq);
    SortSorts(b, leq);
    forall x | x in Sort(a, leq) ensures x in a {
      assert x in multiset(Sort(a, leq));
    }
    SortedUnique(Sort(a, leq), Sort(b, leq), leq);
  }

  // ----- distinct items -----

  ghost predicate Distinct<T>(s: seq<T>) {
    forall i, j :: 0 <= i < j < |s| ==> s[i] != s[j]
  }

  lemma {:induction false} DistinctOnce<T>(s: seq<T>)
    ensures Distinct(s) <==> forall x :: x in multiset(s) ==> multiset(s)[x] == 1
  {
    if s != [] {
      assert s == [s[0]] + s[1..];
      DistinctOnce(s[1..]);
      assert forall x :: x in s[1..] <==> x in multiset(s[1..]);
      if Distinct(s) {
        assert Distinct(s[1..]);
        assert s[0] !in s[1..];
      } else if Distinct(s[1..]) {
        assert s[0] in s[1..];
        assert multiset(s)[s[0]] >= 2;
      } else {
        var x :| x in multiset(s[1..]) && multiset(s[1..])[x] != 1;
        assert multiset(s)[x] >= 2;
      }
    }
  }

  lemma DistinctPermutation<T>(a: seq<T>, b: seq<T>)
    requires multiset(a) == multiset(b) && Distinct(a)
    ensures Distinct(b)
  {
    DistinctOnce(a);
    DistinctOnce(b);
  }

  lemma DistinctSameMembers<T>(a: seq<T>, b: seq<T>)
    requires Distinct(a) && Distinct(b) && forall x :: x in a <==> x in b
    ensures multiset(a) == multiset(b)
  {
    DistinctOnce(a);
    DistinctOnce(b);
    forall x ensures multiset(a)[x] == multiset(b)[x] {
      assert x in multiset(a) <==> x in a;
      assert x in multiset(b) <==> x in b;
    }
  }

  // ----- the orders in use -----

  predicate StringLeq(a: string, b: string) {
    a == "" || (b != "" && (a[0] < b[0] || (a[0] == b[0] && StringLeq(a[1..], b[1..]))))
  }

  lemma {:induction false} StringTotal(a: string, b: string)
    ensures StringLeq(a, b) || StringLeq(b, a)
  {
    if a != "" && b != "" {
      StringTotal(a[1..], b[1..]);
    }
  }

  lemma {:induction false} StringAntisymmetric(a: string, b: string)
    requires StringLeq(a, b) && StringLeq(b, a)
    ensures a == b
  {
    if a != "" && b != "" {
      StringAntisymmetric(a[1..], b[1..]);
      assert a == [a[0]] + a[1..] && b == [b[0]] + b[1..];
    }
  }

  lemma {:induction false} StringTransitive(a: string, b: string, c: string)
    requires StringLeq(a, b) && StringLeq(b, c)
    ensures StringLeq(a, c)
  {
    if a != "" && b != "" && c != "" && a[0] == b[0] == c[0] {
      StringTransitive(a[1..], b[1..], c[1..]);
    }
  }

  lemma StringOrder()
    ensures Order(StringLeq)
  {
    forall a, b ensures StringLeq(a, b) || StringLeq(b, a) {
      StringTotal(a, b);
    }
    forall a, b, c | StringLeq(a, b) && StringLeq(b, c) ensures StringLeq(a, c) {
      StringTransitive(a, b, c);
    }
    forall a, b | StringLeq(a, b) && StringLeq(b, a) ensures a == b {
      StringAntisymmetric(a, b);
    }
  }

  /** Up to the first difference, and there by code point. */
  ghost predicate DifferAt(a: string, b: string, k: int) {
    0 <= k < |a| && k < |b| && a[..k] == b[..k] && a[k] < b[k]
  }

  lemma DifferNext(a: string, b: string, k: int)
    requires a != "" && b != "" && a[0] == b[0]
    ensures DifferAt(a, b, k + 1) <==> DifferAt(a[1..], b[1..], k) || (k == -1 && a[0] < b[0])
  {
    if 0 <= k < |a| - 1 && k < |b| - 1 {
      assert a[..k + 1] == [a[0]] + a[1..][..k] && b[..k + 1] == [b[0]] + b[1..][..k];
      assert a[1..][..k] == a[..k + 1][1..] && b[1..][..k] == b[..k + 1][1..];
    }
  }

  lemma DifferFirst(a: string, b: string, k: int)
    requires a != "" && b != "" && a[0] != b[0]
    ensures DifferAt(a, b, k) <==> k == 0 && a[0] < b[0]
  {
    if 0 < k < |a| && k < |b| {
      assert a[..k][0] == a[0] && b[..k][0] == b[0];
    }
  }

  ghost predicate Differ(a: string, b: string) {
    exists k :: DifferAt(a, b, k)
  }

  lemma DifferTail(a: string, b: string)
    requires a != "" && b != "" && a[0] == b[0]
    ensures Differ(a, b) <==> Differ(a[1..], b[1..])
    ensures a <= b <==> a[1..] <= b[1..]
  {
    if Differ(a, b) {
      var k :| DifferAt(a, b, k);
      DifferNext(a, b, k - 1);
    }
    if Differ(a[1..], b[1..]) {
      var k :| DifferAt(a[1..], b[1..], k);
      DifferNext(a, b, k);
    }
    assert a == [a[0]] + a[1..] && b == [b[0]] + b[1..];
  }

  /** Python's order of strings: a beginning comes first, else the first difference decides. */
  lemma {:induction false} StringLeqIff(a: string, b: string)
    ensures StringLeq(a, b) <==> a <= b || Differ(a, b)
  {
    if a != "" && b != "" {
      if a[0] == b[0] {
        StringLeqIff(a[1..], b[1..]);
        DifferTail(a, b);
      } else {
        forall k ensures DifferAt(a, b, k) <==> k == 0 && a[0] < b[0] {
          DifferFirst(a, b, k);
        }
        assert DifferAt(a, b, 0) <==> a[0] < b[0];
        assert !(a <= b);
      }
    }
  }

  predicate RealLeq(x: real, y: real) {
    x <= y
  }

  lemma RealOrder()
    ensures Order(RealLeq)
  {
  }
}
