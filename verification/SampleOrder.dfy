/** The order of the failure sample: strata by their keys, component after component, questions by their ids. */
module SampleOrder {
  import opened Prelude
  import opened RoundRobin
  import opened Sorting

  // ----- tuples of strings -----

  /** Equal up to component `k`, and there the first string comes first. */
  ghost predicate LessAt(a: seq<string>, b: seq<string>, k: int) {
    0 <= k < |a| && k < |b| && a[..k] == b[..k] && a[k] != b[k] && StringLeq(a[k], b[k])
  }

  ghost predicate Less(a: seq<string>, b: seq<string>) {
    exists k :: LessAt(a, b, k)
  }

  lemma LessNext(a: seq<string>, b: seq<string>, k: int)
    requires a != [] && b != [] && a[0] == b[0] && k >= 0
    ensures LessAt(a, b, k + 1) <==> LessAt(a[1..], b[1..], k)
  {
    if k < |a| - 1 && k < |b| - 1 {
      assert a[..k + 1] == [a[0]] + a[1..][..k] && b[..k + 1] == [b[0]] + b[1..][..k];
      assert a[1..][..k] == a[..k + 1][1..] && b[1..][..k] == b[..k + 1][1..];
    }
  }

  lemma LessFirst(a: seq<string>, b: seq<string>, k: int)
    requires a != [] && b != [] && a[0] != b[0]
    ensures LessAt(a, b, k) <==> k == 0 && StringLeq(a[0], b[0])
  {
    if 0 < k < |a| && k < |b| {
      assert a[..k][0] == a[0] && b[..k][0] == b[0];
    }
  }

  lemma LessTail(a: seq<string>, b: seq<string>)
    requires a != [] && b != [] && a[0] == b[0]
    ensures Less(a, b) <==> Less(a[1..], b[1..])
  {
    if Less(a, b) {
      var k :| LessAt(a, b, k);
      LessNext(a, b, k - 1);
    }
    if Less(a[1..], b[1..]) {
      var k :| LessAt(a[1..], b[1..], k);
      LessNext(a, b, k);
    }
  }

  lemma NotLess(a: seq<string>)
    ensures !Less(a, a)
  {
  }

  /** Python's order of tuples of the same length. */
  lemma {:induction false} TupleLeqIff(a: seq<string>, b: seq<string>)
    requires |a| == |b|
    ensures TupleLeq(a, b) <==> a == b || Less(a, b)
  {
    if a != [] {
      if a[0] == b[0] {
        TupleLeqIff(a[1..], b[1..]);
        LessTail(a, b);
        assert a == [a[0]] + a[1..] && b == [b[0]] + b[1..];
      } else {
        forall k ensures LessAt(a, b, k) <==> k == 0 && StringLeq(a[0], b[0]) {
          LessFirst(a, b, k);
        }
        assert LessAt(a, b, 0) <==> StringLeq(a[0], b[0]);
      }
    }
  }

  /** The sort key of a row: its stratum, then its question. */
  lemma {:induction false} KeyLeqIff(a: seq<string>, x: string, b: seq<string>, y: string)
    requires |a| == |b|
    ensures TupleLeq(a + [x], b + [y]) <==> Less(a, b) || (a == b && StringLeq(x, y))
  {
    if a == [] {
      assert a + [x] == [x] && b + [y] == [y];
      assert [x][1..] == [] && [y][1..] == [];
      StringTotal(x, x);
    } else {
      assert (a + [x])[1..] == a[1..] + [x] && (b + [y])[1..] == b[1..] + [y];
      if a[0] == b[0] {
        KeyLeqIff(a[1..], x, b[1..], y);
        LessTail(a, b);
        assert a == [a[0]] + a[1..] && b == [b[0]] + b[1..];
      } else {
        forall k ensures LessAt(a, b, k) <==> k == 0 && StringLeq(a[0], b[0]) {
          LessFirst(a, b, k);
        }
        assert LessAt(a, b, 0) <==> StringLeq(a[0], b[0]);
      }
    }
  }

  // ----- where keys and members come from -----

  /** Keys are listed as they first occur. */
  lemma {:induction false} KeyOrder(rows: seq<Row>, n: nat, i: nat, j: nat) returns (p: nat, q: nat)
    requires n <= |rows| && i < j < |KeysTo(rows, n)|
    ensures p < q < n && rows[p].stratum == KeysTo(rows, n)[i] && rows[q].stratum == KeysTo(rows, n)[j]
  {
    var before := KeysTo(rows, n - 1);
    if j < |before| {
      p, q := KeyOrder(rows, n - 1, i, j);
    } else {
      q := n - 1;
      p := KeyOccurs(rows, n - 1, i);
    }
  }

  lemma {:induction false} KeyOccurs(rows: seq<Row>, n: nat, i: nat) returns (p: nat)
    requires n <= |rows| && i < |KeysTo(rows, n)|
    ensures p < n && rows[p].stratum == KeysTo(rows, n)[i]
  {
    if i < |KeysTo(rows, n - 1)| {
      p := KeyOccurs(rows, n - 1, i);
    } else {
      p := n - 1;
    }
  }

  lemma {:induction false} MemberOccurs(rows: seq<Row>, k: seq<string>, n: nat, i: nat) returns (p: nat)
    requires n <= |rows| && i < |MembersTo(rows, k, n)|
    ensures p < n && rows[p] == MembersTo(rows, k, n)[i] && rows[p].stratum == k
  {
    if i < |MembersTo(rows, k, n - 1)| {
      p := MemberOccurs(rows, k, n - 1, i);
    } else {
      p := n - 1;
    }
  }

  lemma {:induction false} MemberOrder(rows: seq<Row>, k: seq<string>, n: nat, i: nat, j: nat) returns (p: nat, q: nat)
    requires n <= |rows| && i < j < |MembersTo(rows, k, n)|
    ensures p < q < n && rows[p] == MembersTo(rows, k, n)[i] && rows[q] == MembersTo(rows, k, n)[j]
    ensures rows[p].stratum == rows[q].stratum == k
  {
    if j < |MembersTo(rows, k, n - 1)| {
      p, q := MemberOrder(rows, k, n - 1, i, j);
    } else {
      q := n - 1;
      p := MemberOccurs(rows, k, n - 1, i);
    }
  }

  // ----- the order of the sample -----

  ghost predicate SameShape(rows: seq<Row>) {
    forall i, j :: 0 <= i < |rows| && 0 <= j < |rows| ==> |rows[i].stratum| == |rows[j].stratum|
  }

  lemma SortedShape(failures: seq<Row>)
    requires SameShape(failures)
    ensures SameShape(Sort(failures, RowLeq)) && Sorted(Sort(failures, RowLeq), RowLeq)
  {
    RowPreorder();
    SortSorts(failures, RowLeq);
    var s := Sort(failures, RowLeq);
    forall i, j | 0 <= i < |s| && 0 <= j < |s| ensures |s[i].stratum| == |s[j].stratum| {
      assert s[i] in multiset(s) && s[j] in multiset(s);
      assert s[i] in failures && s[j] in failures;
    }
  }

  /** When all failures are taken they come by stratum, and within a stratum by question. */
  lemma AllInOrder(failures: seq<Row>, p: nat, q: nat)
    requires SameShape(failures) && p < q < |Sort(failures, RowLeq)|
    ensures var a, b := Sort(failures, RowLeq)[p], Sort(failures, RowLeq)[q];
            Less(a.stratum, b.stratum) || (a.stratum == b.stratum && StringLeq(a.questionId, b.questionId))
  {
    SortedShape(failures);
    var a, b := Sort(failures, RowLeq)[p], Sort(failures, RowLeq)[q];
    assert RowLeq(a, b);
    KeyLeqIff(a.stratum, a.questionId, b.stratum, b.questionId);
  }

  /** The rounds visit the strata in ascending order of their keys. */
  lemma StrataInOrder(failures: seq<Row>, i: nat, j: nat)
    requires SameShape(failures) && i < j < |Keys(Sort(failures, RowLeq))|
    ensures Less(Keys(Sort(failures, RowLeq))[i], Keys(Sort(failures, RowLeq))[j])
  {
    var rows := Sort(failures, RowLeq);
    var p, q := KeyOrder(rows, |rows|, i, j);
    AllInOrder(failures, p, q);
    KeysDistinct(rows, |rows|);
  }

  /** Each stratum gives its questions in ascending order. */
  lemma QuestionsInOrder(failures: seq<Row>, k: nat, i: nat, j: nat)
    requires SameShape(failures) && k < |SortedStrata(failures)| && i < j < |SortedStrata(failures)[k]|
    ensures StringLeq(SortedStrata(failures)[k][i].questionId, SortedStrata(failures)[k][j].questionId)
  {
    var rows := Sort(failures, RowLeq);
    var p, q := MemberOrder(rows, Keys(rows)[k], |rows|, i, j);
    AllInOrder(failures, p, q);
    NotLess(rows[p].stratum);
  }
}
