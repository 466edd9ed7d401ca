/** When a pairing fails and why, and what a comparison estimates: the difference of the two methods' means. */
module PairingExact {
  import opened Bootstrap
  import opened Pairing
  import opened Sorting

  // ----- outcomes -----

  ghost predicate HasId(rows: seq<Row>, id: string) {
    exists i :: 0 <= i < |rows| && rows[i].questionId == id
  }

  ghost predicate SameQuestions(left: seq<Row>, right: seq<Row>) {
    forall id :: HasId(left, id) <==> HasId(right, id)
  }

  ghost predicate ShareQuestion(left: seq<Row>, right: seq<Row>) {
    exists id :: HasId(left, id) && HasId(right, id)
  }

  ghost predicate AllMeasured(rows: seq<Row>) {
    forall i :: 0 <= i < |rows| ==> rows[i].metric.Value?
  }

  /** What goes wrong, if anything does. */
  ghost function FailureOf(left: seq<Row>, right: seq<Row>): PairError
  {
    if !DistinctIds(left) then DuplicateIds(Left)
    else if !DistinctIds(right) then DuplicateIds(Right)
    else if !ShareQuestion(left, right) then NoSharedIds
    else if !SameQuestions(left, right) then UnmatchedIds
    else MetricMissing
  }

  lemma HasIdIff(rows: seq<Row>, id: string)
    ensures HasId(rows, id) <==> id in ById(rows)
    ensures HasId(rows, id) <==> id in Ids(rows)
  {
    ByIdKeys(rows);
    if HasId(rows, id) {
      var i :| 0 <= i < |rows| && rows[i].questionId == id;
      assert Ids(rows)[i] == id;
    }
  }

  lemma KeysIff(left: seq<Row>, right: seq<Row>)
    ensures SameQuestions(left, right) <==> ById(left).Keys == ById(right).Keys
  {
    forall id ensures (HasId(left, id) <==> id in ById(left)) && (HasId(right, id) <==> id in ById(right)) {
      HasIdIff(left, id);
      HasIdIff(right, id);
    }
  }

  function CommonIds(left: seq<Row>, right: seq<Row>): seq<string> {
    Sort(Shared(Ids(left), ById(right).Keys), StringLeq)
  }

  lemma CommonMembers(left: seq<Row>, right: seq<Row>, id: string)
    ensures id in CommonIds(left, right) <==> HasId(left, id) && HasId(right, id)
  {
    var s := Shared(Ids(left), ById(right).Keys);
    StringOrder();
    SortSorts(s, StringLeq);
    SharedMembers(Ids(left), ById(right).Keys);
    HasIdIff(left, id);
    HasIdIff(right, id);
    assert id in Sort(s, StringLeq) <==> id in multiset(Sort(s, StringLeq));
    assert id in s <==> id in multiset(s);
  }

  lemma CommonEmpty(left: seq<Row>, right: seq<Row>)
    ensures CommonIds(left, right) == [] <==> !ShareQuestion(left, right)
  {
    if CommonIds(left, right) != [] {
      CommonMembers(left, right, CommonIds(left, right)[0]);
    }
    if ShareQuestion(left, right) {
      var id :| HasId(left, id) && HasId(right, id);
      CommonMembers(left, right, id);
    }
  }

  lemma PresentIff(left: seq<Row>, right: seq<Row>, rows: seq<Row>)
    requires SameQuestions(left, right) && DistinctIds(rows) && (rows == left || rows == right)
    ensures AllPresent(CommonIds(left, right), ById(rows)) <==> AllMeasured(rows)
  {
    var ids := CommonIds(left, right);
    forall k | 0 <= k < |ids| ensures ids[k] in ById(rows) {
      CommonMembers(left, right, ids[k]);
      HasIdIff(rows, ids[k]);
    }
    forall i | 0 <= i < |rows| ensures exists k :: 0 <= k < |ids| && ids[k] == rows[i].questionId {
      CommonMembers(left, right, rows[i].questionId);
      assert HasId(rows, rows[i].questionId);
      assert rows[i].questionId in ids;
    }
    forall i | 0 <= i < |rows| ensures rows[i].questionId in ById(rows) && ById(rows)[rows[i].questionId] == rows[i] {
      ByIdRow(rows, i);
    }
    if AllMeasured(rows) {
      forall k | 0 <= k < |ids| ensures ById(rows)[ids[k]].metric.Value? {
        HasIdIff(rows, ids[k]);
        var i :| 0 <= i < |rows| && rows[i].questionId == ids[k];
        ByIdRow(rows, i);
      }
    }
  }

  /** A pairing succeeds exactly when no method repeats a question, both have the same questions, at least one, and
      every row has the metric; otherwise the first of these that fails is reported. */
  lemma PairingOutcome(left: seq<Row>, right: seq<Row>)
    ensures PairDeltas(left, right).Good?
       <==> DistinctIds(left) && DistinctIds(right) && ShareQuestion(left, right) && SameQuestions(left, right)
            && AllMeasured(left) && AllMeasured(right)
    ensures PairDeltas(left, right).Bad? ==> PairDeltas(left, right) == Bad(FailureOf(left, right))
  {
    KeysIff(left, right);
    CommonEmpty(left, right);
    if DistinctIds(left) && DistinctIds(right) && SameQuestions(left, right) {
      PresentIff(left, right, left);
      PresentIff(left, right, right);
    }
  }

  // ----- the estimate -----

  /** The metric of every row, in the order of the rows. */
  function Values(rows: seq<Row>): (v: seq<real>)
    requires forall i :: 0 <= i < |rows| ==> rows[i].metric.Value?
    ensures |v| == |rows| && forall i :: 0 <= i < |v| ==> v[i] == rows[i].metric.value
  {
    seq(|rows|, i requires 0 <= i < |rows| => rows[i].metric.value)
  }

  lemma {:induction false} SumWithout(s: seq<real>, i: nat)
    requires i < |s|
    ensures Sum(s) == Sum(s[..i] + s[i + 1..]) + s[i]
    decreases |s|
  {
    var last := |s| - 1;
    if i == last {
      assert s[..i] + s[i + 1..] == s[..last];
    } else {
      var c := s[..i] + s[i + 1..];
      SumWithout(s[..last], i);
      assert c[..|c| - 1] == s[..last][..i] + s[..last][i + 1..];
      assert c[|c| - 1] == s[last];
    }
  }

  lemma {:induction false} SumPermutation(a: seq<real>, b: seq<real>)
    requires multiset(a) == multiset(b)
    ensures Sum(a) == Sum(b)
    decreases |a|
  {
    SameSize(a, b);
    if a != [] {
      var last := |a| - 1;
      RemoveAt(a, last);
      assert a[..last] + a[last + 1..] == a[..last];
      assert a[last] in multiset(b);
      var i := TakeOut(b, a[last]);
      SumPermutation(a[..last], b[..i] + b[i + 1..]);
      SumWithout(b, i);
    }
  }

  lemma {:induction false} SumDifference(a: seq<real>, b: seq<real>, d: seq<real>)
    requires |a| == |b| == |d| && forall i :: 0 <= i < |d| ==> d[i] == a[i] - b[i]
    ensures Sum(d) == Sum(a) - Sum(b)
  {
    if d != [] {
      var n := |d| - 1;
      SumDifference(a[..n], b[..n], d[..n]);
    }
  }

  function ValueIn(rows: map<string, Row>): string -> real {
    id => if id in rows && rows[id].metric.Value? then rows[id].metric.value else 0.0
  }

  lemma ValuesAsMapped(rows: seq<Row>)
    requires DistinctIds(rows) && AllMeasured(rows)
    ensures Mapped(Ids(rows), ValueIn(ById(rows))) == Values(rows)
  {
    forall i | 0 <= i < |rows| ensures ValueIn(ById(rows))(rows[i].questionId) == rows[i].metric.value {
      ByIdRow(rows, i);
    }
  }

  /** Summing a method's values question by question or row by row is the same. */
  lemma SumByQuestion(rows: seq<Row>, ids: seq<string>)
    requires DistinctIds(rows) && AllMeasured(rows) && Distinct(ids) && forall id :: id in ids <==> HasId(rows, id)
    ensures Sum(Mapped(ids, ValueIn(ById(rows)))) == Sum(Values(rows)) && |ids| == |rows|
  {
    DistinctRows(rows);
    forall id ensures id in ids <==> id in Ids(rows) {
      HasIdIff(rows, id);
    }
    DistinctSameMembers(ids, Ids(rows));
    SameSize(ids, Ids(rows));
    MappedPermutation(ids, Ids(rows), ValueIn(ById(rows)));
    SumPermutation(Mapped(ids, ValueIn(ById(rows))), Mapped(Ids(rows), ValueIn(ById(rows))));
    ValuesAsMapped(rows);
  }

  lemma MeanDifference(a: real, b: real, n: real)
    requires n > 0.0
    ensures (a - b) / n == a / n - b / n
  {
  }

  lemma DeltasSum(left: seq<Row>, right: seq<Row>)
    requires PairDeltas(left, right).Good?
    ensures AllMeasured(left) && AllMeasured(right)
    ensures var d := PairDeltas(left, right).value.deltas;
            |d| == |left| == |right| > 0 && Sum(d) == Sum(Values(left)) - Sum(Values(right))
  {
    PairingOutcome(left, right);
    PairingAligns(left, right);
    var p, l, r := PairDeltas(left, right).value, ById(left), ById(right);
    forall id ensures id in p.questionIds <==> HasId(left, id) {
      HasIdIff(left, id);
    }
    SumByQuestion(left, p.questionIds);
    SumByQuestion(right, p.questionIds);
    SumDifference(Mapped(p.questionIds, ValueIn(l)), Mapped(p.questionIds, ValueIn(r)), p.deltas);
  }

  /** A comparison estimates how much higher the mean of the left method is than that of the right one. */
  lemma CompareEstimates(rows: map<string, seq<Row>>, left: string, right: string, n: nat, seed: int, alpha: real,
                         g: Stream)
    requires Compare(rows, left, right, n, seed, alpha, g).Good?
    ensures left in rows && right in rows && rows[left] != [] && rows[right] != []
    ensures AllMeasured(rows[left]) && AllMeasured(rows[right])
    ensures Compare(rows, left, right, n, seed, alpha, g).value.estimate
         == Mean(Values(rows[left])) - Mean(Values(rows[right]))
  {
    DeltasSum(rows[left], rows[right]);
    MeanDifference(Sum(Values(rows[left])), Sum(Values(rows[right])), |rows[left]| as real);
  }

  /** It fails for a method without rows, the left one first, then as its pairing or its interval does. */
  lemma CompareOutcome(rows: map<string, seq<Row>>, left: string, right: string, n: nat, seed: int, alpha: real,
                       g: Stream)
    ensures var r := Compare(rows, left, right, n, seed, alpha, g);
            && (r == Bad(MissingMethod(Left)) <==> left !in rows)
            && (r == Bad(MissingMethod(Right)) <==> left in rows && right !in rows)
            && (left in rows && right in rows && PairDeltas(rows[left], rows[right]).Bad? ==>
                  r == Bad(FailureOf(rows[left], rows[right])))
            && (r.Good? <==> left in rows && right in rows && PairDeltas(rows[left], rows[right]).Good?
                             && n >= 2 && 0.0 < alpha < 1.0)
  {
    if left in rows && right in rows {
      PairingOutcome(rows[left], rows[right]);
      if PairDeltas(rows[left], rows[right]).Good? {
        PairingAligns(rows[left], rows[right]);
      }
    }
  }
}
