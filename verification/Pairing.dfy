/** Aligning two methods by question and comparing them: `pair_deltas` and `compare_methods`. */
module Pairing {
  import opened Sorting
  import opened Bootstrap

  /** One per-question row of a method; the metric may be missing. */
  datatype Row = Row(questionId: string, metric: Metric)

  datatype Metric = Missing | Value(value: real)

  datatype Pairing = Pairing(questionIds: seq<string>, deltas: seq<real>)

  datatype Side = Left | Right

  datatype PairError =
    | DuplicateIds(side: Side)
    | NoSharedIds
    | UnmatchedIds
    | MetricMissing
    | MissingMethod(side: Side)
    | NoInterval(error: Error)

  datatype Checked<T> = Good(value: T) | Bad(error: PairError)

  function Ids(rows: seq<Row>): (ids: seq<string>)
    ensures |ids| == |rows| && forall i :: 0 <= i < |rows| ==> ids[i] == rows[i].questionId
  {
    seq(|rows|, i requires 0 <= i < |rows| => rows[i].questionId)
  }

  predicate DistinctIds(rows: seq<Row>) {
    forall i, j :: 0 <= i < j < |rows| ==> rows[i].questionId != rows[j].questionId
  }

  /** The rows as a dictionary, later rows replacing earlier ones. */
  function ById(rows: seq<Row>): map<string, Row> {
    if rows == [] then map[]
    else ById(rows[..|rows| - 1])[rows[|rows| - 1].questionId := rows[|rows| - 1]]
  }

  /** `_rows_by_id`: the dictionary, or `None` at the first repeated question. */
  method RowsById(rows: seq<Row>) returns (ok: bool, byId: map<string, Row>)
    ensures ok <==> DistinctIds(rows)
    ensures ok ==> byId == ById(rows)
  {
    byId := map[];
    for i := 0 to |rows|
      invariant byId == ById(rows[..i]) && DistinctIds(rows[..i])
      invariant forall k :: 0 <= k < i ==> rows[k].questionId in byId
      invariant forall id :: id in byId ==> exists k :: 0 <= k < i && rows[k].questionId == id
    {
      if rows[i].questionId in byId {
        return false, map[];
      }
      assert rows[..i + 1][..i] == rows[..i];
      byId := byId[rows[i].questionId := rows[i]];
    }
    assert rows[..|rows|] == rows;
    ok := true;
  }

  function Shared(ids: seq<string>, keys: set<string>): seq<string> {
    if ids == [] then []
    else (if ids[0] in keys then [ids[0]] else []) + Shared(ids[1..], keys)
  }

  predicate AllPresent(ids: seq<string>, rows: map<string, Row>) {
    forall i :: 0 <= i < |ids| ==> ids[i] in rows && rows[ids[i]].metric.Value?
  }

  function Deltas(ids: seq<string>, l: map<string, Row>, r: map<string, Row>): (d: seq<real>)
    requires AllPresent(ids, l) && AllPresent(ids, r)
    ensures |d| == |ids|
    ensures forall i :: 0 <= i < |ids| ==> d[i] == l[ids[i]].metric.value - r[ids[i]].metric.value
  {
    seq(|ids|, i requires 0 <= i < |ids| => l[ids[i]].metric.value - r[ids[i]].metric.value)
  }

  function PairDeltas(left: seq<Row>, right: seq<Row>): Checked<Pairing> {
    if !DistinctIds(left) then Bad(DuplicateIds(Left))
    else if !DistinctIds(right) then Bad(DuplicateIds(Right))
    else
      var l, r := ById(left), ById(right);
      var common := Sort(Shared(Ids(left), r.Keys), StringLeq);
      if common == [] then Bad(NoSharedIds)
      else if l.Keys != r.Keys then Bad(UnmatchedIds)
      else if !AllPresent(common, l) || !AllPresent(common, r) then Bad(MetricMissing)
      else Good(Pairing(common, Deltas(common, l, r)))
  }

  /** `compare_methods` on the rows of a run. */
  function Compare(rows: map<string, seq<Row>>, left: string, right: string, n: nat, seed: int, alpha: real,
                   g: Stream): Checked<Interval>
  {
    if left !in rows then Bad(MissingMethod(Left))
    else if right !in rows then Bad(MissingMethod(Right))
    else
      match PairDeltas(rows[left], rows[right])
      case Bad(e) => Bad(e)
      case Good(pairing) =>
        match PairedInterval(pairing.deltas, n, seed, alpha, g)
        case Ok(ci) => Good(ci)
        case Err(e) => Bad(NoInterval(e))
  }

  // ----- the dictionary -----

  lemma {:induction false} ByIdKeys(rows: seq<Row>)
    ensures forall id :: id in ById(rows) <==> id in Ids(rows)
  {
    if rows != [] {
      var init := rows[..|rows| - 1];
      ByIdKeys(init);
      assert Ids(rows) == Ids(init) + [rows[|rows| - 1].questionId];
    }
  }

  lemma {:induction false} ByIdRow(rows: seq<Row>, i: nat)
    requires DistinctIds(rows) && i < |rows|
    ensures rows[i].questionId in ById(rows) && ById(rows)[rows[i].questionId] == rows[i]
  {
    var init := rows[..|rows| - 1];
    if i < |init| {
      assert init[i] == rows[i];
      ByIdRow(init, i);
    }
  }

  lemma DistinctRows(rows: seq<Row>)
    ensures DistinctIds(rows) <==> Distinct(Ids(rows))
  {
  }

  lemma IdsPermutation(a: seq<Row>, b: seq<Row>)
    requires multiset(a) == multiset(b)
    ensures multiset(Ids(a)) == multiset(Ids(b))
  {
    MappedPermutation(a, b, (r: Row) => r.questionId);
    assert Ids(a) == Mapped(a, (r: Row) => r.questionId);
    assert Ids(b) == Mapped(b, (r: Row) => r.questionId);
  }

  /** The dictionary does not depend on the order of rows with distinct questions. */
  lemma ByIdPermutation(a: seq<Row>, b: seq<Row>)
    requires multiset(a) == multiset(b)
    ensures DistinctIds(a) <==> DistinctIds(b)
    ensures DistinctIds(a) ==> ById(a) == ById(b)
  {
    IdsPermutation(a, b);
    DistinctRows(a);
    DistinctRows(b);
    DistinctOnce(Ids(a));
    DistinctOnce(Ids(b));
    if DistinctIds(a) {
      ByIdKeys(a);
      ByIdKeys(b);
      forall id | id in ById(a) ensures id in ById(b) && ById(b)[id] == ById(a)[id] {
        var i :| 0 <= i < |a| && Ids(a)[i] == id;
        assert a[i] in multiset(b);
        var j :| 0 <= j < |b| && b[j] == a[i];
        ByIdRow(a, i);
        ByIdRow(b, j);
      }
      forall id | id in ById(b) ensures id in ById(a) {
        var j :| 0 <= j < |b| && Ids(b)[j] == id;
        assert b[j] in multiset(a);
      }
    }
  }

  // ----- the shared questions -----

  lemma {:induction false} SharedMembers(ids: seq<string>, keys: set<string>)
    ensures multiset(Shared(ids, keys)) <= multiset(ids)
    ensures forall id :: id in Shared(ids, keys) <==> id in ids && id in keys
  {
    if ids != [] {
      SharedMembers(ids[1..], keys);
      assert ids == [ids[0]] + ids[1..];
    }
  }

  lemma SharedDistinct(ids: seq<string>, keys: set<string>)
    requires Distinct(ids)
    ensures Distinct(Shared(ids, keys))
  {
    SharedMembers(ids, keys);
    DistinctOnce(ids);
    DistinctOnce(Shared(ids, keys));
    var s := Shared(ids, keys);
    forall x | x in multiset(s) ensures multiset(s)[x] == 1 {
      assert multiset(s)[x] <= multiset(ids)[x];
    }
  }

  /** The sorted shared questions depend only on which questions are shared. */
  lemma CommonUnique(a: seq<Row>, b: seq<Row>, c: seq<Row>, d: seq<Row>)
    requires DistinctIds(a) && DistinctIds(c)
    requires ById(a).Keys * ById(b).Keys == ById(c).Keys * ById(d).Keys
    ensures Sort(Shared(Ids(a), ById(b).Keys), StringLeq) == Sort(Shared(Ids(c), ById(d).Keys), StringLeq)
  {
    var x, y := Shared(Ids(a), ById(b).Keys), Shared(Ids(c), ById(d).Keys);
    SharedMembers(Ids(a), ById(b).Keys);
    SharedMembers(Ids(c), ById(d).Keys);
    DistinctRows(a);
    DistinctRows(c);
    SharedDistinct(Ids(a), ById(b).Keys);
    SharedDistinct(Ids(c), ById(d).Keys);
    ByIdKeys(a);
    ByIdKeys(c);
    forall id ensures id in x <==> id in y {
      assert id in x <==> id in ById(a).Keys * ById(b).Keys;
      assert id in y <==> id in ById(c).Keys * ById(d).Keys;
    }
    DistinctSameMembers(x, y);
    StringOrder();
    SortPermutation(x, y, StringLeq);
  }

  // ----- what pairing promises -----

  /** Row `i` belongs to the `k`-th question of the pairing. */
  predicate Names(p: Pairing, k: int, rows: seq<Row>, i: int) {
    0 <= k < |p.questionIds| && 0 <= i < |rows| && rows[i].questionId == p.questionIds[k]
  }

  predicate IsDifference(d: real, l: Metric, r: Metric) {
    l.Value? && r.Value? && d == l.value - r.value
  }

  /** A pairing lists every question of either method once, in ascending order, with the difference of the
      two rows of that question. */
  lemma PairingAligns(left: seq<Row>, right: seq<Row>)
    requires PairDeltas(left, right).Good?
    ensures var p := PairDeltas(left, right).value;
            && |p.questionIds| == |p.deltas| > 0
            && Sorted(p.questionIds, StringLeq) && Distinct(p.questionIds)
            && (forall id :: id in p.questionIds <==> id in Ids(left))
            && (forall id :: id in p.questionIds <==> id in Ids(right))
            && (forall k, i, j :: 0 <= k < |p.deltas| && Names(p, k, left, i) && Names(p, k, right, j)
                  ==> IsDifference(p.deltas[k], left[i].metric, right[j].metric))
  {
    var p, s := PairDeltas(left, right).value, Shared(Ids(left), ById(right).Keys);
    StringOrder();
    SortSorts(s, StringLeq);
    DistinctRows(left);
    SharedMembers(Ids(left), ById(right).Keys);
    SharedDistinct(Ids(left), ById(right).Keys);
    DistinctPermutation(s, p.questionIds);
    ByIdKeys(left);
    ByIdKeys(right);
    forall id ensures id in p.questionIds <==> id in s {
      assert id in p.questionIds <==> id in multiset(p.questionIds);
      assert id in s <==> id in multiset(s);
    }
    forall k, i, j | 0 <= k < |p.deltas| && Names(p, k, left, i) && Names(p, k, right, j)
      ensures IsDifference(p.deltas[k], left[i].metric, right[j].metric)
    {
      ByIdRow(left, i);
      ByIdRow(right, j);
    }
  }

  lemma DeltasSwap(ids: seq<string>, l: map<string, Row>, r: map<string, Row>)
    requires AllPresent(ids, l) && AllPresent(ids, r)
    ensures Deltas(ids, r, l) == Negated(Deltas(ids, l, r))
  {
  }

  lemma GoodPairingSwaps(left: seq<Row>, right: seq<Row>)
    requires PairDeltas(left, right).Good?
    ensures var p := PairDeltas(left, right).value;
            PairDeltas(right, left) == Good(Pairing(p.questionIds, Negated(p.deltas)))
  {
    CommonUnique(left, right, right, left);
    var p, l, r := PairDeltas(left, right).value, ById(left), ById(right);
    DeltasSwap(p.questionIds, l, r);
  }

  /** Pairing the other way round gives the same questions with negated differences, or fails as well. */
  lemma PairingSwaps(left: seq<Row>, right: seq<Row>)
    ensures PairDeltas(left, right).Good? <==> PairDeltas(right, left).Good?
    ensures PairDeltas(left, right).Good? ==>
              var p := PairDeltas(left, right).value;
              PairDeltas(right, left) == Good(Pairing(p.questionIds, Negated(p.deltas)))
  {
    if PairDeltas(left, right).Good? {
      GoodPairingSwaps(left, right);
    } else if PairDeltas(right, left).Good? {
      GoodPairingSwaps(right, left);
    }
  }

  /** Pairing does not depend on the order of the rows. */
  lemma PairingReordered(left: seq<Row>, right: seq<Row>, left': seq<Row>, right': seq<Row>)
    requires multiset(left) == multiset(left') && multiset(right) == multiset(right')
    ensures PairDeltas(left, right) == PairDeltas(left', right')
  {
    ByIdPermutation(left, left');
    ByIdPermutation(right, right');
    if DistinctIds(left) && DistinctIds(right) {
      CommonUnique(left, right, left', right');
    }
  }

  /** Comparing the methods the other way round mirrors the result. */
  lemma CompareSwaps(rows: map<string, seq<Row>>, left: string, right: string, n: nat, seed: int, alpha: real,
                     g: Stream)
    ensures var forth, back := Compare(rows, left, right, n, seed, alpha, g), Compare(rows, right, left, n, seed, alpha, g);
            (forth.Good? <==> back.Good?) && (forth.Good? ==> back == Good(Mirrored(forth.value)))
  {
    if left in rows && right in rows {
      PairingSwaps(rows[left], rows[right]);
      if PairDeltas(rows[left], rows[right]).Good? {
        IntervalMirrors(PairDeltas(rows[left], rows[right]).value.deltas, n, seed, alpha, g);
      }
    }
  }

  /** Comparing does not depend on the order of the rows. */
  lemma CompareReordered(rows: map<string, seq<Row>>, rows': map<string, seq<Row>>, left: string, right: string,
                         n: nat, seed: int, alpha: real, g: Stream)
    requires rows.Keys == rows'.Keys && forall m :: m in rows ==> multiset(rows[m]) == multiset(rows'[m])
    ensures Compare(rows, left, right, n, seed, alpha, g) == Compare(rows', left, right, n, seed, alpha, g)
  {
    if left in rows && right in rows {
      PairingReordered(rows[left], rows[right], rows'[left], rows'[right]);
    }
  }
}
