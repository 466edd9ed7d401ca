/** The review hand-off, `stratified_failure_sample`: round-robin over the strata of the sorted failures. */
module RoundRobin {
  import opened Prelude
  import opened Sorting

  /** A failure; `stratum` is its dataset, method, category and failure type, `rest` its other fields. */
  datatype Row = Row(stratum: seq<string>, questionId: string, rest: string)

  predicate TupleLeq(a: seq<string>, b: seq<string>) {
    a == [] || (b != [] && (if a[0] == b[0] then TupleLeq(a[1..], b[1..]) else StringLeq(a[0], b[0])))
  }

  function SortKey(r: Row): seq<string> {
    r.stratum + [r.questionId]
  }

  predicate RowLeq(a: Row, b: Row) {
    TupleLeq(SortKey(a), SortKey(b))
  }

  lemma {:induction false} TupleTotal(a: seq<string>, b: seq<string>)
    ensures TupleLeq(a, b) || TupleLeq(b, a)
  {
    if a != [] && b != [] {
      StringTotal(a[0], b[0]);
      TupleTotal(a[1..], b[1..]);
    }
  }

  lemma {:induction false} TupleTransitive(a: seq<string>, b: seq<string>, c: seq<string>)
    requires TupleLeq(a, b) && TupleLeq(b, c)
    ensures TupleLeq(a, c)
  {
    if a != [] && b != [] && c != [] {
      if a[0] == b[0] && b[0] == c[0] {
        TupleTransitive(a[1..], b[1..], c[1..]);
      } else if a[0] != b[0] && b[0] != c[0] {
        StringTransitive(a[0], b[0], c[0]);
        if a[0] == c[0] {
          StringAntisymmetric(a[0], b[0]);
        }
      }
    }
  }

  lemma RowPreorder()
    ensures Preorder(RowLeq)
  {
    forall a, b ensures RowLeq(a, b) || RowLeq(b, a) {
      TupleTotal(SortKey(a), SortKey(b));
    }
    forall a, b, c | RowLeq(a, b) && RowLeq(b, c) ensures RowLeq(a, c) {
      TupleTransitive(SortKey(a), SortKey(b), SortKey(c));
    }
  }

  // ----- strata -----

  /** The rows of one stratum among the first `n`, in order. */
  function MembersTo(rows: seq<Row>, k: seq<string>, n: nat): seq<Row>
    requires n <= |rows|
  {
    if n == 0 then [] else MembersTo(rows, k, n - 1) + if rows[n - 1].stratum == k then [rows[n - 1]] else []
  }

  function Members(rows: seq<Row>, k: seq<string>): seq<Row> {
    MembersTo(rows, k, |rows|)
  }

  /** The strata of the first `n` rows in order of first appearance. */
  function KeysTo(rows: seq<Row>, n: nat): seq<seq<string>>
    requires n <= |rows|
  {
    if n == 0 then []
    else
      var keys, k := KeysTo(rows, n - 1), rows[n - 1].stratum;
      if k in keys then keys else keys + [k]
  }

  function Keys(rows: seq<Row>): seq<seq<string>> {
    KeysTo(rows, |rows|)
  }

  function StrataOf(rows: seq<Row>, keys: seq<seq<string>>): (s: seq<seq<Row>>)
    ensures |s| == |keys| && forall i :: 0 <= i < |s| ==> s[i] == Members(rows, keys[i])
  {
    seq(|keys|, i requires 0 <= i < |keys| => Members(rows, keys[i]))
  }

  /** `strata.setdefault(key, []).append(row)` for every row. */
  method Group(rows: seq<Row>) returns (keys: seq<seq<string>>, strata: map<seq<string>, seq<Row>>)
    ensures keys == Keys(rows)
    ensures forall k :: k in strata <==> k in keys
    ensures forall k :: k in strata ==> strata[k] == Members(rows, k)
  {
    keys, strata := [], map[];
    for i := 0 to |rows|
      invariant keys == KeysTo(rows, i)
      invariant forall k :: k in strata <==> k in keys
      invariant forall k :: k in strata ==> strata[k] == MembersTo(rows, k, i)
    {
      var row := rows[i];
      if row.stratum !in strata {
        MembersAbsent(rows, row.stratum, i);
        keys := keys + [row.stratum];
        strata := strata[row.stratum := []];
      }
      strata := strata[row.stratum := strata[row.stratum] + [row]];
    }
  }

  lemma {:induction false} MembersAbsent(rows: seq<Row>, k: seq<string>, n: nat)
    requires n <= |rows|
    ensures k in KeysTo(rows, n) <==> MembersTo(rows, k, n) != []
  {
    if n > 0 {
      MembersAbsent(rows, k, n - 1);
    }
  }

  lemma {:induction false} KeysDistinct(rows: seq<Row>, n: nat)
    requires n <= |rows|
    ensures Distinct(KeysTo(rows, n))
  {
    if n > 0 {
      KeysDistinct(rows, n - 1);
    }
  }

  // ----- rounds -----

  /** The row of one stratum in the round that takes item number `level`, if there is one. */
  function Head(items: seq<Row>, level: nat): seq<Row> {
    if level < |items| then [items[level]] else []
  }

  /** What the first `j` strata contribute to the round that takes their item number `level`. */
  function Heads(s: seq<seq<Row>>, level: nat, j: nat): seq<Row>
    requires j <= |s|
  {
    if j == 0 then []
    else Heads(s, level, j - 1) + Head(s[j - 1], level)
  }

  /** The first `level` full rounds. */
  function Rounds(s: seq<seq<Row>>, level: nat): seq<Row> {
    if level == 0 then [] else Rounds(s, level - 1) + Heads(s, level - 1, |s|)
  }

  function SizeSum(s: seq<seq<Row>>, level: nat, j: nat): nat
    requires j <= |s|
  {
    if j == 0 then 0 else SizeSum(s, level, j - 1) + Min(|s[j - 1]|, level)
  }

  lemma {:induction false} HeadsSize(s: seq<seq<Row>>, level: nat, j: nat)
    requires j <= |s|
    ensures |Heads(s, level, j)| == SizeSum(s, level + 1, j) - SizeSum(s, level, j)
  {
    if j > 0 {
      HeadsSize(s, level, j - 1);
    }
  }

  lemma {:induction false} RoundsSize(s: seq<seq<Row>>, level: nat)
    ensures |Rounds(s, level)| == SizeSum(s, level, |s|)
  {
    if level == 0 {
      NoSize(s, |s|);
    } else {
      RoundsSize(s, level - 1);
      HeadsSize(s, level - 1, |s|);
    }
  }

  lemma {:induction false} NoSize(s: seq<seq<Row>>, j: nat)
    requires j <= |s|
    ensures SizeSum(s, 0, j) == 0
  {
    if j > 0 {
      NoSize(s, j - 1);
    }
  }

  /** No round takes anything once every stratum is used up. */
  lemma {:induction false} HeadsEmpty(s: seq<seq<Row>>, level: nat, j: nat)
    requires j <= |s| && Heads(s, level, j) == []
    ensures forall i :: 0 <= i < j ==> |s[i]| <= level
  {
    if j > 0 {
      HeadsEmpty(s, level, j - 1);
    }
  }

  lemma {:induction false} FullSize(s: seq<seq<Row>>, level: nat, more: nat, j: nat)
    requires j <= |s| && level <= more && forall i :: 0 <= i < j ==> |s[i]| <= level
    ensures SizeSum(s, level, j) == SizeSum(s, more, j)
  {
    if j > 0 {
      FullSize(s, level, more, j - 1);
    }
  }

  /** How many of the first `n` rows the first `j` strata hold. */
  function Held(rows: seq<Row>, keys: seq<seq<string>>, n: nat, j: nat): nat
    requires n <= |rows| && j <= |keys|
  {
    if j == 0 then 0 else Held(rows, keys, n, j - 1) + |MembersTo(rows, keys[j - 1], n)|
  }

  /** Whether `k` is one of the first `j` strata. */
  predicate Listed(keys: seq<seq<string>>, k: seq<string>, j: nat)
    requires j <= |keys|
  {
    j > 0 && (keys[j - 1] == k || Listed(keys, k, j - 1))
  }

  lemma {:induction false} ListedIn(keys: seq<seq<string>>, k: seq<string>, j: nat)
    requires j <= |keys|
    ensures Listed(keys, k, j) <==> exists i :: 0 <= i < j && keys[i] == k
    decreases j
  {
    if j > 0 {
      ListedIn(keys, k, j - 1);
    }
  }

  lemma {:induction false} HeldNext(rows: seq<Row>, keys: seq<seq<string>>, n: nat, j: nat)
    requires n < |rows| && j <= |keys| && Distinct(keys)
    ensures Held(rows, keys, n + 1, j) == Held(rows, keys, n, j) + if Listed(keys, rows[n].stratum, j) then 1 else 0
    decreases j
  {
    if j > 0 {
      HeldNext(rows, keys, n, j - 1);
      ListedIn(keys, rows[n].stratum, j - 1);
    }
  }

  ghost predicate AllListed(rows: seq<Row>, keys: seq<seq<string>>) {
    forall i :: 0 <= i < |rows| ==> Listed(keys, rows[i].stratum, |keys|)
  }

  lemma {:induction false} HeldAll(rows: seq<Row>, keys: seq<seq<string>>, n: nat)
    requires n <= |rows| && Distinct(keys) && AllListed(rows, keys)
    ensures Held(rows, keys, n, |keys|) == n
    decreases n
  {
    if n == 0 {
      HeldNone(rows, keys, |keys|);
    } else {
      HeldAll(rows, keys, n - 1);
      HeldNext(rows, keys, n - 1, |keys|);
    }
  }

  lemma {:induction false} HeldNone(rows: seq<Row>, keys: seq<seq<string>>, j: nat)
    requires j <= |keys|
    ensures Held(rows, keys, 0, j) == 0
    decreases j
  {
    if j > 0 {
      HeldNone(rows, keys, j - 1);
    }
  }

  lemma {:induction false} HeldIsSize(rows: seq<Row>, keys: seq<seq<string>>, j: nat)
    requires j <= |keys|
    ensures SizeSum(StrataOf(rows, keys), |rows|, j) == Held(rows, keys, |rows|, j)
    decreases j
  {
    if j > 0 {
      HeldIsSize(rows, keys, j - 1);
      MembersSize(rows, keys[j - 1], |rows|);
      SizeNext(StrataOf(rows, keys), |rows|, j, Members(rows, keys[j - 1]));
    }
  }

  lemma SizeNext(s: seq<seq<Row>>, level: nat, j: nat, last: seq<Row>)
    requires 0 < j <= |s| && s[j - 1] == last && |last| <= level
    ensures SizeSum(s, level, j) == SizeSum(s, level, j - 1) + |last|
  {
  }

  /** The strata hold all the rows. */
  lemma StrataHoldAll(rows: seq<Row>, keys: seq<seq<string>>)
    requires Distinct(keys) && forall i :: 0 <= i < |rows| ==> rows[i].stratum in keys
    ensures SizeSum(StrataOf(rows, keys), |rows|, |keys|) == |rows|
  {
    forall i | 0 <= i < |rows| ensures Listed(keys, rows[i].stratum, |keys|) {
      ListedIn(keys, rows[i].stratum, |keys|);
    }
    HeldAll(rows, keys, |rows|);
    HeldIsSize(rows, keys, |keys|);
  }

  lemma {:induction false} MembersSize(rows: seq<Row>, k: seq<string>, n: nat)
    requires n <= |rows|
    ensures |MembersTo(rows, k, n)| <= n
  {
    if n > 0 {
      MembersSize(rows, k, n - 1);
    }
  }

  lemma {:induction false} KeysCover(rows: seq<Row>, n: nat)
    requires n <= |rows|
    ensures forall i :: 0 <= i < n ==> rows[i].stratum in KeysTo(rows, n)
  {
    if n > 0 {
      KeysCover(rows, n - 1);
    }
  }

  // ----- the sampling loop -----

  /** Some number of full rounds and the beginning of one more. */
  ghost predicate IsRoundRobin(s: seq<seq<Row>>, sample: seq<Row>) {
    exists level: nat, j: nat :: j <= |s| && sample == Rounds(s, level) + Heads(s, level, j)
  }

  function Left(items: seq<Row>, level: nat): seq<Row> {
    items[Min(|items|, level)..]
  }

  /** Every bucket has lost its first `level` rows. */
  ghost predicate BucketsAt(keys: seq<seq<string>>, s: seq<seq<Row>>, strata: map<seq<string>, seq<Row>>, level: nat) {
    |keys| == |s| && forall i :: 0 <= i < |keys| ==> keys[i] in strata && strata[keys[i]] == Left(s[i], level)
  }

  /** The same when the first `j` buckets have already given their row of this round. */
  ghost predicate MidRound(keys: seq<seq<string>>, s: seq<seq<Row>>, strata: map<seq<string>, seq<Row>>, level: nat, j: nat) {
    |keys| == |s| && j <= |s| && forall i :: 0 <= i < |keys| ==>
      keys[i] in strata && strata[keys[i]] == Left(s[i], if i < j then level + 1 else level)
  }

  lemma LeftHead(items: seq<Row>, level: nat)
    ensures Left(items, level) != [] <==> level < |items|
    ensures level < |items| ==> Left(items, level)[0] == items[level] && Left(items, level)[1..] == Left(items, level + 1)
    ensures level >= |items| ==> Left(items, level + 1) == Left(items, level)
  {
  }

  /** One bucket gives its first row, if it has one. */
  method TakeOne(keys: seq<seq<string>>, ghost s: seq<seq<Row>>, strata0: map<seq<string>, seq<Row>>, ghost level: nat,
                 j: nat, sample: seq<Row>)
    returns (strata: map<seq<string>, seq<Row>>, more: seq<Row>)
    requires Distinct(keys) && MidRound(keys, s, strata0, level, j) && j < |s|
    ensures MidRound(keys, s, strata, level, j + 1) && more == sample + Head(s[j], level)
  {
    strata, more := strata0, sample;
    var bucket := strata[keys[j]];
    LeftHead(s[j], level);
    if bucket != [] {
      more := more + [bucket[0]];
      strata := strata[keys[j] := bucket[1..]];
    }
  }

  lemma NextHeads(sample0: seq<Row>, s: seq<seq<Row>>, level: nat, j: nat)
    requires j < |s|
    ensures sample0 + Heads(s, level, j + 1) == sample0 + Heads(s, level, j) + Head(s[j], level)
  {
  }

  lemma RoundOver(keys: seq<seq<string>>, s: seq<seq<Row>>, strata: map<seq<string>, seq<Row>>, level: nat)
    ensures MidRound(keys, s, strata, level, 0) <==> BucketsAt(keys, s, strata, level)
    ensures MidRound(keys, s, strata, level, |s|) ==> BucketsAt(keys, s, strata, level + 1)
  {
  }

  /** One round over the mutable buckets, cut short when the sample is full. */
  method TakeRound(keys: seq<seq<string>>, ghost s: seq<seq<Row>>, strata0: map<seq<string>, seq<Row>>, ghost level: nat,
                   sample0: seq<Row>, target: nat)
    returns (strata: map<seq<string>, seq<Row>>, sample: seq<Row>, ghost j: nat)
    requires BucketsAt(keys, s, strata0, level) && Distinct(keys) && |sample0| < target
    ensures j <= |s| && sample == sample0 + Heads(s, level, j)
    ensures |sample| <= target && (j < |s| ==> |sample| == target)
    ensures |sample| < target ==> BucketsAt(keys, s, strata, level + 1)
  {
    strata, sample, j := strata0, sample0, 0;
    var next := 0;
    RoundOver(keys, s, strata, level);
    while next < |keys|
      invariant 0 <= next <= |keys| && j == next
      invariant sample == sample0 + Heads(s, level, j) && |sample| < target
      invariant MidRound(keys, s, strata, level, j)
    {
      strata, sample := TakeOne(keys, s, strata, level, next, sample);
      NextHeads(sample0, s, level, j);
      next, j := next + 1, j + 1;
      if |sample| == target {
        return;
      }
    }
    RoundOver(keys, s, strata, level);
  }

  lemma GroupedBuckets(rows: seq<Row>, keys: seq<seq<string>>, strata: map<seq<string>, seq<Row>>)
    requires forall k :: k in strata <==> k in keys
    requires forall k :: k in strata ==> strata[k] == Members(rows, k)
    ensures BucketsAt(keys, StrataOf(rows, keys), strata, 0)
  {
    forall i | 0 <= i < |keys| ensures keys[i] in strata && strata[keys[i]] == Left(StrataOf(rows, keys)[i], 0) {
      assert keys[i] in keys;
    }
  }

  /** A round takes something as long as rows are left. */
  lemma RoundTakes(rows: seq<Row>, level: nat)
    requires |Rounds(StrataOf(rows, Keys(rows)), level)| < |rows|
    ensures Heads(StrataOf(rows, Keys(rows)), level, |Keys(rows)|) != []
  {
    var keys := Keys(rows);
    var s := StrataOf(rows, keys);
    if Heads(s, level, |s|) == [] {
      HeadsEmpty(s, level, |s|);
      RoundsSize(s, level);
      KeysCover(rows, |rows|);
      KeysDistinct(rows, |rows|);
      StrataHoldAll(rows, keys);
      var more := if level <= |rows| then |rows| else level;
      FullSize(s, level, more, |s|);
      forall i | 0 <= i < |s| ensures |s[i]| <= |rows| {
        MembersSize(rows, keys[i], |rows|);
      }
      FullSize(s, |rows|, more, |s|);
    }
  }

  /** As long as fewer than `total` rows are taken, the next round takes some. */
  ghost predicate Supplies(s: seq<seq<Row>>, total: nat) {
    forall level: nat :: |Rounds(s, level)| < total ==> Heads(s, level, |s|) != []
  }

  lemma StrataSupply(rows: seq<Row>)
    ensures Supplies(StrataOf(rows, Keys(rows)), |rows|) && Distinct(Keys(rows))
  {
    KeysDistinct(rows, |rows|);
    forall level: nat | |Rounds(StrataOf(rows, Keys(rows)), level)| < |rows|
      ensures Heads(StrataOf(rows, Keys(rows)), level, |Keys(rows)|) != []
    {
      RoundTakes(rows, level);
    }
  }

  /** The sampling loop, for a target below the number of rows. */
  method FillSample(keys: seq<seq<string>>, ghost s: seq<seq<Row>>, ghost total: nat,
                    strata0: map<seq<string>, seq<Row>>, target: nat)
    returns (sample: seq<Row>)
    requires Supplies(s, total) && (target == 0 || target < total) && Distinct(keys) && BucketsAt(keys, s, strata0, 0)
    ensures |sample| == target && IsRoundRobin(s, sample)
  {
    ghost var level: nat := 0;
    var strata := strata0;
    sample := [];
    while |sample| < target
      invariant sample == Rounds(s, level) && |sample| <= target
      invariant BucketsAt(keys, s, strata, level)
      decreases target - |sample|
    {
      ghost var j;
      assert Heads(s, level, |s|) != [];
      strata, sample, j := TakeRound(keys, s, strata, level, sample, target);
      if |sample| == target {
        Witness(s, level, j);
        return;
      }
      level := level + 1;
    }
    Witness(s, level, 0);
    assert Rounds(s, level) + [] == Rounds(s, level);
  }

  lemma Witness(s: seq<seq<Row>>, level: nat, j: nat)
    requires j <= |s|
    ensures IsRoundRobin(s, Rounds(s, level) + Heads(s, level, j))
  {
  }

  method StratifiedFailureSample(failures: seq<Row>, targetMin: int) returns (sample: seq<Row>, allSampled: bool)
    ensures allSampled <==> |failures| <= targetMin
    ensures allSampled ==> sample == Sort(failures, RowLeq)
    ensures !allSampled ==> |sample| == if targetMin < 0 then 0 else targetMin
    ensures !allSampled ==> IsRoundRobin(SortedStrata(failures), sample)
  {
    var ordered := Sort(failures, RowLeq);
    RowPreorder();
    SortSorts(failures, RowLeq);
    if |ordered| <= targetMin {
      return ordered, true;
    }
    var keys, strata := Group(ordered);
    GroupedBuckets(ordered, keys, strata);
    StrataSupply(ordered);
    sample := FillSample(keys, StrataOf(ordered, keys), |ordered|, strata, if targetMin < 0 then 0 else targetMin);
    allSampled := false;
  }

  /** The strata of the sorted failures. */
  function SortedStrata(failures: seq<Row>): seq<seq<Row>> {
    var ordered := Sort(failures, RowLeq);
    StrataOf(ordered, Keys(ordered))
  }

  // ----- fairness -----

  /** Each stratum holds only its own rows. */
  ghost predicate Separated(s: seq<seq<Row>>, keys: seq<seq<string>>) {
    && |s| == |keys| && Distinct(keys)
    && forall i, r :: 0 <= i < |s| && 0 <= r < |s[i]| ==> s[i][r].stratum == keys[i]
  }

  lemma {:induction false} MembersBelong(rows: seq<Row>, k: seq<string>, n: nat)
    requires n <= |rows|
    ensures forall r :: 0 <= r < |MembersTo(rows, k, n)| ==> MembersTo(rows, k, n)[r].stratum == k
  {
    if n > 0 {
      MembersBelong(rows, k, n - 1);
    }
  }

  lemma StrataSeparated(rows: seq<Row>)
    ensures Separated(StrataOf(rows, Keys(rows)), Keys(rows))
  {
    KeysDistinct(rows, |rows|);
    var s: seq<seq<Row>> := StrataOf(rows, Keys(rows));
    forall i: nat, r: nat | 0 <= i < |s| && 0 <= r < |s[i]| ensures s[i][r].stratum == Keys(rows)[i] {
      MembersBelong(rows, Keys(rows)[i], |rows|);
    }
  }

  lemma {:induction false} MembersPrefix(a: seq<Row>, b: seq<Row>, k: seq<string>, n: nat)
    requires n <= |a|
    ensures MembersTo(a + b, k, n) == MembersTo(a, k, n)
    decreases n
  {
    if n > 0 {
      MembersPrefix(a, b, k, n - 1);
    }
  }

  lemma {:induction false} MembersOnwards(a: seq<Row>, b: seq<Row>, k: seq<string>, n: nat)
    requires n <= |b|
    ensures MembersTo(a + b, k, |a| + n) == MembersTo(a, k, |a|) + MembersTo(b, k, n)
    decreases n
  {
    if n == 0 {
      MembersPrefix(a, b, k, |a|);
    } else {
      MembersOnwards(a, b, k, n - 1);
    }
  }

  lemma MembersConcat(a: seq<Row>, b: seq<Row>, k: seq<string>)
    ensures Members(a + b, k) == Members(a, k) + Members(b, k)
  {
    MembersOnwards(a, b, k, |b|);
  }

  /** Of the rows at `level` only that of stratum number `i` belongs to `k`. */
  ghost predicate HeadAt(s: seq<seq<Row>>, level: nat, k: seq<string>, i: int, j: int) {
    0 <= j < |s| ==> Members(Head(s[j], level), k) == if j == i then Head(s[j], level) else []
  }

  ghost predicate HeadsAt(s: seq<seq<Row>>, level: nat, k: seq<string>, i: int) {
    forall j :: HeadAt(s, level, k, i, j)
  }

  /** `k` is the stratum at position `i`, or none of them when there is no such position. */
  ghost predicate Position(keys: seq<seq<string>>, k: seq<string>, i: int) {
    forall j :: 0 <= j < |keys| ==> (keys[j] == k <==> j == i)
  }

  lemma OneHead(s: seq<seq<Row>>, keys: seq<seq<string>>, level: nat, k: seq<string>, i: int, j: int)
    requires Separated(s, keys) && Position(keys, k, i)
    ensures HeadAt(s, level, k, i, j)
  {
    if 0 <= j < |s| && level < |s[j]| {
      MembersOne(s[j][level], k);
      assert s[j][level].stratum == keys[j];
    }
  }

  lemma MembersOne(row: Row, k: seq<string>)
    ensures Members([row], k) == if row.stratum == k then [row] else []
  {
    assert MembersTo([row], k, 0) == [];
  }

  lemma EveryHead(s: seq<seq<Row>>, keys: seq<seq<string>>, level: nat, k: seq<string>, i: int)
    requires Separated(s, keys) && Position(keys, k, i)
    ensures HeadsAt(s, level, k, i)
  {
    forall j ensures HeadAt(s, level, k, i, j) {
      OneHead(s, keys, level, k, i, j);
    }
  }

  function Chained(parts: seq<seq<Row>>, j: nat): seq<Row>
    requires j <= |parts|
  {
    if j == 0 then [] else Chained(parts, j - 1) + parts[j - 1]
  }

  ghost predicate OnlyPart(parts: seq<seq<Row>>, i: int) {
    forall m :: 0 <= m < |parts| && m != i ==> parts[m] == []
  }

  lemma {:induction false} ChainedNone(parts: seq<seq<Row>>, i: int, j: nat)
    requires j <= |parts| && OnlyPart(parts, i) && !(0 <= i < j)
    ensures Chained(parts, j) == []
    decreases j
  {
    if j > 0 {
      ChainedNone(parts, i, j - 1);
    }
  }

  lemma {:induction false} ChainedOne(parts: seq<seq<Row>>, i: nat, j: nat)
    requires i < j <= |parts| && OnlyPart(parts, i)
    ensures Chained(parts, j) == parts[i]
    decreases j
  {
    if i == j - 1 {
      ChainedNone(parts, i, i);
    } else {
      ChainedOne(parts, i, j - 1);
    }
  }

  /** What a round takes of `k`, bucket by bucket. */
  function Parts(s: seq<seq<Row>>, level: nat, k: seq<string>, n: nat): (parts: seq<seq<Row>>)
    requires n <= |s|
    ensures |parts| == n && forall m :: 0 <= m < n ==> parts[m] == Members(Head(s[m], level), k)
  {
    if n == 0 then [] else Parts(s, level, k, n - 1) + [Members(Head(s[n - 1], level), k)]
  }

  lemma {:induction false} HeadsAreChained(s: seq<seq<Row>>, level: nat, k: seq<string>, parts: seq<seq<Row>>, j: nat)
    requires j <= |s| && parts == Parts(s, level, k, |s|)
    ensures Members(Heads(s, level, j), k) == Chained(parts, j)
    decreases j
  {
    if j > 0 {
      HeadsAreChained(s, level, k, parts, j - 1);
      HeadsSplit(s, level, k, j);
    }
  }

  lemma PartsAt(s: seq<seq<Row>>, level: nat, k: seq<string>, i: int)
    requires HeadsAt(s, level, k, i)
    ensures OnlyPart(Parts(s, level, k, |s|), i)
    ensures 0 <= i < |s| ==> Parts(s, level, k, |s|)[i] == Head(s[i], level)
  {
    assert HeadAt(s, level, k, i, i);
    forall m | 0 <= m < |s| && m != i ensures Parts(s, level, k, |s|)[m] == [] {
      assert HeadAt(s, level, k, i, m);
    }
  }

  /** A round takes at most one row of a stratum, the next one. */
  lemma HeadsOf(s: seq<seq<Row>>, level: nat, k: seq<string>, i: int, j: nat)
    requires j <= |s| && HeadsAt(s, level, k, i)
    ensures Members(Heads(s, level, j), k) == if 0 <= i < j then Head(s[i], level) else []
  {
    var parts := Parts(s, level, k, |s|);
    HeadsAreChained(s, level, k, parts, j);
    PartsAt(s, level, k, i);
    if 0 <= i < j {
      ChainedOne(parts, i, j);
    } else {
      ChainedNone(parts, i, j);
    }
  }

  lemma HeadsSplit(s: seq<seq<Row>>, level: nat, k: seq<string>, j: nat)
    requires 0 < j <= |s|
    ensures Members(Heads(s, level, j), k) == Members(Heads(s, level, j - 1), k) + Members(Head(s[j - 1], level), k)
  {
    MembersConcat(Heads(s, level, j - 1), Head(s[j - 1], level), k);
  }

  lemma NextRow(x: seq<Row>, level: nat, more: bool)
    ensures x[..Min(|x|, level)] + (if more then Head(x, level) else [])
         == x[..Min(|x|, if more then level + 1 else level)]
  {
  }

  /** The first rows of the stratum at position `i`; none when there is no such position. */
  function FirstOf(s: seq<seq<Row>>, i: int, level: nat): seq<Row> {
    if 0 <= i < |s| then s[i][..Min(|s[i]|, level)] else []
  }

  lemma FirstOfNext(s: seq<seq<Row>>, i: int, level: nat, j: nat)
    requires j <= |s|
    ensures FirstOf(s, i, level) + (if 0 <= i < j then Head(s[i], level) else [])
         == FirstOf(s, i, if i < j then level + 1 else level)
  {
    if 0 <= i < |s| {
      NextRow(s[i], level, i < j);
    } else {
      assert FirstOf(s, i, level) == FirstOf(s, i, level + 1) == [];
    }
  }

  lemma {:induction false} RoundsOf(s: seq<seq<Row>>, keys: seq<seq<string>>, level: nat, k: seq<string>, i: int)
    requires Separated(s, keys) && Position(keys, k, i)
    ensures Members(Rounds(s, level), k) == FirstOf(s, i, level)
    decreases level
  {
    if level == 0 {
      assert FirstOf(s, i, 0) == [];
    } else {
      RoundsOf(s, keys, level - 1, k, i);
      EveryHead(s, keys, level - 1, k, i);
      OneMoreRound(s, level - 1, k, i);
    }
  }

  lemma OneMoreRound(s: seq<seq<Row>>, level: nat, k: seq<string>, i: int)
    requires HeadsAt(s, level, k, i) && Members(Rounds(s, level), k) == FirstOf(s, i, level)
    ensures Members(Rounds(s, level + 1), k) == FirstOf(s, i, level + 1)
  {
    RoundGives(s, level, k, i);
    RoundsSplit(s, level + 1, k);
  }

  /** What one round adds to the first rows of a stratum. */
  lemma RoundGives(s: seq<seq<Row>>, level: nat, k: seq<string>, i: int)
    requires HeadsAt(s, level, k, i)
    ensures FirstOf(s, i, level) + Members(Heads(s, level, |s|), k) == FirstOf(s, i, level + 1)
  {
    HeadsOf(s, level, k, i, |s|);
    if 0 <= i < |s| {
      NextRow(s[i], level, true);
    }
  }

  lemma RoundsSplit(s: seq<seq<Row>>, level: nat, k: seq<string>)
    requires level > 0
    ensures Members(Rounds(s, level), k) == Members(Rounds(s, level - 1), k) + Members(Heads(s, level - 1, |s|), k)
  {
    MembersConcat(Rounds(s, level - 1), Heads(s, level - 1, |s|), k);
  }

  /** How many rows the stratum at position `i` contributes. */
  function Quota(size: nat, level: nat, j: nat, i: nat): nat {
    Min(size, if i < j then level + 1 else level)
  }

  lemma Contribution(s: seq<seq<Row>>, keys: seq<seq<string>>, level: nat, j: nat, k: seq<string>, i: int)
    requires Separated(s, keys) && j <= |s| && Position(keys, k, i)
    ensures Members(Rounds(s, level) + Heads(s, level, j), k) == FirstOf(s, i, if i < j then level + 1 else level)
  {
    RoundsOf(s, keys, level, k, i);
    EveryHead(s, keys, level, k, i);
    HeadsOf(s, level, k, i, j);
    MembersConcat(Rounds(s, level), Heads(s, level, j), k);
    FirstOfNext(s, i, level, j);
  }

  /** There is a level such that every stratum contributes its first `level` rows, or as many as it has, and
      the first strata one more. */
  lemma SampleIsFair(failures: seq<Row>, sample: seq<Row>) returns (level: nat, j: nat)
    requires IsRoundRobin(SortedStrata(failures), sample)
    ensures var keys, s := Keys(Sort(failures, RowLeq)), SortedStrata(failures);
            forall i :: 0 <= i < |s| ==> Members(sample, keys[i]) == s[i][..Quota(|s[i]|, level, j, i)]
  {
    var ordered := Sort(failures, RowLeq);
    var keys, s := Keys(ordered), SortedStrata(failures);
    StrataSeparated(ordered);
    level, j :| j <= |s| && sample == Rounds(s, level) + Heads(s, level, j);
    forall i | 0 <= i < |s| ensures Members(sample, keys[i]) == s[i][..Quota(|s[i]|, level, j, i)] {
      Contribution(s, keys, level, j, keys[i], i);
    }
  }

  /** Two strata differ by more than one row only when the one with fewer is used up. */
  lemma SampleIsEven(failures: seq<Row>, sample: seq<Row>, a: nat, b: nat)
    requires IsRoundRobin(SortedStrata(failures), sample)
    requires a < |SortedStrata(failures)| && b < |SortedStrata(failures)|
    requires var keys := Keys(Sort(failures, RowLeq)); |Members(sample, keys[a])| + 1 < |Members(sample, keys[b])|
    ensures Members(sample, Keys(Sort(failures, RowLeq))[a]) == SortedStrata(failures)[a]
  {
    var level, j := SampleIsFair(failures, sample);
  }

  lemma {:induction false} MembersCount(rows: seq<Row>, r: Row, n: nat)
    requires n <= |rows|
    ensures multiset(MembersTo(rows, r.stratum, n))[r] == multiset(rows[..n])[r]
  {
    if n > 0 {
      MembersCount(rows, r, n - 1);
      PrefixMultiset(rows, n);
    }
  }

  lemma PrefixMultiset(rows: seq<Row>, n: nat)
    requires 0 < n <= |rows|
    ensures multiset(rows[..n]) == multiset(rows[..n - 1]) + multiset{rows[n - 1]}
  {
    assert rows[..n] == rows[..n - 1] + [rows[n - 1]];
  }

  lemma MembersCountAll(rows: seq<Row>, r: Row)
    ensures multiset(Members(rows, r.stratum))[r] == multiset(rows)[r]
  {
    MembersCount(rows, r, |rows|);
    assert rows[..|rows|] == rows;
  }

  /** The sample is drawn from the failures without repetition, and only from their strata. */
  lemma SampleIsDrawn(failures: seq<Row>, sample: seq<Row>)
    requires IsRoundRobin(SortedStrata(failures), sample)
    ensures multiset(sample) <= multiset(failures)
  {
    var ordered := Sort(failures, RowLeq);
    var keys, s := Keys(ordered), SortedStrata(failures);
    var level, j := SampleIsFair(failures, sample);
    RowPreorder();
    SortSorts(failures, RowLeq);
    forall r ensures multiset(sample)[r] <= multiset(ordered)[r] {
      MembersCountAll(sample, r);
      MembersCountAll(ordered, r);
      if r.stratum in keys {
        var i :| 0 <= i < |keys| && keys[i] == r.stratum;
        PrefixCount(s[i], Quota(|s[i]|, level, j, i), r);
      } else {
        SampleStrata(failures, sample, r.stratum);
      }
    }
    assert multiset(sample) <= multiset(ordered);
  }

  lemma PrefixCount(x: seq<Row>, n: nat, r: Row)
    requires n <= |x|
    ensures multiset(x[..n])[r] <= multiset(x)[r]
  {
    assert x == x[..n] + x[n..];
  }

  lemma SampleStrata(failures: seq<Row>, sample: seq<Row>, k: seq<string>)
    requires IsRoundRobin(SortedStrata(failures), sample) && k !in Keys(Sort(failures, RowLeq))
    ensures Members(sample, k) == []
  {
    var ordered := Sort(failures, RowLeq);
    var keys, s := Keys(ordered), SortedStrata(failures);
    StrataSeparated(ordered);
    var level: nat, j: nat :| j <= |s| && sample == Rounds(s, level) + Heads(s, level, j);
    Contribution(s, keys, level, j, k, |s|);
  }
}
