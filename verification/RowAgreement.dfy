/** When the runner's counter and the analysis' counter of changed decisions agree. */
module RowAgreement {
  import opened Prelude
  import opened GateD

  datatype NumberType = Integers | Floats

  /** Every number in the value has this JSON type, and there is no boolean. */
  predicate Numbers(v: Value, t: NumberType) {
    match v
    case Bool(_) => false
    case Int(_) => t.Integers?
    case Float(_) => t.Floats?
    case List(a) => forall k :: 0 <= k < |a| ==> Numbers(a[k], t)
    case Dict(a) => forall k :: k in a ==> Numbers(a[k], t)
    case _ => true
  }

  function TypeOf(field: string): NumberType {
    if field == "final_score" then Floats else Integers
  }

  /** A retrieved or excluded item as the runner writes it: an id and the viewed fields, beside any others. */
  predicate RegularItem(item: Value, fields: seq<string>) {
    && item.Dict? && "memory_id" in item.entries && item.entries["memory_id"].Str?
    && forall f :: f in fields ==> f in item.entries && Numbers(item.entries[f], TypeOf(f))
  }

  predicate RegularList(row: Row, field: string, fields: seq<string>) {
    && field in row && row[field].List?
    && forall k :: 0 <= k < |row[field].items| ==> RegularItem(row[field].items[k], fields)
  }

  const SELECTED := ["final_score", "reason"]
  const EXCLUDED := ["reason"]
  const PLAIN := ["intent", "strategy", "evidence_policy", "budget_tokens"]

  predicate Regular(row: Row) {
    && RegularList(row, "packed_items", SELECTED) && RegularList(row, "exclusions", EXCLUDED)
    && "packing_bound" in row && row["packing_bound"].Bool?
    && forall f :: f in PLAIN ==> Numbers(Get(row, f), TypeOf(f))
  }

  // ----- what the runner does not look at -----

  const UNSEEN := {"total_tokens", "content_tokens", "prompt_overhead_tokens", "total_input_tokens_estimate",
                   "candidate_count", "exclusion_count", "source_failures"}

  function Unseen(item: Value, fields: seq<string>): map<string, Value>
    requires item.Dict?
  {
    map f | f in item.entries && f != "memory_id" && f !in fields :: item.entries[f]
  }

  /** As many items, and some item differs outside the viewed fields. */
  predicate UnseenItems(base: Row, arm: Row, field: string, fields: seq<string>)
    requires RegularList(base, field, fields) && RegularList(arm, field, fields)
  {
    && |base[field].items| == |arm[field].items|
    && exists k :: 0 <= k < |base[field].items| && Unseen(base[field].items[k], fields) != Unseen(arm[field].items[k], fields)
  }

  predicate UnseenDelta(base: Row, arm: Row)
    requires Regular(base) && Regular(arm)
  {
    || (exists field | field in UNSEEN :: Get(base, field) != Get(arm, field))
    || UnseenItems(base, arm, "packed_items", SELECTED) || UnseenItems(base, arm, "exclusions", EXCLUDED)
  }

  // ----- values -----

  /** With one type of numbers Python's equality is identity. */
  lemma {:induction false} NumbersEqual(v: Value, w: Value, t: NumberType)
    requires Numbers(v, t) && Numbers(w, t)
    ensures PyEqual(v, w) <==> v == w
    decreases v
  {
    match (v, w)
    case (List(a), List(b)) =>
      if |a| == |b| {
        forall k | 0 <= k < |a| ensures PyEqual(a[k], b[k]) <==> a[k] == b[k] {
          NumbersEqual(a[k], b[k], t);
        }
      }
    case (Dict(a), Dict(b)) =>
      if a.Keys == b.Keys {
        forall k | k in a ensures PyEqual(a[k], b[k]) <==> a[k] == b[k] {
          NumbersEqual(a[k], b[k], t);
        }
      }
    case _ =>
  }

  /** Python's `str` of a string. */
  ghost predicate RendersStrings(render: Value -> string) {
    forall s :: render(Str(s)) == s
  }

  ghost predicate SameViewed(a: Value, b: Value, fields: seq<string>)
    requires a.Dict? && b.Dict?
  {
    && Get(a.entries, "memory_id") == Get(b.entries, "memory_id")
    && forall f :: f in fields ==> Get(a.entries, f) == Get(b.entries, f)
  }

  predicate Pairwise<T>(v: seq<T>, w: seq<T>, same: (T, T) -> bool) {
    |v| == |w| && forall k :: 0 <= k < |v| ==> same(v[k], w[k])
  }

  lemma PairwiseConcat<T>(a: seq<T>, b: seq<T>, c: seq<T>, d: seq<T>, same: (T, T) -> bool)
    requires |a| == |c|
    ensures Pairwise(a + b, c + d, same) <==> Pairwise(a, c, same) && Pairwise(b, d, same)
  {
    var v, w := a + b, c + d;
    if Pairwise(v, w, same) {
      forall k | 0 <= k < |a| ensures same(a[k], c[k]) {
        assert same(v[k], w[k]);
      }
      forall k | 0 <= k < |b| ensures same(b[k], d[k]) {
        assert same(v[|a| + k], w[|a| + k]);
      }
    }
  }

  lemma PairwiseOne<T>(v: seq<T>, w: seq<T>, same: (T, T) -> bool)
    requires |v| == |w| == 1
    ensures Pairwise(v, w, same) <==> same(v[0], w[0])
  {
  }

  lemma PairwiseThree<T>(v: seq<T>, w: seq<T>, same: (T, T) -> bool)
    requires |v| == |w| == 3
    ensures Pairwise(v, w, same) <==> same(v[0], w[0]) && same(v[1], w[1]) && same(v[2], w[2])
  {
  }

  lemma PairwiseGotten(a: Row, b: Row, fields: seq<string>, same: (Value, Value) -> bool)
    ensures Pairwise(Gotten(a, fields), Gotten(b, fields), same) <==> forall f :: f in fields ==> same(Get(a, f), Get(b, f))
  {
    if Pairwise(Gotten(a, fields), Gotten(b, fields), same) {
      forall f | f in fields ensures same(Get(a, f), Get(b, f)) {
        var k :| 0 <= k < |fields| && fields[k] == f;
        assert same(Gotten(a, fields)[k], Gotten(b, fields)[k]);
      }
    }
  }

  lemma FieldsSame(a: Row, b: Row, fields: seq<string>)
    requires forall f :: f in fields ==> Numbers(Get(a, f), TypeOf(f)) && Numbers(Get(b, f), TypeOf(f))
    ensures (forall f :: f in fields ==> PyEqual(Get(a, f), Get(b, f))) <==> forall f :: f in fields ==> Get(a, f) == Get(b, f)
  {
    forall f | f in fields ensures PyEqual(Get(a, f), Get(b, f)) <==> Get(a, f) == Get(b, f) {
      NumbersEqual(Get(a, f), Get(b, f), TypeOf(f));
    }
  }

  lemma ListIsPairwise(v: seq<Value>, w: seq<Value>)
    ensures PyEqual(List(v), List(w)) <==> Pairwise(v, w, PyEqual)
  {
  }

  lemma ItemViewsSame(a: Value, b: Value, fields: seq<string>, render: Value -> string)
    requires RegularItem(a, fields) && RegularItem(b, fields) && RendersStrings(render)
    ensures ItemView(a, fields, render).Some? && ItemView(b, fields, render).Some?
    ensures PyEqual(ItemView(a, fields, render).value, ItemView(b, fields, render).value) <==> SameViewed(a, b, fields)
  {
    var v, w := [a.entries["memory_id"]], [b.entries["memory_id"]];
    ListIsPairwise(v + Gotten(a.entries, fields), w + Gotten(b.entries, fields));
    PairwiseConcat(v, Gotten(a.entries, fields), w, Gotten(b.entries, fields), PyEqual);
    PairwiseGotten(a.entries, b.entries, fields, PyEqual);
    FieldsSame(a.entries, b.entries, fields);
    PairwiseOne(v, w, PyEqual);
    assert ItemView(a, fields, render).value == List(v + Gotten(a.entries, fields));
    assert ItemView(b, fields, render).value == List(w + Gotten(b.entries, fields));
  }

  lemma SameItem(a: Value, b: Value, fields: seq<string>)
    requires RegularItem(a, fields) && RegularItem(b, fields)
    ensures a == b <==> SameViewed(a, b, fields) && Unseen(a, fields) == Unseen(b, fields)
  {
    if SameViewed(a, b, fields) && Unseen(a, fields) == Unseen(b, fields) {
      forall f | f in a.entries ensures f in b.entries && b.entries[f] == a.entries[f] {
        SameField(a, b, fields, f);
      }
      forall f | f in b.entries ensures f in a.entries {
        SameField(b, a, fields, f);
      }
      assert a.entries == b.entries;
    }
  }

  lemma SameField(a: Value, b: Value, fields: seq<string>, f: string)
    requires RegularItem(a, fields) && RegularItem(b, fields) && f in a.entries
    requires SameViewed(a, b, fields) && Unseen(a, fields) == Unseen(b, fields)
    ensures f in b.entries && b.entries[f] == a.entries[f]
  {
    if f in fields {
      assert Get(a.entries, f) == Get(b.entries, f);
    } else if f != "memory_id" {
      assert f in Unseen(a, fields);
      assert f in Unseen(b, fields) && Unseen(b, fields)[f] == Unseen(a, fields)[f];
    }
  }

  // ----- lists of items -----

  lemma {:induction false} ViewsOfItems(items: seq<Value>, fields: seq<string>, render: Value -> string)
    requires forall k :: 0 <= k < |items| ==> RegularItem(items[k], fields)
    ensures ItemViews(items, fields, render).Some? && |ItemViews(items, fields, render).value| == |items|
    ensures forall k :: 0 <= k < |items| ==> Some(ItemViews(items, fields, render).value[k]) == ItemView(items[k], fields, render)
  {
    if items != [] {
      assert RegularItem(items[0], fields);
      ViewsOfItems(items[1..], fields, render);
    }
  }

  lemma ListsSame(base: Row, arm: Row, field: string, fields: seq<string>, render: Value -> string)
    requires RegularList(base, field, fields) && RegularList(arm, field, fields) && RendersStrings(render)
    ensures Listed(base, field, fields, render).Some? && Listed(arm, field, fields, render).Some?
    ensures base[field] == arm[field]
       <==> PyEqual(List(Listed(base, field, fields, render).value), List(Listed(arm, field, fields, render).value))
            && !UnseenItems(base, arm, field, fields)
  {
    var a, b := base[field].items, arm[field].items;
    ViewsOfItems(a, fields, render);
    ViewsOfItems(b, fields, render);
    var v, w := ItemViews(a, fields, render).value, ItemViews(b, fields, render).value;
    ListIsPairwise(v, w);
    if |a| == |b| {
      forall k | 0 <= k < |a| ensures ItemAgrees(a[k], b[k], v[k], w[k], fields) {
        ItemViewsSame(a[k], b[k], fields, render);
        SameItem(a[k], b[k], fields);
      }
      ListAgrees(a, b, v, w, fields);
    }
  }

  /** Two items are the same exactly when their views and the rest of them are. */
  ghost predicate ItemAgrees(a: Value, b: Value, v: Value, w: Value, fields: seq<string>) {
    && RegularItem(a, fields) && RegularItem(b, fields)
    && (a == b <==> PyEqual(v, w) && Unseen(a, fields) == Unseen(b, fields))
  }

  lemma ListAgrees(a: seq<Value>, b: seq<Value>, v: seq<Value>, w: seq<Value>, fields: seq<string>)
    requires |a| == |b| == |v| == |w| && forall k :: 0 <= k < |a| ==> a[k].Dict? && b[k].Dict?
    requires forall k :: 0 <= k < |a| ==> ItemAgrees(a[k], b[k], v[k], w[k], fields)
    ensures a == b
       <==> Pairwise(v, w, PyEqual) && forall k :: 0 <= k < |a| ==> Unseen(a[k], fields) == Unseen(b[k], fields)
  {
    if Pairwise(v, w, PyEqual) && forall k :: 0 <= k < |a| ==> Unseen(a[k], fields) == Unseen(b[k], fields) {
      forall k | 0 <= k < |a| ensures a[k] == b[k] {
        assert ItemAgrees(a[k], b[k], v[k], w[k], fields);
      }
    }
  }

  // ----- one row -----

  lemma SeenFields(base: Row, arm: Row)
    ensures AnalysisDelta(base, arm)
       <==> (exists field | field in UNSEEN :: Get(base, field) != Get(arm, field))
            || (exists f | f in PLAIN :: Get(base, f) != Get(arm, f))
            || Get(base, "packing_bound") != Get(arm, "packing_bound")
            || Get(base, "packed_items") != Get(arm, "packed_items") || Get(base, "exclusions") != Get(arm, "exclusions")
  {
    assert FINGERPRINT == UNSEEN + {"intent", "strategy", "evidence_policy", "budget_tokens"}
                          + {"packing_bound", "packed_items", "exclusions"};
    forall field | field in FINGERPRINT
      ensures field in UNSEEN || field in PLAIN || field in {"packing_bound", "packed_items", "exclusions"}
    {
      assert PLAIN[0] == "intent" && PLAIN[1] == "strategy" && PLAIN[2] == "evidence_policy" && PLAIN[3] == "budget_tokens";
    }
  }

  function Seven(row: Row, selected: Value, exclusions: Value): seq<Value> {
    Gotten(row, PLAIN) + [Bool(Truthy(Get(row, "packing_bound"))), selected, exclusions]
  }

  lemma ViewIsSeven(row: Row, render: Value -> string)
    requires View(row, render).Some?
    ensures View(row, render).value == Seven(row, List(Listed(row, "packed_items", SELECTED, render).value),
                                             List(Listed(row, "exclusions", EXCLUDED, render).value))
  {
  }

  lemma SevenSame(base: Row, arm: Row, p: Value, q: Value, x: Value, y: Value, same: (Value, Value) -> bool)
    ensures Pairwise(Seven(base, p, x), Seven(arm, q, y), same)
       <==> (forall f :: f in PLAIN ==> same(Get(base, f), Get(arm, f)))
            && same(Bool(Truthy(Get(base, "packing_bound"))), Bool(Truthy(Get(arm, "packing_bound"))))
            && same(p, q) && same(x, y)
  {
    var v, w := [Bool(Truthy(Get(base, "packing_bound"))), p, x], [Bool(Truthy(Get(arm, "packing_bound"))), q, y];
    PairwiseConcat(Gotten(base, PLAIN), v, Gotten(arm, PLAIN), w, same);
    PairwiseGotten(base, arm, PLAIN, same);
    PairwiseThree(v, w, same);
  }

  lemma BoundSame(v: Value, w: Value)
    requires v.Bool? && w.Bool?
    ensures PyEqual(Bool(Truthy(v)), Bool(Truthy(w))) <==> v == w
  {
  }

  lemma SameViewIsPairwise(v: seq<Value>, w: seq<Value>)
    ensures SameView(v, w) <==> Pairwise(v, w, PyEqual)
  {
  }

  /** Among the fields that both look at, the runner sees the same differences. */
  lemma ViewsSame(base: Row, arm: Row, p: Value, q: Value, x: Value, y: Value)
    requires forall f :: f in PLAIN ==> Numbers(Get(base, f), TypeOf(f)) && Numbers(Get(arm, f), TypeOf(f))
    requires Get(base, "packing_bound").Bool? && Get(arm, "packing_bound").Bool?
    ensures SameView(Seven(base, p, x), Seven(arm, q, y))
       <==> (forall f :: f in PLAIN ==> Get(base, f) == Get(arm, f))
            && Get(base, "packing_bound") == Get(arm, "packing_bound") && PyEqual(p, q) && PyEqual(x, y)
  {
    SameViewIsPairwise(Seven(base, p, x), Seven(arm, q, y));
    SevenSame(base, arm, p, q, x, y, PyEqual);
    FieldsSame(base, arm, PLAIN);
    BoundSame(Get(base, "packing_bound"), Get(arm, "packing_bound"));
  }

  /** The runner counts a row exactly when a field differs that both look at, numbers compared by amount. */
  lemma RunnerSees(base: Row, arm: Row, render: Value -> string)
    requires Regular(base) && Regular(arm) && RendersStrings(render)
    ensures Listed(base, "packed_items", SELECTED, render).Some? && Listed(arm, "packed_items", SELECTED, render).Some?
    ensures Listed(base, "exclusions", EXCLUDED, render).Some? && Listed(arm, "exclusions", EXCLUDED, render).Some?
    ensures RunnerDelta(base, arm, render).Some?
    ensures RunnerDelta(base, arm, render) == Some(false)
       <==> (forall f :: f in PLAIN ==> Get(base, f) == Get(arm, f))
            && Get(base, "packing_bound") == Get(arm, "packing_bound")
            && PyEqual(List(Listed(base, "packed_items", SELECTED, render).value),
                       List(Listed(arm, "packed_items", SELECTED, render).value))
            && PyEqual(List(Listed(base, "exclusions", EXCLUDED, render).value),
                       List(Listed(arm, "exclusions", EXCLUDED, render).value))
  {
    ListsSame(base, arm, "packed_items", SELECTED, render);
    ListsSame(base, arm, "exclusions", EXCLUDED, render);
    ViewIsSeven(base, render);
    ViewIsSeven(arm, render);
    ViewsSame(base, arm, List(Listed(base, "packed_items", SELECTED, render).value),
              List(Listed(arm, "packed_items", SELECTED, render).value),
              List(Listed(base, "exclusions", EXCLUDED, render).value),
              List(Listed(arm, "exclusions", EXCLUDED, render).value));
  }

  /** On the rows that the runner writes the analysis counts a question exactly when the runner counts it or something
      has changed that the runner does not look at. */
  lemma AnalysisIffRunnerOrUnseen(base: Row, arm: Row, render: Value -> string)
    requires Regular(base) && Regular(arm) && RendersStrings(render)
    ensures RunnerDelta(base, arm, render).Some?
    ensures AnalysisDelta(base, arm) <==> RunnerDelta(base, arm, render) == Some(true) || UnseenDelta(base, arm)
  {
    SeenFields(base, arm);
    ListsSame(base, arm, "packed_items", SELECTED, render);
    ListsSame(base, arm, "exclusions", EXCLUDED, render);
    RunnerSees(base, arm, render);
  }

  // ----- counting -----

  ghost predicate AllRegular(arm: Arm, base: map<string, Row>)
    requires Ordered(arm)
  {
    forall id :: id in arm.ids && id in base ==> Regular(base[id]) && Regular(arm.rows[id])
  }

  /** A change only where the runner does not look. */
  ghost predicate OnlyUnseen(base: Row, arm: Row, render: Value -> string) {
    Regular(base) && Regular(arm) && UnseenDelta(base, arm) && RunnerDelta(base, arm, render) == Some(false)
  }

  ghost predicate Agree(base: Row, arm: Row, render: Value -> string) {
    RunnerDelta(base, arm, render) == Some(AnalysisDelta(base, arm))
  }

  lemma AgreeIffSeen(base: Row, arm: Row, render: Value -> string)
    requires Regular(base) && Regular(arm) && RendersStrings(render)
    ensures RunnerDelta(base, arm, render).Some?
    ensures RunnerDelta(base, arm, render) == Some(true) ==> AnalysisDelta(base, arm)
    ensures Agree(base, arm, render) <==> !OnlyUnseen(base, arm, render)
  {
    AnalysisIffRunnerOrUnseen(base, arm, render);
  }

  /** The runner can compare the rows, and what it counts the analysis counts. */
  ghost predicate Comparable(base: Row, arm: Row, render: Value -> string) {
    RunnerDelta(base, arm, render).Some? && (RunnerDelta(base, arm, render) == Some(true) ==> AnalysisDelta(base, arm))
  }

  lemma RunnerNext(arm: Arm, base: map<string, Row>, n: nat, render: Value -> string, changed: bool)
    requires 0 < n <= |arm.ids| && Ordered(arm) && RunnerCount(arm, base, n - 1, render).Some?
    requires if arm.ids[n - 1] in base then RunnerDelta(base[arm.ids[n - 1]], arm.rows[arm.ids[n - 1]], render) == Some(changed)
             else !changed
    ensures RunnerCount(arm, base, n, render) == Some(RunnerCount(arm, base, n - 1, render).value + if changed then 1 else 0)
  {
  }

  lemma AnalysisNext(arm: Arm, base: map<string, Row>, n: nat, changed: bool)
    requires 0 < n <= |arm.ids| && Ordered(arm)
    requires if arm.ids[n - 1] in base then AnalysisDelta(base[arm.ids[n - 1]], arm.rows[arm.ids[n - 1]]) == changed
             else !changed
    ensures AnalysisCount(arm, base, n) == AnalysisCount(arm, base, n - 1) + if changed then 1 else 0
  {
  }

  /** The two counters treat the k-th question of the arm alike. */
  ghost predicate AgreeAt(arm: Arm, base: map<string, Row>, k: nat, render: Value -> string)
    requires k < |arm.ids| && Ordered(arm)
  {
    arm.ids[k] in base ==> Agree(base[arm.ids[k]], arm.rows[arm.ids[k]], render)
  }

  ghost predicate ComparableAt(arm: Arm, base: map<string, Row>, k: nat, render: Value -> string)
    requires k < |arm.ids| && Ordered(arm)
  {
    arm.ids[k] in base ==> Comparable(base[arm.ids[k]], arm.rows[arm.ids[k]], render)
  }

  /** One question more: the counts are the same when they were, and both or neither count it. */
  lemma CountNext(arm: Arm, base: map<string, Row>, n: nat, render: Value -> string)
    requires 0 < n <= |arm.ids| && Ordered(arm) && ComparableAt(arm, base, n - 1, render)
    requires RunnerCount(arm, base, n - 1, render).Some?
    requires RunnerCount(arm, base, n - 1, render).value <= AnalysisCount(arm, base, n - 1)
    ensures RunnerCount(arm, base, n, render).Some?
    ensures RunnerCount(arm, base, n, render).value <= AnalysisCount(arm, base, n)
    ensures RunnerCount(arm, base, n, render).value == AnalysisCount(arm, base, n)
       <==> RunnerCount(arm, base, n - 1, render).value == AnalysisCount(arm, base, n - 1) && AgreeAt(arm, base, n - 1, render)
  {
    var id := arm.ids[n - 1];
    if id in base {
      RunnerNext(arm, base, n, render, RunnerDelta(base[id], arm.rows[id], render).value);
      AnalysisNext(arm, base, n, AnalysisDelta(base[id], arm.rows[id]));
    } else {
      RunnerNext(arm, base, n, render, false);
      AnalysisNext(arm, base, n, false);
    }
  }

  /** The first `n` flags are all set. */
  predicate AllSet(flags: seq<bool>, n: nat)
    requires n <= |flags|
  {
    forall k :: 0 <= k < n ==> flags[k]
  }

  lemma {:induction false} CountsFollow(arm: Arm, base: map<string, Row>, n: nat, render: Value -> string, flags: seq<bool>)
    requires n <= |arm.ids| == |flags| && Ordered(arm)
    requires forall k :: 0 <= k < |flags| ==> ComparableAt(arm, base, k, render)
    requires forall k :: 0 <= k < |flags| ==> (AgreeAt(arm, base, k, render) <==> flags[k])
    ensures RunnerCount(arm, base, n, render).Some?
    ensures RunnerCount(arm, base, n, render).value <= AnalysisCount(arm, base, n)
    ensures RunnerCount(arm, base, n, render).value == AnalysisCount(arm, base, n) <==> AllSet(flags, n)
  {
    if n > 0 {
      CountsFollow(arm, base, n - 1, render, flags);
      CountNext(arm, base, n, render);
      assert AllSet(flags, n) <==> AllSet(flags, n - 1) && flags[n - 1];
    }
  }

  ghost predicate OnlyUnseenAt(arm: Arm, base: map<string, Row>, k: nat, render: Value -> string)
    requires k < |arm.ids| && Ordered(arm)
  {
    arm.ids[k] in base && OnlyUnseen(base[arm.ids[k]], arm.rows[arm.ids[k]], render)
  }

  lemma AgreeAtIffSeen(arm: Arm, base: map<string, Row>, k: nat, render: Value -> string)
    requires k < |arm.ids| && Ordered(arm) && AllRegular(arm, base) && RendersStrings(render)
    ensures ComparableAt(arm, base, k, render)
    ensures AgreeAt(arm, base, k, render) <==> !OnlyUnseenAt(arm, base, k, render)
  {
    var id := arm.ids[k];
    assert id in arm.ids;
    if id in base {
      AgreeIffSeen(base[id], arm.rows[id], render);
    }
  }

  ghost function Flags(arm: Arm, base: map<string, Row>, n: nat, render: Value -> string): (flags: seq<bool>)
    requires n <= |arm.ids| && Ordered(arm)
    ensures |flags| == n
  {
    if n == 0 then [] else Flags(arm, base, n - 1, render) + [!OnlyUnseenAt(arm, base, n - 1, render)]
  }

  lemma {:induction false} FlagAt(arm: Arm, base: map<string, Row>, n: nat, k: nat, render: Value -> string)
    requires k < n <= |arm.ids| && Ordered(arm)
    ensures Flags(arm, base, n, render)[k] == !OnlyUnseenAt(arm, base, k, render)
  {
    if k < n - 1 {
      FlagAt(arm, base, n - 1, k, render);
    }
  }

  lemma FlagsAre(arm: Arm, base: map<string, Row>, n: nat, render: Value -> string)
    requires n <= |arm.ids| && Ordered(arm)
    ensures forall k :: 0 <= k < n ==> Flags(arm, base, n, render)[k] == !OnlyUnseenAt(arm, base, k, render)
  {
    forall k | 0 <= k < n ensures Flags(arm, base, n, render)[k] == !OnlyUnseenAt(arm, base, k, render) {
      FlagAt(arm, base, n, k, render);
    }
  }

  /** On the rows that the runner writes both counts are the same exactly when no compared row has changed only where
      the runner does not look. */
  lemma CountsAgreeIff(arm: Arm, base: map<string, Row>, n: nat, render: Value -> string)
    requires n <= |arm.ids| && Ordered(arm) && AllRegular(arm, base) && RendersStrings(render)
    ensures RunnerCount(arm, base, n, render).Some?
    ensures RunnerCount(arm, base, n, render).value == AnalysisCount(arm, base, n)
       <==> forall k :: 0 <= k < n ==> !OnlyUnseenAt(arm, base, k, render)
  {
    var flags := Flags(arm, base, |arm.ids|, render);
    FlagsAre(arm, base, |arm.ids|, render);
    forall k | 0 <= k < |arm.ids|
      ensures ComparableAt(arm, base, k, render) && (AgreeAt(arm, base, k, render) <==> flags[k])
    {
      AgreeAtIffSeen(arm, base, k, render);
    }
    CountsFollow(arm, base, n, render, flags);
  }
}
