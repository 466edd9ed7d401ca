/** Two counters of changed retrieval decisions: the runner's `_arm_deltas` behind its Gate D, and the analysis'
    `decision_delta_count` behind `controlled_activation_issues`.  `render` is Python's `str` of a JSON value. */
module GateD {
  import opened Prelude

  /** A JSON value as Python holds it; no NaN. */
  datatype Value =
    | Null
    | Bool(b: bool)
    | Int(n: int)
    | Float(x: real)
    | Str(s: string)
    | List(items: seq<Value>)
    | Dict(entries: map<string, Value>)

  type Row = map<string, Value>

  /** An arm's rows by question, and the order in which they are visited. */
  datatype Arm = Arm(name: string, factor: string, ids: seq<string>, rows: map<string, Row>)

  const FACTORS := ["evidence_policy", "temporal_source", "graph_source", "routing", "weights", "budget"]

  /** The fields of the analysis' fingerprint. */
  const FINGERPRINT := {"intent", "strategy", "evidence_policy", "budget_tokens", "total_tokens", "content_tokens",
                        "prompt_overhead_tokens", "total_input_tokens_estimate", "packing_bound", "candidate_count",
                        "exclusion_count", "exclusions", "source_failures", "packed_items"}

  // ----- Python values -----

  predicate IsNumber(v: Value) {
    v.Bool? || v.Int? || v.Float?
  }

  function NumberOf(v: Value): real
    requires IsNumber(v)
  {
    match v
    case Bool(b) => if b then 1.0 else 0.0
    case Int(n) => n as real
    case Float(x) => x
  }

  /** Python's `==`: numbers and booleans compare by amount. */
  predicate PyEqual(v: Value, w: Value)
    decreases v
  {
    if IsNumber(v) && IsNumber(w) then NumberOf(v) == NumberOf(w)
    else
      match (v, w)
      case (Null, Null) => true
      case (Str(s), Str(t)) => s == t
      case (List(a), List(b)) => |a| == |b| && forall k :: 0 <= k < |a| ==> PyEqual(a[k], b[k])
      case (Dict(a), Dict(b)) => a.Keys == b.Keys && forall k :: k in a ==> PyEqual(a[k], b[k])
      case _ => false
  }

  lemma {:induction false} PyEqualReflexive(v: Value)
    ensures PyEqual(v, v)
    decreases v
  {
    match v
    case List(a) =>
      forall k | 0 <= k < |a| ensures PyEqual(a[k], a[k]) {
        PyEqualReflexive(a[k]);
      }
    case Dict(a) =>
      forall k | k in a ensures PyEqual(a[k], a[k]) {
        PyEqualReflexive(a[k]);
      }
    case _ =>
  }

  /** In Python `True == 1` and `False == 0`, whatever the type of the number. */
  lemma BooleansAreNumbers(n: int, x: real)
    ensures PyEqual(Bool(true), Int(n)) <==> n == 1
    ensures PyEqual(Bool(false), Int(n)) <==> n == 0
    ensures PyEqual(Bool(true), Float(x)) <==> x == 1.0
    ensures PyEqual(Bool(false), Float(x)) <==> x == 0.0
    ensures PyEqual(Int(n), Float(x)) <==> n as real == x
  {
  }

  datatype Kind = Nothing | Number | Word | Sequence | Mapping

  function KindOf(v: Value): Kind {
    match v
    case Null => Nothing
    case Bool(_) => Number
    case Int(_) => Number
    case Float(_) => Number
    case Str(_) => Word
    case List(_) => Sequence
    case Dict(_) => Mapping
  }

  /** Values of different kinds are never equal. */
  lemma KindsDiffer(v: Value, w: Value)
    requires KindOf(v) != KindOf(w)
    ensures !PyEqual(v, w)
  {
  }

  predicate Truthy(v: Value) {
    match v
    case Null => false
    case Bool(b) => b
    case Int(n) => n != 0
    case Float(x) => x != 0.0
    case Str(s) => s != ""
    case List(a) => a != []
    case Dict(a) => a != map[]
  }

  /** Falsy values are exactly those equal to the zero or the empty value of some kind. */
  lemma TruthyIff(v: Value)
    ensures !Truthy(v)
       <==> PyEqual(v, Null) || PyEqual(v, Int(0)) || PyEqual(v, Str("")) || PyEqual(v, List([])) || PyEqual(v, Dict(map[]))
  {
    if v.Dict? {
      assert v.entries == map[] <==> v.entries.Keys == {};
    }
  }

  /** `row.get(field)`. */
  function Get(row: Row, field: string): Value {
    if field in row then row[field] else Null
  }

  // ----- the runner's view of a row -----

  function Gotten(item: Row, fields: seq<string>): (r: seq<Value>)
    ensures |r| == |fields| && forall k :: 0 <= k < |r| ==> r[k] == Get(item, fields[k])
  {
    if fields == [] then [] else [Get(item, fields[0])] + Gotten(item, fields[1..])
  }

  function ItemView(item: Value, fields: seq<string>, render: Value -> string): Option<Value> {
    if item.Dict? && "memory_id" in item.entries then
      Some(List([Str(render(item.entries["memory_id"]))] + Gotten(item.entries, fields)))
    else None
  }

  function ItemViews(items: seq<Value>, fields: seq<string>, render: Value -> string): Option<seq<Value>> {
    if items == [] then Some([])
    else
      var head, rest := ItemView(items[0], fields, render), ItemViews(items[1..], fields, render);
      if head.Some? && rest.Some? then Some([head.value] + rest.value) else None
  }

  /** A comprehension over `row.get(field, [])`; None stands for the exception on anything but a list of items. */
  function Listed(row: Row, field: string, fields: seq<string>, render: Value -> string): Option<seq<Value>> {
    if field !in row || row[field] == Str("") || row[field] == Dict(map[]) then Some([])
    else if row[field].List? then ItemViews(row[field].items, fields, render)
    else None
  }

  /** `_row_fingerprint`. */
  function View(row: Row, render: Value -> string): Option<seq<Value>> {
    var selected := Listed(row, "packed_items", ["final_score", "reason"], render);
    var exclusions := Listed(row, "exclusions", ["reason"], render);
    if selected.None? || exclusions.None? then None
    else
      Some([Get(row, "intent"), Get(row, "strategy"), Get(row, "evidence_policy"), Get(row, "budget_tokens"),
            Bool(Truthy(Get(row, "packing_bound"))), List(selected.value), List(exclusions.value)])
  }

  predicate SameView(v: seq<Value>, w: seq<Value>) {
    |v| == |w| && forall k :: 0 <= k < |v| ==> PyEqual(v[k], w[k])
  }

  /** None when comparing raises. */
  function RunnerDelta(base: Row, arm: Row, render: Value -> string): Option<bool> {
    var v, w := View(base, render), View(arm, render);
    if v.None? || w.None? || "packing_bound" !in arm then None else Some(!SameView(v.value, w.value))
  }

  /** The canonical JSON of the fingerprint fields differs. */
  predicate AnalysisDelta(base: Row, arm: Row) {
    exists field | field in FINGERPRINT :: Get(base, field) != Get(arm, field)
  }

  // ----- one row -----

  /** A field that is absent and one that is null look alike to `get`, but not to a comprehension: there null raises. */
  lemma SameListed(a: Row, b: Row, field: string, fields: seq<string>, render: Value -> string)
    requires Get(a, field) == Get(b, field)
    requires Listed(a, field, fields, render).Some? && Listed(b, field, fields, render).Some?
    ensures Listed(a, field, fields, render) == Listed(b, field, fields, render)
  {
  }

  /** Whatever the runner counts as changed, the analysis counts. */
  lemma RunnerImpliesAnalysis(base: Row, arm: Row, render: Value -> string)
    requires RunnerDelta(base, arm, render) == Some(true)
    ensures AnalysisDelta(base, arm)
  {
    if !AnalysisDelta(base, arm) {
      assert forall field :: field in FINGERPRINT ==> Get(base, field) == Get(arm, field);
      SameListed(base, arm, "packed_items", ["final_score", "reason"], render);
      SameListed(base, arm, "exclusions", ["reason"], render);
      var v, w := View(base, render).value, View(arm, render).value;
      assert v == w;
      forall k | 0 <= k < |v| ensures PyEqual(v[k], w[k]) {
        PyEqualReflexive(v[k]);
      }
    }
  }

  /** The converse fails: the analysis also counts changes of token counts. */
  lemma AnalysisCountsMore(render: Value -> string)
    ensures var base: Row := map["packing_bound" := Bool(false), "total_tokens" := Int(1)];
            var arm: Row := map["packing_bound" := Bool(false), "total_tokens" := Int(2)];
            AnalysisDelta(base, arm) && RunnerDelta(base, arm, render) == Some(false)
  {
    var base: Row := map["packing_bound" := Bool(false), "total_tokens" := Int(1)];
    var arm: Row := map["packing_bound" := Bool(false), "total_tokens" := Int(2)];
    assert "total_tokens" in FINGERPRINT && Get(base, "total_tokens") != Get(arm, "total_tokens");
    var v := View(base, render).value;
    assert v == View(arm, render).value;
    forall k | 0 <= k < |v| ensures PyEqual(v[k], v[k]) {
      PyEqualReflexive(v[k]);
    }
  }

  // ----- counting -----

  ghost predicate Ordered(arm: Arm) {
    forall k :: 0 <= k < |arm.ids| ==> arm.ids[k] in arm.rows
  }

  /** `delta_question_count` over the first `n` questions, or None when a comparison raises. */
  function RunnerCount(arm: Arm, base: map<string, Row>, n: nat, render: Value -> string): Option<nat>
    requires n <= |arm.ids| && Ordered(arm)
  {
    if n == 0 then Some(0)
    else
      var before, id := RunnerCount(arm, base, n - 1, render), arm.ids[n - 1];
      if before.None? || id !in base then before
      else
        var delta := RunnerDelta(base[id], arm.rows[id], render);
        if delta.None? then None else Some(before.value + if delta.value then 1 else 0)
  }

  method ArmDeltas(arm: Arm, base: map<string, Row>, render: Value -> string) returns (count: Option<nat>)
    requires Ordered(arm)
    ensures count == RunnerCount(arm, base, |arm.ids|, render)
  {
    var deltaCount: nat := 0;
    for i := 0 to |arm.ids|
      invariant RunnerCount(arm, base, i, render) == Some(deltaCount)
    {
      var id := arm.ids[i];
      if id in base {
        var delta := RunnerDelta(base[id], arm.rows[id], render);
        if delta.None? {
          RunnerRaises(arm, base, i + 1, render);
          return None;
        }
        if delta.value {
          deltaCount := deltaCount + 1;
        }
      }
    }
    count := Some(deltaCount);
  }

  lemma {:induction false} RunnerRaises(arm: Arm, base: map<string, Row>, n: nat, render: Value -> string)
    requires n <= |arm.ids| && Ordered(arm) && RunnerCount(arm, base, n, render).None?
    ensures RunnerCount(arm, base, |arm.ids|, render).None?
    decreases |arm.ids| - n
  {
    if n < |arm.ids| {
      RunnerRaises(arm, base, n + 1, render);
    }
  }

  /** `decision_delta_count` over the first `n` questions. */
  function AnalysisCount(arm: Arm, base: map<string, Row>, n: nat): nat
    requires n <= |arm.ids| && Ordered(arm)
  {
    if n == 0 then 0
    else
      var id := arm.ids[n - 1];
      AnalysisCount(arm, base, n - 1) + if id in base && AnalysisDelta(base[id], arm.rows[id]) then 1 else 0
  }

  lemma {:induction false} AnalysisCountsAtLeast(arm: Arm, base: map<string, Row>, n: nat, render: Value -> string)
    requires n <= |arm.ids| && Ordered(arm) && RunnerCount(arm, base, n, render).Some?
    ensures RunnerCount(arm, base, n, render).value <= AnalysisCount(arm, base, n)
  {
    if n > 0 {
      AnalysisCountsAtLeast(arm, base, n - 1, render);
      var id := arm.ids[n - 1];
      if id in base && RunnerDelta(base[id], arm.rows[id], render) == Some(true) {
        RunnerImpliesAnalysis(base[id], arm.rows[id], render);
      }
    }
  }

  // ----- the gates -----

  ghost predicate AllOrdered(arms: seq<Arm>) {
    forall i :: 0 <= i < |arms| ==> Ordered(arms[i])
  }

  function Changed(arm: Arm, base: map<string, Row>): nat
    requires Ordered(arm)
  {
    AnalysisCount(arm, base, |arm.ids|)
  }

  function RunnerChanged(arm: Arm, base: map<string, Row>, render: Value -> string): Option<nat>
    requires Ordered(arm)
  {
    RunnerCount(arm, base, |arm.ids|, render)
  }

  predicate IsFirst(arms: seq<Arm>, factor: string, i: nat) {
    i < |arms| && arms[i].factor == factor && forall j :: 0 <= j < i ==> arms[j].factor != factor
  }

  /** The first arm of the factor changed a decision. */
  ghost predicate Moves(arms: seq<Arm>, base: map<string, Row>, factor: string, render: Value -> string)
    requires AllOrdered(arms)
  {
    exists i: nat :: IsFirst(arms, factor, i) && RunnerChanged(arms[i], base, render).Some?
                     && RunnerChanged(arms[i], base, render).value > 0
  }

  /** No comparison raises, and every required factor moves. */
  ghost predicate PassesGate(arms: seq<Arm>, base: map<string, Row>, render: Value -> string)
    requires AllOrdered(arms)
  {
    && (forall i :: 0 <= i < |arms| ==> RunnerChanged(arms[i], base, render).Some?)
    && forall f :: 0 <= f < |FACTORS| ==> Moves(arms, base, FACTORS[f], render)
  }

  /** `_arm_deltas` for every arm, then `_require_controlled_deltas`; false is an exception. */
  method RunnerGate(arms: seq<Arm>, base: map<string, Row>, render: Value -> string) returns (ok: bool)
    requires AllOrdered(arms)
    ensures ok <==> PassesGate(arms, base, render)
  {
    var deltas: seq<nat> := [];
    for i := 0 to |arms|
      invariant |deltas| == i
      invariant forall j :: 0 <= j < i ==> RunnerChanged(arms[j], base, render) == Some(deltas[j])
    {
      var count := ArmDeltas(arms[i], base, render);
      if count.None? {
        return false;
      }
      deltas := deltas + [count.value];
    }
    for f := 0 to |FACTORS|
      invariant forall g :: 0 <= g < f ==> Moves(arms, base, FACTORS[g], render)
    {
      var i := First(arms, FACTORS[f]);
      if i == |arms| || deltas[i] == 0 {
        if i < |arms| {
          OnlyFirst(arms, FACTORS[f], i);
        }
        assert !Moves(arms, base, FACTORS[f], render);
        return false;
      }
      assert IsFirst(arms, FACTORS[f], i);
    }
    ok := true;
  }

  lemma OnlyFirst(arms: seq<Arm>, factor: string, i: nat)
    requires IsFirst(arms, factor, i)
    ensures forall j: nat :: IsFirst(arms, factor, j) ==> j == i
  {
  }

  method First(arms: seq<Arm>, factor: string) returns (i: nat)
    ensures i <= |arms| && forall j :: 0 <= j < i ==> arms[j].factor != factor
    ensures i < |arms| ==> IsFirst(arms, factor, i)
  {
    i := 0;
    while i < |arms| && arms[i].factor != factor
      invariant i <= |arms| && forall j :: 0 <= j < i ==> arms[j].factor != factor
    {
      i := i + 1;
    }
  }

  datatype Issue = SwitchMissing(factor: string) | SwitchInactive(factor: string)

  /** Some arm of the factor changed a decision. */
  ghost predicate Active(arms: seq<Arm>, base: map<string, Row>, factor: string)
    requires AllOrdered(arms)
  {
    exists i :: 0 <= i < |arms| && arms[i].factor == factor && Changed(arms[i], base) > 0
  }

  ghost predicate Declared(arms: seq<Arm>, factor: string) {
    exists i :: 0 <= i < |arms| && arms[i].factor == factor
  }

  /** The largest count over the arms of a factor. */
  method FactorDelta(arms: seq<Arm>, base: map<string, Row>, factor: string) returns (declared: bool, delta: nat)
    requires AllOrdered(arms)
    ensures declared <==> Declared(arms, factor)
    ensures delta > 0 <==> Active(arms, base, factor)
  {
    declared, delta := false, 0;
    for i := 0 to |arms|
      invariant declared <==> exists j :: 0 <= j < i && arms[j].factor == factor
      invariant delta > 0 <==> exists j :: 0 <= j < i && arms[j].factor == factor && Changed(arms[j], base) > 0
    {
      if arms[i].factor == factor {
        declared := true;
        var count := Changed(arms[i], base);
        delta := if count > delta then count else delta;
      }
    }
  }

  /** For the first `n` factors in order: missing when no arm declares it, inactive when none of its arms changed a
      decision, and nothing otherwise. */
  ghost function IssuesOf(arms: seq<Arm>, base: map<string, Row>, n: nat): seq<Issue>
    requires AllOrdered(arms) && n <= |FACTORS|
  {
    if n == 0 then []
    else
      var factor := FACTORS[n - 1];
      IssuesOf(arms, base, n - 1)
      + if !Declared(arms, factor) then [SwitchMissing(factor)]
        else if !Active(arms, base, factor) then [SwitchInactive(factor)] else []
  }

  /** Each factor is reported as missing exactly when no arm declares it, and as inactive exactly when it is declared
      and none of its arms changed a decision. */
  lemma {:induction false} IssuesAre(arms: seq<Arm>, base: map<string, Row>, n: nat, f: nat)
    requires AllOrdered(arms) && f < n <= |FACTORS|
    ensures SwitchMissing(FACTORS[f]) in IssuesOf(arms, base, n) <==> !Declared(arms, FACTORS[f])
    ensures SwitchInactive(FACTORS[f]) in IssuesOf(arms, base, n)
       <==> Declared(arms, FACTORS[f]) && !Active(arms, base, FACTORS[f])
    decreases n
  {
    FactorsDistinct(f, n - 1);
    if f < n - 1 {
      IssuesAre(arms, base, n - 1, f);
    } else {
      NotYet(arms, base, n - 1, f);
    }
  }

  lemma FactorsDistinct(f: nat, g: nat)
    requires f < |FACTORS| && g < |FACTORS|
    ensures FACTORS[f] == FACTORS[g] <==> f == g
  {
    assert |FACTORS[0]| == 15 && |FACTORS[1]| == 15 && |FACTORS[2]| == 12 && |FACTORS[3]| == 7 && |FACTORS[4]| == 7
      && |FACTORS[5]| == 6;
    assert FACTORS[0][0] == 'e' && FACTORS[1][0] == 't' && FACTORS[3][0] == 'r' && FACTORS[4][0] == 'w';
  }

  lemma {:induction false} NotYet(arms: seq<Arm>, base: map<string, Row>, n: nat, f: nat)
    requires AllOrdered(arms) && n <= f < |FACTORS|
    ensures SwitchMissing(FACTORS[f]) !in IssuesOf(arms, base, n) && SwitchInactive(FACTORS[f]) !in IssuesOf(arms, base, n)
    decreases n
  {
    if n > 0 {
      NotYet(arms, base, n - 1, f);
      FactorsDistinct(f, n - 1);
    }
  }

  /** `controlled_activation_issues`. */
  method ActivationIssues(arms: seq<Arm>, base: map<string, Row>) returns (issues: seq<Issue>)
    requires AllOrdered(arms)
    ensures issues == IssuesOf(arms, base, |FACTORS|)
    ensures issues == [] <==> forall f :: 0 <= f < |FACTORS| ==> Active(arms, base, FACTORS[f])
  {
    issues := [];
    for f := 0 to |FACTORS|
      invariant issues == IssuesOf(arms, base, f)
      invariant issues == [] <==> forall g :: 0 <= g < f ==> Active(arms, base, FACTORS[g])
    {
      var declared, delta := FactorDelta(arms, base, FACTORS[f]);
      if !declared {
        issues := issues + [SwitchMissing(FACTORS[f])];
      } else if delta == 0 {
        issues := issues + [SwitchInactive(FACTORS[f])];
      }
    }
  }

  /** What moves the runner's gate is active for the analysis ... */
  lemma MovesImpliesActive(arms: seq<Arm>, base: map<string, Row>, factor: string, render: Value -> string)
    requires AllOrdered(arms) && Moves(arms, base, factor, render)
    ensures Active(arms, base, factor)
  {
    var i: nat :| IsFirst(arms, factor, i) && RunnerChanged(arms[i], base, render).Some?
                  && RunnerChanged(arms[i], base, render).value > 0;
    AnalysisCountsAtLeast(arms[i], base, |arms[i].ids|, render);
  }

  /** ... so a family that passes the runner's Gate D raises no issue in the analysis. */
  lemma GatesAgree(arms: seq<Arm>, base: map<string, Row>, render: Value -> string)
    requires AllOrdered(arms) && PassesGate(arms, base, render)
    ensures forall f :: 0 <= f < |FACTORS| ==> Active(arms, base, FACTORS[f])
  {
    forall f | 0 <= f < |FACTORS| ensures Active(arms, base, FACTORS[f]) {
      MovesImpliesActive(arms, base, FACTORS[f], render);
    }
  }
}
