/** Which records a run works on, and whether a resumed call without explicit sample ids finds the same ones:
    `_load_records`, `_apply_sample_ids` and the ids restored from the stored manifest. */
module RunRequest {
  import opened Prelude
  import opened RunModel

  datatype Item = Item(id: string, question: string)

  function Ids(records: seq<Item>): set<string> {
    set k | 0 <= k < |records| :: records[k].id
  }

  function Kept(record: Item, wanted: set<string>): seq<Item> {
    if record.id in wanted then [record] else []
  }

  function Filtered(records: seq<Item>, wanted: set<string>): seq<Item> {
    if records == [] then [] else Kept(records[0], wanted) + Filtered(records[1..], wanted)
  }

  /** The limit counts only when no sample ids were given. */
  function Loaded(dataset: seq<Item>, limit: Option<nat>, ids: Option<set<string>>): seq<Item> {
    if ids.None? && limit.Some? && limit.value <= |dataset| then dataset[..limit.value] else dataset
  }

  /** None when a requested id is not in the dataset. */
  function Selected(dataset: seq<Item>, limit: Option<nat>, ids: Option<set<string>>): Option<seq<Item>> {
    var records := Loaded(dataset, limit, ids);
    if ids.None? then Some(records)
    else
      var found := Filtered(records, ids.value);
      if ids.value <= Ids(found) then Some(found) else None
  }

  method LoadRecords(dataset: seq<Item>, limit: Option<nat>, ids: Option<set<string>>) returns (records: seq<Item>)
    requires limit.Some? ==> limit.value >= 1
    ensures records == Loaded(dataset, limit, ids)
  {
    records := [];
    for i := 0 to |dataset|
      invariant records == dataset[..i]
      invariant ids.None? && limit.Some? ==> i < limit.value
    {
      records := records + [dataset[i]];
      if ids.None? && limit.Some? && |records| >= limit.value {
        break;
      }
    }
  }

  lemma {:induction false} FilteredMembers(records: seq<Item>, wanted: set<string>)
    ensures forall id :: id in Ids(Filtered(records, wanted)) <==> id in Ids(records) && id in wanted
  {
    if records != [] {
      FilteredMembers(records[1..], wanted);
      IdsJoin(Kept(records[0], wanted), Filtered(records[1..], wanted));
      IdsJoin([records[0]], records[1..]);
      assert records == [records[0]] + records[1..];
    }
  }

  lemma IdsJoin(a: seq<Item>, b: seq<Item>)
    ensures Ids(a + b) == Ids(a) + Ids(b)
  {
    forall id | id in Ids(a) + Ids(b) ensures id in Ids(a + b) {
      if id in Ids(a) {
        var k :| 0 <= k < |a| && a[k].id == id;
        assert (a + b)[k].id == id;
      } else {
        var k :| 0 <= k < |b| && b[k].id == id;
        assert (a + b)[|a| + k].id == id;
      }
    }
  }

  lemma {:induction false} FilteredCounts(records: seq<Item>, wanted: set<string>, r: Item)
    ensures multiset(Filtered(records, wanted))[r] == if r.id in wanted then multiset(records)[r] else 0
  {
    if records != [] {
      FilteredCounts(records[1..], wanted, r);
      assert records == [records[0]] + records[1..];
    }
  }

  /** Of explicit ids every one must occur, and then all records with these ids are taken, whatever the limit. */
  lemma SelectedById(dataset: seq<Item>, limit: Option<nat>, wanted: set<string>, r: Item)
    ensures Selected(dataset, limit, Some(wanted)).Some?
       <==> forall id :: id in wanted ==> exists k :: 0 <= k < |dataset| && dataset[k].id == id
    ensures Selected(dataset, limit, Some(wanted)).Some? ==>
              multiset(Selected(dataset, limit, Some(wanted)).value)[r] == if r.id in wanted then multiset(dataset)[r] else 0
  {
    FilteredMembers(dataset, wanted);
    FilteredCounts(dataset, wanted, r);
    if forall id :: id in wanted ==> exists k :: 0 <= k < |dataset| && dataset[k].id == id {
      forall id | id in wanted ensures id in Ids(dataset) {
        var k :| 0 <= k < |dataset| && dataset[k].id == id;
        assert dataset[k].id in Ids(dataset);
      }
    }
  }

  /** Without ids the first records are taken, as many as the limit allows. */
  lemma SelectedByLimit(dataset: seq<Item>, limit: Option<nat>)
    ensures var r := Selected(dataset, limit, None);
            && r.Some? && r.value <= dataset
            && |r.value| == if limit.Some? then Min(limit.value, |dataset|) else |dataset|
  {
  }

  lemma {:induction false} FilteredAlike(records: seq<Item>, u: set<string>, v: set<string>)
    requires forall k :: 0 <= k < |records| ==> (records[k].id in u <==> records[k].id in v)
    ensures Filtered(records, u) == Filtered(records, v)
  {
    if records != [] {
      FilteredAlike(records[1..], u, v);
    }
  }

  /** The selection goes through the dataset in its order. */
  lemma {:induction false} FilteredJoin(a: seq<Item>, b: seq<Item>, wanted: set<string>)
    ensures Filtered(a + b, wanted) == Filtered(a, wanted) + Filtered(b, wanted)
  {
    if a == [] {
      assert a + b == b;
    } else {
      assert (a + b)[1..] == a[1..] + b;
      FilteredJoin(a[1..], b, wanted);
      Associate(Kept(a[0], wanted), Filtered(a[1..], wanted), Filtered(b, wanted));
    }
  }

  lemma {:induction false} FilteredAll(records: seq<Item>, wanted: set<string>)
    requires forall k :: 0 <= k < |records| ==> records[k].id in wanted
    ensures Filtered(records, wanted) == records
  {
    if records != [] {
      FilteredAll(records[1..], wanted);
    }
  }

  lemma {:induction false} FilteredNone(records: seq<Item>, wanted: set<string>)
    ensures Filtered(records, wanted) == [] <==> forall k :: 0 <= k < |records| ==> records[k].id !in wanted
  {
    if records != [] {
      FilteredNone(records[1..], wanted);
      if forall k :: 0 <= k < |records[1..]| ==> records[1..][k].id !in wanted {
        forall k | 1 <= k < |records| ensures records[k].id !in wanted {
          assert records[k] == records[1..][k - 1];
        }
      } else {
        var k :| 0 <= k < |records[1..]| && records[1..][k].id in wanted;
        assert records[k + 1].id in wanted;
      }
    }
  }

  /** The sample ids beyond the records the first call loaded do not return among them. */
  predicate NoLateRepeat(dataset: seq<Item>, records: seq<Item>) {
    |records| <= |dataset| && forall k :: |records| <= k < |dataset| ==> dataset[k].id !in Ids(records)
  }

  lemma ExplicitIdsReselect(dataset: seq<Item>, wanted: set<string>, records: seq<Item>)
    requires records == Filtered(dataset, wanted)
    ensures Filtered(dataset, Ids(records)) == records
  {
    FilteredMembers(dataset, wanted);
    forall k | 0 <= k < |dataset| ensures dataset[k].id in Ids(records) <==> dataset[k].id in wanted {
      assert dataset[k].id in Ids(dataset);
    }
    FilteredAlike(dataset, Ids(records), wanted);
  }

  lemma PrefixReselects(dataset: seq<Item>, n: nat)
    requires n <= |dataset|
    ensures Filtered(dataset, Ids(dataset[..n])) == dataset[..n] <==> NoLateRepeat(dataset, dataset[..n])
  {
    var head, rest := dataset[..n], dataset[n..];
    assert dataset == head + rest;
    FilteredJoin(head, rest, Ids(head));
    FilteredAll(head, Ids(head));
    FilteredNone(rest, Ids(head));
    AppendNothing(head, Filtered(rest, Ids(head)));
    RestRepeats(dataset, n);
  }

  lemma RestRepeats(dataset: seq<Item>, n: nat)
    requires n <= |dataset|
    ensures NoLateRepeat(dataset, dataset[..n])
       <==> forall k :: 0 <= k < |dataset[n..]| ==> dataset[n..][k].id !in Ids(dataset[..n])
  {
    if forall k :: 0 <= k < |dataset[n..]| ==> dataset[n..][k].id !in Ids(dataset[..n]) {
      forall k | n <= k < |dataset| ensures dataset[k].id !in Ids(dataset[..n]) {
        assert dataset[k] == dataset[n..][k - n];
      }
    }
  }

  /** A later call without ids takes them from the manifest and selects the same records, hence is not refused as
      drift: always after a call with ids, and after a call without ids exactly when no later record of the dataset
      repeats an id of the records taken. */
  lemma RestoredIdsReselect(dataset: seq<Item>, limit: Option<nat>, ids: Option<set<string>>, records: seq<Item>)
    requires Selected(dataset, limit, ids) == Some(records)
    ensures Selected(dataset, limit, Some(Ids(records))) == Some(records)
       <==> (ids.Some? || NoLateRepeat(dataset, records))
  {
    FilteredMembers(dataset, Ids(records));
    if ids.Some? {
      ExplicitIdsReselect(dataset, ids.value, records);
    } else {
      var n := |records|;
      assert records == dataset[..n];
      PrefixReselects(dataset, n);
      FilteredJoin(dataset[..n], dataset[n..], Ids(records));
      FilteredAll(dataset[..n], Ids(records));
    }
  }

  // ----- the manifests of the two calls -----

  function IdList(records: seq<Item>): (r: seq<string>)
    ensures |r| == |records| && forall k :: 0 <= k < |r| ==> r[k] == records[k].id
  {
    if records == [] then [] else [records[0].id] + IdList(records[1..])
  }

  function QuestionList(records: seq<Item>): (r: seq<string>)
    ensures |r| == |records| && forall k :: 0 <= k < |r| ==> r[k] == records[k].question
  {
    if records == [] then [] else [records[0].question] + QuestionList(records[1..])
  }

  /** `_build_manifest`: the fields of `base` with the ids and questions of the selected records. */
  function ManifestOf(base: Manifest, records: seq<Item>): Manifest {
    base.(ids := IdList(records), questions := QuestionList(records))
  }

  lemma SameManifest(base: Manifest, a: seq<Item>, b: seq<Item>)
    ensures ManifestOf(base, a) == ManifestOf(base, b) <==> a == b
  {
    if ManifestOf(base, a) == ManifestOf(base, b) {
      assert |a| == |IdList(a)| == |IdList(b)| == |b|;
      forall k | 0 <= k < |a| ensures a[k] == b[k] {
        assert IdList(a)[k] == IdList(b)[k] && QuestionList(a)[k] == QuestionList(b)[k];
      }
    }
  }

  /** The records of a call without ids in a directory that has a manifest. */
  function Restored(dataset: seq<Item>, limit: Option<nat>, stored: Manifest): Option<seq<Item>> {
    Selected(dataset, limit, Some(set id | id in stored.ids))
  }

  lemma StoredIds(base: Manifest, records: seq<Item>)
    ensures (set id | id in ManifestOf(base, records).ids) == Ids(records)
  {
    var ids := IdList(records);
    forall id | id in ids ensures id in Ids(records) {
      var k :| 0 <= k < |ids| && ids[k] == id;
      assert records[k].id == id;
    }
    forall id | id in Ids(records) ensures id in ids {
      var k :| 0 <= k < |records| && records[k].id == id;
      assert ids[k] == id;
    }
  }

  /** Resuming without ids in the directory of an earlier call with the same configuration always finds records; the
      call is refused as drift exactly when the earlier one had no ids either and a later record of the dataset
      repeats an id of the records it took. */
  lemma RestoredCallRefused(d: Dir, base: Manifest, dataset: seq<Item>, limit: Option<nat>, ids: Option<set<string>>,
                            records: seq<Item>)
    requires Selected(dataset, limit, ids) == Some(records) && HasManifest(d, ManifestOf(base, records))
    ensures Restored(dataset, limit, ManifestOf(base, records)).Some?
    ensures Enter(d, ManifestOf(base, Restored(dataset, limit, ManifestOf(base, records)).value)).reply == Refused
       <==> ids.None? && !NoLateRepeat(dataset, records)
  {
    StoredIds(base, records);
    RestoredIdsReselect(dataset, limit, ids, records);
    RestoredFound(dataset, limit, ids, records);
    SameManifest(base, records, Restored(dataset, limit, ManifestOf(base, records)).value);
  }

  lemma RestoredFound(dataset: seq<Item>, limit: Option<nat>, ids: Option<set<string>>, records: seq<Item>)
    requires Selected(dataset, limit, ids) == Some(records)
    ensures Selected(dataset, limit, Some(Ids(records))).Some?
  {
    FilteredMembers(dataset, Ids(records));
    if ids.Some? {
      FilteredMembers(dataset, ids.value);
    } else {
      assert dataset == records + dataset[|records|..];
      IdsJoin(records, dataset[|records|..]);
    }
  }
}
