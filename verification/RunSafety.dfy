/** What every reachable state of the run machine satisfies. */
module RunSafety {
  import opened SafeNames
  import opened RunModel
  import opened Prelude

  /** A samples folder file is the result or the snapshot of an expected sample, under that sample's name. */
  ghost predicate Belongs(m: Manifest, name: string, file: File) {
    || (exists id :: id in m.ids && name == SampleName(id) && file == Result(m, id))
    || (exists id :: id in m.ids && name == SnapshotName(id) && file == Snapshot(m, id))
  }

  ghost predicate Snapped(samples: Folder, name: string) {
    name in samples && samples[name].Result? ==> SnapshotName(samples[name].id) in samples
  }

  ghost predicate GoodSamples(m: Manifest, samples: Folder) {
    forall name :: name in samples ==> Belongs(m, name, samples[name]) && Snapped(samples, name)
  }

  ghost predicate Current(d: Dir, m: Manifest, name: string) {
    name in d.root && d.root[name] == Artifact(name, m, d.samples)
  }

  ghost predicate UpToDate(d: Dir, m: Manifest, k: nat) {
    k <= |Derived(m)| && forall j :: 0 <= j < k ==> Current(d, m, Derived(m)[j])
  }

  /** The same except for one name, which has been removed. */
  ghost predicate UpToDateBut(d: Dir, m: Manifest, k: nat) {
    k < |Derived(m)| && forall j :: 0 <= j < k && Derived(m)[j] != Derived(m)[k] ==> Current(d, m, Derived(m)[j])
  }

  ghost predicate KnownNames(root: Folder, m: Manifest) {
    forall name :: name in root ==> name == MANIFEST || name in Derived(m)
  }

  lemma LoadedUnderItsName(m: Manifest, samples: Folder, name: string, id: string)
    requires GoodSamples(m, samples) && Loads(samples, name, id)
    ensures name == SampleName(id)
  {
    assert Belongs(m, name, samples[name]);
  }

  lemma ValidMeansClean(m: Manifest, samples: Folder)
    requires GoodSamples(m, samples) && ValidSamples(m, samples)
    ensures Clean(m.ids)
  {
    forall x | x in m.ids ensures Loads(samples, SampleName(x), x) {
      assert Completed(samples, x);
      var name :| Loads(samples, name, x);
      LoadedUnderItsName(m, samples, name, x);
    }
    forall x, y | x in m.ids && y in m.ids && SafeId(x) == SafeId(y) ensures x == y {
      NamesFollowSafeIds(x, y);
      assert Loads(samples, SampleName(x), x) && Loads(samples, SampleName(y), y);
    }
  }

  ghost predicate Sealable(m: Manifest) {
    Clean(m.ids) && Admissible(m)
  }

  /** A seal vouches for complete samples and for the root files as they are. */
  ghost predicate GoodSeal(d: Dir, m: Manifest) {
    d.sealed.Some? ==>
      ValidSamples(m, d.samples) && UpToDate(d, m, |Derived(m)|) && d.sealedDir && d.sealed.value == Seal(d, m)
  }

  ghost predicate GoodDir(d: Dir, m: Manifest) {
    && HasManifest(d, m) && KnownNames(d.root, m) && GoodSamples(m, d.samples) && GoodSeal(d, m)
    && (d.sealedDir ==> Sealable(m))
  }

  ghost predicate GoodPc(s: State, m: Manifest) {
    match s.pc
    case Idle => true
    case Working(n, i, snapped) =>
      && n == m && i <= |m.ids| && s.dir.sealed.None?
      && (snapped ==> i < |m.ids| && SnapshotName(m.ids[i]) in s.dir.samples)
    case Deriving(n, k, removed) =>
      n == m && s.dir.sealed.None?
      && if removed then UpToDateBut(s.dir, m, k) && Derived(m)[k] !in s.dir.root else UpToDate(s.dir, m, k)
    case Sealing(n, made) =>
      && n == m && UpToDate(s.dir, m, |Derived(m)|) && s.dir.sealed.None?
      && (made ==> s.dir.sealedDir && ValidSamples(m, s.dir.samples))
  }

  ghost predicate Good(s: State, m: Manifest) {
    GoodDir(s.dir, m) && GoodPc(s, m)
  }

  ghost predicate Inv(s: State) {
    (s.dir == EMPTY && s.pc.Idle?) || exists m :: Good(s, m)
  }

  lemma {:induction false} MethodFilesEnd(methods: seq<string>)
    ensures forall name :: name in MethodFiles(methods) ==> name != MANIFEST
  {
    if methods != [] {
      MethodFilesEnd(methods[1..]);
      var m := methods[0];
      assert MANIFEST[|MANIFEST| - 1] == 'n';
      assert (m + "/predictions.jsonl")[|m + "/predictions.jsonl"| - 1] == 'l';
      assert (m + "/samples.jsonl")[|m + "/samples.jsonl"| - 1] == 'l';
      assert (m + "/retrieval.jsonl")[|m + "/retrieval.jsonl"| - 1] == 'l';
    }
  }

  /** Rewriting never touches the manifest, and ends with the summary. */
  lemma DerivedNames(m: Manifest)
    ensures MANIFEST !in Derived(m)
    ensures |Derived(m)| > 0 && Derived(m)[|Derived(m)| - 1] == SUMMARY && SUMMARY in Derived(m)
    ensures forall name :: name in ROOT_FILES ==> name in Derived(m)
  {
    MethodFilesEnd(m.methods);
    assert |MANIFEST| == 13 && |ROOT_FILES[0]| == 24 && |ROOT_FILES[1]| == 15 && |ROOT_FILES[2]| == 14;
    assert |ROOT_FILES[3]| == 19 && |ROOT_FILES[4]| == 12;
    assert ROOT_FILES[4] == SUMMARY;
  }

  lemma CurrentAll(d: Dir, m: Manifest, name: string)
    requires UpToDate(d, m, |Derived(m)|) && name in Derived(m)
    ensures Current(d, m, name)
  {
    var j :| 0 <= j < |Derived(m)| && Derived(m)[j] == name;
  }

  lemma EnterKeeps(d: Dir, m: Manifest, n: Manifest)
    requires GoodDir(d, m)
    ensures Good(Enter(d, n), m) && Enter(d, n).dir == d
  {
  }

  lemma EnterEmpty(n: Manifest)
    ensures Good(Enter(EMPTY, n), n)
  {
  }

  /** A new file with a name of its own leaves the others as they were. */
  lemma AddFile(m: Manifest, samples: Folder, name: string, file: File)
    requires GoodSamples(m, samples) && name !in samples && Belongs(m, name, file)
    requires file.Result? ==> SnapshotName(file.id) in samples
    ensures GoodSamples(m, samples[name := file])
  {
    var after := samples[name := file];
    forall f | f in after ensures Belongs(m, f, after[f]) && Snapped(after, f) {
      if f != name {
        assert Belongs(m, f, samples[f]) && Snapped(samples, f);
      }
    }
  }

  lemma WorkKeeps(s: State, m: Manifest)
    requires Good(s, m) && s.pc.Working? && s.pc.next < |m.ids|
    ensures Good(Go(s), m)
  {
    var id := m.ids[s.pc.next];
    assert id in m.ids;
    NamesFollowSafeIds(id, id);
    if SampleName(id) !in s.dir.samples {
      if s.pc.snapped {
        assert Belongs(m, SampleName(id), Result(m, id));
        AddFile(m, s.dir.samples, SampleName(id), Result(m, id));
      } else if SnapshotName(id) !in s.dir.samples {
        assert Belongs(m, SnapshotName(id), Snapshot(m, id));
        AddFile(m, s.dir.samples, SnapshotName(id), Snapshot(m, id));
      }
    }
  }

  lemma DeriveKeeps(s: State, m: Manifest)
    requires Good(s, m) && s.pc.Deriving? && s.pc.k < |Derived(m)|
    ensures Good(Go(s), m)
  {
    DerivedNames(m);
    var k, name := s.pc.k, Derived(m)[s.pc.k];
    assert name in Derived(m);
    var d, d' := s.dir, Go(s).dir;
    forall j | 0 <= j < k && Derived(m)[j] != name ensures Current(d', m, Derived(m)[j]) {
      assert Current(d, m, Derived(m)[j]);
    }
    if s.pc.removed {
      assert Current(d', m, name);
    }
  }

  lemma FinishKeeps(s: State, m: Manifest)
    requires Good(s, m) && s.pc.Sealing?
    ensures Good(Go(s), m)
  {
    var d' := Go(s).dir;
    if ValidSamples(m, s.dir.samples) {
      ValidMeansClean(m, s.dir.samples);
    }
    assert Hashes(d', m.artifactClass) == Hashes(s.dir, m.artifactClass);
  }

  lemma GoKeeps(s: State, m: Manifest)
    requires Good(s, m) && !s.pc.Idle?
    ensures Good(Go(s), m)
  {
    match s.pc
    case Working(n, i, snapped) => if i < |m.ids| { WorkKeeps(s, m); }
    case Deriving(n, k, removed) => if k < |Derived(m)| { DeriveKeeps(s, m); }
    case Sealing(n, made) => FinishKeeps(s, m);
  }

  lemma StepKeeps(s: State, s': State, m: Manifest)
    requires Good(s, m) && Step(s, s')
    ensures Good(s', m)
  {
    if Call(s, s') {
      var n :| s' == Enter(s.dir, n);
      EnterKeeps(s.dir, m, n);
    } else if !s.pc.Idle? && s' == Go(s) {
      GoKeeps(s, m);
    }
  }

  lemma {:induction false} RunKeeps(run: seq<State>, k: nat)
    requires Run(run) && k < |run|
    ensures Inv(run[k])
  {
    if k > 0 {
      RunKeeps(run, k - 1);
      assert StepAt(run, k);
      if run[k - 1].dir == EMPTY && run[k - 1].pc.Idle? {
        if Call(run[k - 1], run[k]) {
          var n :| run[k] == Enter(EMPTY, n);
          EnterEmpty(n);
        }
      } else {
        var m :| Good(run[k - 1], m);
        StepKeeps(run[k - 1], run[k], m);
      }
    }
  }

  // ----- seals -----

  lemma RequiredIsKnown(m: Manifest, name: string)
    requires name in Required(m.artifactClass)
    ensures name == MANIFEST || name in Derived(m)
  {
    DerivedNames(m);
    if name != MANIFEST {
      assert name in ROOT_FILES[..4];
      assert name in ROOT_FILES;
    }
  }

  lemma UpToDateHas(d: Dir, m: Manifest, name: string)
    requires HasManifest(d, m) && UpToDate(d, m, |Derived(m)|) && name in Required(m.artifactClass)
    ensures name in d.root
  {
    RequiredIsKnown(m, name);
    if name != MANIFEST {
      CurrentAll(d, m, name);
    }
  }

  lemma GoodSealLoads(d: Dir, m: Manifest)
    requires GoodDir(d, m) && d.sealed.Some?
    ensures LoadsFinalized(d) && SUMMARY in d.root && d.root[SUMMARY] == Artifact(SUMMARY, m, d.samples)
  {
    forall name | name in Required(m.artifactClass) ensures HashMatches(d, Seal(d, m), name) {
      UpToDateHas(d, m, name);
    }
    DerivedNames(m);
    CurrentAll(d, m, SUMMARY);
  }

  /** The samples that load are the expected ones, and each has one file. */
  ghost predicate EachExactlyOnce(m: Manifest, samples: Folder) {
    && NoRepeats(m.ids) && CompletedOnce(samples)
    && forall id :: id in m.ids <==> Completed(samples, id)
  }

  lemma ValidSamplesAreTheExpected(m: Manifest, samples: Folder)
    requires GoodSamples(m, samples) && ValidSamples(m, samples)
    ensures EachExactlyOnce(m, samples)
  {
    forall id | Completed(samples, id) ensures id in m.ids {
      var name :| name in samples && Loads(samples, name, id);
      assert Belongs(m, name, samples[name]);
    }
  }

  /** In every reachable state a seal means: every expected sample has exactly one stored result, the summary is
      that of the stored samples, and `load_finalized` accepts the directory. */
  lemma SealSafety(run: seq<State>, k: nat) returns (m: Manifest)
    requires Run(run) && k < |run| && run[k].dir.sealed.Some?
    ensures HasManifest(run[k].dir, m) && run[k].dir.sealed.value.manifestHash == m
    ensures EachExactlyOnce(m, run[k].dir.samples)
    ensures LoadsFinalized(run[k].dir) && SUMMARY in run[k].dir.root
    ensures run[k].dir.root[SUMMARY] == Artifact(SUMMARY, m, run[k].dir.samples)
  {
    RunKeeps(run, k);
    m :| Good(run[k], m);
    GoodSealLoads(run[k].dir, m);
    ValidSamplesAreTheExpected(m, run[k].dir.samples);
  }

  /** A sealed directory never changes again, whatever is called. */
  lemma {:induction false} SealedForever(run: seq<State>, j: nat, k: nat)
    requires Run(run) && j <= k < |run| && run[j].dir.sealed.Some?
    ensures run[k].dir == run[j].dir && run[k].pc.Idle?
  {
    RunKeeps(run, j);
    if j < k {
      SealedForever(run, j, k - 1);
      assert StepAt(run, k);
    }
  }

  /** Calling a sealed run with its own manifest returns the stored summary; any other manifest is refused. */
  lemma SealedReplies(run: seq<State>, k: nat, n: Manifest)
    requires Run(run) && k < |run| && run[k].dir.sealed.Some?
    ensures var s := Enter(run[k].dir, n);
            s.dir == run[k].dir && s.pc.Idle?
            && (if n == run[k].dir.sealed.value.manifestHash
                then s.reply == Returned(Artifact(SUMMARY, n, run[k].dir.samples)) else s.reply == Refused)
  {
    RunKeeps(run, k);
    var m :| Good(run[k], m);
    GoodSealLoads(run[k].dir, m);
  }

  // ----- edits of a sealed directory -----

  /** The required files are there as in `d`. */
  ghost predicate Intact(d: Dir, root: Folder, m: Manifest) {
    forall name :: name in Required(m.artifactClass) ==> name in root && name in d.root && root[name] == d.root[name]
  }

  lemma SealHashes(d: Dir, m: Manifest)
    requires GoodDir(d, m) && d.sealed.Some?
    ensures d.sealed.value.artifactClass == m.artifactClass
    ensures forall name :: name in Required(m.artifactClass) ==>
              name in d.root && name in d.sealed.value.hashes && d.sealed.value.hashes[name] == d.root[name]
  {
    forall name | name in Required(m.artifactClass) ensures name in d.root {
      UpToDateHas(d, m, name);
    }
  }

  /** Whatever is done to the root files of a sealed run: `load_finalized` accepts the directory exactly when every
      required file is still there as it was sealed. */
  lemma LoadsIffIntact(run: seq<State>, k: nat, root: Folder) returns (m: Manifest)
    requires Run(run) && k < |run| && run[k].dir.sealed.Some?
    ensures HasManifest(run[k].dir, m)
    ensures LoadsFinalized(run[k].dir.(root := root)) <==> Intact(run[k].dir, root, m)
  {
    RunKeeps(run, k);
    m :| Good(run[k], m);
    SealHashes(run[k].dir, m);
  }

  /** Calling such a run with its own manifest changes nothing.  It is refused when the stored manifest was changed,
      breaks off without a summary when another required file was changed or removed, and returns the summary it finds
      when all of them are intact. */
  lemma EditedRunBreaks(run: seq<State>, k: nat, m: Manifest, root: Folder)
    requires Run(run) && k < |run| && run[k].dir.sealed.Some? && HasManifest(run[k].dir, m)
    ensures Enter(run[k].dir.(root := root), m)
         == State(run[k].dir.(root := root), Idle,
                  if MANIFEST !in root || root[MANIFEST] != run[k].dir.root[MANIFEST] then Refused
                  else if Intact(run[k].dir, root, m) && SUMMARY in root then Returned(root[SUMMARY])
                  else Broken)
  {
    var n := LoadsIffIntact(run, k, root);
  }

  /** A sealed publication is clean, and a seal of any class has ids and questions, none of them twice. */
  lemma SealedIsAdmissible(run: seq<State>, k: nat)
    requires Run(run) && k < |run| && run[k].dir.sealed.Some?
    ensures var m := run[k].dir.sealed.value.manifestHash;
            && !(m.artifactClass == Publication && m.dirty)
            && m.ids != [] && m.questions != [] && |set x | x in m.ids| == |m.ids| && |set x | x in m.questions| == |m.questions|
  {
    OnlySealableSeals(run, k);
    var m := run[k].dir.sealed.value.manifestHash;
    NoRepeatsCount(m.ids);
    NoRepeatsCount(m.questions);
  }

  lemma {:induction false} NoRepeatsCount(s: seq<string>)
    requires NoRepeats(s)
    ensures |set x | x in s| == |s|
  {
    if s != [] {
      var init, last := s[..|s| - 1], s[|s| - 1];
      NoRepeatsCount(init);
      assert s == init + [last];
      assert (set x | x in s) == (set x | x in init) + {last};
      assert last !in init;
    }
  }

  // ----- what never changes -----

  ghost predicate Within(a: Folder, b: Folder) {
    forall name :: name in a ==> name in b && b[name] == a[name]
  }

  lemma GoAdds(s: State)
    requires !s.pc.Idle?
    ensures Within(s.dir.samples, Go(s).dir.samples)
  {
    match s.pc
    case Working(m, i, snapped) =>
    case Deriving(m, k, removed) => assert Go(s).dir.samples == s.dir.samples;
    case Sealing(m, made) => assert Go(s).dir.samples == s.dir.samples;
  }

  lemma StepAdds(s: State, s': State, m: Manifest)
    requires Good(s, m) && Step(s, s')
    ensures Within(s.dir.samples, s'.dir.samples) && HasManifest(s'.dir, m)
  {
    StepKeeps(s, s', m);
    if !s.pc.Idle? && s' == Go(s) {
      GoAdds(s);
    } else {
      assert s'.dir == s.dir;
    }
  }

  /** No per-sample file changes or disappears once it is present, and the manifest is fixed by the first call. */
  lemma {:induction false} SamplesStay(run: seq<State>, j: nat, k: nat)
    requires Run(run) && j <= k < |run|
    ensures Within(run[j].dir.samples, run[k].dir.samples)
    ensures forall m :: HasManifest(run[j].dir, m) ==> HasManifest(run[k].dir, m)
  {
    if j < k {
      SamplesStay(run, j, k - 1);
      assert StepAt(run, k);
      RunKeeps(run, k - 1);
      if run[k - 1].dir != EMPTY || !run[k - 1].pc.Idle? {
        var m :| Good(run[k - 1], m);
        StepAdds(run[k - 1], run[k], m);
      }
    }
  }

  // ----- which runs can be sealed -----

  /** No history of calls seals a run whose ids collide as file names, or whose manifest is not admissible. */
  lemma OnlySealableSeals(run: seq<State>, k: nat)
    requires Run(run) && k < |run| && run[k].dir.sealed.Some?
    ensures Sealable(run[k].dir.sealed.value.manifestHash)
  {
    RunKeeps(run, k);
    var m :| Good(run[k], m);
  }
}
