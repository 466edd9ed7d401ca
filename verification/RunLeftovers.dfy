/** Which leftover temporaries disturb a call: exactly when one call without failures, under a pid that may have been
    used before, ends with the directory of an uninterrupted one. */
module RunLeftovers {
  import opened SafeNames
  import opened RunModel
  import opened RunSafety
  import opened RunResume
  import opened RunTemps
  import opened Prelude

  function One(b: bool): nat {
    if b then 1 else 0
  }

  /** How many writes of this sample's files meet a temporary: each makes one attempt at the sample fail. */
  function Hurdles(samples: Folder, temps: set<Temporary>, pid: nat, id: string): nat {
    One(Temporary(InSamples(SampleName(id)), pid) in temps)
    + One(SnapshotName(id) !in samples && Temporary(InSamples(SnapshotName(id)), pid) in temps)
  }

  /** How often the id is still to come. */
  function Turns(ids: seq<string>, i: nat, id: string): nat
    requires i <= |ids|
    decreases |ids| - i
  {
    if i == |ids| then 0 else One(ids[i] == id) + Turns(ids, i + 1, id)
  }

  ghost predicate Attained(ids: seq<string>, i: nat, samples: Folder, temps: set<Temporary>, pid: nat, id: string)
    requires i <= |ids|
  {
    SampleName(id) in samples || Hurdles(samples, temps, pid, id) < Turns(ids, i, id)
  }

  ghost predicate AllAttained(ids: seq<string>, i: nat, samples: Folder, temps: set<Temporary>, pid: nat)
    requires i <= |ids|
  {
    forall id :: id in ids ==> Attained(ids, i, samples, temps, pid, id)
  }

  /** No temporary in the way of the files to rewrite. */
  ghost predicate Clear(m: Manifest, k: nat, temps: set<Temporary>, pid: nat) {
    forall j :: k <= j < |Derived(m)| ==> Temporary(Derived(m)[j], pid) !in temps
  }

  ghost predicate SealClear(m: Manifest, temps: set<Temporary>, pid: nat) {
    Sealable(m) ==> Temporary(SEAL, pid) !in temps
  }

  ghost predicate Open(m: Manifest, i: nat, samples: Folder, temps: set<Temporary>, pid: nat) {
    && i <= |m.ids| && AllAttained(m.ids, i, samples, temps, pid)
    && Clear(m, 0, temps, pid) && SealClear(m, temps, pid)
  }

  /** What decides, at every point of a call, whether it ends as it should. */
  ghost predicate OnCourse(w: World, m: Manifest, pid: nat) {
    match w.s.pc
    case Idle => w.s.dir == End(EMPTY, m)
    case Working(_, i, _) => Open(m, i, w.s.dir.samples, w.temps, pid)
    case Deriving(_, k, _) => AllFiles(m, w.s.dir.samples) && Clear(m, k, w.temps, pid) && SealClear(m, w.temps, pid)
    case Sealing(_, _) => AllFiles(m, w.s.dir.samples) && SealClear(m, w.temps, pid)
  }

  // ----- the directory to end with -----

  lemma EndIsFinal(m: Manifest, samples: Folder)
    requires Separate(m.ids) && AllFiles(m, samples)
    ensures End(EMPTY, m) == Final(m, samples)
  {
    var s := CallEnds(EMPTY, m);
    AllFilesUnique(m, s, samples);
  }

  /** It has every file there can be. */
  lemma EndHasAll(m: Manifest)
    requires Separate(m.ids)
    ensures var d := End(EMPTY, m);
            && MANIFEST in d.root && AllFiles(m, d.samples) && (d.sealed.Some? <==> Sealable(m))
            && forall name :: name in Derived(m) ==> name in d.root
  {
    var samples := CallEnds(EMPTY, m);
  }

  // ----- names -----

  lemma {:induction false} MethodFilesEndInL(methods: seq<string>, name: string)
    requires name in MethodFiles(methods)
    ensures |name| >= 2 && name[|name| - 1] == 'l'
  {
    var m := methods[0];
    if name !in MethodFiles(methods[1..]) {
      assert (m + "/predictions.jsonl")[|m + "/predictions.jsonl"| - 1] == 'l';
      assert (m + "/samples.jsonl")[|m + "/samples.jsonl"| - 1] == 'l';
      assert (m + "/retrieval.jsonl")[|m + "/retrieval.jsonl"| - 1] == 'l';
    } else {
      MethodFilesEndInL(methods[1..], name);
    }
  }

  lemma DerivedApart(m: Manifest, name: string)
    requires name in Derived(m)
    ensures |name| >= 2 && (name[|name| - 1] == 'l' || name[0] == 'e' || name[1] == 'u')
  {
    if name in MethodFiles(m.methods) {
      MethodFilesEndInL(m.methods, name);
    } else {
      assert name in ROOT_FILES;
    }
  }

  /** The per-sample files are none of the others. */
  lemma SamplesApart(m: Manifest, id: string)
    ensures InSamples(SampleName(id)) !in Derived(m) && InSamples(SampleName(id)) != SEAL
    ensures InSamples(SnapshotName(id)) !in Derived(m) && InSamples(SnapshotName(id)) != SEAL
  {
    ApartFromOthers(m, InSamples(SampleName(id)));
    ApartFromOthers(m, InSamples(SnapshotName(id)));
  }

  lemma ApartFromOthers(m: Manifest, file: string)
    requires |file| >= 2 && file[0] == 's' && file[1] == 'a' && file[|file| - 1] == 'n'
    ensures file !in Derived(m) && file != SEAL
  {
    if file in Derived(m) {
      DerivedApart(m, file);
    }
  }

  lemma InSamplesInjective(a: string, b: string)
    ensures InSamples(a) == InSamples(b) <==> a == b
  {
    if InSamples(a) == InSamples(b) {
      assert a == InSamples(a)[8..] && b == InSamples(b)[8..];
    }
  }

  /** Different ids have different files. */
  lemma FilesDiffer(ids: seq<string>, x: string, y: string)
    requires Separate(ids) && x in ids && y in ids && x != y
    ensures SampleName(x) != SampleName(y) && SnapshotName(x) != SnapshotName(y)
    ensures SampleName(x) != SnapshotName(y) && SnapshotName(x) != SampleName(y)
  {
    NamesFollowSafeIds(x, y);
  }

  /** A sample's files are told apart from those of another, in the folder and among the temporaries. */
  lemma OthersUntouched(ids: seq<string>, x: string, y: string, samples: Folder, temps: set<Temporary>, pid: nat,
                        name: string, file: File)
    requires Separate(ids) && x in ids && y in ids && x != y && (name == SampleName(x) || name == SnapshotName(x))
    ensures SampleName(y) in samples <==> SampleName(y) in samples[name := file]
    ensures Hurdles(samples[name := file], temps, pid, y) == Hurdles(samples, temps, pid, y)
    ensures Hurdles(samples, temps - {Temporary(InSamples(name), pid)}, pid, y) == Hurdles(samples, temps, pid, y)
  {
    FilesDiffer(ids, x, y);
    InSamplesInjective(name, SampleName(y));
    InSamplesInjective(name, SnapshotName(y));
  }

  lemma OthersClear(m: Manifest, temps: set<Temporary>, pid: nat, x: string, name: string, k: nat)
    requires name == SampleName(x) || name == SnapshotName(x)
    ensures var left := temps - {Temporary(InSamples(name), pid)};
            (Clear(m, k, left, pid) <==> Clear(m, k, temps, pid)) && (SealClear(m, left, pid) <==> SealClear(m, temps, pid))
  {
    SamplesApart(m, x);
    forall j | k <= j < |Derived(m)| ensures Derived(m)[j] != InSamples(name) {
      assert Derived(m)[j] in Derived(m);
    }
  }

  // ----- one step -----

  /** An attempt that fails costs a turn and a hurdle. */
  lemma ObstructedAttained(m: Manifest, i: nat, samples: Folder, temps: set<Temporary>, pid: nat, name: string)
    requires Separate(m.ids) && i < |m.ids| && SampleName(m.ids[i]) !in samples && Temporary(InSamples(name), pid) in temps
    requires name == SampleName(m.ids[i]) || (name == SnapshotName(m.ids[i]) && name !in samples)
    ensures var left := temps - {Temporary(InSamples(name), pid)};
            AllAttained(m.ids, i + 1, samples, left, pid) <==> AllAttained(m.ids, i, samples, temps, pid)
  {
    var x, left := m.ids[i], temps - {Temporary(InSamples(name), pid)};
    assert x in m.ids;
    NamesFollowSafeIds(x, x);
    InSamplesInjective(SampleName(x), SnapshotName(x));
    forall y | y in m.ids
      ensures Attained(m.ids, i + 1, samples, left, pid, y) <==> Attained(m.ids, i, samples, temps, pid, y)
    {
      if y != x {
        OthersUntouched(m.ids, x, y, samples, temps, pid, name, Result(m, x));
      }
    }
  }

  /** A sample that is there needs no turn. */
  lemma PresentAttained(m: Manifest, i: nat, samples: Folder, temps: set<Temporary>, pid: nat)
    requires i < |m.ids| && SampleName(m.ids[i]) in samples
    ensures AllAttained(m.ids, i + 1, samples, temps, pid) <==> AllAttained(m.ids, i, samples, temps, pid)
  {
    forall y | y in m.ids
      ensures Attained(m.ids, i + 1, samples, temps, pid, y) <==> Attained(m.ids, i, samples, temps, pid, y)
    {
    }
  }

  lemma SnapshotAttained(m: Manifest, i: nat, samples: Folder, temps: set<Temporary>, pid: nat, file: File)
    requires Separate(m.ids) && i < |m.ids| && SampleName(m.ids[i]) !in samples && SnapshotName(m.ids[i]) !in samples
    requires Temporary(InSamples(SnapshotName(m.ids[i])), pid) !in temps
    ensures AllAttained(m.ids, i, samples[SnapshotName(m.ids[i]) := file], temps, pid)
       <==> AllAttained(m.ids, i, samples, temps, pid)
  {
    var x, after := m.ids[i], samples[SnapshotName(m.ids[i]) := file];
    assert x in m.ids;
    NamesFollowSafeIds(x, x);
    forall y | y in m.ids
      ensures Attained(m.ids, i, after, temps, pid, y) <==> Attained(m.ids, i, samples, temps, pid, y)
    {
      if y != x {
        OthersUntouched(m.ids, x, y, samples, temps, pid, SnapshotName(x), file);
      }
    }
  }

  lemma SampleAttained(m: Manifest, i: nat, samples: Folder, temps: set<Temporary>, pid: nat, file: File)
    requires Separate(m.ids) && i < |m.ids| && SampleName(m.ids[i]) !in samples && SnapshotName(m.ids[i]) in samples
    requires Temporary(InSamples(SampleName(m.ids[i])), pid) !in temps
    ensures AllAttained(m.ids, i + 1, samples[SampleName(m.ids[i]) := file], temps, pid)
       <==> AllAttained(m.ids, i, samples, temps, pid)
  {
    var x, after := m.ids[i], samples[SampleName(m.ids[i]) := file];
    assert x in m.ids;
    forall y | y in m.ids
      ensures Attained(m.ids, i + 1, after, temps, pid, y) <==> Attained(m.ids, i, samples, temps, pid, y)
    {
      if y != x {
        OthersUntouched(m.ids, x, y, samples, temps, pid, SampleName(x), file);
      }
    }
  }

  ghost predicate AtSample(w: World, m: Manifest) {
    && w.s.pc.Working? && w.s.pc.m == m && w.s.pc.next < |m.ids|
    && (w.s.pc.snapped ==> SnapshotName(m.ids[w.s.pc.next]) in w.s.dir.samples)
  }

  /** A turn on a missing sample. */
  ghost predicate Turn(w: World, m: Manifest) {
    AtSample(w, m) && Separate(m.ids) && SampleName(m.ids[w.s.pc.next]) !in w.s.dir.samples
  }

  /** The call goes on with the samples, and what decides about it stays the same. */
  ghost predicate SameWay(w: World, w': World, m: Manifest, pid: nat) {
    && w.s.pc.Working? && w'.s.pc.Working?
    && (Open(m, w.s.pc.next, w.s.dir.samples, w.temps, pid) <==> Open(m, w'.s.pc.next, w'.s.dir.samples, w'.temps, pid))
  }

  lemma ObstructedSameWay(w: World, m: Manifest, pid: nat)
    requires Turn(w, m) && Meets(w, pid)
    ensures SameWay(w, Go1(w, pid), m, pid)
  {
    var i, samples := w.s.pc.next, w.s.dir.samples;
    var name := if w.s.pc.snapped then SampleName(m.ids[i]) else SnapshotName(m.ids[i]);
    ObstructedAttained(m, i, samples, w.temps, pid, name);
    OthersClear(m, w.temps, pid, m.ids[i], name, 0);
  }

  lemma SampleSameWay(w: World, m: Manifest, pid: nat)
    requires Turn(w, m) && w.s.pc.snapped && !Meets(w, pid)
    ensures SameWay(w, Go1(w, pid), m, pid)
  {
    SampleAttained(m, w.s.pc.next, w.s.dir.samples, w.temps, pid, Result(m, m.ids[w.s.pc.next]));
  }

  lemma SnapshotSameWay(w: World, m: Manifest, pid: nat)
    requires Turn(w, m) && !w.s.pc.snapped && SnapshotName(m.ids[w.s.pc.next]) !in w.s.dir.samples && !Meets(w, pid)
    ensures SameWay(w, Go1(w, pid), m, pid)
  {
    SnapshotAttained(m, w.s.pc.next, w.s.dir.samples, w.temps, pid, Snapshot(m, m.ids[w.s.pc.next]));
  }

  lemma PresentSameWay(w: World, m: Manifest, pid: nat)
    requires AtSample(w, m) && SampleName(m.ids[w.s.pc.next]) in w.s.dir.samples
    ensures SameWay(w, Go1(w, pid), m, pid)
  {
    PresentAttained(m, w.s.pc.next, w.s.dir.samples, w.temps, pid);
  }

  lemma WorkSameWay(w: World, m: Manifest, pid: nat)
    requires AtSample(w, m) && Separate(m.ids)
    ensures SameWay(w, Go1(w, pid), m, pid)
  {
    if SampleName(m.ids[w.s.pc.next]) in w.s.dir.samples {
      PresentSameWay(w, m, pid);
    } else if Meets(w, pid) {
      ObstructedSameWay(w, m, pid);
    } else if w.s.pc.snapped {
      SampleSameWay(w, m, pid);
    } else if SnapshotName(m.ids[w.s.pc.next]) !in w.s.dir.samples {
      SnapshotSameWay(w, m, pid);
    }
  }

  lemma SameWayOnCourse(w: World, w': World, m: Manifest, pid: nat)
    requires SameWay(w, w', m, pid)
    ensures OnCourse(w, m, pid) <==> OnCourse(w', m, pid)
  {
  }

  /** When no turn is left, attained means present. */
  lemma WorkedOnCourse(w: World, m: Manifest, pid: nat)
    requires Good(w.s, m) && Separate(m.ids) && w.s.pc.Working? && w.s.pc.next == |m.ids|
    ensures OnCourse(w, m, pid) <==> OnCourse(Go1(w, pid), m, pid)
  {
    var samples := w.s.dir.samples;
    forall id | id in m.ids ensures Attained(m.ids, |m.ids|, samples, w.temps, pid, id) <==> Done(samples, id) {
      if SampleName(id) in samples {
        SampleFile(m, samples, id);
      }
    }
  }

  lemma DeriveOnCourse(w: World, m: Manifest, pid: nat)
    requires Good(w.s, m) && Separate(m.ids) && w.s.pc.Deriving?
    ensures OnCourse(w, m, pid) <==> OnCourse(Go1(w, pid), m, pid)
  {
    var k := w.s.pc.k;
    if k < |Derived(m)| && w.s.pc.removed {
      if Meets(w, pid) {
        EndHasAll(m);
        assert Derived(m)[k] in Derived(m);
      } else {
        assert Clear(m, k, w.temps, pid) <==> Clear(m, k + 1, w.temps, pid);
      }
    }
  }

  lemma ValidIsAll(m: Manifest, samples: Folder)
    requires Separate(m.ids) && GoodSamples(m, samples) && ValidSamples(m, samples)
    ensures AllFiles(m, samples)
  {
    forall id | id in m.ids ensures Done(samples, id) {
      assert Completed(samples, id);
      var name :| Loads(samples, name, id);
      LoadedUnderItsName(m, samples, name, id);
      SampleFile(m, samples, id);
    }
  }

  lemma SealOnCourse(w: World, m: Manifest, pid: nat)
    requires Good(w.s, m) && Separate(m.ids) && w.s.pc.Sealing?
    ensures OnCourse(w, m, pid) <==> OnCourse(Go1(w, pid), m, pid)
  {
    if !AllFiles(m, w.s.dir.samples) {
      SealWithoutAll(w, m, pid);
    } else if !Sealable(m) {
      EndIsFinal(m, w.s.dir.samples);
      FinishUnsealable(w.s, m);
      SealingEnds(w.s, m);
    } else if w.s.pc.made {
      SealMade(w, m, pid);
    } else {
      AllFilesAreValid(m, w.s.dir.samples);
      RequiredPresent(w.s.dir, m);
    }
  }

  lemma SealWithoutAll(w: World, m: Manifest, pid: nat)
    requires Good(w.s, m) && Separate(m.ids) && w.s.pc.Sealing? && !AllFiles(m, w.s.dir.samples)
    ensures !OnCourse(Go1(w, pid), m, pid)
  {
    if ValidSamples(m, w.s.dir.samples) {
      ValidIsAll(m, w.s.dir.samples);
    }
    EndHasAll(m);
  }

  lemma SealMade(w: World, m: Manifest, pid: nat)
    requires Good(w.s, m) && Separate(m.ids) && w.s.pc.Sealing? && w.s.pc.made
    requires AllFiles(m, w.s.dir.samples) && Sealable(m)
    ensures OnCourse(w, m, pid) <==> OnCourse(Go1(w, pid), m, pid)
  {
    if Meets(w, pid) {
      EndHasAll(m);
    } else {
      var d := w.s.dir;
      AllFilesAreValid(m, d.samples);
      RequiredPresent(d, m);
      RootIsFinal(d, m);
      EndIsFinal(m, d.samples);
      assert d == Dir(FinalRoot(m, d.samples), d.samples, true, None);
    }
  }

  lemma StepOnCourse(w: World, m: Manifest, pid: nat)
    requires Good(w.s, m) && Separate(m.ids) && !w.s.pc.Idle?
    ensures OnCourse(w, m, pid) <==> OnCourse(Go1(w, pid), m, pid)
  {
    match w.s.pc
    case Working(_, i, _) =>
      if i < |m.ids| {
        WorkSameWay(w, m, pid);
        SameWayOnCourse(w, Go1(w, pid), m, pid);
      } else {
        WorkedOnCourse(w, m, pid);
      }
    case Deriving(_, _, _) => DeriveOnCourse(w, m, pid);
    case Sealing(_, _) => SealOnCourse(w, m, pid);
  }

  lemma {:induction false} EndsOnCourse(w: World, m: Manifest, pid: nat)
    requires Good(w.s, m) && Separate(m.ids)
    ensures OnCourse(w, m, pid) <==> RunToEnd1(w, pid).s.dir == End(EMPTY, m)
    decreases Stage(w.s.pc), Left(w.s.pc)
  {
    if !w.s.pc.Idle? {
      Go1Descends(w, pid);
      Go1Refines(w, pid);
      StepKeeps(w.s, Go1(w, pid).s, m);
      StepOnCourse(w, m, pid);
      EndsOnCourse(Go1(w, pid), m, pid);
    }
  }

  // ----- the exact condition -----

  /** What a caller can check beforehand: the run is sealed, or no temporary of this pid is in the way of the manifest,
      of a file to rewrite or of the seal, and every missing sample has more turns than hurdles. */
  ghost predicate Passable(d: Dir, m: Manifest, temps: set<Temporary>, pid: nat) {
    d.sealed.None? ==>
      && (MANIFEST !in d.root ==> Temporary(MANIFEST, pid) !in temps)
      && (forall id :: id in m.ids && SampleName(id) !in d.samples ==> Hurdles(d.samples, temps, pid, id) < multiset(m.ids)[id])
      && (forall name :: name in Derived(m) ==> Temporary(name, pid) !in temps)
      && (Sealable(m) ==> Temporary(SEAL, pid) !in temps)
  }

  lemma {:induction false} TurnsAll(ids: seq<string>, i: nat, id: string)
    requires i <= |ids|
    ensures Turns(ids, i, id) == multiset(ids[i..])[id]
    decreases |ids| - i
  {
    if i < |ids| {
      TurnsAll(ids, i + 1, id);
      assert ids[i..] == [ids[i]] + ids[i + 1..];
    }
  }

  lemma PassableIsOnCourse(d: Dir, m: Manifest, temps: set<Temporary>, pid: nat)
    requires d.sealed.None? && (MANIFEST in d.root || Temporary(MANIFEST, pid) !in temps)
    ensures Passable(d, m, temps, pid)
       <==> AllAttained(m.ids, 0, d.samples, temps, pid) && Clear(m, 0, temps, pid) && SealClear(m, temps, pid)
  {
    assert m.ids[0..] == m.ids;
    forall id | id in m.ids
      ensures Attained(m.ids, 0, d.samples, temps, pid, id)
         <==> SampleName(id) in d.samples || Hurdles(d.samples, temps, pid, id) < multiset(m.ids)[id]
    {
      TurnsAll(m.ids, 0, id);
    }
    assert Clear(m, 0, temps, pid) <==> forall name :: name in Derived(m) ==> Temporary(name, pid) !in temps;
  }

  /** However calls crashed, samples failed and the run was resumed before, and whatever temporaries were left: one
      call without failures ends with the directory of one uninterrupted call exactly when its way is passable. */
  lemma ConvergesIffPassable(s: State, m: Manifest, temps: set<Temporary>, pid: nat)
    requires Resumable(s, m) && Separate(m.ids)
    ensures CallUnder(s, m, temps, pid).s.dir == End(EMPTY, m) <==> Passable(s.dir, m, temps, pid)
  {
    ResumableIsStartable(s, m);
    var w := Enter1(s.dir, m, temps, pid);
    if s.dir.sealed.Some? {
      Converges(s, m);
    } else if MANIFEST !in s.dir.root && Temporary(MANIFEST, pid) in temps {
      EndHasAll(m);
    } else {
      if s.dir == EMPTY { EnterEmpty(m); } else { EnterKeeps(s.dir, m, m); }
      PassableIsOnCourse(s.dir, m, temps, pid);
      EndsOnCourse(w, m, pid);
    }
  }

  /** The files that a call would write: the manifest of a new run, missing samples with their missing snapshots, the
      derived files, and the seal of a run that can be sealed. */
  ghost predicate Pending(d: Dir, m: Manifest, file: string) {
    d.sealed.None? &&
      (|| (MANIFEST !in d.root && file == MANIFEST)
       || (exists id :: id in m.ids && PendingSample(d.samples, id, file))
       || file in Derived(m)
       || (Sealable(m) && file == SEAL))
  }

  predicate PendingSample(samples: Folder, id: string, file: string) {
    && SampleName(id) !in samples
    && (file == InSamples(SampleName(id)) || (SnapshotName(id) !in samples && file == InSamples(SnapshotName(id))))
  }

  /** No temporary of this pid lies where the call would write. */
  ghost predicate NothingPending(d: Dir, m: Manifest, temps: set<Temporary>, pid: nat) {
    forall t :: t in temps && t.pid == pid ==> !Pending(d, m, t.file)
  }

  lemma HurdlesArePending(samples: Folder, temps: set<Temporary>, pid: nat, id: string)
    requires SampleName(id) !in samples
    ensures Hurdles(samples, temps, pid, id) == 0 <==> forall t :: t in temps && t.pid == pid ==> !PendingSample(samples, id, t.file)
  {
    var a, b := Temporary(InSamples(SampleName(id)), pid), Temporary(InSamples(SnapshotName(id)), pid);
    assert PendingSample(samples, id, a.file) && (SnapshotName(id) !in samples ==> PendingSample(samples, id, b.file));
  }

  lemma OccursOnce(ids: seq<string>, id: string)
    requires id in ids
    ensures multiset(ids)[id] >= 1 && (NoRepeats(ids) ==> multiset(ids)[id] == 1)
  {
    assert id in multiset(ids);
    if NoRepeats(ids) {
      var k :| 0 <= k < |ids| && ids[k] == id;
      assert ids == ids[..k] + [id] + ids[k + 1..];
    }
  }

  lemma PassableIffNothingPending(d: Dir, m: Manifest, temps: set<Temporary>, pid: nat)
    ensures NothingPending(d, m, temps, pid) ==> Passable(d, m, temps, pid)
    ensures NoRepeats(m.ids) && Passable(d, m, temps, pid) ==> NothingPending(d, m, temps, pid)
  {
    forall id | id in m.ids && SampleName(id) !in d.samples
      ensures d.sealed.None? && NothingPending(d, m, temps, pid) ==> Hurdles(d.samples, temps, pid, id) < multiset(m.ids)[id]
      ensures NoRepeats(m.ids) && Hurdles(d.samples, temps, pid, id) < multiset(m.ids)[id] ==>
                forall t :: t in temps && t.pid == pid ==> !PendingSample(d.samples, id, t.file)
    {
      OccursOnce(m.ids, id);
      HurdlesArePending(d.samples, temps, pid, id);
    }
    if d.sealed.None? && NothingPending(d, m, temps, pid) {
      assert forall name :: Temporary(name, pid) in temps ==> !Pending(d, m, Temporary(name, pid).file);
    }
  }

  /** When no id repeats, that is: exactly when no temporary of this pid lies where the call would write. */
  lemma ConvergesIffNothingPending(s: State, m: Manifest, temps: set<Temporary>, pid: nat)
    requires Resumable(s, m) && Separate(m.ids) && NoRepeats(m.ids)
    ensures CallUnder(s, m, temps, pid).s.dir == End(EMPTY, m) <==> NothingPending(s.dir, m, temps, pid)
  {
    ConvergesIffPassable(s, m, temps, pid);
    PassableIffNothingPending(s.dir, m, temps, pid);
  }

  /** A crash while writing the summary makes the next call under the same pid fail. */
  lemma LeftSummaryDisturbs(m: Manifest, pid: nat)
    requires Separate(m.ids)
    ensures CallUnder(State(EMPTY, Idle, NoReply), m, {Temporary(SUMMARY, pid)}, pid).s.dir != End(EMPTY, m)
  {
    ReachableStart();
    DerivedNames(m);
    ConvergesIffPassable(State(EMPTY, Idle, NoReply), m, {Temporary(SUMMARY, pid)}, pid);
  }

  /** An id that repeats has another turn: the sample fails once and the call converges all the same. */
  lemma RepeatGetsPast(id: string, m: Manifest, pid: nat)
    requires m.ids == [id, id]
    ensures CallUnder(State(EMPTY, Idle, NoReply), m, {Temporary(InSamples(SampleName(id)), pid)}, pid).s.dir == End(EMPTY, m)
  {
    var temps := {Temporary(InSamples(SampleName(id)), pid)};
    ReachableStart();
    NamesFollowSafeIds(id, id);
    InSamplesInjective(SampleName(id), SnapshotName(id));
    SamplesApart(m, id);
    assert InSamples(SampleName(id))[0] == 's' && MANIFEST[0] == 'm';
    assert Hurdles(map[], temps, pid, id) == 1 && multiset(m.ids)[id] == 2;
    assert Passable(EMPTY, m, temps, pid);
    ConvergesIffPassable(State(EMPTY, Idle, NoReply), m, temps, pid);
  }
}
