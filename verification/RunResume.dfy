/** Crashing, failing and resuming: when every history ends like the uninterrupted run. */
module RunResume {
  import opened SafeNames
  import opened RunModel
  import opened RunSafety
  import opened Prelude

  function Stage(pc: Pc): nat {
    match pc
    case Working(_, _, _) => 3
    case Deriving(_, _, _) => 2
    case Sealing(_, _) => 1
    case Idle => 0
  }

  function Left(pc: Pc): nat {
    match pc
    case Working(m, i, snapped) => if i <= |m.ids| then 2 * (|m.ids| - i) + (if snapped then 0 else 1) else 0
    case Deriving(m, k, removed) =>
      if k <= |Derived(m)| then 2 * (|Derived(m)| - k) + (if removed then 0 else 1) else 0
    case Sealing(m, made) => if made then 0 else 1
    case Idle => 0
  }

  lemma GoDescends(s: State)
    requires !s.pc.Idle?
    ensures Stage(Go(s).pc) < Stage(s.pc) || (Stage(Go(s).pc) == Stage(s.pc) && Left(Go(s).pc) < Left(s.pc))
  {
  }

  /** A call carried through without a failure or a crash. */
  ghost function RunToEnd(s: State): State
    decreases Stage(s.pc), Left(s.pc)
  {
    if s.pc.Idle? then s
    else
      GoDescends(s);
      RunToEnd(Go(s))
  }

  ghost function End(d: Dir, m: Manifest): Dir {
    RunToEnd(Enter(d, m)).dir
  }

  lemma {:induction false} EndIsGood(s: State, m: Manifest)
    requires Good(s, m)
    ensures Good(RunToEnd(s), m) && RunToEnd(s).pc.Idle? && Within(s.dir.samples, RunToEnd(s).dir.samples)
    decreases Stage(s.pc), Left(s.pc)
  {
    if !s.pc.Idle? {
      GoDescends(s);
      GoKeeps(s, m);
      GoAdds(s);
      EndIsGood(Go(s), m);
    }
  }

  // ----- the sample files -----

  lemma SampleFile(m: Manifest, samples: Folder, id: string)
    requires Separate(m.ids) && GoodSamples(m, samples) && id in m.ids && SampleName(id) in samples
    ensures samples[SampleName(id)] == Result(m, id) && SnapshotName(id) in samples
  {
    var name := SampleName(id);
    assert Belongs(m, name, samples[name]) && Snapped(samples, name);
    if x :| x in m.ids && name == SampleName(x) && samples[name] == Result(m, x) {
      NamesFollowSafeIds(x, id);
    }
  }

  lemma SnapshotFile(m: Manifest, samples: Folder, id: string)
    requires Separate(m.ids) && GoodSamples(m, samples) && id in m.ids && SnapshotName(id) in samples
    ensures samples[SnapshotName(id)] == Snapshot(m, id)
  {
    var name := SnapshotName(id);
    assert Belongs(m, name, samples[name]);
    if x :| x in m.ids && name == SnapshotName(x) && samples[name] == Snapshot(m, x) {
      NamesFollowSafeIds(x, id);
    }
  }

  ghost predicate Done(samples: Folder, id: string) {
    SampleName(id) in samples && SnapshotName(id) in samples
  }

  /** Everything the run can write into the samples folder, and nothing else. */
  ghost predicate AllFiles(m: Manifest, samples: Folder) {
    GoodSamples(m, samples) && forall id :: id in m.ids ==> Done(samples, id)
  }

  lemma AllFilesWithin(m: Manifest, a: Folder, b: Folder)
    requires Separate(m.ids) && AllFiles(m, a) && AllFiles(m, b)
    ensures Within(a, b)
  {
    forall name | name in a ensures name in b && b[name] == a[name] {
      assert Belongs(m, name, a[name]);
      if x :| x in m.ids && name == SampleName(x) && a[name] == Result(m, x) {
        assert Done(b, x);
        SampleFile(m, b, x);
      } else {
        var x :| x in m.ids && name == SnapshotName(x) && a[name] == Snapshot(m, x);
        assert Done(b, x);
        SnapshotFile(m, b, x);
      }
    }
  }

  lemma AllFilesUnique(m: Manifest, a: Folder, b: Folder)
    requires Separate(m.ids) && AllFiles(m, a) && AllFiles(m, b)
    ensures a == b
  {
    AllFilesWithin(m, a, b);
    AllFilesWithin(m, b, a);
  }

  ghost predicate DoneUpTo(m: Manifest, samples: Folder, i: nat) {
    i <= |m.ids| && forall j :: 0 <= j < i ==> Done(samples, m.ids[j])
  }

  lemma DoneStays(m: Manifest, a: Folder, b: Folder, i: nat)
    requires DoneUpTo(m, a, i) && Within(a, b)
    ensures DoneUpTo(m, b, i)
  {
    forall j | 0 <= j < i ensures Done(b, m.ids[j]) {
      assert Done(a, m.ids[j]);
    }
  }

  lemma WorkAdvances(s: State, m: Manifest)
    requires Good(s, m) && s.pc.Working? && s.pc.next < |m.ids| && Separate(m.ids)
    ensures var t := Go(s);
            t.pc.Working? && t.dir == s.dir.(samples := t.dir.samples)
            && (t.pc.next == s.pc.next || (t.pc.next == s.pc.next + 1 && Done(t.dir.samples, m.ids[s.pc.next])))
  {
    var id := m.ids[s.pc.next];
    assert id in m.ids;
    if SampleName(id) in s.dir.samples {
      SampleFile(m, s.dir.samples, id);
    }
  }

  lemma DoneOneMore(m: Manifest, samples: Folder, i: nat)
    requires DoneUpTo(m, samples, i) && i < |m.ids| && Done(samples, m.ids[i])
    ensures DoneUpTo(m, samples, i + 1)
  {
  }

  lemma WorkDoes(s: State, m: Manifest)
    requires Good(s, m) && s.pc.Working? && s.pc.next < |m.ids| && Separate(m.ids)
    requires DoneUpTo(m, s.dir.samples, s.pc.next)
    ensures Go(s).pc.Working? && DoneUpTo(m, Go(s).dir.samples, Go(s).pc.next)
    ensures Go(s).dir == s.dir.(samples := Go(s).dir.samples)
  {
    var i, t := s.pc.next, Go(s);
    WorkAdvances(s, m);
    GoAdds(s);
    DoneStays(m, s.dir.samples, t.dir.samples, i);
    if t.pc.next != i {
      DoneOneMore(m, t.dir.samples, i);
    }
  }

  lemma {:induction false} WorkEnds(s: State, m: Manifest) returns (d: Dir)
    requires Good(s, m) && s.pc.Working? && Separate(m.ids) && DoneUpTo(m, s.dir.samples, s.pc.next)
    ensures var after := State(d, Deriving(m, 0, false), NoReply);
            RunToEnd(s) == RunToEnd(after) && Good(after, m) && AllFiles(m, d.samples)
    decreases Left(s.pc)
  {
    GoDescends(s);
    if s.pc.next < |m.ids| {
      WorkDoes(s, m);
      GoKeeps(s, m);
      d := WorkEnds(Go(s), m);
    } else {
      GoKeeps(s, m);
      d := s.dir;
      forall id | id in m.ids ensures Done(d.samples, id) {
        var j :| 0 <= j < |m.ids| && m.ids[j] == id;
      }
    }
  }

  // ----- the root files and the seal -----

  function FinalRoot(m: Manifest, samples: Folder): Folder {
    (map name | name in Derived(m) :: Artifact(name, m, samples))[MANIFEST := ManifestFile(m)]
  }

  lemma RootIsFinal(d: Dir, m: Manifest)
    requires GoodDir(d, m) && UpToDate(d, m, |Derived(m)|)
    ensures d.root == FinalRoot(m, d.samples)
  {
    DerivedNames(m);
    forall name | name in Derived(m) ensures Current(d, m, name) {
      CurrentAll(d, m, name);
    }
  }

  lemma {:induction false} DeriveEnds(s: State, m: Manifest) returns (d: Dir)
    requires Good(s, m) && s.pc.Deriving?
    ensures var after := State(d, Sealing(m, false), NoReply);
            RunToEnd(s) == RunToEnd(after) && Good(after, m) && d.samples == s.dir.samples
    decreases Left(s.pc)
  {
    GoDescends(s);
    GoKeeps(s, m);
    if s.pc.k < |Derived(m)| {
      d := DeriveEnds(Go(s), m);
    } else {
      d := s.dir;
    }
  }

  ghost function Final(m: Manifest, samples: Folder): Dir {
    var root := FinalRoot(m, samples);
    if Sealable(m) then
      var d := Dir(root, samples, true, None);
      d.(sealed := Some(Seal(d, m)))
    else Dir(root, samples, false, None)
  }

  lemma AllFilesAreValid(m: Manifest, samples: Folder)
    requires AllFiles(m, samples) && Clean(m.ids) && NoRepeats(m.ids)
    ensures ValidSamples(m, samples)
  {
    CleanIsSeparate(m.ids);
    forall id | id in m.ids ensures Completed(samples, id) {
      assert Done(samples, id);
      SampleFile(m, samples, id);
      assert Loads(samples, SampleName(id), id);
    }
    forall f, g | f in samples && g in samples && SameSample(samples, f, g) ensures f == g {
      LoadedUnderItsName(m, samples, f, samples[f].id);
      LoadedUnderItsName(m, samples, g, samples[f].id);
    }
  }

  lemma RequiredPresent(d: Dir, m: Manifest)
    requires GoodDir(d, m) && UpToDate(d, m, |Derived(m)|)
    ensures HasRequired(d, m) && SUMMARY in d.root
  {
    DerivedNames(m);
    CurrentAll(d, m, SUMMARY);
    forall name | name in Required(m.artifactClass) ensures name in d.root {
      UpToDateHas(d, m, name);
    }
  }

  lemma SealSame(d: Dir, e: Dir, m: Manifest)
    requires d.root == e.root
    ensures Seal(d, m) == Seal(e, m)
  {
  }

  lemma FinishUnsealable(s: State, m: Manifest)
    requires Good(s, m) && s.pc == Sealing(m, false) && !Sealable(m)
    ensures RunToEnd(s).dir == s.dir && !s.dir.sealedDir
  {
    if ValidSamples(m, s.dir.samples) {
      ValidMeansClean(m, s.dir.samples);
    }
    assert Go(s).pc.Idle? && RunToEnd(Go(s)) == Go(s);
  }

  lemma FinishSealable(s: State, m: Manifest)
    requires Good(s, m) && s.pc == Sealing(m, false) && Sealable(m) && AllFiles(m, s.dir.samples)
    ensures RunToEnd(s).dir == s.dir.(sealedDir := true, sealed := Some(Seal(s.dir, m)))
  {
    AllFilesAreValid(m, s.dir.samples);
    RequiredPresent(s.dir, m);
    var mid := Go(s);
    assert mid == State(s.dir.(sealedDir := true), Sealing(m, true), NoReply);
    SealSame(s.dir, mid.dir, m);
    assert HasRequired(mid.dir, m);
    var last := Go(mid);
    assert last.pc.Idle? && RunToEnd(last) == last;
    assert RunToEnd(mid) == RunToEnd(last);
  }

  lemma SealingEnds(s: State, m: Manifest)
    requires Good(s, m) && s.pc == Sealing(m, false) && AllFiles(m, s.dir.samples)
    ensures RunToEnd(s).dir == Final(m, s.dir.samples)
  {
    RootIsFinal(s.dir, m);
    if Sealable(m) {
      FinishSealable(s, m);
      SealSame(s.dir, Dir(s.dir.root, s.dir.samples, true, None), m);
    } else {
      FinishUnsealable(s, m);
    }
  }

  // ----- a resumed call -----

  /** A directory that a call with this manifest may start from. */
  ghost predicate Startable(d: Dir, m: Manifest) {
    d == EMPTY || GoodDir(d, m)
  }

  lemma SealedIsFinal(d: Dir, m: Manifest)
    requires GoodDir(d, m) && d.sealed.Some? && Separate(m.ids)
    ensures AllFiles(m, d.samples) && d == Final(m, d.samples)
  {
    RootIsFinal(d, m);
    forall id | id in m.ids ensures Done(d.samples, id) {
      assert Completed(d.samples, id);
      var name :| Loads(d.samples, name, id);
      LoadedUnderItsName(m, d.samples, name, id);
      SampleFile(m, d.samples, id);
    }
    SealSame(d, Dir(d.root, d.samples, true, None), m);
  }

  lemma CallEnds(d: Dir, m: Manifest) returns (samples: Folder)
    requires Startable(d, m) && Separate(m.ids)
    ensures AllFiles(m, samples) && End(d, m) == Final(m, samples)
  {
    var s := Enter(d, m);
    if d.sealed.Some? {
      EnterKeeps(d, m, m);
      SealedIsFinal(d, m);
      samples := d.samples;
      assert RunToEnd(s) == s;
    } else {
      if d == EMPTY { EnterEmpty(m); } else { EnterKeeps(d, m, m); }
      var worked := WorkEnds(s, m);
      var derived := DeriveEnds(State(worked, Deriving(m, 0, false), NoReply), m);
      SealingEnds(State(derived, Sealing(m, false), NoReply), m);
      samples := derived.samples;
    }
  }

  lemma SameEnd(d: Dir, e: Dir, m: Manifest)
    requires Startable(d, m) && Startable(e, m) && Separate(m.ids)
    ensures End(d, m) == End(e, m)
  {
    var a := CallEnds(d, m);
    var b := CallEnds(e, m);
    AllFilesUnique(m, a, b);
  }

  // ----- histories -----

  ghost predicate Reaches(run: seq<State>, s: State) {
    Run(run) && run[|run| - 1] == s
  }

  ghost predicate Reachable(s: State) {
    exists run :: Reaches(run, s)
  }

  /** Between two calls, in a directory that is new or whose manifest is this one. */
  ghost predicate Resumable(s: State, m: Manifest) {
    Reachable(s) && s.pc.Idle? && (s.dir == EMPTY || HasManifest(s.dir, m))
  }

  lemma ReachableStart()
    ensures Reachable(State(EMPTY, Idle, NoReply))
  {
    var run := [State(EMPTY, Idle, NoReply)];
    assert Reaches(run, State(EMPTY, Idle, NoReply));
  }

  lemma ReachableStep(s: State, s': State)
    requires Reachable(s) && Step(s, s')
    ensures Reachable(s')
  {
    var run :| Reaches(run, s);
    var longer := run + [s'];
    assert Run(longer) by {
      forall k | 0 < k < |longer| ensures StepAt(longer, k) {
        if k < |run| {
          assert StepAt(run, k);
        }
      }
    }
    assert Reaches(longer, s');
  }

  lemma ResumableIsStartable(s: State, m: Manifest)
    requires Resumable(s, m)
    ensures Startable(s.dir, m)
  {
    var run :| Reaches(run, s);
    RunKeeps(run, |run| - 1);
  }

  /** However calls crashed, samples failed and the run was resumed before: one call without failures ends with the
      directory that a single uninterrupted call makes, file for file. */
  lemma Converges(s: State, m: Manifest)
    requires Resumable(s, m) && Separate(m.ids)
    ensures End(s.dir, m) == End(EMPTY, m)
  {
    ResumableIsStartable(s, m);
    SameEnd(s.dir, EMPTY, m);
  }

  function Begun(m: Manifest): Dir {
    EMPTY.(root := map[MANIFEST := ManifestFile(m)])
  }

  lemma FirstCall(m: Manifest)
    ensures Reachable(State(Begun(m), Working(m, 0, false), NoReply))
  {
    ReachableStart();
    var s, t := State(EMPTY, Idle, NoReply), State(Begun(m), Working(m, 0, false), NoReply);
    assert t == Enter(EMPTY, m);
    assert Call(s, t);
    ReachableStep(s, t);
  }

  /** A first call whose samples before the i-th all failed. */
  ghost predicate FailedUpTo(m: Manifest, i: nat) {
    Reachable(State(Begun(m), Working(m, i, false), NoReply))
  }

  lemma NoneFailedYet(m: Manifest)
    ensures FailedUpTo(m, 0)
  {
    FirstCall(m);
  }

  lemma FailOnce(m: Manifest, i: nat, next: nat)
    requires FailedUpTo(m, i) && i < |m.ids| && next == i + 1
    ensures FailedUpTo(m, next)
  {
    var s, t := State(Begun(m), Working(m, i, false), NoReply), State(Begun(m), Working(m, next, false), NoReply);
    assert SampleFails(s, t);
    ReachableStep(s, t);
  }

  lemma {:induction false} AllFail(m: Manifest, i: nat)
    requires i <= |m.ids|
    ensures FailedUpTo(m, i)
    decreases i
  {
    if i == 0 {
      NoneFailedYet(m);
    } else {
      AllFail(m, i - 1);
      FailOnce(m, i - 1, i);
    }
  }

  /** Only the i-th sample succeeds, then the runner crashes. */
  lemma OnlyOne(m: Manifest, i: nat) returns (s: State)
    requires i < |m.ids|
    ensures Resumable(s, m)
    ensures s.dir.samples == map[SnapshotName(m.ids[i]) := Snapshot(m, m.ids[i]), SampleName(m.ids[i]) := Result(m, m.ids[i])]
  {
    var id := m.ids[i];
    NamesFollowSafeIds(id, id);
    AllFail(m, i);
    var a := State(Begun(m), Working(m, i, false), NoReply);
    var b := Go(a);
    ReachableStep(a, b);
    var c := Go(b);
    ReachableStep(b, c);
    s := State(c.dir, Idle, Lost);
    assert Crash(c, s);
    ReachableStep(c, s);
  }

  lemma EndKeeps(s: State, m: Manifest)
    requires Resumable(s, m)
    ensures Within(s.dir.samples, End(s.dir, m).samples)
  {
    ResumableIsStartable(s, m);
    if s.dir == EMPTY { EnterEmpty(m); } else { EnterKeeps(s.dir, m, m); }
    EndIsGood(Enter(s.dir, m), m);
  }

  ghost predicate EndsAlike(m: Manifest) {
    forall s, t :: Resumable(s, m) && Resumable(t, m) ==> End(s.dir, m) == End(t.dir, m)
  }

  lemma Diverges(m: Manifest, x: string, y: string, name: string)
    requires x in m.ids && y in m.ids && x != y && name == SampleName(x)
    requires name == SampleName(y) || name == SnapshotName(y)
    ensures !EndsAlike(m)
  {
    var i :| 0 <= i < |m.ids| && m.ids[i] == x;
    var j :| 0 <= j < |m.ids| && m.ids[j] == y;
    var s := OnlyOne(m, i);
    var t := OnlyOne(m, j);
    EndKeeps(s, m);
    EndKeeps(t, m);
    NamesFollowSafeIds(y, y);
    assert s.dir.samples[name] == Result(m, x);
    assert t.dir.samples[name] != Result(m, x);
  }

  /** All histories end alike exactly when the ids' file names are separate. */
  lemma ConvergesIffSeparate(m: Manifest)
    ensures EndsAlike(m) <==> Separate(m.ids)
  {
    if Separate(m.ids) {
      forall s, t | Resumable(s, m) && Resumable(t, m) ensures End(s.dir, m) == End(t.dir, m) {
        Converges(s, m);
        Converges(t, m);
      }
    } else if x, y :| x in m.ids && y in m.ids && SafeId(x) == SafeId(y) && x != y {
      NamesFollowSafeIds(x, y);
      Diverges(m, x, y, SampleName(x));
    } else {
      var x, y :| x in m.ids && y in m.ids && SampleName(x) == SnapshotName(y);
      NamesFollowSafeIds(x, y);
      Diverges(m, x, y, SampleName(x));
    }
  }

  /** An uninterrupted call seals the directory exactly when the manifest is admissible and its ids are clean. */
  lemma SealsIffSealable(m: Manifest)
    ensures End(EMPTY, m).sealed.Some? <==> Sealable(m)
  {
    EnterEmpty(m);
    EndIsGood(Enter(EMPTY, m), m);
    if Sealable(m) {
      CleanIsSeparate(m.ids);
      var samples := CallEnds(EMPTY, m);
    }
  }
}
