/** The run machine with the temporaries that crashes inside a write leave behind for good: what they can disturb,
    and how many calls it takes to get past them. */
module RunTemps {
  import opened Prelude
  import opened SafeNames
  import opened RunModel
  import opened RunSafety
  import opened RunResume

  /** `.name.pid.tmp` beside the file. */
  datatype Temporary = Temporary(file: string, pid: nat)

  datatype World = World(s: State, temps: set<Temporary>)

  const SEAL := "finalized/FINALIZED.json"

  function InSamples(name: string): string {
    "samples/" + name
  }

  /** The file that the next step writes once, if it writes one. */
  function Writes(s: State): Option<string> {
    match s.pc
    case Working(m, i, snapped) =>
      if i >= |m.ids| || SampleName(m.ids[i]) in s.dir.samples then None
      else if snapped then Some(InSamples(SampleName(m.ids[i])))
      else if SnapshotName(m.ids[i]) in s.dir.samples then None
      else Some(InSamples(SnapshotName(m.ids[i])))
    case Deriving(m, k, removed) => if k < |Derived(m)| && removed then Some(Derived(m)[k]) else None
    case Sealing(m, made) => if made then Some(SEAL) else None
    case Idle => None
  }

  predicate WritesManifest(d: Dir) {
    d.sealed.None? && MANIFEST !in d.root && !d.sealedDir
  }

  /** A write that meets a temporary of its own name raises and removes it: a sample fails, any other call is lost. */
  function Obstructed(s: State): State {
    if s.pc.Working? then State(s.dir, Working(s.pc.m, s.pc.next + 1, false), NoReply) else State(s.dir, Idle, Lost)
  }

  predicate Meets(w: World, pid: nat) {
    Writes(w.s).Some? && Temporary(Writes(w.s).value, pid) in w.temps
  }

  function Go1(w: World, pid: nat): World
    requires !w.s.pc.Idle?
  {
    if Meets(w, pid) then World(Obstructed(w.s), w.temps - {Temporary(Writes(w.s).value, pid)})
    else World(Go(w.s), w.temps)
  }

  function Enter1(d: Dir, m: Manifest, temps: set<Temporary>, pid: nat): World {
    if WritesManifest(d) && Temporary(MANIFEST, pid) in temps
    then World(State(d, Idle, Lost), temps - {Temporary(MANIFEST, pid)})
    else World(Enter(d, m), temps)
  }

  ghost predicate Called(w: World, w': World) {
    w.s.pc.Idle? && exists m, pid :: w' == Enter1(w.s.dir, m, w.temps, pid)
  }

  ghost predicate Went(w: World, w': World) {
    !w.s.pc.Idle? && exists pid :: w' == Go1(w, pid)
  }

  /** A crash inside a write leaves its temporary. */
  ghost predicate CrashedInside(w: World, w': World) {
    && Crash(w.s, w'.s)
    && (w'.temps == w.temps
        || (Writes(w.s).Some? && exists pid :: w'.temps == w.temps + {Temporary(Writes(w.s).value, pid)})
        || (w.s.pc.Idle? && exists pid :: w'.temps == w.temps + {Temporary(MANIFEST, pid)}))
  }

  /** The runner dies when it has linked the file, before it goes on in `next`. */
  function Linked(w: World, next: State, file: string, pid: nat): World {
    World(State(next.dir, Idle, Lost), w.temps + {Temporary(file, pid)})
  }

  /** A crash between linking the file and removing its temporary leaves both. */
  ghost predicate CrashedLinked(w: World, w': World) {
    || (Writes(w.s).Some? && exists pid :: !Meets(w, pid) && w' == Linked(w, Go(w.s), Writes(w.s).value, pid))
    || (w.s.pc.Idle? && WritesManifest(w.s.dir)
        && exists m, pid :: Temporary(MANIFEST, pid) !in w.temps && w' == Linked(w, Enter(w.s.dir, m), MANIFEST, pid))
  }

  ghost predicate WorldStep(w: World, w': World) {
    || Called(w, w') || Went(w, w') || (SampleFails(w.s, w'.s) && w'.temps == w.temps)
    || CrashedInside(w, w') || CrashedLinked(w, w')
  }

  // ----- safety is not affected -----

  lemma Go1Refines(w: World, pid: nat)
    requires !w.s.pc.Idle?
    ensures Step(w.s, Go1(w, pid).s)
  {
    if Meets(w, pid) {
      if w.s.pc.Working? {
        assert SampleFails(w.s, Obstructed(w.s));
      } else {
        assert Crash(w.s, Obstructed(w.s));
      }
    }
  }

  lemma Enter1Refines(s: State, m: Manifest, temps: set<Temporary>, pid: nat)
    requires s.pc.Idle?
    ensures Step(s, Enter1(s.dir, m, temps, pid).s)
  {
    assert Enter1(s.dir, m, temps, pid).s == Enter(s.dir, m) ==> Call(s, Enter(s.dir, m));
  }

  /** Only a crash after linking takes two steps of the machine. */
  lemma WorldStepRefines(w: World, w': World)
    requires WorldStep(w, w') && !CrashedLinked(w, w')
    ensures Step(w.s, w'.s)
  {
    if Called(w, w') {
      var m, pid :| w' == Enter1(w.s.dir, m, w.temps, pid);
      Enter1Refines(w.s, m, w.temps, pid);
    } else if Went(w, w') {
      var pid :| w' == Go1(w, pid);
      Go1Refines(w, pid);
    }
  }

  /** There the file is written first, then the runner dies. */
  lemma LinkedRefines(w: World, w': World) returns (mid: State)
    requires CrashedLinked(w, w')
    ensures Step(w.s, mid) && Step(mid, w'.s)
  {
    if Writes(w.s).Some? {
      mid := Go(w.s);
    } else {
      var m, pid :| Temporary(MANIFEST, pid) !in w.temps && w' == Linked(w, Enter(w.s.dir, m), MANIFEST, pid);
      mid := Enter(w.s.dir, m);
      assert Call(w.s, mid);
    }
    assert Crash(mid, w'.s);
  }

  ghost predicate WorldStepAt(run: seq<World>, k: int) {
    0 < k < |run| && WorldStep(run[k - 1], run[k])
  }

  ghost predicate WorldRun(run: seq<World>) {
    |run| > 0 && run[0].s == State(EMPTY, Idle, NoReply) && forall k :: 0 < k < |run| ==> WorldStepAt(run, k)
  }

  /** Position `at[k]` of the machine's run is what the k-th world is without its temporaries. */
  ghost predicate Embeds(run: seq<World>, machine: seq<State>, at: seq<nat>) {
    && Run(machine) && |at| == |run|
    && (forall k :: 0 <= k < |at| ==> at[k] < |machine| && machine[at[k]] == run[k].s)
    && forall j, k :: 0 <= j < k < |at| ==> at[j] < at[k]
  }

  lemma RunLonger(run: seq<State>, s: State)
    requires Run(run) && Step(run[|run| - 1], s)
    ensures Run(run + [s])
  {
    var longer := run + [s];
    forall k | 0 < k < |longer| ensures StepAt(longer, k) {
      if k < |run| {
        assert StepAt(run, k);
      }
    }
  }

  lemma WorldRunPrefix(run: seq<World>, n: nat)
    requires WorldRun(run) && 0 < n <= |run|
    ensures WorldRun(run[..n])
  {
    forall k | 0 < k < n ensures WorldStepAt(run[..n], k) {
      assert WorldStepAt(run, k);
    }
  }

  lemma OneMoreStep(w: World, w': World, machine: seq<State>) returns (longer: seq<State>)
    requires WorldStep(w, w') && Run(machine) && machine[|machine| - 1] == w.s
    ensures Run(longer) && machine < longer && longer[|longer| - 1] == w'.s
  {
    if CrashedLinked(w, w') {
      var mid := LinkedRefines(w, w');
      RunLonger(machine, mid);
      RunLonger(machine + [mid], w'.s);
      longer := machine + [mid] + [w'.s];
    } else {
      WorldStepRefines(w, w');
      RunLonger(machine, w'.s);
      longer := machine + [w'.s];
    }
  }

  /** Every run with temporaries is one without, which passes through the same states in the same order: what holds of
      every state, or of every earlier and later state, of a run of the machine holds with temporaries as well. */
  lemma {:induction false} WorldRunRefines(run: seq<World>) returns (machine: seq<State>, at: seq<nat>)
    requires WorldRun(run)
    ensures Embeds(run, machine, at) && at[|at| - 1] == |machine| - 1
    decreases |run|
  {
    var n := |run| - 1;
    if n == 0 {
      machine, at := [run[0].s], [0];
    } else {
      WorldRunPrefix(run, n);
      var before, there := WorldRunRefines(run[..n]);
      assert WorldStepAt(run, n);
      machine := OneMoreStep(run[n - 1], run[n], before);
      at := there + [|machine| - 1];
    }
  }

  lemma WorldReachable(run: seq<World>, k: nat)
    requires WorldRun(run) && k < |run|
    ensures Reachable(run[k].s)
  {
    WorldRunPrefix(run, k + 1);
    var machine, at := WorldRunRefines(run[..k + 1]);
    assert Reaches(machine, run[k].s);
  }

  // ----- a call among temporaries -----

  lemma Go1Descends(w: World, pid: nat)
    requires !w.s.pc.Idle?
    ensures var s, t := w.s, Go1(w, pid).s;
            Stage(t.pc) < Stage(s.pc) || (Stage(t.pc) == Stage(s.pc) && Left(t.pc) < Left(s.pc))
  {
    GoDescends(w.s);
  }

  /** A call carried through under one pid, without a crash. */
  function RunToEnd1(w: World, pid: nat): World
    decreases Stage(w.s.pc), Left(w.s.pc)
  {
    if w.s.pc.Idle? then w
    else
      Go1Descends(w, pid);
      RunToEnd1(Go1(w, pid), pid)
  }

  function CallUnder(s: State, m: Manifest, temps: set<Temporary>, pid: nat): World {
    RunToEnd1(Enter1(s.dir, m, temps, pid), pid)
  }

  /** Either the call meets no temporary and ends as if there were none, or it removes some of its pid. */
  lemma {:induction false} EndsOrRemoves(w: World, pid: nat)
    ensures RunToEnd1(w, pid).temps <= w.temps && RunToEnd1(w, pid).s.pc.Idle?
    ensures forall t :: t in w.temps && t !in RunToEnd1(w, pid).temps ==> t.pid == pid
    ensures RunToEnd1(w, pid).temps == w.temps ==> RunToEnd1(w, pid).s == RunToEnd(w.s)
    decreases Stage(w.s.pc), Left(w.s.pc)
  {
    if !w.s.pc.Idle? {
      Go1Descends(w, pid);
      EndsOrRemoves(Go1(w, pid), pid);
      if Meets(w, pid) {
        assert Temporary(Writes(w.s).value, pid) in w.temps && Temporary(Writes(w.s).value, pid) !in Go1(w, pid).temps;
      }
    }
  }

  lemma {:induction false} UnderFreshPid(w: World, pid: nat)
    requires forall t :: t in w.temps ==> t.pid != pid
    ensures RunToEnd1(w, pid) == World(RunToEnd(w.s), w.temps)
    decreases Stage(w.s.pc), Left(w.s.pc)
  {
    if !w.s.pc.Idle? {
      Go1Descends(w, pid);
      UnderFreshPid(Go1(w, pid), pid);
    }
  }

  lemma {:induction false} EndReachable(w: World, pid: nat)
    requires Reachable(w.s)
    ensures Reachable(RunToEnd1(w, pid).s)
    decreases Stage(w.s.pc), Left(w.s.pc)
  {
    if !w.s.pc.Idle? {
      Go1Descends(w, pid);
      Go1Refines(w, pid);
      ReachableStep(w.s, Go1(w, pid).s);
      EndReachable(Go1(w, pid), pid);
    }
  }

  lemma {:induction false} EndKeepsManifest(w: World, pid: nat, m: Manifest)
    requires Good(w.s, m)
    ensures Good(RunToEnd1(w, pid).s, m)
    decreases Stage(w.s.pc), Left(w.s.pc)
  {
    if !w.s.pc.Idle? {
      Go1Descends(w, pid);
      Go1Refines(w, pid);
      StepKeeps(w.s, Go1(w, pid).s, m);
      EndKeepsManifest(Go1(w, pid), pid, m);
    }
  }

  lemma CallResumable(s: State, m: Manifest, temps: set<Temporary>, pid: nat)
    requires Resumable(s, m)
    ensures Resumable(CallUnder(s, m, temps, pid).s, m)
  {
    var w := Enter1(s.dir, m, temps, pid);
    Enter1Refines(s, m, temps, pid);
    ReachableStep(s, w.s);
    EndReachable(w, pid);
    EndsOrRemoves(w, pid);
    ResumableIsStartable(s, m);
    if s.dir == EMPTY {
      EnterEmpty(m);
    } else {
      EnterKeeps(s.dir, m, m);
    }
    if w.s == Enter(s.dir, m) {
      EndKeepsManifest(w, pid, m);
    }
  }

  lemma CallProgress(s: State, m: Manifest, temps: set<Temporary>, pid: nat)
    requires Resumable(s, m) && Separate(m.ids)
    ensures CallUnder(s, m, temps, pid).temps <= temps
    ensures forall t :: t in temps && t !in CallUnder(s, m, temps, pid).temps ==> t.pid == pid
    ensures CallUnder(s, m, temps, pid).temps == temps ==> CallUnder(s, m, temps, pid).s.dir == End(EMPTY, m)
  {
    EndsOrRemoves(Enter1(s.dir, m, temps, pid), pid);
    Converges(s, m);
  }

  /** Under a pid that left no temporary one call without failures ends with the directory of one uninterrupted call,
      whatever temporaries lie about, and leaves these alone. */
  lemma ConvergesUnderFreshPid(s: State, m: Manifest, temps: set<Temporary>, pid: nat)
    requires Resumable(s, m) && Separate(m.ids) && forall t :: t in temps ==> t.pid != pid
    ensures CallUnder(s, m, temps, pid).s.dir == End(EMPTY, m) && CallUnder(s, m, temps, pid).temps == temps
  {
    UnderFreshPid(Enter1(s.dir, m, temps, pid), pid);
    Converges(s, m);
  }

  /** What is there after calls under these pids, one after the other. */
  function CallsUnder(s: State, m: Manifest, temps: set<Temporary>, pids: seq<nat>): World
    decreases |pids|
  {
    if pids == [] then World(s, temps)
    else
      var w := CallUnder(s, m, temps, pids[0]);
      CallsUnder(w.s, m, w.temps, pids[1..])
  }

  /** The temporaries that calls under these pids can meet. */
  function Of(temps: set<Temporary>, pids: seq<nat>): set<Temporary> {
    set t | t in temps && t.pid in pids
  }

  lemma FewerTemporaries(temps: set<Temporary>, left: set<Temporary>, pids: seq<nat>)
    requires pids != [] && left <= temps && left != temps && forall t :: t in temps && t !in left ==> t.pid == pids[0]
    ensures |Of(left, pids[1..])| < |Of(temps, pids)|
  {
    var t :| t in temps && t !in left;
    var a, b := Of(left, pids[1..]), Of(temps, pids);
    assert pids == [pids[0]] + pids[1..];
    assert t in b && b == (b - {t}) + {t} && a <= b - {t};
    SubsetSize(a, b - {t});
  }

  lemma SubsetSize(a: set<Temporary>, b: set<Temporary>)
    requires a <= b
    ensures |a| <= |b|
  {
    assert b == a + (b - a);
  }

  /** Under any pids, used before or not, one of the first calls, as many as there are temporaries of these pids and
      one more, ends with the directory of one uninterrupted call. */
  lemma {:induction false} ConvergesDespiteTemporaries(s: State, m: Manifest, temps: set<Temporary>, pids: seq<nat>)
    returns (n: nat)
    requires Resumable(s, m) && Separate(m.ids) && |pids| > |Of(temps, pids)|
    ensures 0 < n <= |Of(temps, pids)| + 1 && n <= |pids|
    ensures CallsUnder(s, m, temps, pids[..n]).s.dir == End(EMPTY, m)
    decreases |pids|
  {
    var w := CallUnder(s, m, temps, pids[0]);
    CallProgress(s, m, temps, pids[0]);
    if w.temps == temps {
      n := 1;
      assert pids[..1] == [pids[0]] && pids[..1][1..] == [];
    } else {
      FewerTemporaries(temps, w.temps, pids);
      CallResumable(s, m, temps, pids[0]);
      var rest := ConvergesDespiteTemporaries(w.s, m, w.temps, pids[1..]);
      n := rest + 1;
      assert pids[..n][1..] == pids[1..][..rest] && pids[..n][0] == pids[0];
    }
  }
}
