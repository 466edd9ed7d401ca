/** `run_experiment` as it is written, over a directory that it updates in place. */
module RunDirectory {
  import opened SafeNames
  import opened RunModel
  import opened RunSafety
  import opened RunResume
  import opened Prelude

  /** Where `_process_sample` raises, if it does. */
  datatype Fault = NoFault | BeforeSnapshot | AfterSnapshot

  class Directory {
    var dir: Dir
    var reply: Reply

    /** The directory is one that calls, failures and crashes can lead to. */
    ghost predicate Valid()
      reads this
    {
      Reachable(State(dir, Idle, reply))
    }

    ghost predicate At(pc: Pc)
      reads this
    {
      Reachable(State(dir, pc, NoReply))
    }

    constructor ()
      ensures Valid() && dir == EMPTY
    {
      dir, reply := EMPTY, NoReply;
      ReachableStart();
    }

    /** `_process_sample`, with the handler around it. */
    method ProcessSample(m: Manifest, i: nat, fault: Fault)
      requires i < |m.ids| && At(Working(m, i, false))
      modifies `dir
      ensures At(Working(m, i + 1, false))
      ensures fault.NoFault? ==>
                RunToEnd(State(dir, Working(m, i + 1, false), NoReply))
                == RunToEnd(State(old(dir), Working(m, i, false), NoReply))
    {
      var id := m.ids[i];
      ghost var start := State(dir, Working(m, i, false), NoReply);
      if SampleName(id) in dir.samples {
        ReachableStep(start, Go(start));
        return;
      }
      if fault.BeforeSnapshot? {
        FailStep(dir, m, i, false);
        return;
      }
      if SnapshotName(id) !in dir.samples {
        dir := dir.(samples := dir.samples[SnapshotName(id) := Snapshot(m, id)]);
      }
      ghost var middle := State(dir, Working(m, i, true), NoReply);
      assert Go(start) == middle;
      ReachableStep(start, middle);
      if fault.AfterSnapshot? {
        FailStep(dir, m, i, true);
        return;
      }
      NamesFollowSafeIds(id, id);
      dir := dir.(samples := dir.samples[SampleName(id) := Result(m, id)]);
      assert Go(middle) == State(dir, Working(m, i + 1, false), NoReply);
      ReachableStep(middle, Go(middle));
    }

    /** `_rewrite_json` and its like for each root file. */
    method WriteSummary(m: Manifest)
      requires At(Deriving(m, 0, false))
      modifies `dir
      ensures At(Deriving(m, |Derived(m)|, false))
      ensures RunToEnd(State(dir, Deriving(m, |Derived(m)|, false), NoReply))
           == RunToEnd(State(old(dir), Deriving(m, 0, false), NoReply))
    {
      for k := 0 to |Derived(m)|
        invariant At(Deriving(m, k, false))
        invariant RunToEnd(State(dir, Deriving(m, k, false), NoReply))
               == RunToEnd(State(old(dir), Deriving(m, 0, false), NoReply))
      {
        Rewrite(m, k);
      }
    }

    method Rewrite(m: Manifest, k: nat)
      requires k < |Derived(m)| && At(Deriving(m, k, false))
      modifies `dir
      ensures At(Deriving(m, k + 1, false))
      ensures RunToEnd(State(dir, Deriving(m, k + 1, false), NoReply))
           == RunToEnd(State(old(dir), Deriving(m, k, false), NoReply))
    {
      ghost var start := State(dir, Deriving(m, k, false), NoReply);
      dir := dir.(root := dir.root - {Derived(m)[k]});
      ghost var middle := State(dir, Deriving(m, k, true), NoReply);
      assert Go(start) == middle;
      ReachableStep(start, middle);
      dir := dir.(root := dir.root[Derived(m)[k] := Artifact(Derived(m)[k], m, dir.samples)]);
      assert Go(middle) == State(dir, Deriving(m, k + 1, false), NoReply);
      ReachableStep(middle, Go(middle));
    }

    /** `finalize_run`, when the samples are valid. */
    method FinalizeRun(m: Manifest)
      requires At(Sealing(m, false))
      modifies this
      ensures Valid()
      ensures State(dir, Idle, reply) == RunToEnd(State(old(dir), Sealing(m, false), NoReply))
    {
      ghost var start := State(dir, Sealing(m, false), NoReply);
      PhaseStep(start);
      if !ValidSamples(m, dir.samples) {
        reply := Incomplete;
      } else if !Admissible(m) || dir.sealed.Some? || !HasRequired(dir, m) {
        reply := Rejected;
      } else {
        dir := dir.(sealedDir := true);
        ghost var made := State(dir, Sealing(m, true), NoReply);
        assert Go(start) == made;
        HasRequiredStays(old(dir), dir, m);
        PhaseStep(made);
        assert Go(made).pc.Idle? && RunToEnd(Go(made)) == Go(made);
        dir := dir.(sealed := Some(Seal(dir, m)));
        reply := if SUMMARY in dir.root then Returned(dir.root[SUMMARY]) else Broken;
        assert Go(made) == State(dir, Idle, reply);
      }
    }

    /** The checks before any work: `true` when there is work to do. */
    method EnterRun(m: Manifest) returns (work: bool)
      requires Valid()
      modifies this
      ensures if work then At(Working(m, 0, false)) else Valid()
      ensures Enter(old(dir), m) == if work then State(dir, Working(m, 0, false), NoReply) else State(dir, Idle, reply)
    {
      CallStep(dir, reply, m);
      work := false;
      if dir.sealed.Some? {
        if !HasManifest(dir, m) {
          reply := Refused;
        } else if !LoadsFinalized(dir) || SUMMARY !in dir.root {
          reply := Broken;
        } else {
          reply := Returned(dir.root[SUMMARY]);
        }
      } else if MANIFEST in dir.root {
        work := HasManifest(dir, m);
        if !work {
          reply := Refused;
        }
      } else if dir.sealedDir {
        reply := Refused;
      } else {
        dir := dir.(root := dir.root[MANIFEST := ManifestFile(m)]);
        work := true;
      }
    }

    /** Every call keeps the directory reachable; one without faults ends as the machine run to its end. */
    method RunExperiment(m: Manifest, faults: seq<Fault>)
      requires Valid() && |faults| == |m.ids|
      modifies this
      ensures Valid()
      ensures (forall i :: 0 <= i < |faults| ==> faults[i].NoFault?) ==>
                State(dir, Idle, reply) == RunToEnd(Enter(old(dir), m))
    {
      var work := EnterRun(m);
      if !work {
        return;
      }
      for i := 0 to |m.ids|
        invariant At(Working(m, i, false))
        invariant (forall j :: 0 <= j < |faults| ==> faults[j].NoFault?) ==>
                    RunToEnd(State(dir, Working(m, i, false), NoReply)) == RunToEnd(Enter(old(dir), m))
      {
        ProcessSample(m, i, faults[i]);
      }
      PhaseStep(State(dir, Working(m, |m.ids|, false), NoReply));
      WriteSummary(m);
      PhaseStep(State(dir, Deriving(m, |Derived(m)|, false), NoReply));
      FinalizeRun(m);
    }
  }

  lemma FailStep(d: Dir, m: Manifest, i: nat, snapped: bool)
    requires i < |m.ids| && Reachable(State(d, Working(m, i, snapped), NoReply))
    ensures Reachable(State(d, Working(m, i + 1, false), NoReply))
  {
    var s, t := State(d, Working(m, i, snapped), NoReply), State(d, Working(m, i + 1, false), NoReply);
    assert SampleFails(s, t);
    ReachableStep(s, t);
  }

  lemma CallStep(d: Dir, reply: Reply, m: Manifest)
    requires Reachable(State(d, Idle, reply))
    ensures Reachable(Enter(d, m))
  {
    var s, t := State(d, Idle, reply), Enter(d, m);
    assert Call(s, t);
    ReachableStep(s, t);
  }

  lemma PhaseStep(s: State)
    requires Reachable(s) && !s.pc.Idle?
    ensures Reachable(Go(s)) && RunToEnd(s) == RunToEnd(Go(s))
  {
    ReachableStep(s, Go(s));
  }

  lemma HasRequiredStays(d: Dir, e: Dir, m: Manifest)
    requires d.root == e.root
    ensures HasRequired(d, m) == HasRequired(e, m)
  {
  }
}
