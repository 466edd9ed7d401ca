/** When several calls may share a pid: write-once publication is safe exactly when no pid is crowded. */
module SharedPids {
  import opened WriteOnce

  // ----- building runs -----

  ghost predicate Ends(run: seq<State>, s0: State, s: State, target: string) {
    Run(run, target) && run[0] == s0 && run[|run| - 1] == s
  }

  ghost predicate Leads(s0: State, s: State, target: string) {
    exists run :: Ends(run, s0, s, target)
  }

  lemma LeadsNowhere(s: State, target: string)
    requires Initial(s)
    ensures Leads(s, s, target)
  {
    assert Ends([s], s, s, target);
  }

  lemma LeadsOn(s0: State, s: State, s': State, target: string, i: nat)
    requires Leads(s0, s, target) && StepBy(s, s', target, i)
    ensures Leads(s0, s', target)
  {
    var run :| Ends(run, s0, s, target);
    var longer := run + [s'];
    assert Step(s, s', target);
    forall k | 0 < k < |longer| ensures StepAt(longer, k, target) {
      if k < |run| {
        assert StepAt(run, k, target);
      }
    }
    assert Ends(longer, s0, s', target);
  }

  /** The state after writer `i` has acted. */
  function After(s: State, i: nat, d: Disk, w: Writer): State
    requires i < |s.writers|
  {
    State(d, s.writers[i := w])
  }

  lemma Acted(s0: State, s: State, target: string, i: nat, d: Disk, w: Writer)
    requires Leads(s0, s, target) && i < |s.writers| && Act(s.disk, s.writers[i], d, w, target)
    ensures Leads(s0, After(s, i, d, w), target)
  {
    LeadsOn(s0, s, After(s, i, d, w), target, i);
  }

  lemma Above(s: set<nat>) returns (n: nat)
    ensures forall x :: x in s ==> x < n
  {
    if s == {} {
      n := 0;
    } else {
      var x :| x in s;
      n := Above(s - {x});
      if n <= x {
        n := x + 1;
      }
      assert forall y :: y in s ==> y == x || y in s - {x};
    }
  }

  lemma FreshInode(data: map<nat, string>) returns (n: nat)
    ensures n !in data
  {
    n := Above(data.Keys);
    assert n !in data.Keys;
  }

  // ----- the pieces of the unsafe run -----

  /** A call that finds a temporary is refused, and is about to remove it. */
  lemma Refused(s0: State, s: State, target: string, i: nat) returns (t: State)
    requires Leads(s0, s, target) && i < |s.writers| && s.writers[i].phase.Ready?
    requires Temp(target, s.writers[i].pid) in s.disk.dir
    ensures Leads(s0, t, target) && t == After(s, i, s.disk, s.writers[i].(phase := Unlinking, outcome := TempExists))
  {
    var w := s.writers[i];
    var refused := w.(phase := Checking, outcome := TempExists);
    Acted(s0, s, target, i, s.disk, refused);
    var mid := After(s, i, s.disk, refused);
    Acted(s0, mid, target, i, s.disk, refused.(phase := Unlinking));
    t := After(mid, i, s.disk, refused.(phase := Unlinking));
  }

  lemma Removes(s0: State, s: State, target: string, i: nat) returns (t: State)
    requires Leads(s0, s, target) && i < |s.writers| && s.writers[i].phase.Unlinking?
    ensures Leads(s0, t, target)
    ensures t == After(s, i, s.disk.(dir := s.disk.dir - {Temp(target, s.writers[i].pid)}), s.writers[i].(phase := Returned))
  {
    var d, w := s.disk.(dir := s.disk.dir - {Temp(target, s.writers[i].pid)}), s.writers[i].(phase := Returned);
    Acted(s0, s, target, i, d, w);
    t := After(s, i, d, w);
  }

  lemma Opens(s0: State, s: State, target: string, i: nat) returns (t: State, n: nat)
    requires Leads(s0, s, target) && i < |s.writers| && s.writers[i].phase.Ready?
    requires Temp(target, s.writers[i].pid) !in s.disk.dir
    ensures Leads(s0, t, target) && n !in s.disk.data
    ensures t == After(s, i, Disk(s.disk.dir[Temp(target, s.writers[i].pid) := n], s.disk.data[n := ""]),
                       s.writers[i].(phase := Writing(n, 0)))
  {
    n := FreshInode(s.disk.data);
    var d := Disk(s.disk.dir[Temp(target, s.writers[i].pid) := n], s.disk.data[n := ""]);
    Acted(s0, s, target, i, d, s.writers[i].(phase := Writing(n, 0)));
    t := After(s, i, d, s.writers[i].(phase := Writing(n, 0)));
  }

  /** A writer that writes all it has changes only its own file. */
  lemma {:induction false} WritesAll(s0: State, s: State, target: string, i: nat, other: nat) returns (t: State)
    requires Leads(s0, s, target) && i < |s.writers| && s.writers[i].phase.Writing?
    requires s.writers[i].phase.inode in s.disk.data && s.writers[i].phase.done <= |s.writers[i].pieces|
    requires other in s.disk.data && other != s.writers[i].phase.inode
    ensures Leads(s0, t, target) && t.disk.dir == s.disk.dir && |t.writers| == |s.writers|
    ensures t.writers[i] == s.writers[i].(phase := Writing(s.writers[i].phase.inode, |s.writers[i].pieces|))
    ensures other in t.disk.data && t.disk.data[other] == s.disk.data[other]
    decreases |s.writers[i].pieces| - s.writers[i].phase.done
  {
    var w := s.writers[i];
    if w.phase.done == |w.pieces| {
      t := s;
    } else {
      var d := s.disk.(data := s.disk.data[w.phase.inode := s.disk.data[w.phase.inode] + w.pieces[w.phase.done]]);
      var w' := w.(phase := Writing(w.phase.inode, w.phase.done + 1));
      assert Write(s.disk, w, d, w');
      Acted(s0, s, target, i, d, w');
      t := WritesAll(s0, After(s, i, d, w'), target, i, other);
    }
  }

  /** The writer `a` has opened its temporary, `b` is about to remove it, and `c` has not begun. */
  ghost predicate Poised(s: State, target: string, pid: nat, a: nat, b: nat, c: nat) {
    && Trio(s.writers, pid, a, b, c) && target !in s.disk.dir && Temp(target, pid) in s.disk.dir
    && s.writers[a].phase.Writing? && s.writers[a].phase.done == 0 && s.writers[a].phase.inode in s.disk.data
    && s.writers[b].phase.Unlinking? && s.writers[c].phase.Ready?
  }

  /** Then `b` removes the temporary, `c` opens it anew, and `a` publishes the empty file of `c`. */
  lemma PoisedEndsBadly(s0: State, s: State, target: string, pid: nat, a: nat, b: nat, c: nat) returns (t: State)
    requires Leads(s0, s, target) && Poised(s, target, pid, a, b, c) && Joined(s.writers[a].pieces) != ""
    ensures Leads(s0, t, target) && !Safe(t, target)
  {
    TempInjective(target, pid, pid);
    var removed := Removes(s0, s, target, b);
    var reopened, n := Opens(s0, removed, target, c);
    var written := WritesAll(s0, reopened, target, a, n);
    t := Publishes(s0, written, target, a, n);
  }

  lemma Publishes(s0: State, s: State, target: string, a: nat, n: nat) returns (t: State)
    requires Leads(s0, s, target) && a < |s.writers| && target !in s.disk.dir && Joined(s.writers[a].pieces) != ""
    requires s.writers[a].phase.Writing? && s.writers[a].phase.done == |s.writers[a].pieces|
    requires Temp(target, s.writers[a].pid) in s.disk.dir && s.disk.dir[Temp(target, s.writers[a].pid)] == n
    requires n in s.disk.data && s.disk.data[n] == ""
    ensures Leads(s0, t, target) && !Safe(t, target)
  {
    var d := s.disk.(dir := s.disk.dir[target := n]);
    var w := s.writers[a].(phase := Checking, outcome := Published);
    Acted(s0, s, target, a, d, w);
    t := After(s, a, d, w);
    assert PublishedBy(t, a) && !Holds(t, target, a);
  }

  /** Without a stale temporary: `a` opens, `b` is refused. */
  lemma PoiseFresh(s0: State, target: string, pid: nat, a: nat, b: nat, c: nat) returns (t: State)
    requires Initial(s0) && target !in s0.disk.dir && Trio(s0.writers, pid, a, b, c) && Temp(target, pid) !in s0.disk.dir
    ensures Leads(s0, t, target) && Poised(t, target, pid, a, b, c) && t.writers[a].pieces == s0.writers[a].pieces
  {
    TempInjective(target, pid, pid);
    LeadsNowhere(s0, target);
    var begun, n := Opens(s0, s0, target, a);
    t := Refused(s0, begun, target, b);
  }

  /** With one: `b` and `e` are both refused, `e` removes the stale temporary, and `a` opens. */
  lemma PoiseStale(s0: State, target: string, pid: nat, a: nat, b: nat, c: nat, e: nat) returns (t: State)
    requires Initial(s0) && target !in s0.disk.dir && Trio(s0.writers, pid, a, b, c) && Temp(target, pid) in s0.disk.dir
    requires Fourth(s0.writers, pid, a, b, c, e)
    ensures Leads(s0, t, target) && Poised(t, target, pid, a, b, c) && t.writers[a].pieces == s0.writers[a].pieces
  {
    TempInjective(target, pid, pid);
    LeadsNowhere(s0, target);
    var one := Refused(s0, s0, target, b);
    var two := Refused(s0, one, target, e);
    var cleared := Removes(s0, two, target, e);
    var n;
    t, n := Opens(s0, cleared, target, a);
  }

  // ----- the exact condition -----

  /** In a crowd there is a call with content, beside enough others. */
  lemma Arranged(s: State, target: string, pid: nat) returns (a: nat, b: nat, c: nat)
    requires Crowded(s, target, pid)
    ensures Group(s, target, pid, a, b, c) && Joined(s.writers[a].pieces) != ""
  {
    var m: nat :| m < |s.writers| && s.writers[m].pid == pid && Joined(s.writers[m].pieces) != "";
    var i, j, k :| Group(s, target, pid, i, j, k);
    a := m;
    b := if i == m then j else i;
    c := if i == m || j == m then k else j;
    if Temp(target, pid) in s.disk.dir {
      var l :| Fourth(s.writers, pid, i, j, k, l);
      assert Fourth(s.writers, pid, a, b, c, if m == i || m == j || m == k then l else k);
    }
  }

  /** A crowd can make a call report success while the target is left without its payload. */
  lemma CrowdIsUnsafe(s: State, target: string, pid: nat) returns (run: seq<State>)
    requires Initial(s) && target !in s.disk.dir && Crowded(s, target, pid)
    ensures Run(run, target) && run[0] == s && !Safe(run[|run| - 1], target)
  {
    var a, b, c := Arranged(s, target, pid);
    var t: State;
    if Temp(target, pid) in s.disk.dir {
      var e: nat :| Fourth(s.writers, pid, a, b, c, e);
      t := PoiseStale(s, target, pid, a, b, c, e);
    } else {
      t := PoiseFresh(s, target, pid, a, b, c);
    }
    var bad := PoisedEndsBadly(s, t, target, pid, a, b, c);
    run :| Ends(run, s, bad, target);
  }

  /** Every state of the run is as it should be: the target of before is kept, or a new one is safe. */
  ghost predicate AlwaysSafe(run: seq<State>, target: string) {
    forall k :: 0 <= k < |run| ==> SafeSince(run[0], run[k], target)
  }

  ghost predicate SafeSince(s0: State, s: State, target: string) {
    if target in s0.disk.dir then Kept(s0.disk, s.disk, target) && !SomeonePublished(s) else Safe(s, target)
  }

  ghost predicate EveryRunSafe(s: State, target: string) {
    forall run :: Run(run, target) && run[0] == s ==> AlwaysSafe(run, target)
  }

  /** From any beginning, every state of every interleaving is safe exactly when the target already exists or no pid
      is crowded: fewer than three calls share it, or fewer than four where its temporary lies about, or none of them
      has anything to write. */
  lemma SafeIffNotCrowded(s: State, target: string)
    requires Initial(s)
    ensures EveryRunSafe(s, target) <==> target in s.disk.dir || !Crowds(s, target)
  {
    if target in s.disk.dir || !Crowds(s, target) {
      forall run | Run(run, target) && run[0] == s ensures AlwaysSafe(run, target) {
        NotCrowdedRun(run, target);
      }
    } else {
      var pid :| Crowded(s, target, pid);
      var run := CrowdIsUnsafe(s, target, pid);
      assert !SafeSince(run[0], run[|run| - 1], target);
    }
  }

  lemma NotCrowdedRun(run: seq<State>, target: string)
    requires Run(run, target) && (target in run[0].disk.dir || !Crowds(run[0], target))
    ensures AlwaysSafe(run, target)
  {
    forall k | 0 <= k < |run| ensures SafeSince(run[0], run[k], target) {
      if target in run[0].disk.dir {
        ExistingTargetWins(run, target, k);
      } else {
        WriteOnceIsSafe(run, target, k);
      }
    }
  }

  // ----- small numbers of calls -----

  /** Two calls under one pid are always safe, also at the same time. */
  lemma PairsAreSafe(s: State, target: string)
    requires Initial(s) && forall pid, i, j, k :: !Trio(s.writers, pid, i, j, k)
    ensures EveryRunSafe(s, target)
  {
    forall pid ensures !Crowded(s, target, pid) {
      assert forall i, j, k :: Group(s, target, pid, i, j, k) ==> Trio(s.writers, pid, i, j, k);
    }
    SafeIffNotCrowded(s, target);
  }
}
