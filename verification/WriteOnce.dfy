/** The write-once protocol of `write_json_write_once` and `write_jsonl_write_once`: write a private temporary
    file piece by piece, hard-link it to the target, remove the temporary.  Any number of writers aim at one
    target; their steps interleave and each may fail or crash between any two of them. */
module WriteOnce {
  /** Names lead to inodes, inodes to contents. */
  datatype Disk = Disk(dir: map<string, nat>, data: map<nat, string>)

  datatype Phase = Ready | Writing(inode: nat, done: nat) | Checking | Unlinking | Returned | Crashed

  /** What became of the call: `TargetExists` and `TempExists` are the two `FileExistsError`s, `TempGone` is
      `os.link` finding no temporary, `Error` anything raised while serializing or writing. */
  datatype Outcome = Undecided | Published | TargetExists | TempExists | TempGone | Error

  datatype Writer = Writer(pid: nat, pieces: seq<string>, phase: Phase, outcome: Outcome) {
    predicate Live() {
      phase.Writing? || phase.Checking? || phase.Unlinking?
    }
  }

  datatype State = State(disk: Disk, writers: seq<Writer>)

  // ----- the temporary's name -----

  function Decimal(n: nat): (s: string)
    ensures |s| > 0 && forall k :: 0 <= k < |s| ==> '0' <= s[k] <= '9'
  {
    if n < 10 then [('0' as int + n) as char] else Decimal(n / 10) + [('0' as int + n % 10) as char]
  }

  lemma {:induction false} DecimalInjective(m: nat, n: nat)
    requires Decimal(m) == Decimal(n)
    ensures m == n
  {
    var a, b := Decimal(m), Decimal(n);
    assert a[|a| - 1] == b[|b| - 1];
    if m >= 10 && n >= 10 {
      assert Decimal(m / 10) == a[..|a| - 1] == b[..|b| - 1] == Decimal(n / 10);
      DecimalInjective(m / 10, n / 10);
    }
  }

  function Temp(target: string, pid: nat): string {
    "." + target + "." + Decimal(pid) + ".tmp"
  }

  /** The temporary of the seal under process 42. */
  lemma TempIs()
    ensures Temp("FINALIZED.json", 42) == ".FINALIZED.json.42.tmp"
  {
    assert Decimal(4) == "4" && Decimal(42) == "42";
  }

  /** Two processes have different temporaries, and no temporary is the target itself. */
  lemma TempInjective(target: string, m: nat, n: nat)
    ensures Temp(target, m) == Temp(target, n) <==> m == n
    ensures Temp(target, m) != target
  {
    assert |Temp(target, m)| > |target|;
    if Temp(target, m) == Temp(target, n) {
      var s, t := Temp(target, m), Temp(target, n);
      assert s[|target| + 2..|s| - 4] == Decimal(m);
      assert t[|target| + 2..|t| - 4] == Decimal(n);
      DecimalInjective(m, n);
    }
  }

  // ----- the steps -----

  function Joined(pieces: seq<string>): string {
    if pieces == [] then "" else Joined(pieces[..|pieces| - 1]) + pieces[|pieces| - 1]
  }

  /** `open("x")`: a new inode, or the temporary is already there. */
  ghost predicate Open(d: Disk, w: Writer, d': Disk, w': Writer, target: string) {
    && w.phase.Ready?
    && var temp := Temp(target, w.pid);
       if temp in d.dir then d' == d && w' == w.(phase := Checking, outcome := TempExists)
       else
         && w'.phase.Writing? && w' == w.(phase := Writing(w'.phase.inode, 0))
         && w'.phase.inode !in d.data
         && d' == Disk(d.dir[temp := w'.phase.inode], d.data[w'.phase.inode := ""])
  }

  ghost predicate Write(d: Disk, w: Writer, d': Disk, w': Writer) {
    && w.phase.Writing? && w.phase.done < |w.pieces| && w.phase.inode in d.data
    && d' == d.(data := d.data[w.phase.inode := d.data[w.phase.inode] + w.pieces[w.phase.done]])
    && w' == w.(phase := Writing(w.phase.inode, w.phase.done + 1))
  }

  /** Serializing or writing raises. */
  ghost predicate Break(d: Disk, w: Writer, d': Disk, w': Writer) {
    w.phase.Writing? && d' == d && w' == w.(phase := Checking, outcome := Error)
  }

  /** `os.link` refuses an existing target and a missing source. */
  ghost predicate Link(d: Disk, w: Writer, d': Disk, w': Writer, target: string) {
    && w.phase.Writing? && w.phase.done == |w.pieces|
    && var temp := Temp(target, w.pid);
       if temp !in d.dir then d' == d && w' == w.(phase := Checking, outcome := TempGone)
       else if target in d.dir then d' == d && w' == w.(phase := Checking, outcome := TargetExists)
       else d' == d.(dir := d.dir[target := d.dir[temp]]) && w' == w.(phase := Checking, outcome := Published)
  }

  /** The `finally` block looks for the temporary, whoever made it ... */
  ghost predicate Look(d: Disk, w: Writer, d': Disk, w': Writer, target: string) {
    && w.phase.Checking? && d' == d
    && w' == w.(phase := if Temp(target, w.pid) in d.dir then Unlinking else Returned)
  }

  /** ... and removes that name. */
  ghost predicate Unlink(d: Disk, w: Writer, d': Disk, w': Writer, target: string) {
    w.phase.Unlinking? && d' == d.(dir := d.dir - {Temp(target, w.pid)}) && w' == w.(phase := Returned)
  }

  ghost predicate Crash(d: Disk, w: Writer, d': Disk, w': Writer) {
    w.Live() && d' == d && w' == w.(phase := Crashed)
  }

  ghost predicate Act(d: Disk, w: Writer, d': Disk, w': Writer, target: string) {
    || Open(d, w, d', w', target) || Write(d, w, d', w') || Break(d, w, d', w') || Link(d, w, d', w', target)
    || Look(d, w, d', w', target) || Unlink(d, w, d', w', target) || Crash(d, w, d', w')
  }

  ghost predicate StepBy(s: State, s': State, target: string, i: nat) {
    && i < |s.writers| == |s'.writers|
    && s'.writers == s.writers[i := s'.writers[i]]
    && Act(s.disk, s.writers[i], s'.disk, s'.writers[i], target)
  }

  ghost predicate Step(s: State, s': State, target: string) {
    exists i :: StepBy(s, s', target, i)
  }

  /** What an operating system guarantees of single-threaded processes: no two calls in progress share a pid.
      A pid may be used again once its earlier call has returned or crashed. */
  ghost predicate Exclusive(s: State) {
    forall i, j :: 0 <= i < j < |s.writers| && s.writers[i].Live() && s.writers[j].Live() ==>
      s.writers[i].pid != s.writers[j].pid
  }

  /** Before any call; stale temporaries of crashed processes may lie about. */
  ghost predicate Initial(s: State) {
    && (forall name :: name in s.disk.dir ==> s.disk.dir[name] in s.disk.data)
    && forall i :: 0 <= i < |s.writers| ==> s.writers[i].phase.Ready? && s.writers[i].outcome.Undecided?
  }

  ghost predicate StepAt(run: seq<State>, k: int, target: string) {
    0 < k < |run| && Step(run[k - 1], run[k], target)
  }

  ghost predicate Run(run: seq<State>, target: string) {
    |run| > 0 && Initial(run[0]) && forall k :: 0 < k < |run| ==> StepAt(run, k, target)
  }

  ghost predicate AlwaysExclusive(run: seq<State>) {
    forall k :: 0 <= k < |run| ==> Exclusive(run[k])
  }

  // ----- what every step keeps -----

  ghost predicate Allocated(d: Disk) {
    forall name :: name in d.dir ==> d.dir[name] in d.data
  }

  /** All calls under this pid have nothing to write, as for a list without records. */
  ghost predicate Blank(writers: seq<Writer>, pid: nat) {
    forall i :: 0 <= i < |writers| && writers[i].pid == pid ==> Joined(writers[i].pieces) == ""
  }

  /** What lies under the temporary's name is the writer's own file, or empty anyway. */
  ghost predicate OwnTemp(d: Disk, w: Writer, temp: string, blank: bool)
    requires w.phase.Writing?
  {
    temp in d.dir ==> d.dir[temp] == w.phase.inode || (blank && d.dir[temp] in d.data && d.data[d.dir[temp]] == "")
  }

  /** A writer still writing has a file of its own with what it wrote, which is not the target's. */
  ghost predicate Owns(d: Disk, w: Writer, target: string, blank: bool) {
    w.phase.Writing? ==>
      && w.outcome.Undecided? && w.phase.done <= |w.pieces|
      && w.phase.inode in d.data && d.data[w.phase.inode] == Joined(w.pieces[..w.phase.done])
      && OwnTemp(d, w, Temp(target, w.pid), blank)
      && (target in d.dir && d.dir[target] == w.phase.inode ==> blank)
  }

  /** Success means the target holds all of the writer's payload; being refused means there is a target. */
  ghost predicate Truthful(d: Disk, w: Writer, target: string) {
    && (w.phase.Ready? ==> w.outcome.Undecided?)
    && (w.outcome.Published? ==> target in d.dir && d.dir[target] in d.data && d.data[d.dir[target]] == Joined(w.pieces))
    && (w.outcome.TargetExists? ==> target in d.dir)
    && (w.phase.Checking? || w.phase.Unlinking? || w.phase.Returned? ==> !w.outcome.Undecided?)
  }

  ghost predicate Apart(w: Writer, v: Writer) {
    && (w.phase.Writing? && v.phase.Writing? ==> w.phase.inode != v.phase.inode)
    && !(w.outcome.Published? && v.outcome.Published?)
  }

  /** The temporary of one pid is never the file of a writer with another. */
  ghost predicate Foreign(d: Disk, w: Writer, v: Writer, target: string) {
    v.phase.Writing? && w.pid != v.pid && Temp(target, w.pid) in d.dir ==> d.dir[Temp(target, w.pid)] != v.phase.inode
  }

  /** While `w` writes, its temporary keeps a later call under its pid from opening another. */
  ghost predicate Guarded(d: Disk, w: Writer, v: Writer, target: string, blank: bool) {
    w.phase.Writing? && v.phase.Ready? && w.pid == v.pid && !blank ==> Temp(target, w.pid) in d.dir
  }

  ghost predicate Pair(d: Disk, w: Writer, v: Writer, target: string, blank: bool) {
    Apart(w, v) && Foreign(d, w, v, target) && Guarded(d, w, v, target, blank)
  }

  ghost predicate Each(s: State, target: string, i: int) {
    0 <= i < |s.writers| ==>
      Owns(s.disk, s.writers[i], target, Blank(s.writers, s.writers[i].pid)) && Truthful(s.disk, s.writers[i], target)
  }

  ghost predicate Both(s: State, target: string, i: int, j: int) {
    0 <= i < |s.writers| && 0 <= j < |s.writers| && i != j ==>
      Pair(s.disk, s.writers[i], s.writers[j], target, Blank(s.writers, s.writers[i].pid))
  }

  ghost predicate Inv(s: State, target: string) {
    Allocated(s.disk) && (forall i :: Each(s, target, i)) && forall i, j :: Both(s, target, i, j)
  }

  /** One call writes, a second is about to remove the temporary, and a third has yet to open it. */
  ghost predicate Clash(s: State, i: int, j: int, k: int) {
    && 0 <= i < |s.writers| && 0 <= j < |s.writers| && 0 <= k < |s.writers|
    && s.writers[i].pid == s.writers[j].pid == s.writers[k].pid && !Blank(s.writers, s.writers[i].pid)
    && s.writers[i].phase.Writing? && s.writers[j].phase.Unlinking? && s.writers[k].phase.Ready?
  }

  ghost predicate Calm(s: State) {
    forall i, j, k :: !Clash(s, i, j, k)
  }

  lemma ExclusiveIsCalm(s: State)
    requires Exclusive(s)
    ensures Calm(s)
  {
  }

  /** A target that is there stays what it is. */
  ghost predicate Kept(d: Disk, d': Disk, target: string) {
    target in d.dir && d.dir[target] in d.data ==>
      target in d'.dir && d'.dir[target] == d.dir[target] && d.dir[target] in d'.data
      && d'.data[d.dir[target]] == d.data[d.dir[target]]
  }

  lemma {:induction false} NothingJoined(pieces: seq<string>, k: nat)
    requires Joined(pieces) == "" && k < |pieces|
    ensures pieces[k] == ""
  {
    if k < |pieces| - 1 {
      NothingJoined(pieces[..|pieces| - 1], k);
    }
  }

  lemma JoinedOne(pieces: seq<string>, k: nat)
    requires k < |pieces|
    ensures Joined(pieces[..k + 1]) == Joined(pieces[..k]) + pieces[k]
  {
    assert pieces[..k + 1][..k] == pieces[..k];
  }

  /** A step changes one name of the directory at most, and the content of one file at most. */
  lemma WriteEffect(d: Disk, w: Writer, d': Disk, w': Writer, blank: bool)
    requires Write(d, w, d', w') && (blank ==> Joined(w.pieces) == "")
    ensures d'.dir == d.dir && d'.data.Keys == d.data.Keys
    ensures forall n :: n in d.data && (n != w.phase.inode || blank) ==> d'.data[n] == d.data[n]
  {
    if blank {
      NothingJoined(w.pieces, w.phase.done);
    }
  }

  lemma ActKeepsTarget(d: Disk, w: Writer, d': Disk, w': Writer, target: string, blank: bool)
    requires Act(d, w, d', w', target) && Allocated(d) && Owns(d, w, target, blank)
    requires blank ==> Joined(w.pieces) == ""
    ensures Allocated(d') && Kept(d, d', target)
  {
    TempInjective(target, w.pid, w.pid);
    if Write(d, w, d', w') {
      WriteEffect(d, w, d', w', blank);
    }
  }

  lemma ActKeepsActor(d: Disk, w: Writer, d': Disk, w': Writer, target: string, blank: bool)
    requires Act(d, w, d', w', target) && Allocated(d) && Owns(d, w, target, blank) && Truthful(d, w, target)
    requires blank ==> Joined(w.pieces) == ""
    ensures Owns(d', w', target, blank) && Truthful(d', w', target) && w'.pid == w.pid && w'.pieces == w.pieces
  {
    TempInjective(target, w.pid, w.pid);
    ActKeepsTarget(d, w, d', w', target, blank);
    if Write(d, w, d', w') {
      JoinedOne(w.pieces, w.phase.done);
      WriteEffect(d, w, d', w', blank);
    }
    assert w.pieces[..|w.pieces|] == w.pieces;
  }

  /** Another writer, before a step of `w`. */
  ghost predicate Beside(d: Disk, w: Writer, v: Writer, target: string, blankW: bool, blankV: bool) {
    && Allocated(d) && Owns(d, w, target, blankW) && Truthful(d, w, target)
    && Owns(d, v, target, blankV) && Truthful(d, v, target)
    && Pair(d, w, v, target, blankW) && Pair(d, v, w, target, blankV)
    && (blankW ==> Joined(w.pieces) == "") && (blankV ==> Joined(v.pieces) == "")
    && (w.pid == v.pid ==> blankW == blankV)
  }

  lemma OpenKeepsOther(d: Disk, w: Writer, d': Disk, w': Writer, v: Writer, target: string, blankW: bool, blankV: bool)
    requires Open(d, w, d', w', target) && Beside(d, w, v, target, blankW, blankV)
    ensures Owns(d', v, target, blankV) && Truthful(d', v, target)
    ensures Pair(d', w', v, target, blankW) && Pair(d', v, w', target, blankV)
  {
    TempInjective(target, w.pid, v.pid);
    TempInjective(target, v.pid, w.pid);
  }

  lemma WriteKeepsOther(d: Disk, w: Writer, d': Disk, w': Writer, v: Writer, target: string, blankW: bool, blankV: bool)
    requires Write(d, w, d', w') && Beside(d, w, v, target, blankW, blankV)
    ensures Owns(d', v, target, blankV) && Truthful(d', v, target)
    ensures Pair(d', w', v, target, blankW) && Pair(d', v, w', target, blankV)
  {
    WriteEffect(d, w, d', w', blankW);
  }

  lemma LinkKeepsOther(d: Disk, w: Writer, d': Disk, w': Writer, v: Writer, target: string, blankW: bool, blankV: bool)
    requires Link(d, w, d', w', target) && Beside(d, w, v, target, blankW, blankV)
    ensures Owns(d', v, target, blankV) && Truthful(d', v, target)
    ensures Pair(d', w', v, target, blankW) && Pair(d', v, w', target, blankV)
  {
    TempInjective(target, w.pid, v.pid);
    TempInjective(target, v.pid, w.pid);
  }

  lemma UnlinkKeepsOther(d: Disk, w: Writer, d': Disk, w': Writer, v: Writer, target: string, blankW: bool, blankV: bool)
    requires Unlink(d, w, d', w', target) && Beside(d, w, v, target, blankW, blankV)
    ensures Owns(d', v, target, blankV) && Truthful(d', v, target)
    ensures Pair(d', w', v, target, blankW) && Pair(d', v, w', target, blankV)
  {
    TempInjective(target, w.pid, v.pid);
    TempInjective(target, v.pid, w.pid);
  }

  lemma ActKeepsOther(d: Disk, w: Writer, d': Disk, w': Writer, v: Writer, target: string, blankW: bool, blankV: bool)
    requires Act(d, w, d', w', target) && Beside(d, w, v, target, blankW, blankV)
    ensures Owns(d', v, target, blankV) && Truthful(d', v, target)
    ensures Pair(d', w', v, target, blankW) && Pair(d', v, w', target, blankV)
  {
    if Open(d, w, d', w', target) {
      OpenKeepsOther(d, w, d', w', v, target, blankW, blankV);
    } else if Write(d, w, d', w') {
      WriteKeepsOther(d, w, d', w', v, target, blankW, blankV);
    } else if Link(d, w, d', w', target) {
      LinkKeepsOther(d, w, d', w', v, target, blankW, blankV);
    } else if Unlink(d, w, d', w', target) {
      UnlinkKeepsOther(d, w, d', w', v, target, blankW, blankV);
    }
  }

  /** Two further writers. */
  lemma ActKeepsPair(d: Disk, w: Writer, d': Disk, w': Writer, u: Writer, v: Writer, target: string, blankW: bool,
                     blankU: bool, blankV: bool)
    requires Act(d, w, d', w', target) && Allocated(d) && Owns(d, w, target, blankW) && Owns(d, v, target, blankV)
    requires Pair(d, u, v, target, blankU)
    requires u.phase.Writing? && w.phase.Unlinking? && v.phase.Ready? && u.pid == w.pid == v.pid ==> blankU
    ensures Pair(d', u, v, target, blankU)
  {
    TempInjective(target, u.pid, w.pid);
    TempInjective(target, w.pid, u.pid);
  }

  lemma SameCalls(s: State, s': State, target: string, i: nat)
    requires StepBy(s, s', target, i)
    ensures forall j :: 0 <= j < |s.writers| ==>
              s'.writers[j].pid == s.writers[j].pid && s'.writers[j].pieces == s.writers[j].pieces
    ensures forall pid :: Blank(s'.writers, pid) == Blank(s.writers, pid)
  {
    forall j | 0 <= j < |s.writers|
      ensures s'.writers[j].pid == s.writers[j].pid && s'.writers[j].pieces == s.writers[j].pieces
    {
      if j != i {
        assert s'.writers[j] == s.writers[j];
      }
    }
    forall pid ensures Blank(s'.writers, pid) == Blank(s.writers, pid) {
      BlankSame(s.writers, s'.writers, pid);
      BlankSame(s'.writers, s.writers, pid);
    }
  }

  lemma BlankSame(a: seq<Writer>, b: seq<Writer>, pid: nat)
    requires |a| == |b| && forall j :: 0 <= j < |a| ==> b[j].pid == a[j].pid && b[j].pieces == a[j].pieces
    ensures Blank(a, pid) ==> Blank(b, pid)
  {
  }

  lemma BlankMember(s: State, i: int)
    requires 0 <= i < |s.writers| && Blank(s.writers, s.writers[i].pid)
    ensures Joined(s.writers[i].pieces) == ""
  {
  }

  lemma StepBeside(s: State, target: string, i: int, j: int)
    requires Inv(s, target) && 0 <= i < |s.writers| && 0 <= j < |s.writers| && i != j
    ensures Beside(s.disk, s.writers[i], s.writers[j], target, Blank(s.writers, s.writers[i].pid), Blank(s.writers, s.writers[j].pid))
  {
    assert Each(s, target, i) && Each(s, target, j) && Both(s, target, i, j) && Both(s, target, j, i);
    if Blank(s.writers, s.writers[i].pid) { BlankMember(s, i); }
    if Blank(s.writers, s.writers[j].pid) { BlankMember(s, j); }
  }

  lemma StepKeepsActor(s: State, s': State, target: string, i: nat)
    requires Inv(s, target) && StepBy(s, s', target, i)
    ensures Allocated(s'.disk) && Kept(s.disk, s'.disk, target) && Each(s', target, i)
  {
    var w := s.writers[i];
    assert Each(s, target, i);
    SameCalls(s, s', target, i);
    if Blank(s.writers, w.pid) { BlankMember(s, i); }
    ActKeepsTarget(s.disk, w, s'.disk, s'.writers[i], target, Blank(s.writers, w.pid));
    ActKeepsActor(s.disk, w, s'.disk, s'.writers[i], target, Blank(s.writers, w.pid));
  }

  lemma StepKeepsOther(s: State, s': State, target: string, i: nat, j: int)
    requires Inv(s, target) && StepBy(s, s', target, i) && 0 <= j < |s.writers| && j != i
    ensures Each(s', target, j) && Both(s', target, i, j) && Both(s', target, j, i)
  {
    SameCalls(s, s', target, i);
    StepBeside(s, target, i, j);
    assert s'.writers[j] == s.writers[j];
    ActKeepsOther(s.disk, s.writers[i], s'.disk, s'.writers[i], s.writers[j], target,
                  Blank(s.writers, s.writers[i].pid), Blank(s.writers, s.writers[j].pid));
  }

  lemma StepKeepsPair(s: State, s': State, target: string, i: nat, j: int, k: int)
    requires Inv(s, target) && Calm(s) && StepBy(s, s', target, i) && j != i && k != i
    ensures Both(s', target, j, k)
  {
    if 0 <= j < |s.writers| && 0 <= k < |s.writers| && j != k {
      SameCalls(s, s', target, i);
      assert Each(s, target, i) && Each(s, target, k) && Both(s, target, j, k) && !Clash(s, j, i, k);
      assert s'.writers[j] == s.writers[j] && s'.writers[k] == s.writers[k];
      ActKeepsPair(s.disk, s.writers[i], s'.disk, s'.writers[i], s.writers[j], s.writers[k], target,
                   Blank(s.writers, s.writers[i].pid), Blank(s.writers, s.writers[j].pid), Blank(s.writers, s.writers[k].pid));
    }
  }

  lemma StepKeeps(s: State, s': State, target: string, i: nat)
    requires Inv(s, target) && Calm(s) && StepBy(s, s', target, i)
    ensures Inv(s', target) && Kept(s.disk, s'.disk, target)
  {
    StepKeepsActor(s, s', target, i);
    forall j ensures Each(s', target, j) {
      if 0 <= j < |s.writers| && j != i {
        StepKeepsOther(s, s', target, i, j);
      }
    }
    forall j, k ensures Both(s', target, j, k) {
      if j == i && 0 <= k < |s.writers| && k != i {
        StepKeepsOther(s, s', target, i, k);
      } else if k == i && 0 <= j < |s.writers| && j != i {
        StepKeepsOther(s, s', target, i, j);
      } else if j != i && k != i {
        StepKeepsPair(s, s', target, i, j, k);
      }
    }
  }

  // ----- which calls can clash -----

  ghost predicate Trio(writers: seq<Writer>, pid: nat, i: int, j: int, k: int) {
    && 0 <= i < |writers| && 0 <= j < |writers| && 0 <= k < |writers| && i != j && i != k && j != k
    && writers[i].pid == writers[j].pid == writers[k].pid == pid
  }

  ghost predicate Fourth(writers: seq<Writer>, pid: nat, i: int, j: int, k: int, l: int) {
    0 <= l < |writers| && writers[l].pid == pid && l != i && l != j && l != k
  }

  /** Three calls that share a pid, four where its temporary already exists. */
  ghost predicate Group(s: State, target: string, pid: nat, i: int, j: int, k: int) {
    && Trio(s.writers, pid, i, j, k)
    && (Temp(target, pid) in s.disk.dir ==> exists l :: Fourth(s.writers, pid, i, j, k, l))
  }

  /** So many calls under one pid, and not all of them without content. */
  ghost predicate Crowded(s: State, target: string, pid: nat) {
    !Blank(s.writers, pid) && exists i, j, k :: Group(s, target, pid, i, j, k)
  }

  ghost predicate Crowds(s: State, target: string) {
    exists pid :: Crowded(s, target, pid)
  }

  /** A pid whose temporary lay about at first: it still does and nobody writes, or a call was spent on it. */
  ghost predicate Spent(s: State, target: string, pid: nat) {
    || (Temp(target, pid) in s.disk.dir && forall i :: 0 <= i < |s.writers| && s.writers[i].pid == pid ==> !s.writers[i].phase.Writing?)
    || exists l :: ReturnedAs(s, pid, l)
  }

  ghost predicate ReturnedAs(s: State, pid: nat, l: int) {
    0 <= l < |s.writers| && s.writers[l].pid == pid && s.writers[l].phase.Returned?
  }

  lemma StepSpends(s: State, s': State, target: string, i: nat, pid: nat)
    requires StepBy(s, s', target, i) && Spent(s, target, pid)
    ensures Spent(s', target, pid)
  {
    SameCalls(s, s', target, i);
    TempInjective(target, pid, s.writers[i].pid);
    if l :| ReturnedAs(s, pid, l) {
      assert ReturnedAs(s', pid, l);
    } else if s.writers[i].phase.Unlinking? && s.writers[i].pid == pid && s'.writers[i].phase.Returned? {
      assert ReturnedAs(s', pid, i);
    }
  }

  ghost predicate SameWriters(s: State, s': State) {
    |s.writers| == |s'.writers| && forall i :: 0 <= i < |s.writers| ==>
      s.writers[i].pid == s'.writers[i].pid && s.writers[i].pieces == s'.writers[i].pieces
  }

  lemma {:induction false} CallsStay(run: seq<State>, target: string, k: nat)
    requires Run(run, target) && k < |run|
    ensures SameWriters(run[0], run[k])
    ensures forall pid :: Temp(target, pid) in run[0].disk.dir ==> Spent(run[k], target, pid)
  {
    if k > 0 {
      CallsStay(run, target, k - 1);
      assert StepAt(run, k, target);
      var i :| StepBy(run[k - 1], run[k], target, i);
      SameCalls(run[k - 1], run[k], target, i);
      forall pid | Temp(target, pid) in run[0].disk.dir ensures Spent(run[k], target, pid) {
        StepSpends(run[k - 1], run[k], target, i, pid);
      }
    }
  }

  /** Without a crowd at the start no state of any run has a clash. */
  lemma NoCrowdIsCalm(run: seq<State>, target: string, k: nat)
    requires Run(run, target) && k < |run| && !Crowds(run[0], target)
    ensures Calm(run[k])
  {
    forall i, j, m ensures !Clash(run[k], i, j, m) {
      if Clash(run[k], i, j, m) {
        ClashIsCrowd(run, target, k, i, j, m);
      }
    }
  }

  lemma ClashIsCrowd(run: seq<State>, target: string, k: nat, i: int, j: int, m: int)
    requires Run(run, target) && k < |run| && Clash(run[k], i, j, m)
    ensures Crowded(run[0], target, run[k].writers[i].pid)
  {
    var s, pid := run[k], run[k].writers[i].pid;
    CallsStay(run, target, k);
    BlankSame(run[0].writers, s.writers, pid);
    if Temp(target, pid) in run[0].disk.dir {
      assert Spent(s, target, pid);
      var l :| ReturnedAs(s, pid, l);
      assert Fourth(run[0].writers, pid, i, j, m, l);
    }
    assert Group(run[0], target, pid, i, j, m);
  }

  /** Either the pids are exclusive among the calls in progress, or no pid is crowded. */
  ghost predicate Disciplined(run: seq<State>, target: string) {
    |run| > 0 && (AlwaysExclusive(run) || !Crowds(run[0], target))
  }

  lemma DisciplinedIsCalm(run: seq<State>, target: string, k: nat)
    requires Run(run, target) && Disciplined(run, target) && k < |run|
    ensures Calm(run[k])
  {
    if AlwaysExclusive(run) {
      ExclusiveIsCalm(run[k]);
    } else {
      NoCrowdIsCalm(run, target, k);
    }
  }

  lemma {:induction false} RunKeeps(run: seq<State>, target: string, k: nat)
    requires Run(run, target) && Disciplined(run, target) && k < |run|
    ensures Inv(run[k], target)
  {
    if k > 0 {
      RunKeeps(run, target, k - 1);
      DisciplinedIsCalm(run, target, k - 1);
      assert StepAt(run, k, target);
      var i :| StepBy(run[k - 1], run[k], target, i);
      StepKeeps(run[k - 1], run[k], target, i);
    }
  }

  /** Once there is a target, neither its inode nor its content changes in any later state. */
  lemma {:induction false} TargetIsStable(run: seq<State>, target: string, j: nat, k: nat)
    requires Run(run, target) && Disciplined(run, target) && j <= k < |run| && target in run[j].disk.dir
    ensures Kept(run[j].disk, run[k].disk, target)
    ensures run[j].disk.dir[target] in run[j].disk.data && target in run[k].disk.dir
  {
    RunKeeps(run, target, j);
    if j < k {
      TargetIsStable(run, target, j, k - 1);
      RunKeeps(run, target, k - 1);
      DisciplinedIsCalm(run, target, k - 1);
      assert StepAt(run, k, target);
      var i :| StepBy(run[k - 1], run[k], target, i);
      StepKeeps(run[k - 1], run[k], target, i);
    }
  }

  // ----- who published -----

  ghost predicate PublishedBy(s: State, i: int) {
    0 <= i < |s.writers| && s.writers[i].outcome.Published?
  }

  ghost predicate SomeonePublished(s: State) {
    exists i :: PublishedBy(s, i)
  }

  /** The target holds the complete payload of the call that published, if one has, and only one has. */
  ghost predicate Holds(s: State, target: string, i: int) {
    PublishedBy(s, i) ==>
      && target in s.disk.dir && s.disk.dir[target] in s.disk.data
      && s.disk.data[s.disk.dir[target]] == Joined(s.writers[i].pieces)
      && forall j :: PublishedBy(s, j) ==> j == i
  }

  /** A target that did not exist before: it is absent, or there is the one call that published it. */
  ghost predicate Safe(s: State, target: string) {
    (target in s.disk.dir <==> SomeonePublished(s)) && forall i :: Holds(s, target, i)
  }

  lemma StepPublishes(s: State, s': State, target: string, i: nat)
    requires StepBy(s, s', target, i) && target !in s.disk.dir
    ensures target in s'.disk.dir ==> PublishedBy(s', i)
  {
    TempInjective(target, s.writers[i].pid, s.writers[i].pid);
  }

  lemma StepRemembers(s: State, s': State, target: string, i: nat, j: int)
    requires StepBy(s, s', target, i) && Inv(s, target) && PublishedBy(s, j)
    ensures PublishedBy(s', j)
  {
    assert Each(s, target, i);
  }

  lemma {:induction false} TargetHasPublisher(run: seq<State>, target: string, k: nat)
    requires Run(run, target) && Disciplined(run, target) && k < |run| && target !in run[0].disk.dir
    ensures target in run[k].disk.dir ==> SomeonePublished(run[k])
  {
    if k > 0 {
      TargetHasPublisher(run, target, k - 1);
      RunKeeps(run, target, k - 1);
      assert StepAt(run, k, target);
      var i :| StepBy(run[k - 1], run[k], target, i);
      if target in run[k - 1].disk.dir {
        var j :| PublishedBy(run[k - 1], j);
        StepRemembers(run[k - 1], run[k], target, i, j);
      } else {
        StepPublishes(run[k - 1], run[k], target, i);
      }
    }
  }

  lemma InvHolds(s: State, target: string, i: int)
    requires Inv(s, target)
    ensures Holds(s, target, i)
  {
    if PublishedBy(s, i) {
      assert Each(s, target, i);
      forall j | PublishedBy(s, j) ensures j == i {
        assert Both(s, target, i, j);
      }
    }
  }

  /** In every state of every disciplined run at most one call has published; a target that did not exist at first is
      either still absent or holds the complete payload of the one that has. */
  lemma WriteOnceIsSafe(run: seq<State>, target: string, k: nat)
    requires Run(run, target) && Disciplined(run, target) && k < |run| && target !in run[0].disk.dir
    ensures Safe(run[k], target)
  {
    RunKeeps(run, target, k);
    TargetHasPublisher(run, target, k);
    forall i ensures Holds(run[k], target, i) {
      InvHolds(run[k], target, i);
    }
    if SomeonePublished(run[k]) {
      var i :| PublishedBy(run[k], i);
      assert Holds(run[k], target, i);
    }
  }

  // ----- a target that existed before -----

  /** No file being written is the target's. */
  ghost predicate Aside(s: State, target: string) {
    && Allocated(s.disk) && target in s.disk.dir && !SomeonePublished(s)
    && forall i :: 0 <= i < |s.writers| && s.writers[i].phase.Writing? ==> s.writers[i].phase.inode != s.disk.dir[target]
  }

  lemma StepKeepsAside(s: State, s': State, target: string, i: nat)
    requires StepBy(s, s', target, i) && Aside(s, target)
    ensures Aside(s', target) && Kept(s.disk, s'.disk, target)
  {
    TempInjective(target, s.writers[i].pid, s.writers[i].pid);
    assert !PublishedBy(s, i);
    forall j ensures !PublishedBy(s', j) {
      assert !PublishedBy(s, j);
    }
  }

  /** A target that existed before any call is never replaced, nobody publishes, and its content stays, whatever
      pids the calls have. */
  lemma {:induction false} ExistingTargetWins(run: seq<State>, target: string, k: nat)
    requires Run(run, target) && k < |run| && target in run[0].disk.dir
    ensures Aside(run[k], target) && Kept(run[0].disk, run[k].disk, target)
  {
    if k > 0 {
      ExistingTargetWins(run, target, k - 1);
      assert StepAt(run, k, target);
      var i :| StepBy(run[k - 1], run[k], target, i);
      StepKeepsAside(run[k - 1], run[k], target, i);
    }
  }

  // ----- what a call reports -----

  /** With exclusive pids a writer's temporary is there until the writer removes it. */
  ghost predicate HasTemp(d: Disk, w: Writer, target: string) {
    (w.phase.Writing? ==> Temp(target, w.pid) in d.dir) && !w.outcome.TempGone?
  }

  lemma StepKeepsTemps(s: State, s': State, target: string, i: nat)
    requires StepBy(s, s', target, i) && Exclusive(s)
    requires forall j :: 0 <= j < |s.writers| ==> HasTemp(s.disk, s.writers[j], target)
    ensures forall j :: 0 <= j < |s'.writers| ==> HasTemp(s'.disk, s'.writers[j], target)
  {
    forall j | 0 <= j < |s'.writers| ensures HasTemp(s'.disk, s'.writers[j], target) {
      assert HasTemp(s.disk, s.writers[j], target) && HasTemp(s.disk, s.writers[i], target);
      TempInjective(target, s.writers[i].pid, s.writers[j].pid);
      if j != i {
        assert s'.writers[j] == s.writers[j];
        assert s.writers[i].Live() && s.writers[j].Live() ==> s.writers[i].pid != s.writers[j].pid;
      }
    }
  }

  lemma {:induction false} TempsStay(run: seq<State>, target: string, k: nat)
    requires Run(run, target) && AlwaysExclusive(run) && k < |run|
    ensures forall j :: 0 <= j < |run[k].writers| ==> HasTemp(run[k].disk, run[k].writers[j], target)
  {
    if k > 0 {
      TempsStay(run, target, k - 1);
      assert StepAt(run, k, target);
      var i :| StepBy(run[k - 1], run[k], target, i);
      StepKeepsTemps(run[k - 1], run[k], target, i);
    }
  }

  /** A call that returned has published, was refused by an existing target, met a temporary of its own name, found
      its own removed, or failed to write; in the first two cases there is a target, and with exclusive pids no call
      finds its temporary removed. */
  lemma ReturnedCalls(run: seq<State>, target: string, k: nat, i: nat)
    requires Run(run, target) && Disciplined(run, target) && k < |run| && i < |run[k].writers|
    requires run[k].writers[i].phase.Returned?
    ensures var outcome := run[k].writers[i].outcome;
            && !outcome.Undecided?
            && (outcome.Published? || outcome.TargetExists? ==> target in run[k].disk.dir)
            && (AlwaysExclusive(run) ==> !outcome.TempGone?)
  {
    RunKeeps(run, target, k);
    assert Each(run[k], target, i);
    if AlwaysExclusive(run) {
      TempsStay(run, target, k);
    }
  }

  // ----- distinct pids -----

  /** Writers with distinct pids are exclusive however their steps interleave. */
  lemma DistinctPidsAreExclusive(run: seq<State>, target: string)
    requires Run(run, target)
    requires forall i, j :: 0 <= i < j < |run[0].writers| ==> run[0].writers[i].pid != run[0].writers[j].pid
    ensures AlwaysExclusive(run)
  {
    forall k | 0 <= k < |run| ensures Exclusive(run[k]) {
      CallsStay(run, target, k);
    }
  }

  // ----- one call on its own -----

  class Directory {
    var disk: Disk

    constructor ()
      ensures disk == Disk(map[], map[])
    {
      disk := Disk(map[], map[]);
    }

    /** The call without interference.  A stale temporary makes it fail, and is removed. */
    method WriteOnce(target: string, pid: nat, pieces: seq<string>, inode: nat) returns (outcome: Outcome)
      requires Allocated(disk) && inode !in disk.data
      modifies this
      ensures Allocated(disk)
      ensures outcome.Published? <==> target !in old(disk.dir) && Temp(target, pid) !in old(disk.dir)
      ensures outcome.Published? ==> disk == Disk(old(disk.dir)[target := inode], old(disk.data)[inode := Joined(pieces)])
      ensures !outcome.Published? ==> disk.dir == old(disk.dir) - {Temp(target, pid)}
      ensures forall n :: n in old(disk.data) ==> n in disk.data && disk.data[n] == old(disk.data)[n]
    {
      var temp := Temp(target, pid);
      TempInjective(target, pid, pid);
      if temp in disk.dir {
        outcome := TempExists;
      } else {
        disk := Disk(disk.dir[temp := inode], disk.data[inode := ""]);
        WritePieces(inode, pieces);
        if target in disk.dir {
          outcome := TargetExists;
        } else {
          disk := disk.(dir := disk.dir[target := disk.dir[temp]]);
          outcome := Published;
        }
      }
      if temp in disk.dir {
        disk := disk.(dir := disk.dir - {temp});
      }
    }

    method WritePieces(inode: nat, pieces: seq<string>)
      requires inode in disk.data && disk.data[inode] == ""
      modifies this
      ensures disk == Disk(old(disk.dir), old(disk.data)[inode := Joined(pieces)])
    {
      for k := 0 to |pieces|
        invariant disk == Disk(old(disk.dir), old(disk.data)[inode := Joined(pieces[..k])])
      {
        JoinedOne(pieces, k);
        disk := disk.(data := disk.data[inode := disk.data[inode] + pieces[k]]);
      }
      assert pieces[..|pieces|] == pieces;
    }
  }
}
