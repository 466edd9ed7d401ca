/** The write-once analysis directory: `ensure_analysis_artifact`, its seal, and how it is checked.  Any number of
    callers ask for one analysis id; their steps interleave and each may crash between any two of them.
    A hash is represented by what is hashed. */
module AnalysisArtifact {
  import opened Sorting
  import opened Prelude

  type Files = map<string, string>

  datatype Seal = Seal(analysisId: string, configHash: string, inputs: seq<string>, hashes: Files)

  datatype Dir = Absent | Present(files: Files, seal: Option<Seal>)

  datatype Output = Output(name: string, text: string)

  /** What all callers share: the id, and what the report writer writes. */
  datatype Analysis = Analysis(id: string, configHash: string, inputs: seq<string>, outputs: seq<Output>)

  // ----- the analysis id -----

  /** What `analysis_id_for` hashes. */
  datatype Payload = Payload(configHash: string, finalizationHashes: seq<string>)

  function AnalysisPayload(configHash: string, hashes: seq<string>): Payload {
    Payload(configHash, Sort(hashes, StringLeq))
  }

  /** Two analyses have the same id exactly when they have the same configuration and the same seals, in any order. */
  lemma SameAnalysis(configHash: string, hashes: seq<string>, configHash': string, hashes': seq<string>)
    ensures AnalysisPayload(configHash, hashes) == AnalysisPayload(configHash', hashes')
       <==> configHash == configHash' && multiset(hashes) == multiset(hashes')
  {
    StringOrder();
    SortSorts(hashes, StringLeq);
    SortSorts(hashes', StringLeq);
    if multiset(hashes) == multiset(hashes') {
      SortPermutation(hashes, hashes', StringLeq);
    }
  }

  // ----- reading and hashing -----

  /** `read_text`: every line ending becomes a newline. */
  function Universal(s: string): string {
    if s == "" then ""
    else if s[0] != '\r' then [s[0]] + Universal(s[1..])
    else if |s| > 1 && s[1] == '\n' then "\n" + Universal(s[2..])
    else "\n" + Universal(s[1..])
  }

  predicate NoReturn(s: string) {
    forall k :: 0 <= k < |s| ==> s[k] != '\r'
  }

  /** Each of the three line ends is read as one newline ... */
  lemma LineEnds()
    ensures Universal("\r\n") == "\n" && Universal("\r") == "\n" && Universal("\n") == "\n"
  {
    assert "\r\n"[2..] == "" && "\r"[1..] == "" && "\n"[1..] == "";
    assert "\n" + "" == "\n" && ['\n'] + "" == "\n";
  }

  lemma UniversalStep(a: string, b: string, k: nat, head: string)
    requires 0 < k <= |a| && Universal(a) == head + Universal(a[k..])
    requires Universal(a + b) == head + Universal(a[k..] + b)
    requires Universal(a[k..] + b) == Universal(a[k..]) + Universal(b)
    ensures Universal(a + b) == Universal(a) + Universal(b)
  {
  }

  /** ... and parts of a text whose border does not cut a line end are read on their own. */
  lemma {:induction false} UniversalJoin(a: string, b: string)
    requires a == "" || b == "" || a[|a| - 1] != '\r' || b[0] != '\n'
    ensures Universal(a + b) == Universal(a) + Universal(b)
    decreases |a|
  {
    var s := a + b;
    if a == "" {
      assert s == b;
    } else if a[0] != '\r' {
      assert s[1..] == a[1..] + b;
      UniversalJoin(a[1..], b);
      UniversalStep(a, b, 1, [a[0]]);
    } else if |a| > 1 && a[1] == '\n' {
      assert s[2..] == a[2..] + b;
      UniversalJoin(a[2..], b);
      UniversalStep(a, b, 2, "\n");
    } else {
      assert s[1..] == a[1..] + b;
      assert |s| > 1 ==> s[1] != '\n';
      UniversalJoin(a[1..], b);
      UniversalStep(a, b, 1, "\n");
    }
  }

  lemma {:induction false} UniversalKeeps(s: string)
    requires NoReturn(s)
    ensures Universal(s) == s
  {
    if s != "" {
      UniversalKeeps(s[1..]);
    }
  }

  function OutputHashes(files: Files): Files {
    map name | name in files :: Universal(files[name])
  }

  /** `load_analysis_finalization` accepts, and the seal is for this analysis. */
  predicate Loads(d: Dir, id: string) {
    d.Present? && d.seal.Some? && OutputHashes(d.files) == d.seal.value.hashes && d.seal.value.analysisId == id
  }

  /** The edits of the outputs that loading accepts are exactly those that change line endings only. */
  lemma EditDetected(d: Dir, id: string, files: Files)
    requires Loads(d, id)
    ensures Loads(d.(files := files), id)
       <==> files.Keys == d.files.Keys && forall name :: name in files ==> Universal(files[name]) == Universal(d.files[name])
  {
    var a, b := OutputHashes(files), OutputHashes(d.files);
    if a == b {
      assert files.Keys == a.Keys == b.Keys == d.files.Keys;
      forall name | name in files ensures Universal(files[name]) == Universal(d.files[name]) {
        assert a[name] == b[name];
      }
    }
  }

  /** Without carriage returns every edit is detected. */
  lemma PlainEditDetected(d: Dir, id: string, files: Files)
    requires Loads(d, id) && files != d.files
    requires forall name :: name in files ==> NoReturn(files[name])
    requires forall name :: name in d.files ==> NoReturn(d.files[name])
    ensures !Loads(d.(files := files), id)
  {
    EditDetected(d, id, files);
    forall name | name in files ensures Universal(files[name]) == files[name] {
      UniversalKeeps(files[name]);
    }
    forall name | name in d.files ensures Universal(d.files[name]) == d.files[name] {
      UniversalKeeps(d.files[name]);
    }
  }

  /** An edit that is not detected. */
  lemma LineEndingsPass(id: string)
    ensures var hashes := map["report.md" := "x\n"];
            var seal := Some(Seal(id, "", [], hashes));
            Loads(Present(map["report.md" := "x\n"], seal), id) && Loads(Present(map["report.md" := "x\r\n"], seal), id)
  {
    var a, b := "x\n", "x\r\n";
    assert a[1..] == "\n" && a[1..][1..] == "" && b[1..] == "\r\n" && b[1..][2..] == "";
    assert Universal(a[1..]) == "\n" && Universal(b[1..]) == "\n";
    assert Universal(a) == "x\n" == Universal(b);
    assert OutputHashes(map["report.md" := a]) == map["report.md" := "x\n"];
    assert OutputHashes(map["report.md" := b]) == map["report.md" := "x\n"];
  }

  // ----- the callers -----

  /** `temp` is the seal's temporary file, a name that the caller's pid makes its own. */
  datatype Caller = Caller(temp: string, pc: Pc, reply: Reply)

  datatype Pc = Idle | Making | Writing(k: nat) | Hashing | Temping(seal: Seal) | Linking(seal: Seal) | Cleaning

  datatype Reply = NoReply | Returned | Drift | Failed | Lost

  datatype State = State(dir: Dir, callers: seq<Caller>)

  function Written(outputs: seq<Output>, k: nat): Files
    requires k <= |outputs|
  {
    if k == 0 then map[] else Written(outputs, k - 1)[outputs[k - 1].name := outputs[k - 1].text]
  }

  function All(a: Analysis): Files {
    Written(a.outputs, |a.outputs|)
  }

  function SealOf(a: Analysis, files: Files): Seal {
    Seal(a.id, a.configHash, a.inputs, OutputHashes(files))
  }

  /** The next step of a caller; the directory is read and changed at once. */
  function Next(a: Analysis, d: Dir, c: Caller): (Dir, Caller) {
    match c.pc
    case Idle =>
      if d.Absent? then (d, c.(pc := Making)) else (d, c.(reply := if Loads(d, a.id) then Returned else Drift))
    case Making =>
      if d.Absent? then (Present(map[], None), c.(pc := Writing(0))) else (d, c.(pc := Idle, reply := Failed))
    case Writing(k) =>
      if d.Absent? then (d, c.(pc := Idle, reply := Failed))
      else if k < |a.outputs| then
        (d.(files := d.files[a.outputs[k].name := a.outputs[k].text]), c.(pc := Writing(k + 1)))
      else (d, c.(pc := Hashing))
    case Hashing =>
      if d.Absent? || d.seal.Some? || d.files == map[] then (d, c.(pc := Idle, reply := Failed))
      else (d, c.(pc := Temping(SealOf(a, d.files))))
    case Temping(seal) =>
      if d.Absent? then (d, c.(pc := Idle, reply := Failed))
      else if c.temp in d.files then (d.(files := d.files - {c.temp}), c.(pc := Idle, reply := Failed))
      else (d.(files := d.files[c.temp := ""]), c.(pc := Linking(seal)))
    case Linking(seal) =>
      if d.Absent? || d.seal.Some? then (d, c.(pc := Cleaning, reply := Failed))
      else (d.(seal := Some(seal)), c.(pc := Cleaning, reply := Returned))
    case Cleaning =>
      if d.Absent? then (d, c.(pc := Idle)) else (d.(files := d.files - {c.temp}), c.(pc := Idle))
  }

  ghost predicate Acts(a: Analysis, s: State, s': State, i: nat) {
    && i < |s.callers|
    && var r := Next(a, s.dir, s.callers[i]); s' == State(r.0, s.callers[i := r.1])
  }

  ghost predicate Crashes(s: State, s': State, i: nat) {
    i < |s.callers| && s' == State(s.dir, s.callers[i := s.callers[i].(pc := Idle, reply := Lost)])
  }

  ghost predicate StepBy(a: Analysis, s: State, s': State, i: nat) {
    Acts(a, s, s', i) || Crashes(s, s', i)
  }

  ghost predicate Step(a: Analysis, s: State, s': State) {
    exists i :: StepBy(a, s, s', i)
  }

  ghost predicate StepAt(a: Analysis, run: seq<State>, k: int) {
    0 < k < |run| && Step(a, run[k - 1], run[k])
  }

  ghost predicate Run(a: Analysis, run: seq<State>) {
    && |run| > 0 && run[0].dir == Absent
    && (forall i :: 0 <= i < |run[0].callers| ==> run[0].callers[i].pc == Idle && run[0].callers[i].reply == NoReply)
    && forall k :: 0 < k < |run| ==> StepAt(a, run, k)
  }

  /** No output is named like a temporary of the seal. */
  ghost predicate OwnTemps(a: Analysis, s: State) {
    forall i :: 0 <= i < |s.callers| ==> s.callers[i].temp !in All(a)
  }

  // ----- what every step keeps -----

  predicate Building(c: Caller) {
    !c.pc.Idle? && !c.pc.Making?
  }

  /** What a builder knows of the directory. */
  predicate Knows(a: Analysis, d: Dir, c: Caller) {
    Building(c) ==>
      && d.Present?
      && match c.pc
         case Writing(k) => k <= |a.outputs| && d == Present(Written(a.outputs, k), None)
         case Hashing => d == Present(All(a), None)
         case Temping(seal) => d == Present(All(a), None) && All(a) != map[] && seal == SealOf(a, All(a))
         case Linking(seal) => d == Present(All(a)[c.temp := ""], None) && All(a) != map[] && seal == SealOf(a, All(a))
         case Cleaning => d == Present(All(a)[c.temp := ""], Some(SealOf(a, All(a)))) && All(a) != map[]
         case _ => true
  }

  ghost predicate Leftover(a: Analysis, d: Dir, temp: string) {
    d.Present? && d.files == All(a)[temp := ""]
  }

  /** A seal is of the complete outputs; beside them there may be the temporary of the caller that sealed. */
  ghost predicate GoodSeal(a: Analysis, s: State) {
    s.dir.Present? && s.dir.seal.Some? ==>
      && s.dir.seal.value == SealOf(a, All(a)) && All(a) != map[]
      && (s.dir.files == All(a) || exists i :: 0 <= i < |s.callers| && Leftover(a, s.dir, s.callers[i].temp))
  }

  ghost predicate Inv(a: Analysis, s: State) {
    && OwnTemps(a, s) && GoodSeal(a, s)
    && (forall i :: 0 <= i < |s.callers| ==> Knows(a, s.dir, s.callers[i]))
    && (forall i, j :: 0 <= i < j < |s.callers| ==> !(Building(s.callers[i]) && Building(s.callers[j])))
  }

  lemma NextKnows(a: Analysis, d: Dir, c: Caller)
    requires Knows(a, d, c) && c.temp !in All(a)
    ensures Knows(a, Next(a, d, c).0, Next(a, d, c).1)
  {
  }

  lemma NextBuilds(a: Analysis, d: Dir, c: Caller)
    requires Knows(a, d, c)
    ensures Next(a, d, c).0 != d ==> (Building(c) || d.Absent?) && Next(a, d, c).0.Present?
    ensures Building(Next(a, d, c).1) ==> Building(c) || d.Absent?
    ensures Next(a, d, c).1.temp == c.temp
  {
  }

  lemma NextSeals(a: Analysis, d: Dir, c: Caller)
    requires Knows(a, d, c) && c.temp !in All(a)
    ensures var e := Next(a, d, c).0;
            e != d && e.Present? && e.seal.Some? ==>
              e.seal.value == SealOf(a, All(a)) && All(a) != map[] && (e.files == All(a) || Leftover(a, e, c.temp))
  {
    if c.pc.Cleaning? {
      assert All(a)[c.temp := ""] - {c.temp} == All(a);
    }
  }

  lemma ActKeepsOthers(a: Analysis, s: State, s': State, i: nat, j: nat)
    requires Inv(a, s) && Acts(a, s, s', i) && j < |s.callers| && j != i
    ensures Knows(a, s'.dir, s.callers[j]) && !(Building(s'.callers[i]) && Building(s.callers[j]))
  {
    var c := s.callers[i];
    assert Knows(a, s.dir, c) && Knows(a, s.dir, s.callers[j]);
    NextBuilds(a, s.dir, c);
    if i < j {
      assert !(Building(s.callers[i]) && Building(s.callers[j]));
    } else {
      assert !(Building(s.callers[j]) && Building(s.callers[i]));
    }
  }

  lemma ActKeepsSeal(a: Analysis, s: State, s': State, i: nat)
    requires Inv(a, s) && Acts(a, s, s', i)
    ensures GoodSeal(a, s') && OwnTemps(a, s')
  {
    var c := s.callers[i];
    assert Knows(a, s.dir, c) && c.temp !in All(a);
    NextBuilds(a, s.dir, c);
    NextSeals(a, s.dir, c);
    assert s'.callers[i].temp == c.temp;
    if s'.dir == s.dir && s.dir.Present? && s.dir.seal.Some? && s.dir.files != All(a) {
      var j :| 0 <= j < |s.callers| && Leftover(a, s.dir, s.callers[j].temp);
      assert Leftover(a, s'.dir, s'.callers[j].temp);
    }
  }

  lemma ActKeeps(a: Analysis, s: State, s': State, i: nat)
    requires Inv(a, s) && Acts(a, s, s', i)
    ensures Inv(a, s')
  {
    ActKeepsSeal(a, s, s', i);
    NextKnows(a, s.dir, s.callers[i]);
    forall j | 0 <= j < |s.callers| && j != i
      ensures Knows(a, s'.dir, s'.callers[j]) && !(Building(s'.callers[i]) && Building(s'.callers[j]))
    {
      ActKeepsOthers(a, s, s', i, j);
    }
  }

  lemma CrashKeeps(a: Analysis, s: State, s': State, i: nat)
    requires Inv(a, s) && Crashes(s, s', i)
    ensures Inv(a, s')
  {
    if s.dir.Present? && s.dir.seal.Some? && s.dir.files != All(a) {
      var j :| 0 <= j < |s.callers| && Leftover(a, s.dir, s.callers[j].temp);
      assert s'.callers[j].temp == s.callers[j].temp;
    }
  }

  lemma {:induction false} RunKeeps(a: Analysis, run: seq<State>, k: nat)
    requires Run(a, run) && OwnTemps(a, run[0]) && k < |run|
    ensures Inv(a, run[k])
  {
    if k > 0 {
      RunKeeps(a, run, k - 1);
      assert StepAt(a, run, k);
      var i :| StepBy(a, run[k - 1], run[k], i);
      if Acts(a, run[k - 1], run[k], i) {
        ActKeeps(a, run[k - 1], run[k], i);
      } else {
        CrashKeeps(a, run[k - 1], run[k], i);
      }
    }
  }

  // ----- what holds in every run -----

  /** A seal vouches for the complete outputs, and loading accepts the directory exactly when they are all it holds.
      The one other case is the temporary that a crash between linking and removing leaves beside the seal. */
  lemma SealedOutputs(a: Analysis, run: seq<State>, k: nat)
    requires Run(a, run) && OwnTemps(a, run[0]) && k < |run| && run[k].dir.Present? && run[k].dir.seal.Some?
    ensures run[k].dir.seal.value == Seal(a.id, a.configHash, a.inputs, OutputHashes(All(a))) && All(a) != map[]
    ensures Loads(run[k].dir, a.id) <==> run[k].dir.files == All(a)
    ensures forall id :: id != a.id ==> !Loads(run[k].dir, id)
    ensures run[k].dir.files == All(a)
         || exists i :: 0 <= i < |run[k].callers| && Leftover(a, run[k].dir, run[k].callers[i].temp)
  {
    RunKeeps(a, run, k);
    var d := run[k].dir;
    if d.files != All(a) {
      var i :| 0 <= i < |run[k].callers| && Leftover(a, d, run[k].callers[i].temp);
      assert run[k].callers[i].temp in OutputHashes(d.files);
      assert run[k].callers[i].temp !in OutputHashes(All(a));
    }
  }

  ghost predicate NoBuilder(s: State) {
    forall i :: 0 <= i < |s.callers| ==> !Building(s.callers[i])
  }

  lemma StepFrozen(a: Analysis, s: State, s': State, i: nat)
    requires Inv(a, s) && StepBy(a, s, s', i) && s.dir.Present? && NoBuilder(s)
    ensures s'.dir == s.dir && NoBuilder(s')
  {
    assert Knows(a, s.dir, s.callers[i]);
    NextBuilds(a, s.dir, s.callers[i]);
  }

  /** Once the directory exists and nobody is building it, it never changes: a sealed artifact stays as it is,
      and a partial one is never completed or sealed. */
  lemma {:induction false} Frozen(a: Analysis, run: seq<State>, j: nat, k: nat)
    requires Run(a, run) && OwnTemps(a, run[0]) && j <= k < |run| && run[j].dir.Present? && NoBuilder(run[j])
    ensures run[k].dir == run[j].dir && NoBuilder(run[k])
  {
    if j < k {
      Frozen(a, run, j, k - 1);
      RunKeeps(a, run, k - 1);
      assert StepAt(a, run, k);
      var i :| StepBy(a, run[k - 1], run[k], i);
      StepFrozen(a, run[k - 1], run[k], i);
    }
  }

  lemma OnlyBuilder(a: Analysis, s: State, i: nat, n: nat)
    requires Inv(a, s) && i < |s.callers| && n < |s.callers| && n != i && Building(s.callers[i])
    ensures !Building(s.callers[n])
  {
    var low, high := if n < i then n else i, if n < i then i else n;
    assert !(Building(s.callers[low]) && Building(s.callers[high]));
  }

  /** The crash that leaves a sealed directory which no later call accepts or repairs. */
  lemma LeftoverIsForever(a: Analysis, run: seq<State>, j: nat, k: nat, i: nat)
    requires Run(a, run) && OwnTemps(a, run[0]) && 0 < j <= k < |run| && i < |run[j].callers|
    requires run[j - 1].callers != [] && i < |run[j - 1].callers| && run[j - 1].callers[i].pc.Cleaning?
    requires Crashes(run[j - 1], run[j], i)
    ensures run[k].dir.Present? && run[k].dir.seal.Some? && !Loads(run[k].dir, a.id)
  {
    RunKeeps(a, run, j - 1);
    RunKeeps(a, run, j);
    assert Knows(a, run[j - 1].dir, run[j - 1].callers[i]);
    assert run[j].dir.files != All(a) by {
      assert run[j - 1].callers[i].temp in run[j].dir.files;
    }
    forall n | 0 <= n < |run[j].callers| ensures !Building(run[j].callers[n]) {
      if n != i {
        OnlyBuilder(a, run[j - 1], i, n);
      }
    }
    Frozen(a, run, j, k);
    SealedOutputs(a, run, k);
  }

  // ----- when the sealed artifact is accepted -----

  /** Step `j` of the run is a crash between linking the seal and removing its temporary. */
  ghost predicate CrashesBeforeCleaning(run: seq<State>, j: int, i: int) {
    && 0 < j < |run| && 0 <= i < |run[j - 1].callers| && run[j - 1].callers[i].pc.Cleaning?
    && Crashes(run[j - 1], run[j], i)
  }

  /** No caller has crashed there up to state `k`. */
  ghost predicate Cleaned(run: seq<State>, k: nat) {
    forall j, i :: j <= k ==> !CrashesBeforeCleaning(run, j, i)
  }

  ghost predicate CleaningNow(s: State, i: int) {
    0 <= i < |s.callers| && s.callers[i].pc.Cleaning?
  }

  /** Whatever lies beside the outputs will still be removed. */
  ghost predicate Tidy(a: Analysis, s: State) {
    s.dir.Present? && s.dir.seal.Some? ==> s.dir.files == All(a) || exists i :: CleaningNow(s, i)
  }

  lemma StepTidy(a: Analysis, s: State, s': State, i: nat)
    requires Inv(a, s) && Tidy(a, s) && StepBy(a, s, s', i)
    requires Crashes(s, s', i) ==> !CleaningNow(s, i)
    ensures Tidy(a, s')
  {
    assert Knows(a, s.dir, s.callers[i]) && s.callers[i].temp !in All(a);
    if s'.dir.Present? && s'.dir.seal.Some? {
      if Acts(a, s, s', i) && s.callers[i].pc.Cleaning? {
        assert All(a)[s.callers[i].temp := ""] - {s.callers[i].temp} == All(a);
      } else if s'.callers[i].pc.Cleaning? {
        assert CleaningNow(s', i);
      } else if s.dir.seal.Some? && s.dir.files != All(a) {
        var n :| CleaningNow(s, n);
        assert s'.callers[n] == s.callers[n];
        assert CleaningNow(s', n);
        TidyFiles(a, s, s', i);
      } else {
        TidyFiles(a, s, s', i);
      }
    }
  }

  /** A caller that is not cleaning leaves a sealed directory alone. */
  lemma TidyFiles(a: Analysis, s: State, s': State, i: nat)
    requires Inv(a, s) && StepBy(a, s, s', i) && !s.callers[i].pc.Cleaning? && !s'.callers[i].pc.Cleaning?
    requires s'.dir.Present? && s'.dir.seal.Some?
    ensures s'.dir == s.dir
  {
    assert Knows(a, s.dir, s.callers[i]);
  }

  lemma {:induction false} CleanedIsTidy(a: Analysis, run: seq<State>, k: nat)
    requires Run(a, run) && OwnTemps(a, run[0]) && k < |run| && Cleaned(run, k)
    ensures Tidy(a, run[k])
  {
    if k > 0 {
      CleanedIsTidy(a, run, k - 1);
      RunKeeps(a, run, k - 1);
      assert StepAt(a, run, k);
      var i: nat :| StepBy(a, run[k - 1], run[k], i);
      assert !CrashesBeforeCleaning(run, k, i);
      StepTidy(a, run[k - 1], run[k], i);
    }
  }

  /** Once nobody is building it, a sealed directory is accepted exactly when no caller ever crashed between linking
      the seal and removing its temporary. */
  lemma LoadsIffCleaned(a: Analysis, run: seq<State>, k: nat)
    requires Run(a, run) && OwnTemps(a, run[0]) && k < |run|
    requires run[k].dir.Present? && run[k].dir.seal.Some? && NoBuilder(run[k])
    ensures Loads(run[k].dir, a.id) <==> Cleaned(run, k)
  {
    SealedOutputs(a, run, k);
    if Cleaned(run, k) {
      CleanedIsTidy(a, run, k);
      assert forall i :: CleaningNow(run[k], i) ==> Building(run[k].callers[i]);
    } else {
      var j, i :| j <= k && CrashesBeforeCleaning(run, j, i);
      LeftoverIsForever(a, run, j, k, i);
    }
  }

  /** The same for a caller to check: no temporary of a seal lies in the directory. */
  lemma LoadsIffNoTemporary(a: Analysis, run: seq<State>, k: nat)
    requires Run(a, run) && OwnTemps(a, run[0]) && k < |run| && run[k].dir.Present? && run[k].dir.seal.Some?
    ensures Loads(run[k].dir, a.id) <==> forall i :: 0 <= i < |run[k].callers| ==> run[k].callers[i].temp !in run[k].dir.files
  {
    SealedOutputs(a, run, k);
    RunKeeps(a, run, k);
  }

  /** In every reachable state with a directory that nobody is building, asking for the artifact changes nothing; it
      is returned exactly when it is sealed and no caller ever crashed before cleaning, and refused otherwise. */
  lemma RepeatCall(a: Analysis, run: seq<State>, k: nat, i: nat)
    requires Run(a, run) && OwnTemps(a, run[0]) && k < |run| && run[k].dir.Present? && NoBuilder(run[k])
    requires i < |run[k].callers| && run[k].callers[i].pc.Idle?
    ensures var next := Next(a, run[k].dir, run[k].callers[i]);
            && next.0 == run[k].dir && next.1.pc.Idle?
            && next.1.reply == if run[k].dir.seal.Some? && Cleaned(run, k) then Returned else Drift
  {
    if run[k].dir.seal.Some? {
      LoadsIffCleaned(a, run, k);
    }
  }

  // ----- a call that nothing disturbs -----

  /** `n` steps of one caller while nobody else acts. */
  function Alone(a: Analysis, d: Dir, c: Caller, n: nat): (Dir, Caller)
    decreases n
  {
    if n == 0 then (d, c) else var r := Next(a, d, c); Alone(a, r.0, r.1, n - 1)
  }

  lemma {:induction false} AloneWrites(a: Analysis, c: Caller, k: nat, n: nat)
    requires k <= |a.outputs| <= k + n && c.pc == Writing(k)
    ensures Alone(a, Present(Written(a.outputs, k), None), c, n)
         == Alone(a, Present(All(a), None), c.(pc := Writing(|a.outputs|)), n - (|a.outputs| - k))
    decreases |a.outputs| - k
  {
    if k < |a.outputs| {
      AloneWrites(a, c.(pc := Writing(k + 1)), k + 1, n - 1);
    }
  }

  lemma {:induction false} WrittenNames(outputs: seq<Output>, k: nat)
    requires k <= |outputs|
    ensures Written(outputs, k).Keys == set j | 0 <= j < k :: outputs[j].name
  {
    if k > 0 {
      WrittenNames(outputs, k - 1);
    }
  }

  /** A first call that is left alone writes every output, seals exactly these, removes its temporary and returns. */
  lemma FirstCallSeals(a: Analysis, temp: string)
    requires a.outputs != [] && temp !in All(a)
    ensures Alone(a, Absent, Caller(temp, Idle, NoReply), |a.outputs| + 7)
         == (Present(All(a), Some(Seal(a.id, a.configHash, a.inputs, OutputHashes(All(a))))), Caller(temp, Idle, Returned))
  {
    var c := Caller(temp, Writing(|a.outputs|), NoReply);
    var full, seal := All(a), SealOf(a, All(a));
    calc {
      Alone(a, Absent, Caller(temp, Idle, NoReply), |a.outputs| + 7);
      Alone(a, Absent, Caller(temp, Making, NoReply), |a.outputs| + 6);
      Alone(a, Present(map[], None), Caller(temp, Writing(0), NoReply), |a.outputs| + 5);
      { AloneWrites(a, Caller(temp, Writing(0), NoReply), 0, |a.outputs| + 5); }
      Alone(a, Present(full, None), c, 5);
      Alone(a, Present(full, None), c.(pc := Hashing), 4);
      { WrittenNames(a.outputs, |a.outputs|); assert a.outputs[0].name in full; }
      Alone(a, Present(full, None), c.(pc := Temping(seal)), 3);
      Alone(a, Present(full[temp := ""], None), c.(pc := Linking(seal)), 2);
      Alone(a, Present(full[temp := ""], Some(seal)), c.(pc := Cleaning, reply := Returned), 1);
      { assert full[temp := ""] - {temp} == full; }
      Alone(a, Present(full, Some(seal)), c.(pc := Idle, reply := Returned), 0);
    }
  }

  /** With nothing to write the call fails and leaves an empty directory without a seal. */
  lemma EmptyAnalysisFails(a: Analysis, temp: string)
    requires a.outputs == []
    ensures Alone(a, Absent, Caller(temp, Idle, NoReply), 4) == (Present(map[], None), Caller(temp, Idle, Failed))
  {
    var c := Caller(temp, Writing(0), NoReply);
    calc {
      Alone(a, Absent, Caller(temp, Idle, NoReply), 4);
      Alone(a, Absent, Caller(temp, Making, NoReply), 3);
      Alone(a, Present(map[], None), c, 2);
      Alone(a, Present(map[], None), c.(pc := Hashing), 1);
      Alone(a, Present(map[], None), c.(pc := Idle, reply := Failed), 0);
    }
  }
}
