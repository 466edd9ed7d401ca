/** The run directory and the resumable run as a machine of atomic steps.  A per-sample result is determined by the
    manifest and the sample's id, so it is represented by exactly these; a hash is represented by what is hashed. */
module RunModel {
  import opened SafeNames
  import opened Prelude

  datatype ArtifactClass = Smoke | Diagnostic | Publication

  /** `setup` stands for the manifest fields that the machine never looks into. */
  datatype Manifest = Manifest(setup: string, artifactClass: ArtifactClass, dirty: bool, methods: seq<string>,
                               ids: seq<string>, questions: seq<string>)

  type Folder = map<string, File>

  /** `Artifact` is a file at the run's root or in a method's folder, regenerated from the samples folder. */
  datatype File =
    | ManifestFile(manifest: Manifest)
    | Result(run: Manifest, id: string)
    | Snapshot(run: Manifest, id: string)
    | Artifact(name: string, run: Manifest, samples: Folder)

  /** FINALIZED.json. */
  datatype Record = Record(artifactClass: ArtifactClass, manifestHash: Manifest, hashes: Folder)

  datatype Dir = Dir(root: Folder, samples: Folder, sealedDir: bool, sealed: Option<Record>)

  const EMPTY := Dir(map[], map[], false, None)
  const MANIFEST := "manifest.json"
  const SUMMARY := "summary.json"

  /** The files `_write_combined_artifacts` rewrites for each method. */
  function MethodFiles(methods: seq<string>): seq<string> {
    if methods == [] then []
    else
      [methods[0] + "/predictions.jsonl", methods[0] + "/samples.jsonl", methods[0] + "/retrieval.jsonl"]
      + MethodFiles(methods[1..])
  }

  const ROOT_FILES: seq<string> :=
    ["extraction_snapshot.json", "retrieval.jsonl", "evidence.jsonl", "consolidation.jsonl", SUMMARY]

  /** All the files `_write_summary` rewrites, in its order.  A method that is configured twice is written twice. */
  function Derived(m: Manifest): seq<string> {
    MethodFiles(m.methods) + ROOT_FILES
  }

  function Required(artifactClass: ArtifactClass): seq<string> {
    [MANIFEST] + if artifactClass.Publication? then ROOT_FILES[..4] else []
  }

  /** Replies of a call; `Lost` is a crash or an exception outside the per-sample handler. */
  datatype Reply = NoReply | Refused | Broken | Incomplete | Rejected | Lost | Returned(summary: File)

  datatype Pc =
    | Idle
    | Working(m: Manifest, next: nat, snapped: bool)
    | Deriving(m: Manifest, k: nat, removed: bool)
    | Sealing(m: Manifest, made: bool)

  datatype State = State(dir: Dir, pc: Pc, reply: Reply)

  // ----- validation -----

  predicate NoRepeats(s: seq<string>) {
    forall i, j :: 0 <= i < j < |s| ==> s[i] != s[j]
  }

  /** `_load_sample_results` reads this file as a sample of `id`. */
  predicate Loads(samples: Folder, name: string, id: string) {
    name in samples && Loadable(name) && samples[name].Result? && samples[name].id == id
  }

  predicate Completed(samples: Folder, id: string) {
    exists name | name in samples :: Loads(samples, name, id)
  }

  predicate SameSample(samples: Folder, f: string, g: string)
    requires f in samples && g in samples
  {
    samples[f].Result? && Loads(samples, f, samples[f].id) && Loads(samples, g, samples[f].id)
  }

  predicate CompletedOnce(samples: Folder) {
    forall f, g | f in samples && g in samples :: SameSample(samples, f, g) ==> f == g
  }

  /** `_validate_samples`: nothing missing, nothing twice. */
  predicate ValidSamples(m: Manifest, samples: Folder) {
    (forall id | id in m.ids :: Completed(samples, id)) && NoRepeats(m.ids) && CompletedOnce(samples)
  }

  /** What `finalize_run` asks of the manifest. */
  predicate Admissible(m: Manifest) {
    && m.ids != [] && m.questions != [] && NoRepeats(m.ids) && NoRepeats(m.questions)
    && !(m.artifactClass.Publication? && m.dirty)
  }

  predicate HasRequired(d: Dir, m: Manifest) {
    forall name | name in Required(m.artifactClass) :: name in d.root
  }

  function Hashes(d: Dir, artifactClass: ArtifactClass): Folder {
    map name | name in d.root && name in Required(artifactClass) :: d.root[name]
  }

  function Seal(d: Dir, m: Manifest): Record {
    Record(m.artifactClass, m, Hashes(d, m.artifactClass))
  }

  predicate HashMatches(d: Dir, record: Record, name: string) {
    name in record.hashes && name in d.root && d.root[name] == record.hashes[name]
  }

  /** `load_finalized`: every required file is there, has a hash, and still has that hash. */
  predicate LoadsFinalized(d: Dir) {
    && d.sealed.Some?
    && forall name | name in Required(d.sealed.value.artifactClass) :: HashMatches(d, d.sealed.value, name)
  }

  // ----- the steps -----

  predicate HasManifest(d: Dir, m: Manifest) {
    MANIFEST in d.root && d.root[MANIFEST] == ManifestFile(m)
  }

  /** The start of `run_experiment`, up to the per-sample loop. */
  function Enter(d: Dir, m: Manifest): State {
    if d.sealed.Some? then
      if !HasManifest(d, m) then State(d, Idle, Refused)
      else if !LoadsFinalized(d) || SUMMARY !in d.root then State(d, Idle, Broken)
      else State(d, Idle, Returned(d.root[SUMMARY]))
    else if MANIFEST in d.root then
      if HasManifest(d, m) then State(d, Working(m, 0, false), NoReply) else State(d, Idle, Refused)
    else if d.sealedDir then State(d, Idle, Refused)
    else State(d.(root := d.root[MANIFEST := ManifestFile(m)]), Working(m, 0, false), NoReply)
  }

  /** One step of `_process_sample` for the next record: nothing if its sample file exists, else the extraction
      snapshot unless that exists, then the sample file. */
  function Work(d: Dir, m: Manifest, i: nat, snapped: bool): State
    requires i < |m.ids|
  {
    var id := m.ids[i];
    if SampleName(id) in d.samples then State(d, Working(m, i + 1, false), NoReply)
    else if snapped then
      State(d.(samples := d.samples[SampleName(id) := Result(m, id)]), Working(m, i + 1, false), NoReply)
    else if SnapshotName(id) in d.samples then State(d, Working(m, i, true), NoReply)
    else State(d.(samples := d.samples[SnapshotName(id) := Snapshot(m, id)]), Working(m, i, true), NoReply)
  }

  /** One step of `_write_summary`: a root file is removed, then written anew. */
  function Derive(d: Dir, m: Manifest, k: nat, removed: bool): State
    requires k < |Derived(m)|
  {
    if !removed then State(d.(root := d.root - {Derived(m)[k]}), Deriving(m, k, true), NoReply)
    else
      State(d.(root := d.root[Derived(m)[k] := Artifact(Derived(m)[k], m, d.samples)]), Deriving(m, k + 1, false), NoReply)
  }

  /** `finalize_run`, when the samples are valid. */
  function Finish(d: Dir, m: Manifest, made: bool): State {
    if !ValidSamples(m, d.samples) then State(d, Idle, Incomplete)
    else if !Admissible(m) || d.sealed.Some? || !HasRequired(d, m) then State(d, Idle, Rejected)
    else if !made then State(d.(sealedDir := true), Sealing(m, true), NoReply)
    else State(d.(sealed := Some(Seal(d, m))), Idle, if SUMMARY in d.root then Returned(d.root[SUMMARY]) else Broken)
  }

  /** The step a runner takes when nothing goes wrong. */
  function Go(s: State): State
    requires !s.pc.Idle?
  {
    match s.pc
    case Working(m, i, snapped) =>
      if i < |m.ids| then Work(s.dir, m, i, snapped) else State(s.dir, Deriving(m, 0, false), NoReply)
    case Deriving(m, k, removed) =>
      if k < |Derived(m)| then Derive(s.dir, m, k, removed) else State(s.dir, Sealing(m, false), NoReply)
    case Sealing(m, made) => Finish(s.dir, m, made)
  }

  ghost predicate Call(s: State, s': State) {
    s.pc.Idle? && exists m :: s' == Enter(s.dir, m)
  }

  /** An exception while processing a sample is caught, and the loop goes on. */
  ghost predicate SampleFails(s: State, s': State) {
    && s.pc.Working? && s.pc.next < |s.pc.m.ids|
    && s' == State(s.dir, Working(s.pc.m, s.pc.next + 1, false), NoReply)
  }

  /** The runner dies, or raises outside the handler; a call may be lost before it has written anything. */
  ghost predicate Crash(s: State, s': State) {
    s' == State(s.dir, Idle, Lost)
  }

  ghost predicate Step(s: State, s': State) {
    Call(s, s') || (!s.pc.Idle? && s' == Go(s)) || SampleFails(s, s') || Crash(s, s')
  }

  ghost predicate StepAt(run: seq<State>, k: int) {
    0 < k < |run| && Step(run[k - 1], run[k])
  }

  ghost predicate Run(run: seq<State>) {
    |run| > 0 && run[0] == State(EMPTY, Idle, NoReply) && forall k :: 0 < k < |run| ==> StepAt(run, k)
  }
}
