/** Which runs can be sealed and what a seal protects, without the predicates of the model. */
module RunExact {
  import opened Prelude
  import opened RunModel
  import opened RunResume
  import opened RunSafety
  import opened SafeNames

  lemma {:induction false} NoRepeatsIff(s: seq<string>)
    ensures NoRepeats(s) <==> |set x | x in s| == |s|
  {
    if NoRepeats(s) {
      NoRepeatsCount(s);
    } else {
      Fewer(s);
    }
  }

  lemma {:induction false} AtMost(s: seq<string>)
    ensures |set x | x in s| <= |s|
  {
    if s != [] {
      var init, last := s[..|s| - 1], s[|s| - 1];
      AtMost(init);
      assert s == init + [last];
      assert (set x | x in s) == (set x | x in init) + {last};
    }
  }

  lemma {:induction false} Fewer(s: seq<string>)
    requires !NoRepeats(s)
    ensures |set x | x in s| < |s|
  {
    var init, last := s[..|s| - 1], s[|s| - 1];
    assert s == init + [last];
    assert (set x | x in s) == (set x | x in init) + {last};
    if NoRepeats(init) {
      var i, j :| 0 <= i < j < |s| && s[i] == s[j];
      assert j == |s| - 1;
      assert last in init;
      AtMost(init);
    } else {
      Fewer(init);
    }
  }

  ghost predicate Marked(name: string) {
    exists k :: OccursAt(name, ".extraction_snapshot.json", k)
  }

  /** Different ids have different sample files, and no sample file looks like a snapshot. */
  ghost predicate OwnFiles(ids: seq<string>) {
    && (forall x, y :: x in ids && y in ids && SafeId(x) + ".json" == SafeId(y) + ".json" ==> x == y)
    && forall x :: x in ids ==> !Marked(SafeId(x) + ".json")
  }

  lemma OwnFilesIff(ids: seq<string>)
    ensures Clean(ids) <==> OwnFiles(ids)
  {
    forall x | x in ids ensures Loadable(SampleName(x)) <==> !Marked(SafeId(x) + ".json") {
      ContainsIff(SampleName(x), MARKER);
    }
    forall x, y | x in ids && y in ids ensures SafeId(x) == SafeId(y) <==> SafeId(x) + ".json" == SafeId(y) + ".json" {
      NamesFollowSafeIds(x, y);
    }
  }

  /** An uninterrupted call seals exactly when there are ids and questions, none of them twice, each sample has a file of
      its own that is none of a snapshot, and a publication has a clean tree. */
  lemma SealsExactly(m: Manifest)
    ensures End(EMPTY, m).sealed.Some?
       <==> m.ids != [] && m.questions != []
            && |set x | x in m.ids| == |m.ids| && |set x | x in m.questions| == |m.questions|
            && OwnFiles(m.ids) && !(m.artifactClass == Publication && m.dirty)
  {
    SealsIffSealable(m);
    NoRepeatsIff(m.ids);
    NoRepeatsIff(m.questions);
    OwnFilesIff(m.ids);
  }

  // ----- what a seal protects -----

  const PROTECTED: set<string> := {"manifest.json", "extraction_snapshot.json", "retrieval.jsonl", "evidence.jsonl", "consolidation.jsonl"}

  lemma RequiredIff(artifactClass: ArtifactClass, name: string)
    ensures name in Required(artifactClass)
       <==> if artifactClass == Publication then name in PROTECTED else name == "manifest.json"
  {
    assert ROOT_FILES[..4] == ["extraction_snapshot.json", "retrieval.jsonl", "evidence.jsonl", "consolidation.jsonl"];
    var four := ROOT_FILES[..4];
    assert four[0] == "extraction_snapshot.json" && four[1] == "retrieval.jsonl" && four[2] == "evidence.jsonl"
      && four[3] == "consolidation.jsonl";
  }

  /** A sealed publication in which one of the protected files was changed or removed breaks off; the other classes
      protect their manifest alone. */
  lemma SealProtects(run: seq<State>, k: nat, m: Manifest, root: Folder)
    requires Run(run) && k < |run| && run[k].dir.sealed.Some? && HasManifest(run[k].dir, m)
    requires "manifest.json" in root && root["manifest.json"] == run[k].dir.root["manifest.json"]
    requires "summary.json" in root
    ensures var reply := Enter(run[k].dir.(root := root), m).reply;
            reply == if m.artifactClass == Publication
                        && exists name :: name in PROTECTED && (name !in root || name !in run[k].dir.root || root[name] != run[k].dir.root[name])
                     then Broken else Returned(root["summary.json"])
  {
    EditedRunBreaks(run, k, m, root);
    forall name ensures name in Required(m.artifactClass)
      <==> if m.artifactClass == Publication then name in PROTECTED else name == "manifest.json"
    {
      RequiredIff(m.artifactClass, name);
    }
  }
}
