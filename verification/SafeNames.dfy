/** File names of per-sample artifacts: `_SAFE_ID_RE.sub("_", id)` and the two suffixes. */
module SafeNames {
  predicate Safe(c: char) {
    'A' <= c <= 'Z' || 'a' <= c <= 'z' || '0' <= c <= '9' || c == '.' || c == '_' || c == '-'
  }

  const CAPITALS := "ABCDEFGHIJKLMNOPQRSTUVWXYZ"
  const SMALL := "abcdefghijklmnopqrstuvwxyz"
  const DIGITS := "0123456789"

  lemma CapitalIff(c: char)
    ensures 'A' <= c <= 'Z' <==> c in CAPITALS
  {
    if 'A' <= c <= 'Z' {
      assert CAPITALS[c as int - 'A' as int] == c;
    }
  }

  lemma SmallIff(c: char)
    ensures 'a' <= c <= 'z' <==> c in SMALL
  {
    if 'a' <= c <= 'z' {
      assert SMALL[c as int - 'a' as int] == c;
    }
  }

  lemma DigitIff(c: char)
    ensures '0' <= c <= '9' <==> c in DIGITS
  {
    if '0' <= c <= '9' {
      assert DIGITS[c as int - '0' as int] == c;
    }
  }

  /** The characters that stay: ASCII letters and digits, and three marks. */
  lemma SafeIff(c: char)
    ensures Safe(c) <==> c in CAPITALS || c in SMALL || c in DIGITS || c in "._-"
  {
    CapitalIff(c);
    SmallIff(c);
    DigitIff(c);
    assert "._-"[0] == '.' && "._-"[1] == '_' && "._-"[2] == '-';
  }

  /** Skip one run of unsafe characters. */
  function SkipUnsafe(s: string): (rest: string)
    ensures |rest| <= |s| && (rest != "" ==> Safe(rest[0])) && (s != "" && !Safe(s[0]) ==> |rest| < |s|)
  {
    if s != "" && !Safe(s[0]) then SkipUnsafe(s[1..]) else s
  }

  /** Every run of unsafe characters becomes one underscore. */
  function SafeId(s: string): (t: string)
    ensures forall k :: 0 <= k < |t| ==> Safe(t[k])
    ensures |t| <= |s|
    decreases |s|
  {
    if s == "" then ""
    else if Safe(s[0]) then [s[0]] + SafeId(s[1..])
    else "_" + SafeId(SkipUnsafe(s))
  }

  /** An id is its own file stem exactly when it has only safe characters. */
  lemma {:induction false} SafeIdFixes(s: string)
    ensures SafeId(s) == s <==> forall k :: 0 <= k < |s| ==> Safe(s[k])
  {
    if s != "" && Safe(s[0]) {
      SafeIdFixes(s[1..]);
      assert s == [s[0]] + s[1..];
      if SafeId(s) == s {
        assert SafeId(s)[1..] == s[1..];
      }
    }
  }

  /** A run of unsafe characters, however long, becomes one underscore. */
  lemma {:induction false} UnsafeRun(s: string)
    requires s != "" && forall k :: 0 <= k < |s| ==> !Safe(s[k])
    ensures SafeId(s) == "_"
  {
    AllSkipped(s, "");
    assert s + "" == s;
  }

  lemma {:induction false} AllSkipped(a: string, b: string)
    requires (forall k :: 0 <= k < |a| ==> !Safe(a[k])) && (b == "" || Safe(b[0]))
    ensures SkipUnsafe(a + b) == b
  {
    if a == "" {
      assert a + b == b;
    } else {
      assert (a + b)[1..] == a[1..] + b;
      AllSkipped(a[1..], b);
    }
  }

  lemma {:induction false} SomeSkipped(a: string, b: string)
    ensures SkipUnsafe(a) != "" ==>
              SkipUnsafe(a + b) == SkipUnsafe(a) + b && SkipUnsafe(a)[|SkipUnsafe(a)| - 1] == a[|a| - 1]
    ensures SkipUnsafe(a) == "" ==> forall k :: 0 <= k < |a| ==> !Safe(a[k])
  {
    if a != "" {
      assert (a + b)[1..] == a[1..] + b;
      if !Safe(a[0]) {
        SomeSkipped(a[1..], b);
      }
    }
  }

  /** Parts whose border does not cut a run are replaced on their own.  With `SafeIdFixes` for the runs of safe
      characters and `UnsafeRun` for the others this determines every file stem. */
  lemma {:induction false} SafeIdJoin(a: string, b: string)
    requires a == "" || b == "" || Safe(a[|a| - 1]) || Safe(b[0])
    ensures SafeId(a + b) == SafeId(a) + SafeId(b)
    decreases |a|
  {
    if a == "" {
      assert a + b == b;
    } else if Safe(a[0]) {
      SafeIdJoin(a[1..], b);
      SafeHead(a, b);
    } else {
      if SkipUnsafe(a) != "" {
        SomeSkipped(a, b);
      }
      SafeIdJoin(SkipUnsafe(a), b);
      UnsafeTail(a, b);
    }
  }

  lemma SafeStep(s: string, c: char, t: string)
    requires s != "" && s[0] == c && Safe(c) && s[1..] == t
    ensures SafeId(s) == [c] + SafeId(t)
  {
  }

  lemma OneFirst(c: char, a: string, b: string)
    ensures [c] + (a + b) == ([c] + a) + b
  {
  }

  lemma SafeHead(a: string, b: string)
    requires a != "" && Safe(a[0]) && SafeId(a[1..] + b) == SafeId(a[1..]) + SafeId(b)
    ensures SafeId(a + b) == SafeId(a) + SafeId(b)
  {
    SafeStep(a, a[0], a[1..]);
    SafeStep(a + b, a[0], a[1..] + b);
    OneFirst(a[0], SafeId(a[1..]), SafeId(b));
  }

  lemma UnsafeTail(a: string, b: string)
    requires a != "" && !Safe(a[0]) && (b == "" || Safe(a[|a| - 1]) || Safe(b[0]))
    requires SafeId(SkipUnsafe(a) + b) == SafeId(SkipUnsafe(a)) + SafeId(b)
    ensures SafeId(a + b) == SafeId(a) + SafeId(b)
  {
    UnsafeHead(a, b);
    assert (a + b)[0] == a[0];
    OneUnderscore(SafeId(SkipUnsafe(a)), SafeId(b));
  }

  lemma OneUnderscore(a: string, b: string)
    ensures "_" + (a + b) == ("_" + a) + b
  {
  }

  lemma UnsafeHead(a: string, b: string)
    requires a != "" && !Safe(a[0]) && (b == "" || Safe(a[|a| - 1]) || Safe(b[0]))
    ensures SkipUnsafe(a + b) == SkipUnsafe(a) + b
  {
    SomeSkipped(a, b);
    if SkipUnsafe(a) == "" {
      assert !Safe(a[|a| - 1]);
      AllSkipped(a, b);
    }
  }

  const JSON := ".json"
  const MARKER := ".extraction_snapshot.json"

  function SampleName(id: string): string {
    SafeId(id) + JSON
  }

  function SnapshotName(id: string): string {
    SafeId(id) + MARKER
  }

  predicate Contains(s: string, part: string)
    decreases |s|
  {
    part <= s || (s != "" && Contains(s[1..], part))
  }

  ghost predicate OccursAt(s: string, part: string, k: int) {
    0 <= k && k + |part| <= |s| && s[k..k + |part|] == part
  }

  lemma {:induction false} ContainsIff(s: string, part: string)
    ensures Contains(s, part) <==> exists k :: OccursAt(s, part, k)
  {
    if s != "" {
      ContainsIff(s[1..], part);
      forall k ensures OccursAt(s, part, k) <==> (k == 0 && part <= s) || OccursAt(s[1..], part, k - 1) {
        if 0 < k && k + |part| <= |s| {
          assert s[k..k + |part|] == s[1..][k - 1..k - 1 + |part|];
        }
      }
      assert part <= s ==> OccursAt(s, part, 0);
      if k :| OccursAt(s[1..], part, k) {
        assert OccursAt(s, part, k + 1);
      }
    } else {
      assert part <= s ==> OccursAt(s, part, 0);
    }
  }

  lemma {:induction false} ContainsSuffix(s: string, part: string)
    ensures Contains(s + part, part)
  {
    if s == "" {
      assert s + part == part;
    } else {
      assert (s + part)[1..] == s[1..] + part;
      ContainsSuffix(s[1..], part);
    }
  }

  /** Which files `_load_sample_results` reads: those without the snapshot marker. */
  predicate Loadable(name: string) {
    !Contains(name, MARKER)
  }

  lemma SnapshotsAreNotLoaded(id: string)
    ensures !Loadable(SnapshotName(id))
  {
    ContainsSuffix(SafeId(id), MARKER);
  }

  lemma NamesFollowSafeIds(x: string, y: string)
    ensures SampleName(x) == SampleName(y) <==> SafeId(x) == SafeId(y)
    ensures SnapshotName(x) == SnapshotName(y) <==> SafeId(x) == SafeId(y)
    ensures SampleName(x) != SnapshotName(x)
  {
    if SampleName(x) == SampleName(y) {
      assert SafeId(x) == SampleName(x)[..|SampleName(x)| - 5];
      assert SafeId(y) == SampleName(y)[..|SampleName(y)| - 5];
    }
    if SnapshotName(x) == SnapshotName(y) {
      assert SafeId(x) == SnapshotName(x)[..|SnapshotName(x)| - 25];
      assert SafeId(y) == SnapshotName(y)[..|SnapshotName(y)| - 25];
    }
    assert |SampleName(x)| < |SnapshotName(x)|;
  }

  /** No file name serves two of the ids, or serves as sample and as snapshot. */
  ghost predicate Separate(ids: seq<string>) {
    && (forall x, y :: x in ids && y in ids && SafeId(x) == SafeId(y) ==> x == y)
    && (forall x, y :: x in ids && y in ids ==> SampleName(x) != SnapshotName(y))
  }

  /** The ids have file names of their own, and every sample file is one that is loaded. */
  ghost predicate Clean(ids: seq<string>) {
    && (forall x :: x in ids ==> Loadable(SampleName(x)))
    && (forall x, y :: x in ids && y in ids && SafeId(x) == SafeId(y) ==> x == y)
  }

  lemma CleanIsSeparate(ids: seq<string>)
    requires Clean(ids)
    ensures Separate(ids)
  {
    forall x, y | x in ids && y in ids ensures SampleName(x) != SnapshotName(y) {
      SnapshotsAreNotLoaded(y);
    }
  }

  lemma CollidingIds()
    ensures SafeId("q 1") == "q_1" == SafeId("q_1")
  {
    assert "q 1"[1..] == " 1" && SkipUnsafe(" 1") == "1";
    SafeIdFixes("q_1");
  }

  /** Different ids can collide. */
  lemma Collision()
    ensures SampleName("q 1") == SampleName("q_1") && !Clean(["q 1", "q_1"])
  {
    CollidingIds();
    var ids := ["q 1", "q_1"];
    assert ids[0] in ids && ids[1] in ids;
  }
}
