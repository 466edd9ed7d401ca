/** `canonical_json`: compact JSON with the keys of every object sorted.  Two values have the same canonical text
    exactly when they are equal as Python values, whose dictionaries have no order. */
module CanonicalJson {
  import opened JsonDecoder
  import opened JsonWriter
  import opened Sorting
  import opened StreamReader

  /** Python's order of strings, by code point. */
  predicate CodesLeq(a: seq<nat>, b: seq<nat>) {
    a == [] || (b != [] && (a[0] < b[0] || (a[0] == b[0] && CodesLeq(a[1..], b[1..]))))
  }

  predicate NameLeq(a: Member, b: Member) {
    CodesLeq(a.name, b.name)
  }

  function SortKeys(v: Json): Json
    decreases v, 1
  {
    match v
    case Array(items) => Array(SortItems(items))
    case Object(members) => Object(Sort(SortValues(members), NameLeq))
    case _ => v
  }

  function SortItems(items: seq<Json>): (r: seq<Json>)
    ensures |r| == |items| && forall i :: 0 <= i < |r| ==> r[i] == SortKeys(items[i])
    decreases items, 0
  {
    if items == [] then [] else [SortKeys(items[0])] + SortItems(items[1..])
  }

  function SortValues(members: seq<Member>): (r: seq<Member>)
    ensures |r| == |members|
    ensures forall i :: 0 <= i < |r| ==> r[i] == Member(members[i].name, SortKeys(members[i].value))
    decreases members, 0
  {
    if members == [] then [] else [Member(members[0].name, SortKeys(members[0].value))] + SortValues(members[1..])
  }

  // ----- the order of names -----

  lemma {:induction false} CodesTotal(a: seq<nat>, b: seq<nat>)
    ensures CodesLeq(a, b) || CodesLeq(b, a)
  {
    if a != [] && b != [] {
      CodesTotal(a[1..], b[1..]);
    }
  }

  lemma {:induction false} CodesAntisymmetric(a: seq<nat>, b: seq<nat>)
    requires CodesLeq(a, b) && CodesLeq(b, a)
    ensures a == b
  {
    if a != [] && b != [] {
      CodesAntisymmetric(a[1..], b[1..]);
      assert a == [a[0]] + a[1..] && b == [b[0]] + b[1..];
    }
  }

  lemma {:induction false} CodesTransitive(a: seq<nat>, b: seq<nat>, c: seq<nat>)
    requires CodesLeq(a, b) && CodesLeq(b, c)
    ensures CodesLeq(a, c)
  {
    if a != [] && b != [] && c != [] && a[0] == b[0] == c[0] {
      CodesTransitive(a[1..], b[1..], c[1..]);
    }
  }

  function Chars(codes: seq<nat>): (s: string)
    requires WritableCodes(codes)
    ensures |s| == |codes| && forall k :: 0 <= k < |s| ==> s[k] as int == codes[k]
  {
    seq(|codes|, k requires 0 <= k < |codes| => codes[k] as char)
  }

  /** Names are ordered as the strings that they are. */
  lemma {:induction false} CodesAsStrings(a: seq<nat>, b: seq<nat>)
    requires WritableCodes(a) && WritableCodes(b)
    ensures CodesLeq(a, b) <==> StringLeq(Chars(a), Chars(b))
  {
    if a != [] && b != [] {
      CodesAsStrings(a[1..], b[1..]);
      assert Chars(a)[1..] == Chars(a[1..]) && Chars(b)[1..] == Chars(b[1..]);
    }
  }

  lemma NamePreorder()
    ensures Preorder(NameLeq)
  {
    forall a, b ensures NameLeq(a, b) || NameLeq(b, a) {
      CodesTotal(a.name, b.name);
    }
    forall a, b, c | NameLeq(a, b) && NameLeq(b, c) ensures NameLeq(a, c) {
      CodesTransitive(a.name, b.name, c.name);
    }
  }

  // ----- writing the sorted value -----

  predicate WritableMember(m: Member) {
    WritableCodes(m.name) && Writable(m.value)
  }

  lemma {:induction false} SortedWritable(v: Json)
    requires Writable(v)
    ensures Writable(SortKeys(v))
    decreases v
  {
    match v
    case Array(items) =>
      forall i | 0 <= i < |items| ensures Writable(SortItems(items)[i]) {
        SortedWritable(items[i]);
      }
    case Object(members) =>
      forall i | 0 <= i < |members| ensures WritableMember(SortValues(members)[i]) {
        SortedWritable(members[i].value);
      }
      SortedMembersWritable(SortValues(members));
    case _ =>
  }

  lemma SortedMembersWritable(members: seq<Member>)
    requires forall i :: 0 <= i < |members| ==> WritableMember(members[i])
    ensures Writable(Object(Sort(members, NameLeq)))
  {
    NamePreorder();
    SortSorts(members, NameLeq);
    var sorted := Sort(members, NameLeq);
    forall i | 0 <= i < |sorted| ensures WritableMember(sorted[i]) {
      assert sorted[i] in multiset(sorted);
      assert sorted[i] in members;
    }
    assert forall i :: 0 <= i < |sorted| ==> WritableMember(sorted[i]);
  }

  function Canonical(v: Json): string
    requires Writable(v)
  {
    SortedWritable(v);
    Dump(SortKeys(v))
  }

  /** Loading the canonical text of any value gives the value with sorted keys. */
  lemma LoadsCanonical(v: Json)
    requires Writable(v)
    ensures Loads(Canonical(v)) == Got(SortKeys(v), "")
  {
    SortedWritable(v);
    LoadsDump(SortKeys(v));
  }

  lemma CanonicalText(v: Json, w: Json)
    requires Writable(v) && Writable(w)
    ensures Canonical(v) == Canonical(w) <==> SortKeys(v) == SortKeys(w)
  {
    LoadsCanonical(v);
    LoadsCanonical(w);
  }

  // ----- equality of values -----

  /** No name twice, as in a Python dictionary. */
  ghost predicate DistinctNames(members: seq<Member>) {
    forall i, j :: 0 <= i < j < |members| ==> members[i].name != members[j].name
  }

  ghost predicate IsValue(v: Json)
    decreases v
  {
    match v
    case Array(items) => forall i :: 0 <= i < |items| ==> IsValue(items[i])
    case Object(members) => DistinctNames(members) && forall i :: 0 <= i < |members| ==> IsValue(members[i].value)
    case _ => true
  }

  /** Equal up to the order of dictionaries. */
  ghost predicate Same(v: Json, w: Json)
    decreases v
  {
    match (v, w)
    case (Array(a), Array(b)) => |a| == |b| && forall i :: 0 <= i < |a| ==> Same(a[i], b[i])
    case (Object(a), Object(b)) =>
      |a| == |b| && forall i :: 0 <= i < |a| ==> HasSame(a, b, i)
    case _ => v == w
  }

  /** Some member of `b` has the name and the value of member `i` of `a`. */
  ghost predicate HasSame(a: seq<Member>, b: seq<Member>, i: int)
    requires 0 <= i < |a|
    decreases a
  {
    exists j :: 0 <= j < |b| && a[i].name == b[j].name && Same(a[i].value, b[j].value)
  }

  ghost predicate Agree(v: Json, w: Json) {
    Same(v, w) <==> SortKeys(v) == SortKeys(w)
  }

  /** Equal values sort alike, and values that sort alike are equal. */
  lemma {:induction false} SameSorted(v: Json, w: Json)
    requires IsValue(v) && IsValue(w)
    ensures Agree(v, w)
    decreases v
  {
    match (v, w)
    case (Array(a), Array(b)) =>
      forall i, j | 0 <= i < |a| && 0 <= j < |b| ensures Agree(a[i], b[j]) {
        SameSorted(a[i], b[j]);
      }
      SameArrays(a, b);
    case (Object(a), Object(b)) =>
      forall i, j | 0 <= i < |a| && 0 <= j < |b| ensures Agree(a[i].value, b[j].value) {
        SameSorted(a[i].value, b[j].value);
      }
      SameObjects(a, b);
    case _ =>
  }

  lemma SortItemsEqual(a: seq<Json>, b: seq<Json>)
    requires |a| == |b|
    ensures SortItems(a) == SortItems(b) <==> forall i :: 0 <= i < |a| ==> SortKeys(a[i]) == SortKeys(b[i])
  {
    var s, t := SortItems(a), SortItems(b);
    if s == t {
      forall i | 0 <= i < |a| ensures SortKeys(a[i]) == SortKeys(b[i]) {
        assert s[i] == t[i];
      }
    }
  }

  lemma SameArrays(a: seq<Json>, b: seq<Json>)
    requires forall i, j :: 0 <= i < |a| && 0 <= j < |b| ==> Agree(a[i], b[j])
    ensures Agree(Array(a), Array(b))
  {
    if |a| == |b| {
      SortItemsEqual(a, b);
      assert forall i :: 0 <= i < |a| ==> Agree(a[i], b[i]);
    }
  }

  /** The member of one object that corresponds to a member of the other. */
  ghost predicate Corresponds(a: seq<Member>, b: seq<Member>, i: int, j: int) {
    0 <= i < |a| && 0 <= j < |b| && SortValues(a)[i] == SortValues(b)[j]
  }

  ghost predicate HasCounterpart(a: seq<Member>, b: seq<Member>, i: int) {
    exists j :: Corresponds(a, b, i, j)
  }

  lemma SortedNamesDistinct(members: seq<Member>)
    requires DistinctNames(members)
    ensures Distinct(SortValues(members))
  {
  }

  lemma NoNameTies(members: seq<Member>)
    requires DistinctNames(members)
    ensures TieFree(SortValues(members), NameLeq)
  {
    var s := SortValues(members);
    forall x, y | x in s && y in s && NameLeq(x, y) && NameLeq(y, x) ensures x == y {
      CodesAntisymmetric(x.name, y.name);
      var i: nat :| i < |s| && s[i] == x;
      var j: nat :| j < |s| && s[j] == y;
      OneName(members, i, j);
    }
  }

  lemma OneName(members: seq<Member>, i: nat, j: nat)
    requires DistinctNames(members) && i < |members| && j < |members| && members[i].name == members[j].name
    ensures i == j
  {
  }

  lemma CounterpartOf(a: seq<Member>, b: seq<Member>, i: nat, j: nat)
    requires i < |a| && j < |b| && Agree(a[i].value, b[j].value)
    ensures Corresponds(a, b, i, j) <==> a[i].name == b[j].name && Same(a[i].value, b[j].value)
  {
  }

  lemma CounterpartIsSame(a: seq<Member>, b: seq<Member>, i: nat)
    requires i < |a| && forall j :: 0 <= j < |b| ==> Agree(a[i].value, b[j].value)
    ensures HasSame(a, b, i) <==> HasCounterpart(a, b, i)
  {
    if HasSame(a, b, i) {
      var j :| 0 <= j < |b| && a[i].name == b[j].name && Same(a[i].value, b[j].value);
      CounterpartOf(a, b, i, j);
    }
    if HasCounterpart(a, b, i) {
      var j :| Corresponds(a, b, i, j);
      CounterpartOf(a, b, i, j);
    }
  }

  lemma SameObjects(a: seq<Member>, b: seq<Member>)
    requires DistinctNames(a) && DistinctNames(b)
    requires forall i, j :: 0 <= i < |a| && 0 <= j < |b| ==> Agree(a[i].value, b[j].value)
    ensures Agree(Object(a), Object(b))
  {
    forall i | 0 <= i < |a| ensures HasSame(a, b, i) <==> HasCounterpart(a, b, i) {
      CounterpartIsSame(a, b, i);
    }
    if SortKeys(Object(a)) == SortKeys(Object(b)) {
      SortCorresponds(a, b);
    } else if |a| == |b| && forall i :: 0 <= i < |a| ==> HasCounterpart(a, b, i) {
      CorrespondingSort(a, b);
    }
  }

  /** Distinct items, as many on either side and each with a counterpart, are the same items. */
  lemma SameItems<T(!new)>(a: seq<T>, b: seq<T>)
    requires Distinct(a) && Distinct(b) && |a| == |b| && forall x :: x in a ==> x in b
    ensures multiset(a) == multiset(b)
  {
    DistinctOnce(a);
    DistinctOnce(b);
    assert multiset(a) <= multiset(b) by {
      forall x ensures multiset(a)[x] <= multiset(b)[x] {
        assert x in multiset(a) ==> x in a;
      }
    }
    var rest := multiset(b) - multiset(a);
    assert multiset(b) == multiset(a) + rest;
    assert |multiset(b)| == |multiset(a)| + |rest|;
    assert rest == multiset{};
  }

  lemma CorrespondingSort(a: seq<Member>, b: seq<Member>)
    requires DistinctNames(a) && DistinctNames(b) && |a| == |b|
    requires forall i :: 0 <= i < |a| ==> HasCounterpart(a, b, i)
    ensures SortKeys(Object(a)) == SortKeys(Object(b))
  {
    var s, t := SortValues(a), SortValues(b);
    SortedNamesDistinct(a);
    SortedNamesDistinct(b);
    forall x | x in s ensures x in t {
      var i :| 0 <= i < |s| && s[i] == x;
      assert HasCounterpart(a, b, i);
      var j :| Corresponds(a, b, i, j);
      assert t[j] == x;
    }
    SameItems(s, t);
    NamePreorder();
    NoNameTies(a);
    SortPermutation(s, t, NameLeq);
  }

  lemma SortCorresponds(a: seq<Member>, b: seq<Member>)
    requires SortKeys(Object(a)) == SortKeys(Object(b))
    ensures |a| == |b| && forall i :: 0 <= i < |a| ==> HasCounterpart(a, b, i)
  {
    var s, t := SortValues(a), SortValues(b);
    NamePreorder();
    SortSorts(s, NameLeq);
    SortSorts(t, NameLeq);
    SameSize(s, t);
    forall i | 0 <= i < |a| ensures HasCounterpart(a, b, i) {
      assert s[i] in multiset(s);
      assert s[i] in multiset(t);
      var j :| 0 <= j < |t| && t[j] == s[i];
      assert Corresponds(a, b, i, j);
    }
  }

  /** Two values have the same canonical text exactly when they are equal up to the order of their dictionaries. */
  lemma CanonicalIffSame(v: Json, w: Json)
    requires Writable(v) && Writable(w) && IsValue(v) && IsValue(w)
    ensures Canonical(v) == Canonical(w) <==> Same(v, w)
  {
    CanonicalText(v, w);
    SameSorted(v, w);
  }

  /** A list of objects in canonical form is streamed back with sorted keys, at any chunk size. */
  lemma StreamCanonical(items: seq<Json>, size: nat)
    requires size >= 1 && Writable(Array(items))
    requires forall i :: 0 <= i < |items| ==> items[i].Object?
    ensures Stream(Canonical(Array(items)), size) == (SortItems(items), Finished)
  {
    LoadsCanonical(Array(items));
    StillObjects(items);
    DatasetsAreRead(Canonical(Array(items)), SortItems(items), size);
  }

  lemma StillObjects(items: seq<Json>)
    requires forall i :: 0 <= i < |items| ==> items[i].Object?
    ensures forall i :: 0 <= i < |items| ==> SortItems(items)[i].Object?
    ensures SortKeys(Array(items)) == Array(SortItems(items))
  {
  }
}
