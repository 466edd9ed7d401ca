/** What `json.dumps` writes with compact separators and `ensure_ascii=False`, told by the grammar: the text without
    white space in which a character is escaped only where it must be, shortly where it can be, else in lower case. */
module JsonCompact {
  import opened CanonicalJson
  import opened JsonDecoder
  import opened JsonExact
  import opened JsonGrammar
  import opened JsonWriter

  predicate IsLower(q: Quad) {
    !q.a.upper && !q.b.upper && !q.c.upper && !q.d.upper
  }

  predicate CompactUnit(u: Unit) {
    match u
    case Plain(c) => true
    case Short(c) => c != '/'
    case Coded(q) => IsLower(q) && CodeUnit(q) < 32 && CodeUnit(q) !in {8, 9, 10, 12, 13}
    case Paired(_, _) => false
  }

  predicate CompactUnits(units: seq<Unit>) {
    forall k :: 0 <= k < |units| ==> CompactUnit(units[k])
  }

  predicate Compact(t: Tree) {
    match t
    case Word(_) => true
    case Num(_) => true
    case Quoted(units) => CompactUnits(units)
    case NoItems(w) => w == ""
    case Items(slots) => forall k :: 0 <= k < |slots| ==> CompactSlot(slots[k])
    case NoFields(w) => w == ""
    case Fields(fields) => forall k :: 0 <= k < |fields| ==> CompactField(fields[k])
  }

  predicate CompactSlot(s: Slot) {
    s.before == "" && Compact(s.tree) && s.after == ""
  }

  predicate CompactField(f: Field) {
    f.before == "" && CompactUnits(f.name) && f.beforeColon == "" && CompactSlot(f.slot)
  }

  // ----- a compact text is what is written of its meaning -----

  lemma UnitIsWritten(u: Unit)
    requires ValidUnit(u) && CompactUnit(u)
    ensures IsScalarCode(Code(u)) && UnitText(u) == EscapeCode(Code(u))
  {
    if u.Coded? {
      var q := u.q;
      assert q.a.value == 0 && q.b.value == 0 && q.c.value == Code(u) / 16 && q.d.value == Code(u) % 16;
      assert "\\u" + QuadText(q) == ['\\', 'u', '0', '0', HexDigit(Code(u) / 16), HexDigit(Code(u) % 16)];
    }
  }

  lemma {:induction false} UnitsAreWritten(units: seq<Unit>, t: string)
    requires ValidUnits(units) && CompactUnits(units)
    ensures WritableCodes(Codes(units)) && UnitsOnto(units, t) == StringOnto(Codes(units), t)
  {
    if units != [] {
      UnitIsWritten(units[0]);
      UnitsAreWritten(units[1..], t);
      assert Codes(units)[1..] == Codes(units[1..]);
    }
  }

  lemma {:induction false} CompactIsWritten(tree: Tree, t: string)
    requires Valid(tree) && Compact(tree)
    ensures Writable(Meaning(tree)) && TreeOnto(tree, t) == ValueOnto(Meaning(tree), t)
    decreases tree, 1
  {
    match tree
    case Word(v) =>
    case Num(n) => NumeralIsWritten(n);
    case Quoted(units) => UnitsAreWritten(units, t);
    case NoItems(w) => assert w + ("]" + t) == "]" + t;
    case Items(slots) => SlotsAreWritten(slots, t);
    case NoFields(w) => assert w + ("}" + t) == "}" + t;
    case Fields(fields) => FieldsAreWritten(fields, t);
  }

  lemma NumeralIsWritten(n: Numeral)
    requires ValidNumeral(n)
    ensures Writable(Number(NumeralText(n)))
  {
    NumeralRead(n, "");
    assert NumeralText(n) + "" == NumeralText(n);
  }

  lemma {:induction false} SlotIsWritten(s: Slot, t: string)
    requires ValidSlot(s) && CompactSlot(s)
    ensures Writable(Meaning(s.tree)) && SlotOnto(s, t) == ValueOnto(Meaning(s.tree), t)
    decreases s, 2
  {
    CompactIsWritten(s.tree, t);
    assert s.after + t == t && s.before + TreeOnto(s.tree, t) == TreeOnto(s.tree, t);
  }

  lemma {:induction false} SlotsAreWritten(slots: seq<Slot>, t: string)
    requires slots != [] && (forall k :: 0 <= k < |slots| ==> ValidSlot(slots[k]) && CompactSlot(slots[k]))
    ensures (forall i :: 0 <= i < |slots| ==> Writable(SlotMeanings(slots)[i]))
    ensures SlotsOnto(slots, t) == ElementsOnto(SlotMeanings(slots), t)
    decreases slots, 0
  {
    if |slots| == 1 {
      SlotIsWritten(slots[0], "]" + t);
    } else {
      SlotsAreWritten(slots[1..], t);
      SlotIsWritten(slots[0], "," + SlotsOnto(slots[1..], t));
      assert SlotMeanings(slots)[1..] == SlotMeanings(slots[1..]);
    }
  }

  lemma {:induction false} FieldIsWritten(f: Field, t: string)
    requires ValidField(f) && CompactField(f)
    ensures WritableMember(FieldMeaning(f)) && FieldOnto(f, t) == MemberOnto(FieldMeaning(f), t)
    decreases f, 3
  {
    SlotIsWritten(f.slot, t);
    UnitsAreWritten(f.name, ":" + SlotOnto(f.slot, t));
    assert f.beforeColon + (":" + SlotOnto(f.slot, t)) == ":" + SlotOnto(f.slot, t);
  }

  lemma {:induction false} FieldsAreWritten(fields: seq<Field>, t: string)
    requires fields != [] && (forall k :: 0 <= k < |fields| ==> ValidField(fields[k]) && CompactField(fields[k]))
    ensures forall i :: 0 <= i < |fields| ==>
              WritableCodes(FieldMeanings(fields)[i].name) && Writable(FieldMeanings(fields)[i].value)
    ensures FieldsOnto(fields, t) == MembersOnto(FieldMeanings(fields), t)
    decreases fields, 0
  {
    if |fields| == 1 {
      FieldIsWritten(fields[0], "}" + t);
    } else {
      FieldsAreWritten(fields[1..], t);
      FieldIsWritten(fields[0], "," + FieldsOnto(fields[1..], t));
      assert FieldMeanings(fields)[1..] == FieldMeanings(fields[1..]);
    }
  }

  // ----- and everything that can be written has one -----

  function UnitOf(code: nat): Unit
    requires IsScalarCode(code)
  {
    if code < 32 || code == 34 || code == 92 then AsciiUnit(code) else Plain(code as char)
  }

  lemma UnitOfCode(code: nat)
    requires IsScalarCode(code)
    ensures ValidUnit(UnitOf(code)) && CompactUnit(UnitOf(code)) && Code(UnitOf(code)) == code
  {
    AsciiCode(code);
  }

  lemma {:induction false} SomeUnits(codes: seq<nat>) returns (units: seq<Unit>)
    requires WritableCodes(codes)
    ensures ValidUnits(units) && CompactUnits(units) && Codes(units) == codes
  {
    units := [];
    if codes != [] {
      var more := SomeUnits(codes[1..]);
      UnitOfCode(codes[0]);
      units := [UnitOf(codes[0])] + more;
      assert units[1..] == more;
      assert codes == [codes[0]] + codes[1..];
    }
  }

  lemma {:induction false} SomeTree(v: Json) returns (tree: Tree)
    requires Writable(v)
    ensures Valid(tree) && Compact(tree) && Meaning(tree) == v
    decreases v, 1
  {
    match v
    case Number(lexeme) =>
      var n := NumeralTaken(lexeme);
      tree := Num(n);
    case Text(codes) =>
      var units := SomeUnits(codes);
      tree := Quoted(units);
    case Array(items) =>
      var slots := SomeSlots(items);
      tree := if items == [] then NoItems("") else Items(slots);
    case Object(members) =>
      var fields := SomeFields(members);
      tree := if members == [] then NoFields("") else Fields(fields);
    case _ =>
      tree := Word(v);
  }

  lemma {:induction false} SomeSlots(items: seq<Json>) returns (slots: seq<Slot>)
    requires forall i :: 0 <= i < |items| ==> Writable(items[i])
    ensures |slots| == |items| && (forall k :: 0 <= k < |slots| ==> ValidSlot(slots[k]) && CompactSlot(slots[k]))
    ensures SlotMeanings(slots) == items
    decreases items, 0
  {
    slots := [];
    if items != [] {
      var tree := SomeTree(items[0]);
      var more := SomeSlots(items[1..]);
      slots := [Slot("", tree, "")] + more;
      assert slots[1..] == more;
      assert items == [items[0]] + items[1..];
    }
  }

  lemma FieldsOne(f: Field, m: Member, more: seq<Field>)
    requires ValidField(f) && CompactField(f) && m == FieldMeaning(f)
    requires forall k :: 0 <= k < |more| ==> ValidField(more[k]) && CompactField(more[k])
    ensures forall k :: 0 <= k < |more| + 1 ==> ValidField(([f] + more)[k]) && CompactField(([f] + more)[k])
    ensures FieldMeanings([f] + more) == [m] + FieldMeanings(more)
  {
    assert ([f] + more)[1..] == more;
  }

  lemma {:induction false} SomeFields(members: seq<Member>) returns (fields: seq<Field>)
    requires forall i :: 0 <= i < |members| ==> WritableCodes(members[i].name) && Writable(members[i].value)
    ensures |fields| == |members| && (forall k :: 0 <= k < |fields| ==> ValidField(fields[k]) && CompactField(fields[k]))
    ensures FieldMeanings(fields) == members
    decreases members, 0
  {
    fields := [];
    if members != [] {
      var name := SomeUnits(members[0].name);
      var tree := SomeTree(members[0].value);
      var more := SomeFields(members[1..]);
      var field := Field("", name, "", Slot("", tree, ""));
      FieldsOne(field, members[0], more);
      fields := [field] + more;
      assert members == [members[0]] + members[1..];
    }
  }

  // ----- exactly the compact text -----

  ghost predicate IsCompactText(s: string, v: Json) {
    exists tree :: Compact(tree) && Writes(tree, s, v, "")
  }

  /** What is written of a value is its one compact text. */
  lemma DumpIffCompact(v: Json, s: string)
    requires Writable(v)
    ensures s == Dump(v) <==> IsCompactText(s, v)
  {
    var tree := SomeTree(v);
    CompactIsWritten(tree, "");
    assert Writes(tree, Dump(v), v, "");
    if IsCompactText(s, v) {
      var other :| Compact(other) && Writes(other, s, v, "");
      CompactIsWritten(other, "");
    }
  }

  /** So the canonical form is the compact text of the value with sorted keys. */
  lemma CanonicalIffCompact(v: Json, s: string)
    requires Writable(v)
    ensures s == Canonical(v) <==> IsCompactText(s, SortKeys(v))
  {
    SortedWritable(v);
    DumpIffCompact(SortKeys(v), s);
  }
}
