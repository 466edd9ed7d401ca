/** The other half: whatever the decoder reads is a text of the grammar, with the meaning the decoder gives it.
    Together the decoder reads exactly the texts of the grammar. */
module JsonExact {
  import opened JsonDecoder
  import opened JsonGrammar
  import opened JsonWriter
  import opened StreamReader

  lemma {:induction false} SpaceTaken(s: string) returns (w: string)
    ensures Blank(w) && s == w + SkipWs(s)
  {
    if s != "" && IsWs(s[0]) {
      var v := SpaceTaken(s[1..]);
      w := [s[0]] + v;
    } else {
      w := "";
    }
  }

  // ----- strings -----

  lemma DigitTaken(c: char) returns (d: Digit)
    requires HexValue(c) >= 0
    ensures IsDigit16(d) && d.value == HexValue(c) && DigitChar(d) == c
  {
    d := Digit(HexValue(c), 'A' <= c <= 'F');
  }

  lemma QuadTaken(s: string) returns (q: Quad)
    requires Hex4(s).Got?
    ensures ValidQuad(q) && CodeUnit(q) == Hex4(s).value && s == QuadText(q) + Hex4(s).rest
  {
    var a := DigitTaken(s[0]);
    var b := DigitTaken(s[1]);
    var c := DigitTaken(s[2]);
    var d := DigitTaken(s[3]);
    q := Quad(a, b, c, d);
    assert s == s[..4] + s[4..];
  }

  lemma TwoBehind(s: string)
    requires Starts(s, '\\') && Starts(s[1..], 'u')
    ensures s == "\\u" + s[2..]
  {
  }

  lemma EscapeTaken(s: string) returns (u: Unit)
    requires UnicodeEscape(s).Got?
    ensures ValidUnit(u) && Code(u) == UnicodeEscape(s).value && "\\u" + s == UnitText(u) + UnicodeEscape(s).rest
    ensures (u.Coded? && Apart(u.q, UnicodeEscape(s).rest)) || u.Paired?
  {
    var q := QuadTaken(s);
    var t := Hex4(s).rest;
    u := Coded(q);
    if High(CodeUnit(q)) && Starts(t, '\\') && Starts(t[1..], 'u') && Low(Hex4(t[2..]).value) {
      var l := QuadTaken(t[2..]);
      TwoBehind(t);
      u := Paired(q, l);
      PairText(q, l, Hex4(t[2..]).rest);
    } else {
      assert "\\u" + (QuadText(q) + t) == "\\u" + QuadText(q) + t;
    }
  }

  lemma ShortTaken(c: char)
    requires SimpleEscape(c) >= 0
    ensures c in SHORT && SHORT[c] == SimpleEscape(c)
  {
  }

  lemma UnitTaken(s: string) returns (u: Unit)
    requires StringUnit(s).Got?
    ensures ValidUnit(u) && Code(u) == StringUnit(s).value && s == UnitText(u) + StringUnit(s).rest
    ensures u.Coded? ==> Apart(u.q, StringUnit(s).rest)
  {
    if s[0] != '\\' {
      u := Plain(s[0]);
    } else if s[1] == 'u' {
      u := EscapeTaken(s[1..][1..]);
      assert s == "\\u" + s[1..][1..];
    } else {
      ShortTaken(s[1]);
      u := Short(s[1]);
    }
  }

  lemma NotAPair(high: Quad, q: Quad, t: string)
    requires ValidQuad(high) && ValidQuad(q) && Apart(high, "\\u" + (QuadText(q) + t))
    ensures !(High(CodeUnit(high)) && Low(CodeUnit(q)))
  {
    QuadRead(q, t);
    EscapeMark(QuadText(q) + t);
  }

  lemma CodedOnto(units: seq<Unit>, t: string)
    requires units != [] && units[0].Coded? && forall k :: 0 <= k < |units| ==> ValidUnit(units[k])
    ensures UnitsOnto(units, t) == "\\u" + (QuadText(units[0].q) + UnitsOnto(units[1..], t))
  {
  }

  predicate Pairs(u: Unit, v: Unit) {
    u.Coded? && v.Coded? && High(CodeUnit(u.q)) && Low(CodeUnit(v.q))
  }

  lemma NoPairs(units: seq<Unit>, k: int)
    requires ValidUnits(units) && 0 < k < |units|
    ensures !Pairs(units[k - 1], units[k])
  {
  }

  /** A unit in front of others that it does not pair with. */
  lemma ValidMore(u: Unit, units: seq<Unit>, t: string)
    requires ValidUnit(u) && ValidUnits(units) && (u.Coded? ==> Apart(u.q, UnitsOnto(units, t)))
    ensures ValidUnits([u] + units)
  {
    var all := [u] + units;
    if u.Coded? && units != [] && units[0].Coded? {
      CodedOnto(units, t);
      NotAPair(u.q, units[0].q, UnitsOnto(units[1..], t));
    }
    forall k | 0 < k < |all| ensures !Pairs(all[k - 1], all[k]) {
      if k > 1 {
        NoPairs(units, k - 1);
      }
    }
    AllValid(all);
  }

  lemma AllValid(units: seq<Unit>)
    requires forall k :: 0 <= k < |units| ==> ValidUnit(units[k])
    requires forall k :: 0 < k < |units| ==> !Pairs(units[k - 1], units[k])
    ensures ValidUnits(units)
  {
    forall k | 0 < k < |units| && units[k - 1].Coded? && units[k].Coded?
      ensures !(High(CodeUnit(units[k - 1].q)) && Low(CodeUnit(units[k].q)))
    {
      assert !Pairs(units[k - 1], units[k]);
    }
  }

  lemma {:induction false} UnitsTaken(s: string) returns (units: seq<Unit>)
    requires ScanString(s).Got?
    ensures ValidUnits(units) && Codes(units) == ScanString(s).value && s == UnitsOnto(units, ScanString(s).rest)
    decreases |s|
  {
    if Starts(s, '"') {
      units := [];
      assert s == "\"" + s[1..];
    } else {
      var u := UnitTaken(s);
      var rest := UnitsTaken(StringUnit(s).rest);
      ValidMore(u, rest, ScanString(s).rest);
      units := [u] + rest;
      assert units[1..] == rest;
    }
  }

  // ----- numbers -----

  lemma {:induction false} DigitsTaken(s: string)
    ensures AllDigits(Digits(s).taken)
  {
    if s != "" && IsDigit(s[0]) {
      DigitsTaken(s[1..]);
    }
  }

  lemma NaturalTaken(s: string)
    requires Natural(s).taken != ""
    ensures AllDigits(Natural(s).taken) && (Natural(s).taken[0] == '0' ==> Natural(s).taken == "0")
  {
    DigitsTaken(s);
    if !Starts(s, '0') {
      assert (Digits(s).taken + Digits(s).rest)[0] == Digits(s).taken[0];
    }
  }

  lemma IntegerTaken(s: string) returns (minus: bool, integer: string)
    requires Integer(s).taken != ""
    ensures integer != "" && AllDigits(integer) && (integer[0] == '0' ==> integer == "0")
    ensures Integer(s).taken == SignText(minus) + integer
  {
    minus := Starts(s, '-');
    if minus {
      integer := Natural(s[1..]).taken;
      NaturalTaken(s[1..]);
    } else {
      integer := Natural(s).taken;
      NaturalTaken(s);
      assert "" + integer == integer;
    }
  }

  lemma FractionTaken(s: string) returns (f: string)
    ensures AllDigits(f) && Fraction(s).taken == FractionText(f)
  {
    f := "";
    if Starts(s, '.') {
      DigitsTaken(s[1..]);
      f := Digits(s[1..]).taken;
    }
  }

  lemma SignedTaken(s: string) returns (sign: string, ds: string)
    requires SignedDigits(s).taken != ""
    ensures sign in {"", "+", "-"} && ds != "" && AllDigits(ds) && SignedDigits(s).taken == sign + ds
  {
    if Starts(s, '+') || Starts(s, '-') {
      sign, ds := [s[0]], Digits(s[1..]).taken;
      DigitsTaken(s[1..]);
    } else {
      sign, ds := "", Digits(s).taken;
      DigitsTaken(s);
      assert "" + ds == ds;
    }
  }

  lemma ExponentTaken(s: string) returns (e: Exp)
    ensures ValidExp(e) && Exponent(s).taken == ExpText(e)
  {
    e := NoExp;
    if (Starts(s, 'e') || Starts(s, 'E')) && SignedDigits(s[1..]).taken != "" {
      var sign, ds := SignedTaken(s[1..]);
      e := Exp(s[0], sign, ds);
    }
  }

  lemma NumeralTaken(s: string) returns (n: Numeral)
    requires NumberOf(s).taken != ""
    ensures ValidNumeral(n) && NumberOf(s).taken == NumeralText(n)
  {
    var minus, integer := IntegerTaken(s);
    var f := FractionTaken(Integer(s).rest);
    var e := ExponentTaken(Fraction(Integer(s).rest).rest);
    n := Numeral(minus, integer, f, e);
    NumeralSplit(n, "");
    NumberParts(s, Integer(s), Fraction(Integer(s).rest), Exponent(Fraction(Integer(s).rest).rest));
  }

  // ----- values -----

  lemma WordTaken(s: string)
    requires ScanConstant(s).Got?
    ensures Valid(Word(ScanConstant(s).value)) && s == WordText(ScanConstant(s).value) + ScanConstant(s).rest
  {
    var w := WordText(ScanConstant(s).value);
    assert w <= s && ScanConstant(s).rest == s[|w|..];
  }

  lemma ScalarTaken(s: string) returns (t: Tree)
    requires ScanScalar(s).Got?
    ensures Valid(t) && Meaning(t) == ScanScalar(s).value && s == TreeOnto(t, ScanScalar(s).rest)
  {
    if StartsNumber(s) && NumberOf(s).taken != "" {
      var n := NumeralTaken(s);
      t := Num(n);
    } else {
      WordTaken(s);
      t := Word(ScanConstant(s).value);
    }
  }

  lemma HeadText(s: string, c: char)
    requires Starts(s, c)
    ensures s == [c] + s[1..]
  {
  }

  lemma {:induction false} TreeTaken(s: string) returns (t: Tree)
    requires ScanValue(s).Got?
    ensures Valid(t) && Meaning(t) == ScanValue(s).value && s == TreeOnto(t, ScanValue(s).rest)
    decreases |s|, 0
  {
    if s[0] == '"' {
      var units := UnitsTaken(s[1..]);
      t := Quoted(units);
      HeadText(s, '"');
    } else if s[0] == '{' {
      t := ObjectTaken(s);
    } else if s[0] == '[' {
      t := ArrayTaken(s);
    } else {
      t := ScalarTaken(s);
    }
  }

  lemma {:induction false} ArrayTaken(s: string) returns (t: Tree)
    requires ScanValue(s).Got? && s[0] == '['
    ensures Valid(t) && Meaning(t) == ScanValue(s).value && s == TreeOnto(t, ScanValue(s).rest)
    decreases |s|, 0, 0
  {
    HeadText(s, '[');
    var w := SpaceTaken(s[1..]);
    var k := SkipWs(s[1..]);
    if Starts(k, ']') {
      t := NoItems(w);
      HeadText(k, ']');
    } else {
      var slots := SlotsTaken(w, k);
      t := Items(slots);
    }
  }

  lemma {:induction false} ObjectTaken(s: string) returns (t: Tree)
    requires ScanValue(s).Got? && s[0] == '{'
    ensures Valid(t) && Meaning(t) == ScanValue(s).value && s == TreeOnto(t, ScanValue(s).rest)
    decreases |s|, 0, 0
  {
    HeadText(s, '{');
    var w := SpaceTaken(s[1..]);
    var k := SkipWs(s[1..]);
    if Starts(k, '}') {
      t := NoFields(w);
      HeadText(k, '}');
    } else {
      var fields := FieldsTaken(w, k);
      t := Fields(fields);
    }
  }

  /** One value with the white space around it, in front of the punctuation `k`. */
  lemma {:induction false} SlotTaken(w: string, s: string) returns (slot: Slot)
    requires Blank(w) && ScanValue(s).Got?
    ensures ValidSlot(slot) && Meaning(slot.tree) == ScanValue(s).value
    ensures SlotOnto(slot, SkipWs(ScanValue(s).rest)) == w + s
    decreases |s|, 1
  {
    var t := TreeTaken(s);
    var after := SpaceTaken(ScanValue(s).rest);
    slot := Slot(w, t, after);
  }

  lemma OneSlot(slot: Slot, k: string)
    requires ValidSlot(slot) && Starts(k, ']')
    ensures SlotsOnto([slot], k[1..]) == SlotOnto(slot, k) && SlotMeanings([slot]) == [Meaning(slot.tree)]
  {
    HeadText(k, ']');
  }

  lemma MoreSlots(slot: Slot, slots: seq<Slot>, k: string, rest: string)
    requires ValidSlot(slot) && slots != [] && (forall i :: 0 <= i < |slots| ==> ValidSlot(slots[i]))
    requires Starts(k, ',') && SlotsOnto(slots, rest) == k[1..]
    ensures forall i :: 0 <= i < |[slot] + slots| ==> ValidSlot(([slot] + slots)[i])
    ensures SlotsOnto([slot] + slots, rest) == SlotOnto(slot, k)
    ensures SlotMeanings([slot] + slots) == [Meaning(slot.tree)] + SlotMeanings(slots)
  {
    HeadText(k, ',');
    assert ([slot] + slots)[1..] == slots;
  }

  lemma {:induction false} SlotsTaken(w: string, s: string) returns (slots: seq<Slot>)
    requires Blank(w) && ScanElements(s).Got?
    ensures slots != [] && forall i :: 0 <= i < |slots| ==> ValidSlot(slots[i])
    ensures SlotMeanings(slots) == ScanElements(s).value && SlotsOnto(slots, ScanElements(s).rest) == w + s
    decreases |s|, 2
  {
    var slot := SlotTaken(w, s);
    var k := SkipWs(ScanValue(s).rest);
    if Starts(k, ']') {
      OneSlot(slot, k);
      slots := [slot];
    } else {
      var space := SpaceTaken(k[1..]);
      var more := SlotsTaken(space, SkipWs(k[1..]));
      MoreSlots(slot, more, k, ScanElements(s).rest);
      slots := [slot] + more;
    }
  }

  // ----- members -----

  lemma NameTaken(s: string) returns (units: seq<Unit>, before: string, behind: string)
    requires ScanName(s).Got?
    ensures ValidUnits(units) && Codes(units) == ScanName(s).value && Blank(before) && Blank(behind)
    ensures s == "\"" + UnitsOnto(units, before + (":" + (behind + ScanName(s).rest)))
  {
    units := UnitsTaken(s[1..]);
    var t := ScanString(s[1..]).rest;
    before := SpaceTaken(t);
    behind := SpaceTaken(SkipWs(t)[1..]);
    HeadText(s, '"');
    HeadText(SkipWs(t), ':');
  }

  lemma {:induction false} FieldTaken(w: string, s: string) returns (field: Field)
    requires Blank(w) && ScanName(s).Got? && ScanValue(ScanName(s).rest).Got?
    ensures ValidField(field)
    ensures FieldMeaning(field) == Member(ScanName(s).value, ScanValue(ScanName(s).rest).value)
    ensures FieldOnto(field, SkipWs(ScanValue(ScanName(s).rest).rest)) == w + s
    decreases |s|, 1
  {
    var units, before, behind := NameTaken(s);
    var slot := SlotTaken(behind, ScanName(s).rest);
    field := Field(w, units, before, slot);
  }

  lemma OneField(field: Field, k: string)
    requires ValidField(field) && Starts(k, '}')
    ensures FieldsOnto([field], k[1..]) == FieldOnto(field, k) && FieldMeanings([field]) == [FieldMeaning(field)]
  {
    HeadText(k, '}');
  }

  lemma MoreFields(field: Field, fields: seq<Field>, k: string, rest: string)
    requires ValidField(field) && fields != [] && (forall i :: 0 <= i < |fields| ==> ValidField(fields[i]))
    requires Starts(k, ',') && FieldsOnto(fields, rest) == k[1..]
    ensures forall i :: 0 <= i < |[field] + fields| ==> ValidField(([field] + fields)[i])
    ensures FieldsOnto([field] + fields, rest) == FieldOnto(field, k)
    ensures FieldMeanings([field] + fields) == [FieldMeaning(field)] + FieldMeanings(fields)
  {
    HeadText(k, ',');
    assert ([field] + fields)[1..] == fields;
  }

  lemma {:induction false} FieldsTaken(w: string, s: string) returns (fields: seq<Field>)
    requires Blank(w) && ScanMembers(s).Got?
    ensures fields != [] && forall i :: 0 <= i < |fields| ==> ValidField(fields[i])
    ensures FieldMeanings(fields) == ScanMembers(s).value && FieldsOnto(fields, ScanMembers(s).rest) == w + s
    decreases |s|, 2
  {
    var field := FieldTaken(w, s);
    var k := SkipWs(ScanValue(ScanName(s).rest).rest);
    if Starts(k, '}') {
      OneField(field, k);
      fields := [field];
    } else {
      var space := SpaceTaken(k[1..]);
      var more := FieldsTaken(space, SkipWs(k[1..]));
      MoreFields(field, more, k, ScanMembers(s).rest);
      fields := [field] + more;
    }
  }

  // ----- exactly the grammar -----

  /** The text `s` is a text of this tree, which means `v`, in front of `t`. */
  ghost predicate Writes(tree: Tree, s: string, v: Json, t: string) {
    Valid(tree) && Meaning(tree) == v && s == TreeOnto(tree, t)
  }

  ghost predicate Derives(s: string, v: Json, t: string) {
    exists tree :: Writes(tree, s, v, t)
  }

  lemma NumbersAreNumerals(tree: Tree)
    requires Valid(tree)
    ensures tree.Num? <==> Meaning(tree).Number?
  {
  }

  /** `raw_decode` reads a value off the front of a text exactly when the grammar derives that text from it.  A number
      must not be cut short by what follows. */
  lemma DecodesIffDerived(s: string, v: Json, t: string)
    requires v.Number? ==> Stops(t)
    ensures ScanValue(s) == Got(v, t) <==> Derives(s, v, t)
  {
    if ScanValue(s) == Got(v, t) {
      var tree := TreeTaken(s);
      assert Writes(tree, s, v, t);
    }
    if Derives(s, v, t) {
      var tree :| Writes(tree, s, v, t);
      NumbersAreNumerals(tree);
      TreeRead(tree, t);
    }
  }

  /** A whole document: one value with white space around it. */
  ghost predicate Document(s: string, v: Json, before: string, tree: Tree, after: string) {
    Blank(before) && Blank(after) && Valid(tree) && Meaning(tree) == v && s == before + TreeOnto(tree, after)
  }

  ghost predicate IsDocument(s: string, v: Json) {
    exists before, tree, after :: Document(s, v, before, tree, after)
  }

  lemma BlankStops(w: string)
    requires Blank(w)
    ensures Stops(w) && SkipWs(w) == ""
  {
    BlankSkipped(w, "");
    assert w + "" == w;
  }

  lemma DocumentRead(s: string, v: Json, before: string, tree: Tree, after: string)
    requires Document(s, v, before, tree, after)
    ensures Loads(s) == Got(v, "")
  {
    BlankStops(after);
    TreeRead(tree, after);
    ValueStart(TreeOnto(tree, after));
    BlankSkipped(before, TreeOnto(tree, after));
  }

  /** `json.loads` accepts exactly the documents of the grammar, with their values. */
  lemma LoadsIffDocument(s: string, v: Json)
    ensures Loads(s) == Got(v, "") <==> IsDocument(s, v)
  {
    if Loads(s) == Got(v, "") {
      var before := SpaceTaken(s);
      var tree := TreeTaken(SkipWs(s));
      var after := SpaceTaken(ScanValue(SkipWs(s)).rest);
      assert after + "" == after;
      assert Document(s, v, before, tree, after);
    }
    if IsDocument(s, v) {
      var before, tree, after :| Document(s, v, before, tree, after);
      DocumentRead(s, v, before, tree, after);
    }
  }

  /** A dataset, any document of the grammar that is an array of objects, is streamed item by item at any chunk size. */
  lemma DocumentsAreStreamed(s: string, items: seq<Json>, size: nat)
    requires size >= 1 && IsDocument(s, Array(items)) && forall i :: 0 <= i < |items| ==> items[i].Object?
    ensures Stream(s, size) == (items, Finished)
  {
    LoadsIffDocument(s, Array(items));
    DatasetsAreRead(s, items, size);
  }

  // ----- texts in ASCII -----

  function LowerDigit(n: nat): Digit {
    Digit(n, false)
  }

  function QuadOf(u: nat): Quad {
    Quad(LowerDigit(u / 4096), LowerDigit(u / 256 % 16), LowerDigit(u / 16 % 16), LowerDigit(u % 16))
  }

  /** How `json.dumps` writes a character by default, `ensure_ascii=True`. */
  function AsciiUnit(code: nat): Unit {
    if code == 34 then Short('"')
    else if code == 92 then Short('\\')
    else if code == 8 then Short('b')
    else if code == 12 then Short('f')
    else if code == 10 then Short('n')
    else if code == 13 then Short('r')
    else if code == 9 then Short('t')
    else if 32 <= code < 127 then Plain(code as char)
    else if code < 0x1_0000 then Coded(QuadOf(code))
    else Paired(QuadOf(0xD800 + (code - 0x1_0000) / 1024), QuadOf(0xDC00 + (code - 0x1_0000) % 1024))
  }

  function AsciiUnits(codes: seq<nat>): (units: seq<Unit>)
    ensures |units| == |codes| && forall k :: 0 <= k < |units| ==> units[k] == AsciiUnit(codes[k])
  {
    if codes == [] then [] else [AsciiUnit(codes[0])] + AsciiUnits(codes[1..])
  }

  lemma QuadOfUnit(u: nat)
    requires u < 0x1_0000
    ensures ValidQuad(QuadOf(u)) && CodeUnit(QuadOf(u)) == u
  {
    Places(u);
  }

  lemma Places(u: nat)
    requires u < 0x1_0000
    ensures u / 4096 < 16 && 4096 * (u / 4096) + 256 * (u / 256 % 16) + 16 * (u / 16 % 16) + u % 16 == u
  {
    var a, b := u / 16, u / 256;
    assert u == 16 * a + u % 16 && a == 16 * b + a % 16 by {
      assert b == a / 16;
    }
    assert b == 16 * (u / 4096) + b % 16;
  }

  lemma AsciiCode(code: nat)
    requires IsScalarCode(code)
    ensures ValidUnit(AsciiUnit(code)) && Code(AsciiUnit(code)) == code
    ensures AsciiUnit(code).Coded? ==> !High(CodeUnit(AsciiUnit(code).q))
  {
    if code < 0x1_0000 {
      QuadOfUnit(code);
    } else {
      QuadOfUnit(0xD800 + (code - 0x1_0000) / 1024);
      QuadOfUnit(0xDC00 + (code - 0x1_0000) % 1024);
    }
  }

  lemma {:induction false} AsciiCodes(codes: seq<nat>)
    requires WritableCodes(codes)
    ensures ValidUnits(AsciiUnits(codes)) && Codes(AsciiUnits(codes)) == codes
  {
    forall k | 0 <= k < |codes| ensures ValidUnit(AsciiUnits(codes)[k]) {
      AsciiCode(codes[k]);
    }
    forall k | 0 < k < |codes| ensures !Pairs(AsciiUnits(codes)[k - 1], AsciiUnits(codes)[k]) {
      AsciiCode(codes[k - 1]);
    }
    AllValid(AsciiUnits(codes));
    if codes != [] {
      AsciiCodes(codes[1..]);
      AsciiCode(codes[0]);
      assert codes == [codes[0]] + codes[1..];
    }
  }

  /** A string that is written in ASCII, with a `\u` escape for every other character and a pair of them beyond the
      basic plane, is read back code point by code point. */
  lemma AsciiRead(codes: seq<nat>, t: string)
    requires WritableCodes(codes)
    ensures ValidUnits(AsciiUnits(codes))
    ensures ScanValue("\"" + UnitsOnto(AsciiUnits(codes), t)) == Got(Text(codes), t)
  {
    AsciiCodes(codes);
    TreeRead(Quoted(AsciiUnits(codes)), t);
  }
}
