/** The texts of JSON values after the grammar of RFC 8259, sections 2 to 7, with the three constants of Python, as
    syntax trees; what each means; and the decoder reads exactly these texts with exactly these meanings. */
module JsonGrammar {
  import opened JsonDecoder
  import opened JsonWriter
  import opened StreamReader

  // ----- syntax trees -----

  const LOWER := "0123456789abcdef"
  const UPPER := "0123456789ABCDEF"

  /** A hexadecimal digit, in either case. */
  datatype Digit = Digit(value: nat, upper: bool)

  /** Four of them, as behind `\u`. */
  datatype Quad = Quad(a: Digit, b: Digit, c: Digit, d: Digit)

  /** One character of a string: as it is, as one of the short escapes, or as one or two code units. */
  datatype Unit = Plain(c: char) | Short(c: char) | Coded(q: Quad) | Paired(high: Quad, low: Quad)

  datatype Exp = NoExp | Exp(mark: char, sign: string, digits: string)

  /** `fraction` is empty or the digits behind the point. */
  datatype Numeral = Numeral(minus: bool, integer: string, fraction: string, exponent: Exp)

  /** White space wherever the grammar allows it. */
  datatype Tree =
    | Word(value: Json)
    | Num(n: Numeral)
    | Quoted(units: seq<Unit>)
    | NoItems(inside: string)
    | Items(slots: seq<Slot>)
    | NoFields(inside: string)
    | Fields(fields: seq<Field>)

  datatype Slot = Slot(before: string, tree: Tree, after: string)

  datatype Field = Field(before: string, name: seq<Unit>, beforeColon: string, slot: Slot)

  // ----- which trees are well formed -----

  predicate Blank(w: string) {
    forall k :: 0 <= k < |w| ==> w[k] in {' ', '\t', '\n', '\r'}
  }

  predicate IsDigit16(d: Digit) {
    d.value < 16
  }

  predicate ValidQuad(q: Quad) {
    IsDigit16(q.a) && IsDigit16(q.b) && IsDigit16(q.c) && IsDigit16(q.d)
  }

  function CodeUnit(q: Quad): nat {
    4096 * q.a.value + 256 * q.b.value + 16 * q.c.value + q.d.value
  }

  predicate High(u: nat) {
    0xD800 <= u < 0xDC00
  }

  predicate Low(u: nat) {
    0xDC00 <= u < 0xE000
  }

  /** What the short escapes stand for. */
  const SHORT: map<char, nat> := map['"' := 34, '\\' := 92, '/' := 47, 'b' := 8, 'f' := 12, 'n' := 10, 'r' := 13, 't' := 9]

  predicate ValidUnit(u: Unit) {
    match u
    case Plain(c) => c != '"' && c != '\\' && c as int >= 32
    case Short(c) => c in SHORT
    case Coded(q) => ValidQuad(q)
    case Paired(h, l) => ValidQuad(h) && ValidQuad(l) && High(CodeUnit(h)) && Low(CodeUnit(l))
  }

  /** Two code units that make a pair are one character. */
  predicate ValidUnits(units: seq<Unit>) {
    && (forall k :: 0 <= k < |units| ==> ValidUnit(units[k]))
    && forall k :: 0 < k < |units| && units[k - 1].Coded? && units[k].Coded? ==>
         !(High(CodeUnit(units[k - 1].q)) && Low(CodeUnit(units[k].q)))

  }

  predicate AllDigits(s: string) {
    forall k :: 0 <= k < |s| ==> '0' <= s[k] <= '9'
  }

  predicate ValidExp(e: Exp) {
    match e
    case NoExp => true
    case Exp(mark, sign, digits) =>
      mark in {'e', 'E'} && sign in {"", "+", "-"} && digits != "" && AllDigits(digits)
  }

  /** No leading zeros. */
  predicate ValidNumeral(n: Numeral) {
    && n.integer != "" && AllDigits(n.integer) && (n.integer[0] == '0' ==> n.integer == "0")
    && AllDigits(n.fraction) && ValidExp(n.exponent)
  }

  predicate Valid(t: Tree) {
    match t
    case Word(v) => v in {Null, Boolean(true), Boolean(false), Constant("NaN"), Constant("Infinity"), Constant("-Infinity")}
    case Num(n) => ValidNumeral(n)
    case Quoted(units) => ValidUnits(units)
    case NoItems(w) => Blank(w)
    case Items(slots) => slots != [] && forall k :: 0 <= k < |slots| ==> ValidSlot(slots[k])
    case NoFields(w) => Blank(w)
    case Fields(fields) => fields != [] && forall k :: 0 <= k < |fields| ==> ValidField(fields[k])
  }

  predicate ValidSlot(s: Slot) {
    Blank(s.before) && Valid(s.tree) && Blank(s.after)
  }

  predicate ValidField(f: Field) {
    Blank(f.before) && ValidUnits(f.name) && Blank(f.beforeColon) && ValidSlot(f.slot)
  }

  // ----- their texts, in front of what follows -----

  function DigitChar(d: Digit): char
    requires IsDigit16(d)
  {
    if d.upper then UPPER[d.value] else LOWER[d.value]
  }

  function QuadText(q: Quad): string
    requires ValidQuad(q)
  {
    [DigitChar(q.a), DigitChar(q.b), DigitChar(q.c), DigitChar(q.d)]
  }

  function UnitText(u: Unit): string
    requires ValidUnit(u)
  {
    match u
    case Plain(c) => [c]
    case Short(c) => ['\\', c]
    case Coded(q) => "\\u" + QuadText(q)
    case Paired(h, l) => "\\u" + QuadText(h) + "\\u" + QuadText(l)
  }

  /** The units and the closing quote. */
  function UnitsOnto(units: seq<Unit>, t: string): string
    requires forall k :: 0 <= k < |units| ==> ValidUnit(units[k])
  {
    if units == [] then "\"" + t else UnitText(units[0]) + UnitsOnto(units[1..], t)
  }

  function ExpText(e: Exp): string {
    match e
    case NoExp => ""
    case Exp(mark, sign, digits) => [mark] + (sign + digits)
  }

  function FractionText(f: string): string {
    if f == "" then "" else "." + f
  }

  function SignText(minus: bool): string {
    if minus then "-" else ""
  }

  function NumeralText(n: Numeral): string {
    SignText(n.minus) + (n.integer + (FractionText(n.fraction) + ExpText(n.exponent)))
  }

  function WordText(v: Json): string {
    match v
    case Null => "null"
    case Boolean(b) => if b then "true" else "false"
    case Constant(name) => name
    case _ => ""
  }

  function TreeOnto(t: Tree, rest: string): string
    requires Valid(t)
    decreases t, 1
  {
    match t
    case Word(v) => WordText(v) + rest
    case Num(n) => NumeralText(n) + rest
    case Quoted(units) => "\"" + UnitsOnto(units, rest)
    case NoItems(w) => "[" + (w + ("]" + rest))
    case Items(slots) => "[" + SlotsOnto(slots, rest)
    case NoFields(w) => "{" + (w + ("}" + rest))
    case Fields(fields) => "{" + FieldsOnto(fields, rest)
  }

  function SlotOnto(s: Slot, rest: string): string
    requires ValidSlot(s)
    decreases s, 2
  {
    s.before + TreeOnto(s.tree, s.after + rest)
  }

  function SlotsOnto(slots: seq<Slot>, rest: string): string
    requires slots != [] && forall k :: 0 <= k < |slots| ==> ValidSlot(slots[k])
    decreases slots, 0
  {
    SlotOnto(slots[0], if |slots| == 1 then "]" + rest else "," + SlotsOnto(slots[1..], rest))
  }

  function FieldOnto(f: Field, rest: string): string
    requires ValidField(f)
    decreases f, 3
  {
    f.before + ("\"" + UnitsOnto(f.name, f.beforeColon + (":" + SlotOnto(f.slot, rest))))
  }

  function FieldsOnto(fields: seq<Field>, rest: string): string
    requires fields != [] && forall k :: 0 <= k < |fields| ==> ValidField(fields[k])
    decreases fields, 0
  {
    FieldOnto(fields[0], if |fields| == 1 then "}" + rest else "," + FieldsOnto(fields[1..], rest))
  }

  // ----- their meanings -----

  function Code(u: Unit): nat
    requires ValidUnit(u)
  {
    match u
    case Plain(c) => c as int
    case Short(c) => SHORT[c]
    case Coded(q) => CodeUnit(q)
    case Paired(h, l) => 0x1_0000 + 1024 * (CodeUnit(h) - 0xD800) + (CodeUnit(l) - 0xDC00)
  }

  function Codes(units: seq<Unit>): (codes: seq<nat>)
    requires forall k :: 0 <= k < |units| ==> ValidUnit(units[k])
    ensures |codes| == |units|
  {
    if units == [] then [] else [Code(units[0])] + Codes(units[1..])
  }

  function Meaning(t: Tree): Json
    requires Valid(t)
    decreases t, 1
  {
    match t
    case Word(v) => v
    case Num(n) => Number(NumeralText(n))
    case Quoted(units) => Text(Codes(units))
    case NoItems(_) => Array([])
    case Items(slots) => Array(SlotMeanings(slots))
    case NoFields(_) => Object([])
    case Fields(fields) => Object(FieldMeanings(fields))
  }

  function SlotMeanings(slots: seq<Slot>): (items: seq<Json>)
    requires forall k :: 0 <= k < |slots| ==> ValidSlot(slots[k])
    ensures |items| == |slots|
    decreases slots, 0
  {
    if slots == [] then []
    else
      assert ValidSlot(slots[0]);
      [Meaning(slots[0].tree)] + SlotMeanings(slots[1..])
  }

  function FieldMeaning(f: Field): Member
    requires ValidField(f)
    decreases f, 2
  {
    assert ValidSlot(f.slot);
    Member(Codes(f.name), Meaning(f.slot.tree))
  }

  function FieldMeanings(fields: seq<Field>): (members: seq<Member>)
    requires forall k :: 0 <= k < |fields| ==> ValidField(fields[k])
    ensures |members| == |fields|
    decreases fields, 0
  {
    if fields == [] then [] else [FieldMeaning(fields[0])] + FieldMeanings(fields[1..])
  }

  // ----- every text of the grammar is read, with its meaning -----

  lemma {:induction false} BlankSkipped(w: string, t: string)
    requires Blank(w)
    ensures SkipWs(w + t) == SkipWs(t)
  {
    if w == "" {
      assert w + t == t;
    } else {
      Tail(w, t);
      BlankSkipped(w[1..], t);
    }
  }

  lemma DigitRead(d: Digit)
    requires IsDigit16(d)
    ensures HexValue(DigitChar(d)) == d.value
  {
  }

  lemma QuadRead(q: Quad, t: string)
    requires ValidQuad(q)
    ensures Hex4(QuadText(q) + t) == Got(CodeUnit(q), t)
  {
    DigitRead(q.a);
    DigitRead(q.b);
    DigitRead(q.c);
    DigitRead(q.d);
    assert (QuadText(q) + t)[4..] == t;
  }

  /** The escape of a lone code unit, when the next does not make a pair of it. */
  predicate Apart(q: Quad, t: string)
    requires ValidQuad(q)
  {
    High(CodeUnit(q)) && Starts(t, '\\') && Starts(t[1..], 'u') ==>
      Hex4(t[2..]).Got? && !Low(Hex4(t[2..]).value)
  }

  lemma CodedRead(q: Quad, t: string)
    requires ValidQuad(q) && Apart(q, t)
    ensures StringUnit("\\u" + QuadText(q) + t) == Got(CodeUnit(q), t)
  {
    QuadRead(q, t);
    assert ("\\u" + QuadText(q) + t)[1..][1..] == QuadText(q) + t;
  }

  lemma PairJoined(s: string, h: nat, l: nat, u: string, t: string)
    requires ReadsQuad(s, h, u) && High(h) && Starts(u, '\\') && Starts(u[1..], 'u')
    requires ReadsQuad(u[2..], l, t) && Low(l)
    ensures UnicodeEscape(s) == Got(0x1_0000 + 1024 * (h - 0xD800) + (l - 0xDC00), t)
  {
  }

  lemma EscapeMark(x: string)
    ensures Starts("\\u" + x, '\\') && Starts(("\\u" + x)[1..], 'u') && ("\\u" + x)[2..] == x
  {
  }

  lemma QuadBehind(q: Quad, t: string)
    requires ValidQuad(q)
    ensures Hex4(("\\u" + (QuadText(q) + t))[2..]) == Got(CodeUnit(q), t)
  {
    EscapeMark(QuadText(q) + t);
    QuadRead(q, t);
  }

  /** `s` is read as the code unit `h` in front of `u`. */
  predicate ReadsQuad(s: string, h: nat, u: string) {
    Hex4(s) == Got(h, u)
  }

  lemma PairBehind(s: string, first: nat, second: nat, x: string, t: string)
    requires ReadsQuad(s, first, "\\u" + x) && ReadsQuad(x, second, t) && High(first) && Low(second)
    ensures UnicodeEscape(s) == Got(0x1_0000 + 1024 * (first - 0xD800) + (second - 0xDC00), t)
  {
    EscapeMark(x);
    PairJoined(s, first, second, "\\u" + x, t);
  }

  lemma QuadReads(q: Quad, t: string)
    requires ValidQuad(q)
    ensures ReadsQuad(QuadText(q) + t, CodeUnit(q), t)
  {
    QuadRead(q, t);
  }

  lemma PairUnit(h: Quad, l: Quad, s: string, x: string, t: string)
    requires ValidUnit(Paired(h, l)) && ReadsQuad(s, CodeUnit(h), "\\u" + x) && ReadsQuad(x, CodeUnit(l), t)
    ensures StringUnit("\\u" + s) == Got(Code(Paired(h, l)), t)
  {
    PairBehind(s, CodeUnit(h), CodeUnit(l), x, t);
    UnicodeUnit(s);
  }

  lemma PairedRead(h: Quad, l: Quad, t: string)
    requires ValidUnit(Paired(h, l))
    ensures StringUnit(UnitText(Paired(h, l)) + t) == Got(Code(Paired(h, l)), t)
  {
    var x := QuadText(l) + t;
    QuadReads(l, t);
    QuadReads(h, "\\u" + x);
    PairUnit(h, l, QuadText(h) + ("\\u" + x), x, t);
    PairText(h, l, t);
  }

  lemma PairText(h: Quad, l: Quad, t: string)
    requires ValidUnit(Paired(h, l))
    ensures UnitText(Paired(h, l)) + t == "\\u" + (QuadText(h) + ("\\u" + (QuadText(l) + t)))
  {
  }

  lemma ShortRead(c: char, t: string)
    requires c in SHORT
    ensures StringUnit(['\\', c] + t) == Got(SHORT[c], t)
  {
    ShortUnit(c, t);
  }

  lemma UnitRead(u: Unit, t: string)
    requires ValidUnit(u) && (u.Coded? ==> Apart(u.q, t))
    ensures StringUnit(UnitText(u) + t) == Got(Code(u), t)
    ensures UnitText(u) != "" && UnitText(u)[0] != '"'
  {
    match u
    case Plain(c) => Follows([c], t);
    case Short(c) => ShortRead(c, t);
    case Coded(q) => CodedRead(q, t);
    case Paired(h, l) => PairedRead(h, l, t);
  }

  lemma EscapeApart(q: Quad, next: Quad, t: string)
    requires ValidQuad(q) && ValidQuad(next) && !(High(CodeUnit(q)) && Low(CodeUnit(next)))
    ensures Apart(q, "\\u" + (QuadText(next) + t))
  {
    QuadBehind(next, t);
  }

  lemma OtherApart(q: Quad, u: Unit, t: string)
    requires ValidQuad(q) && ValidUnit(u) && (u.Plain? || u.Short?)
    ensures Apart(q, UnitText(u) + t)
  {
    var s := UnitText(u) + t;
    assert u.Plain? ==> s[0] != '\\';
    assert u.Short? ==> s[1] != 'u';
  }

  lemma UnitApart(q: Quad, u: Unit, t: string)
    requires ValidQuad(q) && ValidUnit(u) && !(u.Coded? && High(CodeUnit(q)) && Low(CodeUnit(u.q)))
    ensures Apart(q, UnitText(u) + t)
  {
    match u
    case Plain(c) => OtherApart(q, u, t);
    case Short(c) => OtherApart(q, u, t);
    case Coded(next) =>
      EscapeApart(q, next, t);
      assert UnitText(u) + t == "\\u" + (QuadText(next) + t);
    case Paired(h, l) =>
      EscapeApart(q, h, "\\u" + (QuadText(l) + t));
      PairText(h, l, t);
  }

  /** What comes behind a unit does not pair with it. */
  lemma UnitsApart(units: seq<Unit>, t: string)
    requires ValidUnits(units) && units != [] && units[0].Coded?
    ensures Apart(units[0].q, UnitsOnto(units[1..], t))
  {
    if |units| > 1 {
      assert units[1..][0] == units[1];
      UnitApart(units[0].q, units[1], UnitsOnto(units[1..][1..], t));
    }
  }

  lemma ValidRest(units: seq<Unit>)
    requires ValidUnits(units) && units != []
    ensures ValidUnits(units[1..])
  {
    var rest := units[1..];
    forall k | 0 < k < |rest| && rest[k - 1].Coded? && rest[k].Coded?
      ensures !(High(CodeUnit(rest[k - 1].q)) && Low(CodeUnit(rest[k].q)))
    {
      assert units[k].Coded? && units[k + 1].Coded?;
    }
  }

  lemma {:induction false} UnitsRead(units: seq<Unit>, t: string)
    requires ValidUnits(units)
    ensures ScanString(UnitsOnto(units, t)) == Got(Codes(units), t)
    decreases |units|
  {
    if units == [] {
      Follows("\"", t);
    } else {
      var u := UnitsOnto(units[1..], t);
      ValidRest(units);
      UnitsRead(units[1..], t);
      if units[0].Coded? {
        UnitsApart(units, t);
      }
      UnitRead(units[0], u);
      assert !Starts(UnitText(units[0]) + u, '"');
    }
  }

  // ----- numbers -----

  /** The text does not go on with a digit. */
  predicate NoDigit(t: string) {
    t != "" ==> !('0' <= t[0] <= '9')
  }

  lemma {:induction false} DigitsRead(ds: string, t: string)
    requires AllDigits(ds) && NoDigit(t)
    ensures Digits(ds + t) == Lexed(ds, t)
  {
    if ds == "" {
      assert ds + t == t;
    } else {
      Tail(ds, t);
      DigitsRead(ds[1..], t);
      assert ds == [ds[0]] + ds[1..];
    }
  }

  lemma NaturalRead(integer: string, t: string)
    requires integer != "" && AllDigits(integer) && (integer[0] == '0' ==> integer == "0") && NoDigit(t)
    ensures Natural(integer + t) == Lexed(integer, t)
  {
    Tail(integer, t);
    if integer == "0" {
      Follows("0", t);
    } else {
      DigitsRead(integer, t);
    }
  }

  lemma IntegerRead(minus: bool, integer: string, t: string)
    requires integer != "" && AllDigits(integer) && (integer[0] == '0' ==> integer == "0") && NoDigit(t)
    ensures Integer(SignText(minus) + (integer + t)) == Lexed(SignText(minus) + integer, t)
  {
    NaturalRead(integer, t);
    if minus {
      Follows("-", integer + t);
    } else {
      assert "" + (integer + t) == integer + t && "" + integer == integer;
      Tail(integer, t);
    }
  }

  lemma FractionRead(f: string, t: string)
    requires AllDigits(f) && NoDigit(t) && !Starts(t, '.')
    ensures Fraction(FractionText(f) + t) == Lexed(FractionText(f), t)
  {
    if f == "" {
      assert "" + t == t;
    } else {
      assert FractionText(f) + t == "." + (f + t);
      Follows(".", f + t);
      DigitsRead(f, t);
    }
  }

  lemma SignedRead(sign: string, ds: string, t: string)
    requires sign in {"", "+", "-"} && ds != "" && AllDigits(ds) && NoDigit(t)
    ensures SignedDigits(sign + (ds + t)) == Lexed(sign + ds, t)
  {
    DigitsRead(ds, t);
    if sign == "" {
      assert "" + (ds + t) == ds + t && "" + ds == ds;
      Tail(ds, t);
    } else {
      Follows(sign, ds + t);
    }
  }

  lemma ExponentRead(e: Exp, t: string)
    requires ValidExp(e) && Stops(t)
    ensures Exponent(ExpText(e) + t) == Lexed(ExpText(e), t)
  {
    match e
    case NoExp => assert "" + t == t;
    case Exp(mark, sign, ds) =>
      assert ExpText(e) + t == [mark] + (sign + (ds + t));
      Follows([mark], sign + (ds + t));
      SignedRead(sign, ds, t);
  }

  lemma ExponentStart(e: Exp, t: string)
    requires ValidExp(e) && Stops(t)
    ensures NoDigit(ExpText(e) + t) && !Starts(ExpText(e) + t, '.')
  {
    match e
    case NoExp => assert "" + t == t;
    case Exp(mark, sign, ds) =>
  }

  lemma FractionStart(f: string, t: string)
    requires NoDigit(t)
    ensures NoDigit(FractionText(f) + t)
  {
    if f == "" {
      assert "" + t == t;
    }
  }

  lemma NumeralSplit(n: Numeral, t: string)
    ensures NumeralText(n) + t
         == SignText(n.minus) + (n.integer + (FractionText(n.fraction) + (ExpText(n.exponent) + t)))
    ensures NumeralText(n) == SignText(n.minus) + n.integer + (FractionText(n.fraction) + ExpText(n.exponent))
  {
  }

  lemma NumberParts(s: string, a: Lexed, b: Lexed, c: Lexed)
    requires Integer(s) == a && a.taken != "" && Fraction(a.rest) == b && Exponent(b.rest) == c
    ensures NumberOf(s) == Lexed(a.taken + (b.taken + c.taken), c.rest)
  {
  }

  lemma NumeralRead(n: Numeral, t: string)
    requires ValidNumeral(n) && Stops(t)
    ensures NumberOf(NumeralText(n) + t) == Lexed(NumeralText(n), t) && NumeralText(n) != ""
  {
    var e := ExpText(n.exponent) + t;
    var x := FractionText(n.fraction) + e;
    ExponentStart(n.exponent, t);
    FractionStart(n.fraction, e);
    NumeralSplit(n, t);
    IntegerRead(n.minus, n.integer, x);
    FractionRead(n.fraction, e);
    ExponentRead(n.exponent, t);
    NumberParts(NumeralText(n) + t, Lexed(SignText(n.minus) + n.integer, x), Lexed(FractionText(n.fraction), e),
                Lexed(ExpText(n.exponent), t));
  }

  // ----- values -----

  lemma WordRead(v: Json, t: string)
    requires Valid(Word(v))
    ensures ScanValue(WordText(v) + t) == Got(v, t)
  {
    match v
    case Null => ConstantRoundTrip("null", v, t);
    case Boolean(b) => ConstantRoundTrip(if b then "true" else "false", v, t);
    case Constant(name) => ConstantRoundTrip(name, v, t);
    case _ =>
  }

  lemma NoItemsRead(w: string, t: string)
    requires Blank(w)
    ensures ScanValue("[" + (w + ("]" + t))) == Got(Array([]), t)
  {
    Follows("[", w + ("]" + t));
    BlankSkipped(w, "]" + t);
    Follows("]", t);
  }

  lemma NoFieldsRead(w: string, t: string)
    requires Blank(w)
    ensures ScanValue("{" + (w + ("}" + t))) == Got(Object([]), t)
  {
    Follows("{", w + ("}" + t));
    BlankSkipped(w, "}" + t);
    Follows("}", t);
  }

  /** What comes behind an element: the next punctuation. */
  predicate Punctuation(k: string) {
    k != "" && k[0] in {',', ']', '}'}
  }

  lemma PunctuationStops(w: string, k: string)
    requires Blank(w) && Punctuation(k)
    ensures Stops(w + k) && SkipWs(w + k) == k
  {
    BlankSkipped(w, k);
    if w != "" {
      assert (w + k)[0] == w[0];
    } else {
      assert w + k == k;
    }
  }

  lemma ItemsRead(u: string, items: seq<Json>, t: string)
    requires ScanElements(SkipWs(u)) == Got(items, t)
    ensures ScanValue("[" + u) == Got(Array(items), t)
  {
    ValueStart(SkipWs(u));
    Follows("[", u);
  }

  lemma LastSlot(s: string, v: Json, r: string, t: string)
    requires ScanValue(s) == Got(v, r) && SkipWs(r) == "]" + t
    ensures ScanElements(s) == Got([v], t)
  {
    Follows("]", t);
  }

  lemma NextSlot(s: string, v: Json, r: string, u: string, items: seq<Json>, t: string)
    requires ScanValue(s) == Got(v, r) && SkipWs(r) == "," + u && ScanElements(SkipWs(u)) == Got(items, t)
    ensures ScanElements(s) == Got([v] + items, t)
  {
    Follows(",", u);
  }

  lemma {:induction false} TreeRead(t: Tree, rest: string)
    requires Valid(t) && (t.Num? ==> Stops(rest))
    ensures ScanValue(TreeOnto(t, rest)) == Got(Meaning(t), rest)
    decreases t, 1
  {
    match t
    case Word(v) => WordRead(v, rest);
    case Num(n) =>
      NumeralRead(n, rest);
      NumberIsValue(NumeralText(n) + rest);
    case Quoted(units) =>
      UnitsRead(units, rest);
      Follows("\"", UnitsOnto(units, rest));
    case NoItems(w) => NoItemsRead(w, rest);
    case Items(slots) =>
      SlotsRead(slots, rest);
      ItemsRead(SlotsOnto(slots, rest), SlotMeanings(slots), rest);
    case NoFields(w) => NoFieldsRead(w, rest);
    case Fields(fields) =>
      FieldsRead(fields, rest);
      MembersRead(FieldsOnto(fields, rest), FieldMeanings(fields), rest);
  }

  lemma {:induction false} SlotRead(s: Slot, k: string)
    requires ValidSlot(s) && Punctuation(k)
    ensures ScanValue(SkipWs(SlotOnto(s, k))) == Got(Meaning(s.tree), s.after + k) && SkipWs(s.after + k) == k
    decreases s, 2
  {
    PunctuationStops(s.after, k);
    TreeRead(s.tree, s.after + k);
    BlankSkipped(s.before, TreeOnto(s.tree, s.after + k));
    ValueStart(TreeOnto(s.tree, s.after + k));
  }

  lemma {:induction false} SlotsRead(slots: seq<Slot>, rest: string)
    requires slots != [] && forall k :: 0 <= k < |slots| ==> ValidSlot(slots[k])
    ensures ScanElements(SkipWs(SlotsOnto(slots, rest))) == Got(SlotMeanings(slots), rest)
    decreases slots, 0
  {
    var s, m := slots[0], Meaning(slots[0].tree);
    if |slots| == 1 {
      SlotRead(s, "]" + rest);
      LastSlot(SkipWs(SlotsOnto(slots, rest)), m, s.after + ("]" + rest), rest);
      assert SlotMeanings(slots) == [m];
    } else {
      var u := SlotsOnto(slots[1..], rest);
      SlotsRead(slots[1..], rest);
      SlotRead(s, "," + u);
      NextSlot(SkipWs(SlotsOnto(slots, rest)), m, s.after + ("," + u), u, SlotMeanings(slots[1..]), rest);
    }
  }

  // ----- objects -----

  lemma MembersRead(u: string, members: seq<Member>, t: string)
    requires ScanMembers(SkipWs(u)) == Got(members, t)
    ensures ScanValue("{" + u) == Got(Object(members), t)
  {
    ObjectStart0(SkipWs(u));
    Follows("{", u);
  }

  lemma ObjectStart0(s: string)
    requires ScanMembers(s).Got?
    ensures Starts(s, '"')
  {
  }

  lemma NameRead(name: seq<Unit>, w: string, u: string)
    requires ValidUnits(name) && Blank(w)
    ensures ScanName("\"" + UnitsOnto(name, w + (":" + u))) == Got(Codes(name), SkipWs(u))
  {
    UnitsRead(name, w + (":" + u));
    Follows("\"", UnitsOnto(name, w + (":" + u)));
    BlankSkipped(w, ":" + u);
    Follows(":", u);
  }

  lemma {:induction false} FieldRead(f: Field, k: string)
    requires ValidField(f) && Punctuation(k)
    ensures MemberAt(SkipWs(FieldOnto(f, k)), FieldMeaning(f), k)
    decreases f, 3
  {
    var u := SlotOnto(f.slot, k);
    var q := "\"" + UnitsOnto(f.name, f.beforeColon + (":" + u));
    SlotRead(f.slot, k);
    NameRead(f.name, f.beforeColon, u);
    BlankSkipped(f.before, q);
    assert SkipWs(q) == q;
  }

  lemma LastField(s: string, m: Member, t: string)
    requires MemberAt(s, m, "}" + t)
    ensures ScanMembers(s) == Got([m], t)
  {
    LastMember(s, m, "}" + t);
    Follows("}", t);
  }

  lemma NextField(s: string, m: Member, u: string, members: seq<Member>, t: string)
    requires MemberAt(s, m, "," + u) && ScanMembers(SkipWs(u)) == Got(members, t)
    ensures ScanMembers(s) == Got([m] + members, t)
  {
    Follows(",", u);
    NextMember(s, m, "," + u, members, t);
  }

  lemma {:induction false} FieldsRead(fields: seq<Field>, rest: string)
    requires fields != [] && forall k :: 0 <= k < |fields| ==> ValidField(fields[k])
    ensures ScanMembers(SkipWs(FieldsOnto(fields, rest))) == Got(FieldMeanings(fields), rest)
    decreases fields, 0
  {
    var m := FieldMeaning(fields[0]);
    if |fields| == 1 {
      FieldRead(fields[0], "}" + rest);
      LastField(SkipWs(FieldsOnto(fields, rest)), m, rest);
      assert FieldMeanings(fields) == [m];
    } else {
      var u := FieldsOnto(fields[1..], rest);
      FieldsRead(fields[1..], rest);
      FieldRead(fields[0], "," + u);
      NextField(SkipWs(FieldsOnto(fields, rest)), m, u, FieldMeanings(fields[1..]), rest);
    }
  }
}
