/** Compact JSON, `json.dumps(value, separators=(",", ":"), ensure_ascii=False)` without the sorting of keys,
    and its round trip through the decoder. */
module JsonWriter {
  import opened JsonDecoder
  import opened StreamReader

  /** A code point that UTF-8 can write. */
  predicate IsScalarCode(code: nat) {
    code < 0xD800 || 0xE000 <= code < 0x11_0000
  }

  predicate WritableCodes(codes: seq<nat>) {
    forall i :: 0 <= i < |codes| ==> IsScalarCode(codes[i])
  }

  /** Values that a writer can be given: encodable strings, well-formed numbers, the known constants. */
  predicate Writable(v: Json) {
    match v
    case Number(lexeme) => NumberOf(lexeme) == Lexed(lexeme, "") && lexeme != ""
    case Constant(name) => name == "NaN" || name == "Infinity" || name == "-Infinity"
    case Text(codes) => WritableCodes(codes)
    case Array(items) => forall i :: 0 <= i < |items| ==> Writable(items[i])
    case Object(members) =>
      forall i :: 0 <= i < |members| ==> WritableCodes(members[i].name) && Writable(members[i].value)
    case _ => true
  }

  function HexDigit(n: nat): char
    requires n < 16
  {
    if n < 10 then ('0' as int + n) as char else ('a' as int + n - 10) as char
  }

  function EscapeCode(code: nat): string
    requires IsScalarCode(code)
  {
    if code == 0x22 then "\\\""
    else if code == 0x5C then "\\\\"
    else if code == 0x08 then "\\b"
    else if code == 0x0C then "\\f"
    else if code == 0x0A then "\\n"
    else if code == 0x0D then "\\r"
    else if code == 0x09 then "\\t"
    else if code < 0x20 then ['\\', 'u', '0', '0', HexDigit(code / 16), HexDigit(code % 16)]
    else [code as char]
  }

  // Each writer puts its text in front of `t`, what is written behind it.

  function StringOnto(codes: seq<nat>, t: string): string
    requires WritableCodes(codes)
  {
    if codes == [] then "\"" + t else EscapeCode(codes[0]) + StringOnto(codes[1..], t)
  }

  function ValueOnto(v: Json, t: string): string
    requires Writable(v)
    decreases v, 1
  {
    match v
    case Null => "null" + t
    case Boolean(b) => (if b then "true" else "false") + t
    case Number(lexeme) => lexeme + t
    case Constant(name) => name + t
    case Text(codes) => "\"" + StringOnto(codes, t)
    case Array(items) => "[" + if items == [] then "]" + t else ElementsOnto(items, t)
    case Object(members) => "{" + if members == [] then "}" + t else MembersOnto(members, t)
  }

  function ElementsOnto(items: seq<Json>, t: string): string
    requires items != [] && forall i :: 0 <= i < |items| ==> Writable(items[i])
    decreases items, 0
  {
    ValueOnto(items[0], if |items| == 1 then "]" + t else "," + ElementsOnto(items[1..], t))
  }

  function MemberOnto(m: Member, t: string): string
    requires WritableCodes(m.name) && Writable(m.value)
    decreases m, 2
  {
    "\"" + StringOnto(m.name, ":" + ValueOnto(m.value, t))
  }

  function MembersOnto(members: seq<Member>, t: string): string
    requires members != []
    requires forall i :: 0 <= i < |members| ==> WritableCodes(members[i].name) && Writable(members[i].value)
    decreases members, 0
  {
    MemberOnto(members[0], if |members| == 1 then "}" + t else "," + MembersOnto(members[1..], t))
  }

  /** The compact text, members in the order given. */
  function Dump(v: Json): string
    requires Writable(v)
  {
    ValueOnto(v, "")
  }

  // ----- reading back what was written -----

  lemma ControlDigits(code: nat, t: string)
    requires code < 0x20
    ensures UnicodeEscape(['0', '0', HexDigit(code / 16), HexDigit(code % 16)] + t) == Got(code, t)
  {
    var s := ['0', '0', HexDigit(code / 16), HexDigit(code % 16)] + t;
    assert s[4..] == t;
    assert HexValue(s[2]) == code / 16 && HexValue(s[3]) == code % 16;
    assert Hex4(s) == Got(code, t);
  }

  lemma UnicodeUnit(s: string)
    ensures StringUnit(['\\', 'u'] + s) == UnicodeEscape(s)
  {
    assert (['\\', 'u'] + s)[1..][1..] == s;
  }

  lemma ShortUnit(c: char, t: string)
    requires SimpleEscape(c) >= 0
    ensures StringUnit(['\\', c] + t) == Got(SimpleEscape(c), t)
  {
    assert (['\\', c] + t)[1..][1..] == t;
  }

  lemma UnitRoundTrip(code: nat, t: string)
    requires IsScalarCode(code)
    ensures EscapeCode(code) != "" && EscapeCode(code)[0] != '"'
    ensures StringUnit(EscapeCode(code) + t) == Got(code, t)
  {
    var e := EscapeCode(code);
    if |e| == 6 {
      var digits := ['0', '0', HexDigit(code / 16), HexDigit(code % 16)];
      assert e + t == ['\\', 'u'] + (digits + t);
      ControlDigits(code, t);
      UnicodeUnit(digits + t);
    } else if |e| == 2 {
      ShortUnit(e[1], t);
    } else {
      Follows(e, t);
    }
  }

  lemma {:induction false} StringRoundTrip(codes: seq<nat>, t: string)
    requires WritableCodes(codes)
    ensures ScanString(StringOnto(codes, t)) == Got(codes, t)
    decreases |codes|
  {
    if codes == [] {
      Follows("\"", t);
    } else {
      var rest := codes[1..];
      StringRoundTrip(rest, t);
      NextUnit(codes[0], StringOnto(rest, t), rest, t);
      assert codes == [codes[0]] + rest;
    }
  }

  lemma NextUnit(code: nat, u: string, codes: seq<nat>, t: string)
    requires IsScalarCode(code) && ScanString(u) == Got(codes, t)
    ensures ScanString(EscapeCode(code) + u) == Got([code] + codes, t)
  {
    UnitRoundTrip(code, u);
    assert !Starts(EscapeCode(code) + u, '"');
  }

  lemma Follows(c: string, t: string)
    requires |c| == 1
    ensures (c + t)[0] == c[0] && (c + t)[1..] == t
  {
  }

  lemma ConstantRoundTrip(word: string, v: Json, t: string)
    requires Writable(v) && (v.Null? || v.Boolean? || v.Constant?) && ValueOnto(v, t) == word + t
    requires word in {"null", "true", "false", "NaN", "Infinity", "-Infinity"}
    requires word == match v case Null => "null" case Boolean(b) => (if b then "true" else "false") case Constant(n) => n case _ => ""
    ensures ScanValue(word + t) == Got(v, t)
  {
    var s := word + t;
    assert s[|word|..] == t && s[0] == word[0];
    assert ScanConstant(s) == Got(v, t);
    if StartsNumber(s) {
      ConstantIsNoNumber(s);
    }
    ScalarValue(s);
  }

  lemma NumberRoundTrip(lexeme: string, t: string)
    requires Writable(Number(lexeme)) && Stops(t)
    ensures ScanValue(lexeme + t) == Got(Number(lexeme), t) && StartsNumber(lexeme + t)
  {
    WholeNumber(lexeme, t);
    NumberIsValue(lexeme + t);
  }

  lemma WholeNumber(lexeme: string, t: string)
    requires lexeme != "" && NumberOf(lexeme) == Lexed(lexeme, "") && Stops(t)
    ensures NumberOf(lexeme + t) == Lexed(lexeme, t)
  {
    assert "" + t == t;
    NumberAppend(lexeme, t);
  }

  /** Decoding what was written gives the value back, whatever follows it. */
  lemma {:induction false} RoundTrip(v: Json, t: string)
    requires Writable(v) && (v.Number? ==> Stops(t))
    ensures ScanValue(ValueOnto(v, t)) == Got(v, t)
    decreases v, 1
  {
    match v
    case Number(lexeme) => NumberRoundTrip(lexeme, t);
    case Text(codes) =>
      StringRoundTrip(codes, t);
      Follows("\"", StringOnto(codes, t));
    case Array(items) => ArrayRoundTrip(items, t);
    case Object(members) => ObjectRoundTrip(members, t);
    case Null => ConstantRoundTrip("null", v, t);
    case Boolean(b) => ConstantRoundTrip(if b then "true" else "false", v, t);
    case Constant(name) => ConstantRoundTrip(name, v, t);
  }

  lemma EmptyArrayRoundTrip(t: string)
    ensures ScanValue("[" + ("]" + t)) == Got(Array([]), t)
  {
    Follows("[", "]" + t);
    Follows("]", t);
  }

  lemma FullArrayRoundTrip(u: string, items: seq<Json>, t: string)
    requires ScanElements(u) == Got(items, t)
    ensures ScanValue("[" + u) == Got(Array(items), t)
  {
    ValueStart(u);
    Follows("[", u);
  }

  lemma {:induction false} ArrayRoundTrip(items: seq<Json>, t: string)
    requires Writable(Array(items))
    ensures ScanValue(ValueOnto(Array(items), t)) == Got(Array(items), t)
    decreases items, 1
  {
    if items == [] {
      EmptyArrayRoundTrip(t);
    } else {
      ElementsRoundTrip(items, t);
      FullArrayRoundTrip(ElementsOnto(items, t), items, t);
    }
  }

  // One turn of each decoding loop, on text whose next value is known.
  lemma LastElement(s: string, v: Json, t: string)
    requires ScanValue(s) == Got(v, "]" + t)
    ensures ScanElements(s) == Got([v], t)
  {
    Follows("]", t);
  }

  lemma NextElement(s: string, v: Json, u: string, items: seq<Json>, t: string)
    requires ScanValue(s) == Got(v, "," + u) && ScanElements(u) == Got(items, t)
    ensures ScanElements(s) == Got([v] + items, t)
  {
    Follows(",", u);
    ValueStart(u);
  }

  lemma {:induction false} ElementsRoundTrip(items: seq<Json>, t: string)
    requires items != [] && forall i :: 0 <= i < |items| ==> Writable(items[i])
    ensures ScanElements(ElementsOnto(items, t)) == Got(items, t)
    decreases items, 0
  {
    var first := items[0];
    if |items| == 1 {
      RoundTrip(first, "]" + t);
      LastElement(ElementsOnto(items, t), first, t);
      assert items == [first];
    } else {
      var rest := items[1..];
      ElementsRoundTrip(rest, t);
      RoundTrip(first, "," + ElementsOnto(rest, t));
      NextElement(ElementsOnto(items, t), first, ElementsOnto(rest, t), rest, t);
      assert items == [first] + rest;
    }
  }

  lemma {:induction false} ObjectRoundTrip(members: seq<Member>, t: string)
    requires Writable(Object(members))
    ensures ScanValue(ValueOnto(Object(members), t)) == Got(Object(members), t)
    decreases members, 1
  {
    if members == [] {
      Follows("{", "}" + t);
      Follows("}", t);
    } else {
      MembersRoundTrip(members, t);
      MembersStart(members, t);
      Follows("{", MembersOnto(members, t));
    }
  }

  lemma NameRoundTrip(name: seq<nat>, t: string)
    requires WritableCodes(name) && ScanValue(t).Got?
    ensures ScanName("\"" + StringOnto(name, ":" + t)) == Got(name, t)
  {
    ValueStart(t);
    Follows(":", t);
    StringRoundTrip(name, ":" + t);
    Follows("\"", StringOnto(name, ":" + t));
  }

  lemma MembersStart(members: seq<Member>, t: string)
    requires members != []
    requires forall i :: 0 <= i < |members| ==> WritableCodes(members[i].name) && Writable(members[i].value)
    ensures Starts(MembersOnto(members, t), '"')
  {
  }

  /** A written member in front of `rest`, which begins with the punctuation behind it. */
  lemma MemberRoundTrip(m: Member, rest: string)
    requires WritableCodes(m.name) && Writable(m.value) && rest != "" && rest[0] in {',', '}'}
    ensures MemberAt(MemberOnto(m, rest), m, rest)
    decreases m, 1
  {
    RoundTrip(m.value, rest);
    NameRoundTrip(m.name, ValueOnto(m.value, rest));
  }

  lemma FurtherMembers(s: string, m: Member, u: string, members: seq<Member>, t: string)
    requires MemberAt(s, m, "," + u) && Starts(u, '"') && ScanMembers(u) == Got(members, t)
    ensures ScanMembers(s) == Got([m] + members, t)
  {
    Follows(",", u);
    NextMember(s, m, "," + u, members, t);
  }

  lemma {:induction false} MembersRoundTrip(members: seq<Member>, t: string)
    requires members != []
    requires forall i :: 0 <= i < |members| ==> WritableCodes(members[i].name) && Writable(members[i].value)
    ensures ScanMembers(MembersOnto(members, t)) == Got(members, t)
    decreases members, 0
  {
    var m := members[0];
    if |members| == 1 {
      MemberRoundTrip(m, "}" + t);
      LastMember(MembersOnto(members, t), m, "}" + t);
      assert members == [m];
    } else {
      var rest := members[1..];
      var u := MembersOnto(rest, t);
      MemberRoundTrip(m, "," + u);
      MembersRoundTrip(rest, t);
      MembersStart(rest, t);
      FurtherMembers(MembersOnto(members, t), m, u, rest, t);
      assert members == [m] + rest;
    }
  }

  /** Writing any value and loading it gives the value back. */
  lemma LoadsDump(v: Json)
    requires Writable(v)
    ensures Loads(Dump(v)) == Got(v, "")
  {
    RoundTrip(v, "");
    ValueStart(Dump(v));
  }
}
