/** The JSON decoder behind `json.JSONDecoder.raw_decode` and `json.loads`.

    The grammar is RFC 8259 (sections 2 to 7) plus the three constants NaN, Infinity and -Infinity that
    Python's decoder also accepts. Python's scanner advances an index into a fixed text; here each scanner
    returns the text that is left. A number keeps its lexeme and a string its code points.

    The two families of lemmas say that a scanner only looks at what it consumes: text may be appended
    behind a decoded value (`...Append`), and text behind a decoded value may be cut off (`...Cut`). */
module JsonDecoder {

  datatype Json =
    | Null
    | Boolean(value: bool)
    | Number(lexeme: string)
    | Constant(name: string)
    | Text(codes: seq<nat>)
    | Array(items: seq<Json>)
    | Object(members: seq<Member>)

  datatype Member = Member(name: seq<nat>, value: Json)

  datatype Scan<+T> = Fail | Got(value: T, rest: string)

  // ----- lexical layer -----

  predicate IsWs(c: char) {
    c == ' ' || c == '\t' || c == '\n' || c == '\r'
  }

  predicate Starts(s: string, c: char) {
    s != "" && s[0] == c
  }

  function SkipWs(s: string): (r: string)
    ensures |r| <= |s|
    ensures r != "" ==> !IsWs(r[0])
  {
    if s != "" && IsWs(s[0]) then SkipWs(s[1..]) else s
  }

  predicate IsDigit(c: char) {
    '0' <= c <= '9'
  }

  /** A lexeme that may be empty, and the text behind it. */
  datatype Lexed = Lexed(taken: string, rest: string)

  function Digits(s: string): (r: Lexed)
    ensures r.taken + r.rest == s
    ensures |r.taken| + |r.rest| == |s|
  {
    if s != "" && IsDigit(s[0]) then
      var r := Digits(s[1..]);
      Lexed([s[0]] + r.taken, r.rest)
    else Lexed("", s)
  }

  /** The digits of the integer part, without its sign: a lone zero or a run not starting with zero. */
  function Natural(s: string): (r: Lexed)
    ensures r.taken + r.rest == s
  {
    if Starts(s, '0') then Lexed("0", s[1..]) else Digits(s)
  }

  function Integer(s: string): (r: Lexed)
    ensures r.taken + r.rest == s
  {
    if Starts(s, '-') then
      var r := Natural(s[1..]);
      if r.taken == "" then Lexed("", s) else Lexed("-" + r.taken, r.rest)
    else Natural(s)
  }

  function Fraction(s: string): (r: Lexed)
    ensures r.taken + r.rest == s
  {
    if Starts(s, '.') then
      var r := Digits(s[1..]);
      if r.taken == "" then Lexed("", s) else Lexed("." + r.taken, r.rest)
    else Lexed("", s)
  }

  /** The digits of an exponent behind its letter, with an optional sign. */
  function SignedDigits(s: string): (r: Lexed)
    ensures r.taken + r.rest == s
  {
    if Starts(s, '+') || Starts(s, '-') then
      var r := Digits(s[1..]);
      if r.taken == "" then Lexed("", s) else Lexed([s[0]] + r.taken, r.rest)
    else Digits(s)
  }

  function Exponent(s: string): (r: Lexed)
    ensures r.taken + r.rest == s
  {
    if Starts(s, 'e') || Starts(s, 'E') then
      var r := SignedDigits(s[1..]);
      if r.taken == "" then Lexed("", s) else Lexed([s[0]] + r.taken, r.rest)
    else Lexed("", s)
  }

  /** Two adjacent lexemes as one. */
  function Then(a: Lexed, b: Lexed): (r: Lexed)
    requires a.rest == b.taken + b.rest
    ensures r.taken + r.rest == a.taken + a.rest
  {
    assert a.taken + b.taken + b.rest == a.taken + (b.taken + b.rest);
    Lexed(a.taken + b.taken, b.rest)
  }

  /** The longest number at the start of `s`; nothing is taken when there is none. */
  function NumberOf(s: string): (r: Lexed)
    ensures r.taken + r.rest == s
  {
    var a := Integer(s);
    if a.taken == "" then Lexed("", s)
    else
      var b := Fraction(a.rest);
      var c := Exponent(b.rest);
      Then(a, Then(b, c))
  }

  /** Characters that may extend a number already matched. */
  predicate ExtendsNumber(c: char) {
    IsDigit(c) || c == '.' || c == 'e' || c == 'E'
  }

  /** No number can be continued into `s`. */
  predicate Stops(s: string) {
    s != "" ==> !ExtendsNumber(s[0])
  }

  function HexValue(c: char): (v: int)
    ensures -1 <= v < 16
  {
    if '0' <= c <= '9' then c as int - '0' as int
    else if 'a' <= c <= 'f' then c as int - 'a' as int + 10
    else if 'A' <= c <= 'F' then c as int - 'A' as int + 10
    else -1
  }

  /** The code unit written by four hexadecimal digits. */
  function Hex4(s: string): (r: Scan<int>)
    ensures r.Got? ==> 0 <= r.value < 0x1_0000 && |s| >= 4 && r.rest == s[4..]
  {
    if |s| >= 4 && HexValue(s[0]) >= 0 && HexValue(s[1]) >= 0 && HexValue(s[2]) >= 0 && HexValue(s[3]) >= 0
    then Got(((HexValue(s[0]) * 16 + HexValue(s[1])) * 16 + HexValue(s[2])) * 16 + HexValue(s[3]), s[4..])
    else Fail
  }

  function SimpleEscape(c: char): (code: int)
    ensures -1 <= code
  {
    match c
    case '"' => 0x22
    case '\\' => 0x5C
    case '/' => 0x2F
    case 'b' => 0x08
    case 'f' => 0x0C
    case 'n' => 0x0A
    case 'r' => 0x0D
    case 't' => 0x09
    case _ => -1
  }

  predicate IsHighSurrogate(v: int) {
    0xD800 <= v <= 0xDBFF
  }

  predicate IsLowSurrogate(v: int) {
    0xDC00 <= v <= 0xDFFF
  }

  /** What follows `\u`: one code unit, or two when they form a surrogate pair. */
  function UnicodeEscape(s: string): (r: Scan<nat>)
    ensures r.Got? ==> |r.rest| < |s|
  {
    match Hex4(s)
    case Fail => Fail
    case Got(first, t) =>
      if IsHighSurrogate(first) && Starts(t, '\\') && Starts(t[1..], 'u') then
        match Hex4(t[2..])
        case Fail => Fail
        case Got(second, u) =>
          if IsLowSurrogate(second) then Got(0x1_0000 + (first - 0xD800) * 0x400 + (second - 0xDC00), u)
          else Got(first, t)
      else Got(first, t)
  }

  /** One character or escape of a string body; the closing quote is not one. */
  function StringUnit(s: string): (r: Scan<nat>)
    ensures r.Got? ==> |r.rest| < |s|
  {
    if s == "" || s[0] == '"' || s[0] < ' ' then Fail
    else if s[0] != '\\' then Got(s[0] as int, s[1..])
    else if s[1..] == "" then Fail
    else if s[1] == 'u' then UnicodeEscape(s[1..][1..])
    else if SimpleEscape(s[1]) < 0 then Fail
    else Got(SimpleEscape(s[1]), s[1..][1..])
  }

  /** A string body and its closing quote. */
  function ScanString(s: string): (r: Scan<seq<nat>>)
    ensures r.Got? ==> |r.rest| < |s|
    decreases |s|
  {
    if Starts(s, '"') then Got([], s[1..])
    else
      match StringUnit(s)
      case Fail => Fail
      case Got(code, t) =>
        match ScanString(t)
        case Fail => Fail
        case Got(codes, rest) => Got([code] + codes, rest)
  }

  function ScanWord(s: string, word: string, v: Json): (r: Scan<Json>)
    requires word != ""
    ensures r.Got? ==> |r.rest| < |s|
  {
    if word <= s then Got(v, s[|word|..]) else Fail
  }

  predicate StartsNumber(s: string) {
    s != "" && (s[0] == '-' || IsDigit(s[0]))
  }

  /** The words, told apart by their first character. */
  function ScanConstant(s: string): (r: Scan<Json>)
    ensures r.Got? ==> |r.rest| < |s|
  {
    if Starts(s, 'n') then ScanWord(s, "null", Null)
    else if Starts(s, 't') then ScanWord(s, "true", Boolean(true))
    else if Starts(s, 'f') then ScanWord(s, "false", Boolean(false))
    else if Starts(s, 'N') then ScanWord(s, "NaN", Constant("NaN"))
    else if Starts(s, 'I') then ScanWord(s, "Infinity", Constant("Infinity"))
    else ScanWord(s, "-Infinity", Constant("-Infinity"))
  }

  function ScanScalar(s: string): (r: Scan<Json>)
    ensures r.Got? ==> |r.rest| < |s|
  {
    if StartsNumber(s) && NumberOf(s).taken != "" then
      var n := NumberOf(s);
      assert |n.taken + n.rest| == |s|;
      Got(Number(n.taken), n.rest)
    else ScanConstant(s)
  }

  // ----- the recursive decoder -----

  function ScanValue(s: string): (r: Scan<Json>)
    ensures r.Got? ==> |r.rest| < |s|
    decreases |s|, 0
  {
    if s == "" then Fail
    else if s[0] == '"' then
      match ScanString(s[1..])
      case Fail => Fail
      case Got(codes, rest) => Got(Text(codes), rest)
    else if s[0] == '{' then
      var t := SkipWs(s[1..]);
      if Starts(t, '}') then Got(Object([]), t[1..])
      else
        match ScanMembers(t)
        case Fail => Fail
        case Got(members, rest) => Got(Object(members), rest)
    else if s[0] == '[' then
      var t := SkipWs(s[1..]);
      if Starts(t, ']') then Got(Array([]), t[1..])
      else
        match ScanElements(t)
        case Fail => Fail
        case Got(items, rest) => Got(Array(items), rest)
    else ScanScalar(s)
  }

  /** The elements of a non-empty array, up to and including its closing bracket. */
  function ScanElements(s: string): (r: Scan<seq<Json>>)
    ensures r.Got? ==> |r.rest| < |s| && |r.value| > 0
    decreases |s|, 1
  {
    match ScanValue(s)
    case Fail => Fail
    case Got(v, t) =>
      var k := SkipWs(t);
      if Starts(k, ']') then Got([v], k[1..])
      else if Starts(k, ',') then
        match ScanElements(SkipWs(k[1..]))
        case Fail => Fail
        case Got(items, rest) => Got([v] + items, rest)
      else Fail
  }

  /** A member name and its colon. */
  function ScanName(s: string): (r: Scan<seq<nat>>)
    ensures r.Got? ==> |r.rest| < |s|
  {
    if !Starts(s, '"') then Fail
    else
      match ScanString(s[1..])
      case Fail => Fail
      case Got(name, t) =>
        var k := SkipWs(t);
        if Starts(k, ':') then Got(name, SkipWs(k[1..])) else Fail
  }

  /** The members of a non-empty object, up to and including its closing brace. */
  function ScanMembers(s: string): (r: Scan<seq<Member>>)
    ensures r.Got? ==> |r.rest| < |s| && |r.value| > 0
    decreases |s|, 1
  {
    match ScanName(s)
    case Fail => Fail
    case Got(name, h) =>
      match ScanValue(h)
      case Fail => Fail
      case Got(v, t) =>
        var k := SkipWs(t);
        if Starts(k, '}') then Got([Member(name, v)], k[1..])
        else if Starts(k, ',') then
          match ScanMembers(SkipWs(k[1..]))
          case Fail => Fail
          case Got(members, rest) => Got([Member(name, v)] + members, rest)
        else Fail
  }

  /** `json.loads(s)`: one value with nothing but white space around it. */
  function Loads(s: string): (r: Scan<Json>) {
    match ScanValue(SkipWs(s))
    case Fail => Fail
    case Got(v, t) => if SkipWs(t) == "" then Got(v, "") else Fail
  }

  // ----- appending text behind what was scanned -----

  function Extended<T>(r: Scan<T>, t: string): Scan<T> {
    if r.Got? then Got(r.value, r.rest + t) else Fail
  }

  lemma Tail(s: string, t: string)
    requires s != ""
    ensures s + t != "" && (s + t)[0] == s[0] && (s + t)[1..] == s[1..] + t
  {
  }

  lemma {:induction false} SkipWsAppend(s: string, t: string)
    requires SkipWs(s) != ""
    ensures SkipWs(s + t) == SkipWs(s) + t
  {
    Tail(s, t);
    if IsWs(s[0]) {
      SkipWsAppend(s[1..], t);
    }
  }

  /** Text that is all white space leaves the rest to be skipped on its own. */
  lemma {:induction false} SkipWsBlank(s: string, t: string)
    requires SkipWs(s) == ""
    ensures SkipWs(s + t) == SkipWs(t)
  {
    if s == "" {
      assert s + t == t;
    } else {
      Tail(s, t);
      SkipWsBlank(s[1..], t);
    }
  }

  lemma {:induction false} DigitsAppend(s: string, t: string)
    requires Digits(s).rest + t == "" || !IsDigit((Digits(s).rest + t)[0])
    ensures Digits(s + t) == Lexed(Digits(s).taken, Digits(s).rest + t)
  {
    if s == "" {
      assert s + t == t;
    } else {
      Tail(s, t);
      if IsDigit(s[0]) {
        DigitsAppend(s[1..], t);
      }
    }
  }

  lemma IntegerAppend(s: string, t: string)
    requires Integer(s).taken != ""
    requires Integer(s).rest + t == "" || !IsDigit((Integer(s).rest + t)[0])
    ensures Integer(s + t) == Lexed(Integer(s).taken, Integer(s).rest + t)
  {
    Tail(s, t);
    if s[0] == '-' {
      Tail(s[1..], t);
      if s[1] != '0' {
        DigitsAppend(s[1..], t);
      }
    } else if s[0] != '0' {
      DigitsAppend(s, t);
    }
  }

  lemma FractionAppend(s: string, t: string)
    requires Fraction(s).rest + t == ""
             || (!IsDigit((Fraction(s).rest + t)[0]) && (Fraction(s).rest + t)[0] != '.')
    ensures Fraction(s + t) == Lexed(Fraction(s).taken, Fraction(s).rest + t)
  {
    if s == "" {
      assert s + t == t;
    } else {
      Tail(s, t);
      if s[0] == '.' {
        DigitsAppend(s[1..], t);
      }
    }
  }

  lemma ExponentAppend(s: string, t: string)
    requires Stops(Exponent(s).rest + t)
    ensures Exponent(s + t) == Lexed(Exponent(s).taken, Exponent(s).rest + t)
  {
    if s == "" {
      assert s + t == t;
    } else {
      Tail(s, t);
      if s[0] == 'e' || s[0] == 'E' {
        PowerAppend(s, t);
      }
    }
  }

  lemma PowerAppend(s: string, t: string)
    requires s != "" && (s[0] == 'e' || s[0] == 'E') && Stops(Exponent(s).rest + t)
    ensures Exponent(s + t) == Lexed(Exponent(s).taken, Exponent(s).rest + t)
  {
    Tail(s, t);
    Tail(s[1..], t);
    if s[1] == '+' || s[1] == '-' {
      DigitsAppend(s[1..][1..], t);
    } else {
      DigitsAppend(s[1..], t);
    }
  }

  lemma NumberAppend(s: string, t: string)
    requires NumberOf(s).taken != "" && Stops(NumberOf(s).rest + t)
    ensures NumberOf(s + t) == Lexed(NumberOf(s).taken, NumberOf(s).rest + t)
  {
    var a := Integer(s);
    var b := Fraction(a.rest);
    var c := Exponent(b.rest);
    ExponentAppend(b.rest, t);
    assert b.rest + t != "" ==> !IsDigit((b.rest + t)[0]) && (b.rest + t)[0] != '.' by {
      if c.taken != "" { Tail(b.rest, t); }
    }
    FractionAppend(a.rest, t);
    assert a.rest + t != "" ==> !IsDigit((a.rest + t)[0]) by {
      if b.taken != "" { Tail(a.rest, t); }
    }
    IntegerAppend(s, t);
  }

  lemma Hex4Append(s: string, t: string)
    requires Hex4(s).Got?
    ensures Hex4(s + t) == Extended(Hex4(s), t)
  {
    assert (s + t)[4..] == s[4..] + t;
  }

  /** An escape inside a string that is closed later on. */
  lemma UnicodeEscapeAppend(s: string, t: string)
    requires UnicodeEscape(s).Got? && ScanString(UnicodeEscape(s).rest).Got?
    ensures UnicodeEscape(s + t) == Extended(UnicodeEscape(s), t)
  {
    Hex4Append(s, t);
    var u := Hex4(s).rest;
    if u != "" {
      Tail(u, t);
      if u[0] == '\\' {
        assert u[1..] != "";
        Tail(u[1..], t);
        if u[1] == 'u' && IsHighSurrogate(Hex4(s).value) {
          assert (u + t)[2..] == u[2..] + t;
          Hex4Append(u[2..], t);
        }
      }
    }
  }

  lemma UnitAppend(s: string, t: string)
    requires StringUnit(s).Got? && ScanString(StringUnit(s).rest).Got?
    ensures StringUnit(s + t) == Extended(StringUnit(s), t)
  {
    Tail(s, t);
    if s[0] == '\\' {
      Tail(s[1..], t);
      if s[1] == 'u' {
        UnicodeEscapeAppend(s[1..][1..], t);
      }
    }
  }

  lemma {:induction false} StringAppend(s: string, t: string)
    requires ScanString(s).Got?
    ensures ScanString(s + t) == Extended(ScanString(s), t)
    decreases |s|
  {
    if s[0] == '"' {
      Tail(s, t);
    } else {
      Tail(s, t);
      UnitAppend(s, t);
      StringAppend(StringUnit(s).rest, t);
    }
  }

  lemma WordAppend(s: string, t: string, word: string, v: Json)
    requires word != "" && ScanWord(s, word, v).Got?
    ensures ScanWord(s + t, word, v) == Extended(ScanWord(s, word, v), t)
  {
    assert (s + t)[..|word|] == s[..|word|];
    assert (s + t)[|word|..] == s[|word|..] + t;
  }

  /** A number is only safe from what is appended when it cannot be continued. */
  predicate Settled(r: Scan<Json>, t: string) {
    r.Got? && (r.value.Number? ==> Stops(r.rest + t))
  }

  lemma NegativeInfinity(s: string)
    requires "-Infinity" <= s
    ensures s[0] == '-' && NumberOf(s).taken == ""
  {
    assert s[1] == 'I';
  }

  lemma ConstantAppend(s: string, t: string)
    requires ScanConstant(s).Got?
    ensures ScanConstant(s + t) == Extended(ScanConstant(s), t)
  {
    Tail(s, t);
    if s[0] == 'n' {
      WordAppend(s, t, "null", Null);
    } else if s[0] == 't' {
      WordAppend(s, t, "true", Boolean(true));
    } else if s[0] == 'f' {
      WordAppend(s, t, "false", Boolean(false));
    } else if s[0] == 'N' {
      WordAppend(s, t, "NaN", Constant("NaN"));
    } else if s[0] == 'I' {
      WordAppend(s, t, "Infinity", Constant("Infinity"));
    } else {
      WordAppend(s, t, "-Infinity", Constant("-Infinity"));
    }
  }

  /** A constant that starts like a number is the negative infinity, and no number. */
  lemma ConstantIsNoNumber(s: string)
    requires ScanConstant(s).Got? && StartsNumber(s)
    ensures NumberOf(s).taken == ""
  {
    NegativeInfinity(s);
  }

  lemma ScalarAppend(s: string, t: string)
    requires Settled(ScanScalar(s), t)
    ensures ScanScalar(s + t) == Extended(ScanScalar(s), t)
  {
    Tail(s, t);
    if StartsNumber(s) && NumberOf(s).taken != "" {
      NumberAppend(s, t);
    } else {
      ConstantAppend(s, t);
      if StartsNumber(s + t) {
        ConstantIsNoNumber(s + t);
      }
    }
  }

  lemma {:induction false} ValueAppend(s: string, t: string)
    requires Settled(ScanValue(s), t)
    ensures ScanValue(s + t) == Extended(ScanValue(s), t)
    decreases |s|, 0
  {
    Tail(s, t);
    if s[0] == '"' {
      StringAppend(s[1..], t);
    } else if s[0] == '{' {
      var u := SkipWs(s[1..]);
      SkipWsAppend(s[1..], t);
      Tail(u, t);
      if u[0] != '}' {
        MembersAppend(u, t);
      }
    } else if s[0] == '[' {
      var u := SkipWs(s[1..]);
      SkipWsAppend(s[1..], t);
      Tail(u, t);
      if u[0] != ']' {
        ElementsAppend(u, t);
      }
    } else {
      ScalarAppend(s, t);
    }
  }

  /** A value that is followed by punctuation, up to that punctuation. */
  lemma {:induction false} ValueThenAppend(s: string, t: string)
    requires ScanValue(s).Got? && SkipWs(ScanValue(s).rest) != ""
    requires SkipWs(ScanValue(s).rest)[0] in {',', ']', '}'}
    ensures ScanValue(s + t) == Extended(ScanValue(s), t)
    ensures SkipWs(ScanValue(s).rest + t) == SkipWs(ScanValue(s).rest) + t
    ensures (SkipWs(ScanValue(s).rest) + t)[0] == SkipWs(ScanValue(s).rest)[0]
    ensures (SkipWs(ScanValue(s).rest) + t)[1..] == SkipWs(ScanValue(s).rest)[1..] + t
    decreases |s|, 1
  {
    var r := ScanValue(s).rest;
    Tail(r, t);
    ValueAppend(s, t);
    SkipWsAppend(r, t);
    Tail(SkipWs(r), t);
  }

  lemma {:induction false} ElementsAppend(s: string, t: string)
    requires ScanElements(s).Got?
    ensures ScanElements(s + t) == Extended(ScanElements(s), t)
    decreases |s|, 2
  {
    ValueThenAppend(s, t);
    var k := SkipWs(ScanValue(s).rest);
    if k[0] == ',' {
      SkipWsAppend(k[1..], t);
      ElementsAppend(SkipWs(k[1..]), t);
    }
  }

  lemma NameAppend(s: string, t: string)
    requires ScanName(s).Got? && ScanName(s).rest != ""
    ensures ScanName(s + t) == Extended(ScanName(s), t)
  {
    Tail(s, t);
    StringAppend(s[1..], t);
    var r := ScanString(s[1..]).rest;
    SkipWsAppend(r, t);
    Tail(SkipWs(r), t);
    SkipWsAppend(SkipWs(r)[1..], t);
  }

  /** What one member and the text `k` behind it make of an object body. */
  predicate MemberAt(s: string, m: Member, k: string) {
    ScanName(s).Got? && ScanName(s).value == m.name
    && ScanValue(ScanName(s).rest).Got? && ScanValue(ScanName(s).rest).value == m.value
    && SkipWs(ScanValue(ScanName(s).rest).rest) == k
  }

  lemma MembersStart(s: string) returns (m: Member, k: string)
    requires ScanMembers(s).Got?
    ensures MemberAt(s, m, k) && (Starts(k, '}') || (Starts(k, ',') && ScanMembers(SkipWs(k[1..])).Got?))
  {
    m := Member(ScanName(s).value, ScanValue(ScanName(s).rest).value);
    k := SkipWs(ScanValue(ScanName(s).rest).rest);
  }

  lemma LastMember(s: string, m: Member, k: string)
    requires MemberAt(s, m, k) && Starts(k, '}')
    ensures ScanMembers(s) == Got([m], k[1..])
  {
  }

  lemma NextMember(s: string, m: Member, k: string, members: seq<Member>, rest: string)
    requires MemberAt(s, m, k) && Starts(k, ',') && ScanMembers(SkipWs(k[1..])) == Got(members, rest)
    ensures ScanMembers(s) == Got([m] + members, rest)
  {
  }

  lemma MemberAppend(s: string, t: string, m: Member, k: string)
    requires MemberAt(s, m, k) && k != "" && k[0] in {',', '}'}
    ensures MemberAt(s + t, m, k + t)
    decreases |s|, 1
  {
    NameAppend(s, t);
    ValueThenAppend(ScanName(s).rest, t);
  }

  lemma {:induction false} MembersAppend(s: string, t: string)
    requires ScanMembers(s).Got?
    ensures ScanMembers(s + t) == Extended(ScanMembers(s), t)
    decreases |s|, 2
  {
    var m, k := MembersStart(s);
    MemberAppend(s, t, m, k);
    Tail(k, t);
    if Starts(k, '}') {
      LastMember(s, m, k);
      LastMember(s + t, m, k + t);
    } else {
      var u := SkipWs(k[1..]);
      SkipWsAppend(k[1..], t);
      MembersAppend(u, t);
      NextMember(s, m, k, ScanMembers(u).value, ScanMembers(u).rest);
      NextMember(s + t, m, k + t, ScanMembers(u).value, ScanMembers(u).rest + t);
    }
  }

  /** No proper beginning of an object's text decodes to anything. */
  lemma ObjectPrefixFree(p: string, u: string)
    requires u != "" && ScanValue(p + u).Got? && ScanValue(p + u).value.Object? && ScanValue(p + u).rest == ""
    ensures ScanValue(p).Fail?
  {
    if ScanValue(p).Got? {
      Tail(p, u);
      ObjectStart(p + u);
      ValueAppend(p, u);
    }
  }

  lemma ObjectStart(s: string)
    requires ScanValue(s).Got? && ScanValue(s).value.Object?
    ensures s[0] == '{'
  {
  }

  // ----- cutting off text behind what was scanned -----

  /** What was scanned in `s + t` ends inside `s`. */
  predicate Within<T>(r: Scan<T>, t: string) {
    r.Got? && |t| <= |r.rest|
  }

  lemma SkipWsCut(s: string, t: string)
    requires |t| < |SkipWs(s + t)|
    ensures SkipWs(s) != "" && SkipWs(s + t) == SkipWs(s) + t
  {
    if SkipWs(s) == "" {
      SkipWsBlank(s, t);
    } else {
      SkipWsAppend(s, t);
    }
  }

  lemma {:induction false} DigitsCut(s: string, t: string)
    requires |t| <= |Digits(s + t).rest|
    ensures Digits(s + t) == Lexed(Digits(s).taken, Digits(s).rest + t)
  {
    if s == "" {
      assert s + t == t && Digits(s) == Lexed("", "");
      assert |t| == |Digits(t).taken| + |Digits(t).rest|;
      if t != "" && IsDigit(t[0]) {
        assert false;
      }
    } else {
      Tail(s, t);
      if IsDigit(s[0]) {
        DigitsCut(s[1..], t);
      }
    }
  }

  lemma EmptyHead(t: string)
    ensures "" + t == t
  {
  }

  lemma IntegerCut(s: string, t: string)
    requires Integer(s + t).taken != "" && |t| <= |Integer(s + t).rest|
    ensures Integer(s + t) == Lexed(Integer(s).taken, Integer(s).rest + t)
  {
    EmptyHead(t);
    Tail(s, t);
    if s[0] == '-' {
      Tail(s[1..], t);
      if s[1] != '0' {
        DigitsCut(s[1..], t);
      }
    } else if s[0] != '0' {
      DigitsCut(s, t);
    }
  }

  lemma FractionCut(s: string, t: string)
    requires |t| <= |Fraction(s + t).rest|
    ensures Fraction(s + t) == Lexed(Fraction(s).taken, Fraction(s).rest + t)
  {
    if s == "" {
      assert s + t == t;
    } else {
      Tail(s, t);
      if s[0] == '.' {
        DigitsCut(s[1..], t);
      }
    }
  }

  lemma SignedDigitsCut(s: string, t: string)
    requires |t| <= |SignedDigits(s + t).rest|
    ensures SignedDigits(s + t) == Lexed(SignedDigits(s).taken, SignedDigits(s).rest + t)
  {
    if s == "" {
      assert s + t == t;
    } else {
      Tail(s, t);
      if s[0] == '+' || s[0] == '-' {
        DigitsCut(s[1..], t);
      } else {
        DigitsCut(s, t);
      }
    }
  }

  lemma ExponentCut(s: string, t: string)
    requires |t| <= |Exponent(s + t).rest|
    ensures Exponent(s + t) == Lexed(Exponent(s).taken, Exponent(s).rest + t)
  {
    if s == "" {
      assert s + t == t;
    } else {
      Tail(s, t);
      if s[0] == 'e' || s[0] == 'E' {
        SignedDigitsCut(s[1..], t);
      }
    }
  }

  lemma NumberCut(s: string, t: string)
    requires NumberOf(s + t).taken != "" && |t| <= |NumberOf(s + t).rest|
    ensures NumberOf(s + t) == Lexed(NumberOf(s).taken, NumberOf(s).rest + t)
  {
    var a := Integer(s + t);
    var b := Fraction(a.rest);
    assert |NumberOf(s + t).rest| <= |b.rest| <= |a.rest|;
    IntegerCut(s, t);
    FractionCut(Integer(s).rest, t);
    ExponentCut(Fraction(Integer(s).rest).rest, t);
  }

  lemma Hex4Cut(s: string, t: string)
    requires Within(Hex4(s + t), t)
    ensures Hex4(s).Got? && Hex4(s + t) == Extended(Hex4(s), t)
  {
    assert |s| >= 4;
    assert (s + t)[4..] == s[4..] + t;
  }

  /** An escape consumes at least the four digits, and so does one that opens a string body. */
  lemma EscapeLength(u: string)
    requires Starts(u, '\\') && Starts(u[1..], 'u') && ScanString(u).Got?
    ensures Hex4(u[2..]).Got? && |ScanString(u).rest| < |Hex4(u[2..]).rest|
  {
    assert u[1..][1..] == u[2..];
    assert StringUnit(u) == UnicodeEscape(u[2..]);
  }

  lemma UnicodeEscapeCut(s: string, t: string)
    requires UnicodeEscape(s + t).Got? && Within(ScanString(UnicodeEscape(s + t).rest), t)
    ensures UnicodeEscape(s).Got? && UnicodeEscape(s + t) == Extended(UnicodeEscape(s), t)
  {
    Hex4Cut(s, t);
    var u := Hex4(s).rest;
    if IsHighSurrogate(Hex4(s).value) && Starts(u + t, '\\') && Starts((u + t)[1..], 'u') {
      SurrogateCut(s, u, t);
    } else if u != "" {
      Tail(u, t);
      if u[1..] != "" { Tail(u[1..], t); }
    }
  }

  lemma SurrogateCut(s: string, u: string, t: string)
    requires Hex4(s).Got? && Hex4(s).rest == u && Hex4(s + t) == Got(Hex4(s).value, u + t)
    requires IsHighSurrogate(Hex4(s).value) && Starts(u + t, '\\') && Starts((u + t)[1..], 'u')
    requires UnicodeEscape(s + t).Got? && Within(ScanString(UnicodeEscape(s + t).rest), t)
    ensures UnicodeEscape(s).Got? && UnicodeEscape(s + t) == Extended(UnicodeEscape(s), t)
  {
    var low := Hex4((u + t)[2..]);
    if !IsLowSurrogate(low.value) {
      EscapeLength(u + t);
    }
    assert |t| < |low.rest|;
    assert (u + t)[2..] == u[2..] + t;
    Hex4Cut(u[2..], t);
    Tail(u, t);
    Tail(u[1..], t);
  }

  lemma UnitCut(s: string, t: string)
    requires StringUnit(s + t).Got? && Within(ScanString(StringUnit(s + t).rest), t)
    ensures StringUnit(s).Got? && StringUnit(s + t) == Extended(StringUnit(s), t)
  {
    assert |t| < |StringUnit(s + t).rest|;
    Tail(s, t);
    if s[0] == '\\' {
      Tail(s[1..], t);
      if s[1] == 'u' {
        UnicodeEscapeCut(s[1..][1..], t);
      }
    }
  }

  lemma {:induction false} StringCut(s: string, t: string)
    requires Within(ScanString(s + t), t)
    ensures ScanString(s).Got? && ScanString(s + t) == Extended(ScanString(s), t)
    decreases |s|
  {
    Tail(s, t);
    if s[0] != '"' {
      UnitCut(s, t);
      StringCut(StringUnit(s).rest, t);
    }
  }

  lemma WordCut(s: string, t: string, word: string, v: Json)
    requires word != "" && Within(ScanWord(s + t, word, v), t)
    ensures ScanWord(s, word, v).Got? && ScanWord(s + t, word, v) == Extended(ScanWord(s, word, v), t)
  {
    assert (s + t)[..|word|] == s[..|word|];
    assert (s + t)[|word|..] == s[|word|..] + t;
  }

  lemma ConstantCut(s: string, t: string)
    requires s != "" && Within(ScanConstant(s + t), t)
    ensures ScanConstant(s).Got? && ScanConstant(s + t) == Extended(ScanConstant(s), t)
  {
    Tail(s, t);
    if s[0] == 'n' {
      WordCut(s, t, "null", Null);
    } else if s[0] == 't' {
      WordCut(s, t, "true", Boolean(true));
    } else if s[0] == 'f' {
      WordCut(s, t, "false", Boolean(false));
    } else if s[0] == 'N' {
      WordCut(s, t, "NaN", Constant("NaN"));
    } else if s[0] == 'I' {
      WordCut(s, t, "Infinity", Constant("Infinity"));
    } else {
      WordCut(s, t, "-Infinity", Constant("-Infinity"));
    }
  }

  lemma ScalarCut(s: string, t: string)
    requires s != "" && Within(ScanScalar(s + t), t)
    ensures ScanScalar(s).Got? && ScanScalar(s + t) == Extended(ScanScalar(s), t)
  {
    Tail(s, t);
    if StartsNumber(s + t) && NumberOf(s + t).taken != "" {
      NumberCut(s, t);
    } else {
      ConstantCut(s, t);
      if StartsNumber(s) {
        ConstantIsNoNumber(s);
      }
    }
  }

  lemma {:induction false} ValueCut(s: string, t: string)
    requires Within(ScanValue(s + t), t)
    ensures ScanValue(s).Got? && ScanValue(s + t) == Extended(ScanValue(s), t)
    decreases |s|, 0
  {
    Tail(s, t);
    if s[0] == '"' {
      StringCut(s[1..], t);
    } else if s[0] == '{' {
      SkipWsCut(s[1..], t);
      var u := SkipWs(s[1..]);
      Tail(u, t);
      if u[0] != '}' {
        MembersCut(u, t);
      }
    } else if s[0] == '[' {
      SkipWsCut(s[1..], t);
      var u := SkipWs(s[1..]);
      Tail(u, t);
      if u[0] != ']' {
        ElementsCut(u, t);
      }
    } else {
      ScalarCut(s, t);
    }
  }

  /** A value and the punctuation behind it, both inside `s`. */
  lemma {:induction false} ValueThenCut(s: string, t: string)
    requires ScanValue(s + t).Got? && |t| < |SkipWs(ScanValue(s + t).rest)|
    ensures ScanValue(s).Got? && ScanValue(s + t) == Extended(ScanValue(s), t)
    ensures SkipWs(ScanValue(s).rest) != ""
    ensures SkipWs(ScanValue(s + t).rest) == SkipWs(ScanValue(s).rest) + t
    ensures SkipWs(ScanValue(s + t).rest)[0] == SkipWs(ScanValue(s).rest)[0]
    ensures SkipWs(ScanValue(s + t).rest)[1..] == SkipWs(ScanValue(s).rest)[1..] + t
    decreases |s|, 1
  {
    ValueCut(s, t);
    SkipWsCut(ScanValue(s).rest, t);
    Tail(SkipWs(ScanValue(s).rest), t);
  }

  lemma {:induction false} ElementsCut(s: string, t: string)
    requires Within(ScanElements(s + t), t)
    ensures ScanElements(s).Got? && ScanElements(s + t) == Extended(ScanElements(s), t)
    decreases |s|, 2
  {
    ValueThenCut(s, t);
    var k := SkipWs(ScanValue(s).rest);
    if k[0] == ',' {
      SkipWsCut(k[1..], t);
      ElementsCut(SkipWs(k[1..]), t);
    }
  }

  lemma NameCut(s: string, t: string)
    requires ScanName(s + t).Got? && |t| < |ScanName(s + t).rest|
    ensures ScanName(s).Got? && ScanName(s + t) == Extended(ScanName(s), t)
  {
    Tail(s, t);
    StringCut(s[1..], t);
    var r := ScanString(s[1..]).rest;
    SkipWsCut(r, t);
    Tail(SkipWs(r), t);
    SkipWsCut(SkipWs(r)[1..], t);
  }

  lemma MemberCut(s: string, t: string, m: Member, k: string) returns (k0: string)
    requires MemberAt(s + t, m, k) && |t| < |k|
    ensures k == k0 + t && k0 != "" && MemberAt(s, m, k0)
    decreases |s|, 1
  {
    NameCut(s, t);
    var h := ScanName(s).rest;
    ValueThenCut(h, t);
    k0 := SkipWs(ScanValue(h).rest);
  }

  lemma {:induction false} MembersCut(s: string, t: string)
    requires Within(ScanMembers(s + t), t)
    ensures ScanMembers(s).Got? && ScanMembers(s + t) == Extended(ScanMembers(s), t)
    decreases |s|, 2
  {
    var m, k := MembersStart(s + t);
    if Starts(k, '}') {
      LastMember(s + t, m, k);
      var k0 := MemberCut(s, t, m, k);
      Tail(k0, t);
      LastMember(s, m, k0);
    } else {
      var u := SkipWs(k[1..]);
      NextMember(s + t, m, k, ScanMembers(u).value, ScanMembers(u).rest);
      var k0 := MemberCut(s, t, m, k);
      Tail(k0, t);
      SkipWsCut(k0[1..], t);
      MembersCut(SkipWs(k0[1..]), t);
      NextMember(s, m, k0, ScanMembers(SkipWs(k0[1..])).value, ScanMembers(SkipWs(k0[1..])).rest);
    }
  }

  // ----- what is left is an end of the text -----

  ghost predicate IsEnd(r: string, s: string) {
    |r| <= |s| && s[|s| - |r|..] == r
  }

  lemma IsEndTransitive(a: string, b: string, c: string)
    requires IsEnd(a, b) && IsEnd(b, c)
    ensures IsEnd(a, c)
  {
  }

  lemma {:induction false} SkipWsEnd(s: string)
    ensures IsEnd(SkipWs(s), s)
  {
    if s != "" && IsWs(s[0]) {
      SkipWsEnd(s[1..]);
    }
  }

  lemma UnitEnd(s: string)
    requires StringUnit(s).Got?
    ensures IsEnd(StringUnit(s).rest, s)
  {
  }

  lemma {:induction false} StringEnd(s: string)
    requires ScanString(s).Got?
    ensures IsEnd(ScanString(s).rest, s)
    decreases |s|
  {
    if s[0] != '"' {
      UnitEnd(s);
      StringEnd(StringUnit(s).rest);
      IsEndTransitive(ScanString(s).rest, StringUnit(s).rest, s);
    }
  }

  lemma NumberEnd(s: string)
    ensures IsEnd(NumberOf(s).rest, s)
  {
    var n := NumberOf(s);
    assert |n.taken + n.rest| == |s| && (n.taken + n.rest)[|n.taken|..] == n.rest;
  }

  lemma WordEnd(s: string, word: string, v: Json)
    requires word != "" && ScanWord(s, word, v).Got?
    ensures IsEnd(ScanWord(s, word, v).rest, s)
  {
  }

  lemma ConstantEnd(s: string)
    requires ScanConstant(s).Got?
    ensures IsEnd(ScanConstant(s).rest, s)
  {
    if s[0] == 'n' {
      WordEnd(s, "null", Null);
    } else if s[0] == 't' {
      WordEnd(s, "true", Boolean(true));
    } else if s[0] == 'f' {
      WordEnd(s, "false", Boolean(false));
    } else if s[0] == 'N' {
      WordEnd(s, "NaN", Constant("NaN"));
    } else if s[0] == 'I' {
      WordEnd(s, "Infinity", Constant("Infinity"));
    } else {
      WordEnd(s, "-Infinity", Constant("-Infinity"));
    }
  }

  lemma ScalarEnd(s: string)
    requires ScanScalar(s).Got?
    ensures IsEnd(ScanScalar(s).rest, s)
  {
    if StartsNumber(s) && NumberOf(s).taken != "" {
      NumberEnd(s);
    } else {
      ConstantEnd(s);
    }
  }

  lemma {:induction false} ValueEnd(s: string)
    requires ScanValue(s).Got?
    ensures IsEnd(ScanValue(s).rest, s)
    decreases |s|, 0
  {
    var r := ScanValue(s).rest;
    if s[0] == '"' {
      StringEnd(s[1..]);
    } else if s[0] == '{' {
      SkipWsEnd(s[1..]);
      var t := SkipWs(s[1..]);
      if !Starts(t, '}') {
        MembersEnd(t);
        IsEndTransitive(r, t, s);
      }
    } else if s[0] == '[' {
      SkipWsEnd(s[1..]);
      var t := SkipWs(s[1..]);
      if !Starts(t, ']') {
        ElementsEnd(t);
        IsEndTransitive(r, t, s);
      }
    } else {
      ScalarEnd(s);
    }
  }

  /** What follows the punctuation behind a value. */
  lemma {:induction false} ValueThenEnd(s: string)
    requires ScanValue(s).Got? && SkipWs(ScanValue(s).rest) != ""
    ensures IsEnd(SkipWs(ScanValue(s).rest)[1..], s)
    ensures IsEnd(SkipWs(SkipWs(ScanValue(s).rest)[1..]), s)
    decreases |s|, 1
  {
    var r := ScanValue(s).rest;
    ValueEnd(s);
    SkipWsEnd(r);
    IsEndTransitive(SkipWs(r)[1..], r, s);
    SkipWsEnd(SkipWs(r)[1..]);
    IsEndTransitive(SkipWs(SkipWs(r)[1..]), SkipWs(r)[1..], s);
  }

  lemma {:induction false} ElementsEnd(s: string)
    requires ScanElements(s).Got?
    ensures IsEnd(ScanElements(s).rest, s)
    decreases |s|, 2
  {
    ValueThenEnd(s);
    var k := SkipWs(ScanValue(s).rest);
    if k[0] == ',' {
      ElementsEnd(SkipWs(k[1..]));
      IsEndTransitive(ScanElements(s).rest, SkipWs(k[1..]), s);
    }
  }

  lemma NameEnd(s: string)
    requires ScanName(s).Got?
    ensures IsEnd(ScanName(s).rest, s)
  {
    StringEnd(s[1..]);
    var r := ScanString(s[1..]).rest;
    SkipWsEnd(r);
    IsEndTransitive(SkipWs(r)[1..], r, s);
    SkipWsEnd(SkipWs(r)[1..]);
    IsEndTransitive(ScanName(s).rest, SkipWs(r)[1..], s);
  }

  lemma {:induction false} MembersEnd(s: string)
    requires ScanMembers(s).Got?
    ensures IsEnd(ScanMembers(s).rest, s)
    decreases |s|, 2
  {
    var h := ScanName(s).rest;
    NameEnd(s);
    ValueThenEnd(h);
    var k := SkipWs(ScanValue(h).rest);
    if k[0] == ',' {
      MembersEnd(SkipWs(k[1..]));
      IsEndTransitive(ScanMembers(s).rest, SkipWs(k[1..]), h);
    }
    IsEndTransitive(ScanMembers(s).rest, h, s);
  }
}
