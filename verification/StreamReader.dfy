/** The chunked reader of a top-level JSON array, `_iter_json_array`. */
module StreamReader {
  import opened Prelude
  import opened JsonDecoder
  import opened PyText

  /** How a run of the reader ends; the last three are its exceptions. */
  datatype Outcome = Finished | NotAnArray | Undecodable | TrailingData

  /** Why one pass over the buffer stopped. */
  datatype Stop = Closed | Starved | Stuck | Rejected

  datatype Drained = Drained(items: seq<Json>, buffer: string, started: bool, stop: Stop)

  // ----- specification of the two loops -----

  /** One pass: what it yields, the buffer and flag it leaves, and why it stops. */
  function Drain(buffer: string, started: bool): Drained
    decreases |buffer|
  {
    var b := LStrip(buffer);
    if !started then
      if b == "" then Drained([], "", false, Starved)
      else if b[0] != '[' then Drained([], b, false, Rejected)
      else Drain(b[1..], true)
    else if Starts(b, ']') then Drained([], b, true, Closed)
    else
      var c := if Starts(b, ',') then LStrip(b[1..]) else b;
      if c == "" then Drained([], "", true, Starved)
      else
        match ScanValue(c)
        case Fail => Drained([], c, true, Stuck)
        case Got(item, rest) =>
          var d := Drain(rest, true);
          d.(items := [item] + d.items)
  }

  function Carried(yielded: seq<Json>, r: (seq<Json>, Outcome)): (seq<Json>, Outcome) {
    (yielded + r.0, r.1)
  }

  /** Reading on, `size` characters at a time, from a given buffer and unread text. */
  function Run(buffer: string, started: bool, unread: string, size: nat): (seq<Json>, Outcome)
    requires size >= 1
    decreases |unread|, 1
  {
    var n := Min(size, |unread|);
    if n == 0 && LStrip(buffer) == "" then ([], Finished)
    else Continue(Drain(buffer + unread[..n], started), n == 0, unread[n..], size, |unread|)
  }

  /** What follows a pass; `atEnd` says that the file held nothing more for it. */
  function Continue(d: Drained, atEnd: bool, unread: string, size: nat, bound: nat): (seq<Json>, Outcome)
    requires size >= 1 && (!atEnd ==> |unread| < bound)
    decreases bound, 0
  {
    match d.stop
    case Closed => (d.items, Finished)
    case Rejected => (d.items, NotAnArray)
    case _ =>
      if !atEnd then Carried(d.items, Run(d.buffer, d.started, unread, size))
      else if d.stop == Stuck then (d.items, Undecodable)
      else if Strip(d.buffer) != "" && Strip(d.buffer) != "]" then (d.items, TrailingData)
      else (d.items, Finished)
  }

  /** What the reader yields from a file holding `text`, and how it ends. */
  function Stream(text: string, size: nat): (seq<Json>, Outcome)
    requires size >= 1
  {
    Run("", false, text, size)
  }

  // ----- the reader itself -----

  function After(yielded: seq<Json>, d: Drained): Drained {
    d.(items := yielded + d.items)
  }

  lemma DrainGot(yielded: seq<Json>, b: string, c: string, item: Json, rest: string)
    requires !Starts(LStrip(b), ']') && c != "" && ScanValue(c) == Got(item, rest)
    requires c == if Starts(LStrip(b), ',') then LStrip(LStrip(b)[1..]) else LStrip(b)
    ensures After(yielded, Drain(b, true)) == After(yielded + [item], Drain(rest, true))
  {
    DrainTurn(b, c, item, rest);
    AfterTwice(yielded, item, Drain(rest, true));
  }

  lemma DrainTurn(b: string, c: string, item: Json, rest: string)
    requires !Starts(LStrip(b), ']') && c != "" && ScanValue(c) == Got(item, rest)
    requires c == if Starts(LStrip(b), ',') then LStrip(LStrip(b)[1..]) else LStrip(b)
    ensures Drain(b, true) == After([item], Drain(rest, true))
  {
  }

  lemma AfterTwice(yielded: seq<Json>, item: Json, d: Drained)
    ensures After(yielded, After([item], d)) == After(yielded + [item], d)
  {
    Associate(yielded, [item], d.items);
  }

  /** The inner loop: decode as many items as the buffer holds. */
  method DrainBuffer(buffer0: string, started0: bool) returns (d: Drained)
    ensures d == Drain(buffer0, started0)
  {
    var buffer, started, yielded := buffer0, started0, [];
    ghost var goal := Drain(buffer0, started0);
    assert [] + goal.items == goal.items;
    while true
      invariant goal == After(yielded, Drain(buffer, started))
      decreases |buffer|, !started
    {
      assert yielded + [] == yielded;
      ghost var start := buffer;
      buffer := LStrip(buffer);
      if !started {
        if buffer == "" {
          return Drained(yielded, buffer, started, Starved);
        }
        if buffer[0] != '[' {
          return Drained(yielded, buffer, started, Rejected);
        }
        started := true;
        buffer := buffer[1..];
        continue;
      }
      if Starts(buffer, ']') {
        return Drained(yielded, buffer, started, Closed);
      }
      if Starts(buffer, ',') {
        buffer := LStrip(buffer[1..]);
      }
      if buffer == "" {
        return Drained(yielded, buffer, started, Starved);
      }
      match ScanValue(buffer) {
        case Fail =>
          return Drained(yielded, buffer, started, Stuck);
        case Got(item, rest) =>
          DrainGot(yielded, start, buffer, item, rest);
          yielded := yielded + [item];
          buffer := rest;
      }
    }
  }

  lemma CarriedTwice(a: seq<Json>, b: seq<Json>, r: (seq<Json>, Outcome))
    ensures Carried(a, Carried(b, r)) == Carried(a + b, r)
    ensures Carried([], r) == r
  {
    assert a + (b + r.0) == a + b + r.0;
    assert [] + r.0 == r.0;
  }

  method IterJsonArray(text: string, chunkSize: nat) returns (yielded: seq<Json>, outcome: Outcome)
    requires chunkSize >= 1
    ensures (yielded, outcome) == Stream(text, chunkSize)
    ensures outcome != TrailingData
  {
    NeverTrailing("", false, text, chunkSize);
    var buffer, started, unread := "", false, text;
    yielded := [];
    CarriedTwice([], [], Stream(text, chunkSize));
    while true
      invariant Stream(text, chunkSize) == Carried(yielded, Run(buffer, started, unread, chunkSize))
      decreases |unread|
    {
      var n := Min(chunkSize, |unread|);
      var chunk := unread[..n];
      if chunk == "" && LStrip(buffer) == "" {
        assert yielded + [] == yielded;
        return yielded, Finished;
      }
      var d := DrainBuffer(buffer + chunk, started);
      ghost var before := yielded;
      yielded, buffer, started, unread := yielded + d.items, d.buffer, d.started, unread[n..];
      if d.stop == Closed {
        return yielded, Finished;
      } else if d.stop == Rejected {
        return yielded, NotAnArray;
      } else if chunk == "" {
        if d.stop == Stuck {
          return yielded, Undecodable;
        }
        return yielded, if Strip(buffer) != "" && Strip(buffer) != "]" then TrailingData else Finished;
      }
      CarriedTwice(before, d.items, Run(buffer, started, unread, chunkSize));
    }
  }

  // ----- the "trailing malformed JSON" exception is unreachable -----

  lemma {:induction false} StarvedIsEmpty(buffer: string, started: bool)
    ensures Drain(buffer, started).stop == Starved ==> Drain(buffer, started).buffer == ""
    decreases |buffer|
  {
    var b := LStrip(buffer);
    if !started {
      if Starts(b, '[') {
        StarvedIsEmpty(b[1..], true);
      }
    } else if !Starts(b, ']') {
      var c := if Starts(b, ',') then LStrip(b[1..]) else b;
      if ScanValue(c).Got? {
        StarvedIsEmpty(ScanValue(c).rest, true);
      }
    }
  }

  /** At the end of the file the buffer is either undecodable or empty, so nothing trails. */
  lemma {:induction false} NeverTrailing(buffer: string, started: bool, unread: string, size: nat)
    requires size >= 1
    ensures Run(buffer, started, unread, size).1 != TrailingData
    decreases |unread|
  {
    var n := Min(size, |unread|);
    var d := Drain(buffer + unread[..n], started);
    StarvedIsEmpty(buffer + unread[..n], started);
    if n > 0 {
      NeverTrailing(d.buffer, d.started, unread[n..], size);
    }
  }

  // ----- well-formed arrays -----

  /** A number whose every non-empty beginning but a bare minus is the number itself. */
  predicate Short(v: Json) {
    v.Number? ==> |v.lexeme| == 1 || (|v.lexeme| == 2 && v.lexeme[0] == '-')
  }

  predicate AllShort(items: seq<Json>) {
    forall i :: 0 <= i < |items| ==> Short(items[i])
  }

  /** `r` continues, after white space, with exactly these elements and the closing bracket. */
  predicate Elements(r: string, items: seq<Json>) {
    ScanElements(SkipWs(r)).Got? && ScanElements(SkipWs(r)).value == items
  }

  /** What is left of a well-formed array: elements to come, with or without a comma before them. */
  predicate Pending(r: string, items: seq<Json>) {
    || Elements(r, items)
    || (Starts(SkipWs(r), ']') && items == [])
    || (Starts(SkipWs(r), ',') && Elements(SkipWs(r)[1..], items))
  }

  lemma IntegerStart(s: string)
    ensures Integer(s).taken != ""
       <==> s != "" && (IsDigit(s[0]) || (s[0] == '-' && s[1..] != "" && IsDigit(s[1..][0])))
    ensures NumberOf(s).taken != "" ==> Integer(s).taken != ""
    ensures Integer(s).taken != "" ==> NumberOf(s).taken != ""
  {
  }

  lemma ConstantStart(s: string)
    requires ScanConstant(s).Got?
    ensures s != "" && s[0] in {'n', 't', 'f', 'N', 'I', '-'}
  {
    if "-Infinity" <= s {
      NegativeInfinity(s);
    }
  }

  lemma ValueStart(s: string)
    requires ScanValue(s).Got?
    ensures s != "" && !IsSpace(s[0]) && s[0] != ',' && s[0] != ']'
  {
    if s[0] != '"' && s[0] != '{' && s[0] != '[' && !StartsNumber(s) {
      ConstantStart(s);
    }
  }

  /** Stripping a buffer that is followed by `u` skips the same white space as skipping in the whole. */
  lemma {:induction false} StripPrefix(b: string, u: string)
    requires SkipWs(b + u) != "" && !IsSpace(SkipWs(b + u)[0])
    ensures LStrip(b) == SkipWs(b)
    ensures SkipWs(b + u) == if LStrip(b) == "" then SkipWs(u) else LStrip(b) + u
  {
    if b == "" {
      assert b + u == u;
    } else {
      Tail(b, u);
      if IsWs(b[0]) {
        StripPrefix(b[1..], u);
      }
    }
  }

  lemma PendingStart(r: string, items: seq<Json>)
    requires Pending(r, items)
    ensures SkipWs(r) != "" && !IsSpace(SkipWs(r)[0])
  {
    if Elements(r, items) {
      ValueStart(SkipWs(r));
    }
  }

  /** A buffer that starts with a beginning of a value either holds all of it or cannot be decoded. */
  lemma Preview(b: string, u: string)
    requires ScanValue(b + u).Got? && Short(ScanValue(b + u).value)
    ensures ScanValue(b).Got? <==> |u| <= |ScanValue(b + u).rest|
    ensures ScanValue(b).Got? ==> ScanValue(b + u) == Extended(ScanValue(b), u)
  {
    if |u| <= |ScanValue(b + u).rest| {
      ValueCut(b, u);
    } else if ScanValue(b).Got? {
      if ScanValue(b).value.Number? {
        NumberPreview(b, u);
      } else {
        ValueAppend(b, u);
      }
    }
  }

  lemma LexemeStart(s: string)
    requires NumberOf(s).taken != ""
    ensures s != "" && NumberOf(s).taken[0] == s[0] && (s[0] == '-' || IsDigit(s[0]))
    ensures s[0] == '-' ==> |NumberOf(s).taken| >= 2
    ensures |NumberOf(s).taken| + |NumberOf(s).rest| == |s|
  {
    var r := NumberOf(s);
    assert |r.taken + r.rest| == |s| && r.taken[0] == (r.taken + r.rest)[0];
    IntegerStart(s);
  }

  lemma ScalarValue(s: string)
    requires s != "" && s[0] != '"' && s[0] != '{' && s[0] != '['
    ensures ScanValue(s) == ScanScalar(s)
  {
  }

  lemma NumberIsValue(s: string)
    requires NumberOf(s).taken != ""
    ensures StartsNumber(s)
    ensures ScanValue(s) == Got(Number(NumberOf(s).taken), NumberOf(s).rest)
  {
    LexemeStart(s);
    ScalarValue(s);
  }

  lemma NumberValue(s: string)
    requires ScanValue(s).Got? && ScanValue(s).value.Number?
    ensures NumberOf(s).taken != "" && StartsNumber(s)
    ensures ScanValue(s) == Got(Number(NumberOf(s).taken), NumberOf(s).rest)
  {
    assert ScanScalar(s) == ScanValue(s);
  }

  lemma NumberBegins(b: string, u: string)
    requires NumberOf(b).taken != ""
    ensures NumberOf(b + u).taken != "" && b != "" && (b + u)[0] == b[0]
  {
    IntegerStart(b);
    Tail(b, u);
    if b[0] == '-' {
      Tail(b[1..], u);
    }
    IntegerStart(b + u);
  }

  lemma NumberPreview(b: string, u: string)
    requires ScanValue(b).Got? && ScanValue(b).value.Number?
    requires ScanValue(b + u).Got? && Short(ScanValue(b + u).value)
    ensures |u| <= |ScanValue(b + u).rest|
  {
    NumberValue(b);
    NumberBegins(b, u);
    LexemeStart(b);
    LexemeStart(b + u);
    NumberIsValue(b + u);
  }

  // ----- every chunking agrees with decoding the whole text -----

  /** The first element of what is left, and what is left after it. */
  lemma ElementsParts(k: string, items: seq<Json>)
    requires ScanElements(k).Got? && ScanElements(k).value == items
    ensures ScanValue(k).Got? && items != [] && ScanValue(k).value == items[0]
    ensures Pending(ScanValue(k).rest, items[1..])
  {
    var r := ScanValue(k).rest;
    if Starts(SkipWs(r), ',') {
      assert items == [items[0]] + ScanElements(SkipWs(SkipWs(r)[1..])).value;
      assert Elements(SkipWs(r)[1..], items[1..]);
    }
  }

  /** A pass yields a beginning of the elements to come and leaves the others pending; it can only stop
      short of the closing bracket when there is more to read. */
  predicate Progress(d: Drained, u: string, items: seq<Json>) {
    if d.stop == Closed then d.items == items
    else
      && (d.stop == Starved || d.stop == Stuck)
      && d.started
      && u != ""
      && d.items <= items
      && Pending(d.buffer + u, items[|d.items|..])
  }

  /** The part of a pass that starts at an element. */
  function FromElement(c: string): Drained {
    match ScanValue(c)
    case Fail => Drained([], c, true, Stuck)
    case Got(item, rest) => After([item], Drain(rest, true))
  }

  lemma {:induction false} DrainPending(b: string, u: string, items: seq<Json>)
    requires Pending(b + u, items) && AllShort(items)
    ensures Progress(Drain(b, true), u, items)
    decreases |b|, 1
  {
    PendingStart(b + u, items);
    StripPrefix(b, u);
    var s := LStrip(b);
    if s == "" {
      assert "" + u == u;
    } else {
      Tail(s, u);
      if s[0] == ',' {
        DrainComma(b, s, u, items);
      } else if s[0] != ']' {
        DrainElement(s, u, items);
        assert Drain(b, true) == FromElement(s);
      } else if Elements(b + u, items) {
        ValueStart(s + u);
      }
    }
  }

  lemma {:induction false} DrainComma(b: string, s: string, u: string, items: seq<Json>)
    requires Pending(b + u, items) && AllShort(items)
    requires s == LStrip(b) && SkipWs(b + u) == s + u && Starts(s, ',')
    ensures Progress(Drain(b, true), u, items)
    decreases |b|, 0, 1
  {
    Tail(s, u);
    if Elements(b + u, items) {
      ValueStart(s + u);
    }
    var k := SkipWs(s[1..] + u);
    ValueStart(k);
    StripPrefix(s[1..], u);
    var c := LStrip(s[1..]);
    if c == "" {
      assert "" + u == u;
      assert Elements(u, items);
    } else {
      DrainElement(c, u, items);
      assert Drain(b, true) == FromElement(c);
    }
  }

  lemma EmptyRest(c: string)
    ensures c + "" == c
  {
  }

  lemma {:induction false} DrainElement(c: string, u: string, items: seq<Json>)
    requires ScanElements(c + u).Got? && ScanElements(c + u).value == items && AllShort(items)
    ensures Progress(FromElement(c), u, items)
    decreases |c|, 0, 0
  {
    ElementsParts(c + u, items);
    Preview(c, u);
    match ScanValue(c)
    case Fail =>
      ValueStart(c + u);
      assert SkipWs(c + u) == c + u;
      EmptyRest(c);
      ProgressStuck(c, u, items);
    case Got(v, rest) =>
      DrainPending(rest, u, items[1..]);
      ProgressAfter(v, Drain(rest, true), u, items);
  }

  lemma ProgressStuck(c: string, u: string, items: seq<Json>)
    requires u != "" && Pending(c + u, items)
    ensures Progress(Drained([], c, true, Stuck), u, items)
  {
    assert items[0..] == items;
  }

  lemma ProgressAfter(v: Json, d: Drained, u: string, items: seq<Json>)
    requires items != [] && items[0] == v && Progress(d, u, items[1..])
    ensures Progress(After([v], d), u, items)
  {
    assert items == [v] + items[1..];
    if d.stop != Closed {
      assert items[1..][|d.items|..] == items[|[v] + d.items|..];
    }
  }

  /** Going on with what was drained yields the other items. */
  ghost predicate RunsOn(d: Drained, u: string, items: seq<Json>, size: nat)
    requires size >= 1
  {
    |d.items| <= |items| && Run(d.buffer, true, u, size) == (items[|d.items|..], Finished)
  }

  lemma RunStep(b: string, started: bool, u: string, n: nat, items: seq<Json>, size: nat)
    requires size >= 1 && n == Min(size, |u|) && (n == 0 ==> LStrip(b) != "")
    requires Progress(Drain(b + u[..n], started), u[n..], items)
    requires Drain(b + u[..n], started).stop != Closed ==> RunsOn(Drain(b + u[..n], started), u[n..], items, size)
    ensures Run(b, started, u, size) == (items, Finished)
  {
    var d := Drain(b + u[..n], started);
    if d.stop != Closed {
      assert d.items + items[|d.items|..] == items;
    }
  }

  /** Whatever the chunk size, the elements still pending are yielded in order. */
  lemma {:induction false} RunPending(b: string, u: string, items: seq<Json>, size: nat)
    requires size >= 1 && Pending(b + u, items) && AllShort(items)
    ensures Run(b, true, u, size) == (items, Finished)
    decreases |u|
  {
    var n := Min(size, |u|);
    assert (b + u[..n]) + u[n..] == b + u;
    if n == 0 {
      assert b + u == b + "";
      PendingStart(b + "", items);
      StripPrefix(b, "");
    }
    DrainPending(b + u[..n], u[n..], items);
    var d := Drain(b + u[..n], true);
    if d.stop != Closed {
      RunPending(d.buffer, u[n..], items[|d.items|..], size);
    }
    RunStep(b, true, u, n, items, size);
  }

  /** The first pass over a buffer that may not yet reach the opening bracket. */
  lemma StartPass(b: string, u: string, items: seq<Json>)
    requires Starts(SkipWs(b + u), '[') && Pending(SkipWs(b + u)[1..], items) && AllShort(items)
    ensures if LStrip(b) == "" then Drain(b, false) == Drained([], "", false, Starved) && SkipWs(u) == SkipWs(b + u)
            else Progress(Drain(b, false), u, items)
  {
    StripPrefix(b, u);
    var s := LStrip(b);
    if s != "" {
      Tail(s, u);
      DrainPending(s[1..], u, items);
      assert Drain(b, false) == Drain(s[1..], true);
    }
  }

  /** Reading from the start of the file, with an empty buffer. */
  lemma {:induction false} RunFromStart(u: string, items: seq<Json>, size: nat)
    requires size >= 1 && AllShort(items)
    requires Starts(SkipWs(u), '[') && Pending(SkipWs(u)[1..], items)
    ensures Run("", false, u, size) == (items, Finished)
    decreases |u|
  {
    var n := Min(size, |u|);
    var b, rest := u[..n], u[n..];
    assert b + rest == u && "" + b == b;
    StartPass(b, rest, items);
    var d := Drain(b, false);
    if LStrip(b) == "" {
      RunFromStart(rest, items, size);
      assert [] + items == items;
    } else {
      if d.stop != Closed {
        RunPending(d.buffer, rest, items[|d.items|..], size);
      }
      RunStep("", false, u, n, items, size);
    }
  }

  lemma ScalarIsNoArray(s: string)
    ensures ScanScalar(s).Got? ==> !ScanScalar(s).value.Array?
  {
  }

  /** A text that decodes as an array is an opening bracket with its elements pending. */
  lemma LoadedArray(text: string, items: seq<Json>)
    requires Loads(text).Got? && Loads(text).value == Array(items)
    ensures Starts(SkipWs(text), '[') && Pending(SkipWs(text)[1..], items)
  {
    var s := SkipWs(text);
    ScalarIsNoArray(s);
  }

  /** On every well-formed array without long bare numbers the reader yields exactly the elements of
      the whole-text decoding, whatever the chunk size. */
  lemma StreamAgrees(text: string, items: seq<Json>, size: nat)
    requires size >= 1
    requires Loads(text).Got? && Loads(text).value == Array(items) && AllShort(items)
    ensures Stream(text, size) == (items, Finished)
  {
    LoadedArray(text, items);
    RunFromStart(text, items, size);
  }

  // ----- the exact condition -----

  lemma OneDigit(s: string)
    requires |s| == 1 && IsDigit(s[0])
    ensures Natural(s) == Lexed(s, "")
  {
  }

  lemma OneDigitNumber(s: string)
    requires |s| == 1 && IsDigit(s[0])
    ensures NumberOf(s) == Lexed(s, "")
    ensures NumberOf("-" + s) == Lexed("-" + s, "")
  {
    OneDigit(s);
    assert ("-" + s)[1..] == s;
    assert Integer("-" + s) == Lexed("-" + s, "");
    assert Fraction("") == Lexed("", "") && Exponent("") == Lexed("", "");
  }

  lemma FirstDigit(s: string)
    requires s != "" && IsDigit(s[0])
    ensures NumberOf(s[..1]) == Lexed(s[..1], "")
  {
    OneDigitNumber([s[0]]);
    assert s[..1] == [s[0]];
  }

  lemma SignedDigit(s: string)
    requires s != "" && s[0] == '-' && s[1..] != "" && IsDigit(s[1..][0])
    ensures NumberOf(s[..2]) == Lexed(s[..2], "")
  {
    OneDigitNumber([s[1]]);
    assert s[..2] == "-" + [s[1]];
  }

  /** A long number cut off behind its first digit, after `e` characters, is that digit alone. */
  lemma CutNumber(s: string) returns (e: nat)
    requires NumberOf(s).taken != "" && !Short(Number(NumberOf(s).taken))
    ensures 1 <= e < |NumberOf(s).taken| <= |s|
    ensures NumberOf(s[..e]) == Lexed(s[..e], "")
  {
    LexemeStart(s);
    IntegerStart(s);
    if s[0] == '-' {
      e := 2;
      SignedDigit(s);
    } else {
      e := 1;
      FirstDigit(s);
    }
  }

  lemma CutElement(s: string) returns (e: nat)
    requires ScanValue(s).Got? && !Short(ScanValue(s).value)
    ensures 1 <= e <= |s|
    ensures ScanValue(s[..e]).Got? && ScanValue(s[..e]).value != ScanValue(s).value
  {
    NumberValue(s);
    e := CutNumber(s);
    NumberIsValue(s[..e]);
  }

  /** The end of `r` from which on the next element is written. */
  function ElementStart(r: string): string {
    if Starts(SkipWs(r), ',') then SkipWs(SkipWs(r)[1..]) else SkipWs(r)
  }

  lemma ElementStartEnd(r: string)
    ensures IsEnd(ElementStart(r), r)
  {
    SkipWsEnd(r);
    var k := SkipWs(r);
    if Starts(k, ',') {
      SkipWsEnd(k[1..]);
      IsEndTransitive(ElementStart(r), k, r);
    }
  }

  lemma PendingElements(r: string, items: seq<Json>)
    requires Pending(r, items) && items != []
    ensures ScanElements(ElementStart(r)).Got? && ScanElements(ElementStart(r)).value == items
  {
    if Elements(r, items) {
      ValueStart(SkipWs(r));
    }
  }

  lemma StripTo(b: string, u: string, c: string)
    requires SkipWs(b + u) == c + u && c != "" && !IsSpace(c[0])
    ensures LStrip(b) == c
  {
    Tail(c, u);
    StripPrefix(b, u);
    SkipWsEnd(u);
    if LStrip(b) != "" {
      assert LStrip(b) == (LStrip(b) + u)[..|c|] == (c + u)[..|c|] == c;
    }
  }

  /** A buffer that holds a beginning of the next element is drained from that element on. */
  lemma DrainFromElement(b: string, u: string, c: string, items: seq<Json>)
    requires Pending(b + u, items) && items != [] && ElementStart(b + u) == c + u && c != ""
    ensures Drain(b, true) == FromElement(c)
  {
    PendingElements(b + u, items);
    ValueStart(c + u);
    Tail(c, u);
    var k := SkipWs(b + u);
    if Starts(k, ',') {
      StripPrefix(b, u);
      var s := LStrip(b);
      if s == "" {
        ElementStartEnd(u);
        assert |c + u| == |c| + |u|;
      } else {
        Tail(s, u);
        StripTo(s[1..], u, c);
      }
    } else {
      StripTo(b, u, c);
    }
  }

  /** With a first chunk that cuts the first long number short, that number is not yielded. */
  lemma {:induction false} DrainCut(r: string, items: seq<Json>, n: nat) returns (e: nat)
    requires Pending(r, items) && n < |items| && !Short(items[n])
    ensures e <= |r| && n < |Drain(r[..e], true).items| && Drain(r[..e], true).items[n] != items[n]
    decreases n
  {
    var x := ElementStart(r);
    PendingElements(r, items);
    ElementStartEnd(r);
    ElementsParts(x, items);
    var m: nat;
    if n == 0 {
      m := CutElement(x);
    } else {
      m := CutLater(x, items, n);
    }
    e := |r| - |x| + m;
    var c, u := x[..m], x[m..];
    assert c + u == x && r[..e] + u == r;
    DrainFromElement(r[..e], u, c, items);
  }

  lemma {:induction false} CutLater(x: string, items: seq<Json>, n: nat) returns (m: nat)
    requires ScanValue(x).Got? && items != [] && ScanValue(x).value == items[0]
    requires Pending(ScanValue(x).rest, items[1..]) && 0 < n < |items| && !Short(items[n])
    ensures 1 <= m <= |x|
    ensures n < |FromElement(x[..m]).items| && FromElement(x[..m]).items[n] != items[n]
    decreases n, 0
  {
    var rest := ScanValue(x).rest;
    ValueEnd(x);
    var e := DrainCut(rest, items[1..], n - 1);
    m := |x| - |rest| + e;
    SplitEnd(x, rest, e);
    ValueCut(x[..m], x[m..]);
    SameHead(ScanValue(x[..m]).rest, rest, x[m..], e);
    LaterItem(x[..m], n);
    assert items[1..][n - 1] == items[n];
  }

  lemma LaterItem(c: string, n: nat)
    requires ScanValue(c).Got? && 0 < n <= |Drain(ScanValue(c).rest, true).items|
    ensures n < |FromElement(c).items| && FromElement(c).items[n] == Drain(ScanValue(c).rest, true).items[n - 1]
  {
  }

  lemma SplitEnd(x: string, rest: string, e: nat)
    requires IsEnd(rest, x) && e <= |rest|
    ensures var m := |x| - |rest| + e;
            x[..m] + x[m..] == x && rest[e..] == x[m..] && |x[m..]| <= |rest|
  {
  }

  lemma SameHead(kept: string, rest: string, tail: string, e: nat)
    requires kept + tail == rest && e <= |rest| && rest[e..] == tail
    ensures kept == rest[..e]
  {
    assert |kept| == e;
  }

  /** What the first pass yields is what the reader yields first. */
  lemma StreamBegins(text: string, size: nat)
    requires 1 <= size <= |text|
    ensures Drain("" + text[..size], false).items <= Stream(text, size).0
  {
    var d := Drain("" + text[..size], false);
    assert Stream(text, size) == Continue(d, false, text[size..], size, |text|);
  }

  /** Some chunk size makes the reader lose a long bare number. */
  lemma StreamDiffers(text: string, items: seq<Json>, n: nat) returns (size: nat)
    requires Loads(text).Got? && Loads(text).value == Array(items)
    requires n < |items| && !Short(items[n])
    ensures size >= 1 && Stream(text, size) != (items, Finished)
  {
    LoadedArray(text, items);
    SkipWsEnd(text);
    var r := SkipWs(text)[1..];
    var e := DrainCut(r, items, n);
    size := |text| - |r| + e;
    FirstChunk(text, e, size);
    StreamBegins(text, size);
  }

  /** A first chunk that reaches beyond the opening bracket is drained from behind it. */
  lemma FirstChunk(text: string, e: nat, size: nat)
    requires Starts(SkipWs(text), '[') && e < |SkipWs(text)| && size == |text| - |SkipWs(text)| + 1 + e
    ensures size <= |text| && Drain("" + text[..size], false) == Drain(SkipWs(text)[1..][..e], true)
  {
    var s := SkipWs(text);
    SkipWsEnd(text);
    var c := s[..e + 1];
    assert "" + text[..size] == text[..size];
    assert text[..size] + text[size..] == text && c + text[size..] == s;
    StripTo(text[..size], text[size..], c);
    assert c[1..] == s[1..][..e];
  }

  /** The reader agrees with the whole-text decoding of an array for every chunk size exactly when no
      element is a bare number with more than one digit. */
  lemma StreamAgreesIffShort(text: string, items: seq<Json>)
    requires Loads(text).Got? && Loads(text).value == Array(items)
    ensures (forall size: nat :: size >= 1 ==> Stream(text, size) == (items, Finished)) <==> AllShort(items)
  {
    if AllShort(items) {
      forall size: nat | size >= 1 ensures Stream(text, size) == (items, Finished) {
        StreamAgrees(text, items, size);
      }
    } else {
      var n :| 0 <= n < |items| && !Short(items[n]);
      var size := StreamDiffers(text, items, n);
    }
  }

  /** The datasets are arrays of objects, which every chunk size reads correctly. */
  lemma DatasetsAreRead(text: string, items: seq<Json>, size: nat)
    requires size >= 1 && Loads(text).Got? && Loads(text).value == Array(items)
    requires forall i :: 0 <= i < |items| ==> items[i].Object?
    ensures Stream(text, size) == (items, Finished)
  {
    StreamAgrees(text, items, size);
  }
}
