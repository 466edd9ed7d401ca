/** Python's white-space handling on strings: `str.strip`, `str.split` and `" ".join`. */
module PyText {
  import opened Prelude

  /** `str.isspace` for one character. */
  predicate IsSpace(c: char) {
    var n := c as int;
    || 9 <= n <= 13
    || 28 <= n <= 32
    || n == 0x85
    || n == 0xA0
    || n == 0x1680
    || 0x2000 <= n <= 0x200A
    || n == 0x2028
    || n == 0x2029
    || n == 0x202F
    || n == 0x205F
    || n == 0x3000
  }

  const SPACES: set<int> := {9, 10, 11, 12, 13, 28, 29, 30, 31, 32, 133, 160, 5760, 8192, 8193, 8194, 8195, 8196, 8197,
    8198, 8199, 8200, 8201, 8202, 8232, 8233, 8239, 8287, 12288}

  lemma SpaceIff(c: char)
    ensures IsSpace(c) <==> c as int in SPACES
  {
  }

  function LStrip(s: string): (r: string)
    ensures |r| <= |s|
    ensures r != "" ==> !IsSpace(r[0])
  {
    if s != "" && IsSpace(s[0]) then LStrip(s[1..]) else s
  }

  function RStrip(s: string): (r: string) {
    if s != "" && IsSpace(s[|s| - 1]) then RStrip(s[..|s| - 1]) else s
  }

  function Strip(s: string): string {
    RStrip(LStrip(s))
  }

  // ----- str.split and str.join -----

  function Flush(word: string): seq<string> {
    if word == "" then [] else [word]
  }

  /** The words of `word + s`, where `word` is one read so far. */
  function Words(s: string, word: string): seq<string> {
    if s == "" then Flush(word)
    else if IsSpace(s[0]) then Flush(word) + Words(s[1..], "")
    else Words(s[1..], word + [s[0]])
  }

  /** `s.split()`. */
  function Split(s: string): seq<string> {
    Words(s, "")
  }

  function Join(parts: seq<string>, separator: string): string {
    if parts == [] then ""
    else if |parts| == 1 then parts[0]
    else parts[0] + separator + Join(parts[1..], separator)
  }

  predicate IsToken(t: string) {
    t != "" && forall k :: 0 <= k < |t| ==> !IsSpace(t[k])
  }

  predicate AreTokens(ts: seq<string>) {
    forall k :: 0 <= k < |ts| ==> IsToken(ts[k])
  }

  lemma {:induction false} WordsAreTokens(s: string, word: string)
    requires word == "" || IsToken(word)
    ensures AreTokens(Words(s, word))
  {
    if s != "" {
      if IsSpace(s[0]) {
        WordsAreTokens(s[1..], "");
      } else {
        WordsAreTokens(s[1..], word + [s[0]]);
      }
    }
  }

  lemma {:induction false} WordsAcross(a: string, c: char, b: string, word: string)
    requires IsSpace(c)
    ensures Words(a + [c] + b, word) == Words(a, word) + Words(b, "")
  {
    var s := a + [c] + b;
    if a == "" {
      assert s[1..] == b;
    } else {
      assert s[1..] == a[1..] + [c] + b;
      if IsSpace(a[0]) {
        WordsAcross(a[1..], c, b, "");
        Associate(Flush(word), Words(a[1..], ""), Words(b, ""));
      } else {
        WordsAcross(a[1..], c, b, word + [a[0]]);
      }
    }
  }

  function Flatten<T>(parts: seq<seq<T>>): seq<T> {
    if parts == [] then [] else parts[0] + Flatten(parts[1..])
  }

  function Splits(parts: seq<string>): (r: seq<seq<string>>)
    ensures |r| == |parts|
  {
    if parts == [] then [] else [Split(parts[0])] + Splits(parts[1..])
  }

  /** Splitting what a white-space character joined gives the words of the parts, in order. */
  lemma {:induction false} SplitJoin(parts: seq<string>, c: char)
    requires IsSpace(c)
    ensures Split(Join(parts, [c])) == Flatten(Splits(parts))
  {
    if |parts| == 1 {
      assert Splits(parts)[1..] == Splits(parts[1..]) == [];
    } else if |parts| > 1 {
      SplitJoin(parts[1..], c);
      WordsAcross(parts[0], c, Join(parts[1..], [c]), "");
      assert Splits(parts)[1..] == Splits(parts[1..]);
    }
  }

  lemma {:induction false} WordsOfToken(t: string, word: string)
    requires forall k :: 0 <= k < |t| ==> !IsSpace(t[k])
    ensures Words(t, word) == Flush(word + t)
  {
    if t == "" {
      assert word + t == word;
    } else {
      WordsOfToken(t[1..], word + [t[0]]);
      assert word + [t[0]] + t[1..] == word + t;
    }
  }

  /** Splitting undoes joining tokens with a space. */
  lemma {:induction false} SplitUndoesJoin(ts: seq<string>)
    requires AreTokens(ts)
    ensures Split(Join(ts, " ")) == ts
  {
    if |ts| >= 1 {
      assert IsToken(ts[0]);
      WordsOfToken(ts[0], "");
      assert "" + ts[0] == ts[0];
    }
    if |ts| == 1 {
      assert ts == [ts[0]];
    } else if |ts| > 1 {
      SplitUndoesJoin(ts[1..]);
      WordsAcross(ts[0], ' ', Join(ts[1..], " "), "");
      assert ts == [ts[0]] + ts[1..];
    }
  }

  /** Only the empty list and lists of tokens survive a join: the text determines them. */
  lemma JoinInjective(a: seq<string>, b: seq<string>)
    requires AreTokens(a) && AreTokens(b) && Join(a, " ") == Join(b, " ")
    ensures a == b
  {
    SplitUndoesJoin(a);
    SplitUndoesJoin(b);
  }

  /** `len(text.split())`. */
  function CountTokens(text: string): nat {
    |Split(text)|
  }

  function TokenSum(parts: seq<string>): nat {
    if parts == [] then 0 else CountTokens(parts[0]) + TokenSum(parts[1..])
  }

  lemma {:induction false} FlattenSize(parts: seq<string>)
    ensures |Flatten(Splits(parts))| == TokenSum(parts)
  {
    if parts != [] {
      FlattenSize(parts[1..]);
      assert Splits(parts)[1..] == Splits(parts[1..]);
    }
  }

  /** The token count is additive over lines. */
  lemma LinesAdd(parts: seq<string>)
    ensures CountTokens(Join(parts, "\n")) == TokenSum(parts)
  {
    SplitJoin(parts, '\n');
    FlattenSize(parts);
  }
}
