/** What is left of an answer: no punctuation, no article, no number word; and nothing else is taken away. */
module AnswerTexts {
  import opened Answers
  import opened PyText

  const PUNCTUATION := "!\"#$%&'()*+,-./:;<=>?@[\\]^_`{|}~"
  const ARTICLES: set<string> := {"a", "A", "an", "aN", "An", "AN", "the", "thE", "tHe", "tHE", "The", "ThE", "THe", "THE"}

  lemma PunctuationIff(c: char)
    ensures IsPunctuation(c) <==> c in PUNCTUATION
  {
    var p := PUNCTUATION;
    if IsPunctuation(c) {
      var k := if c <= '/' then c as int - '!' as int
               else if c <= '@' then c as int - ':' as int + 15
               else if c <= '`' then c as int - '[' as int + 22
               else c as int - '{' as int + 28;
      assert p[k] == c;
    }
  }

  lemma ArticleIff(w: string)
    ensures IsArticle(w) <==> w in ARTICLES
  {
    if |w| == 1 {
      assert w == [w[0]];
    } else if |w| == 2 {
      assert w == [w[0], w[1]];
    } else if |w| == 3 {
      assert w == [w[0], w[1], w[2]];
    }
  }

  // ----- the number words -----

  const UNITS: seq<string> := ["zero", "one", "two", "three", "four", "five", "six", "seven", "eight", "nine", "ten", "eleven",
    "twelve", "thirteen", "fourteen", "fifteen", "sixteen", "seventeen", "eighteen", "nineteen"]
  const TENS: seq<string> := ["twenty", "thirty", "forty", "fifty", "sixty", "seventy", "eighty", "ninety"]

  function Numeral(n: nat): string
    requires n <= 100
  {
    if n < 10 then [('0' as int + n) as char]
    else if n < 100 then [('0' as int + n / 10) as char, ('0' as int + n % 10) as char]
    else "100"
  }

  /** Each number word stands for its number, without leading zeros. */
  lemma UnitWords(n: nat)
    requires n < 20
    ensures UNITS[n] in NUMBER_WORDS && NUMBER_WORDS[UNITS[n]] == Numeral(n)
  {
  }

  lemma TenWords(n: nat)
    requires n < 8
    ensures TENS[n] in NUMBER_WORDS && NUMBER_WORDS[TENS[n]] == Numeral(10 * (n + 2))
    ensures "hundred" in NUMBER_WORDS && NUMBER_WORDS["hundred"] == Numeral(100)
  {
  }

  lemma OnlyNumberWords(w: string)
    requires w in NUMBER_WORDS
    ensures w in UNITS || w in TENS || w == "hundred"
  {
    var u, t := UNITS, TENS;
    assert u[0] == "zero" && u[1] == "one" && u[2] == "two" && u[3] == "three" && u[4] == "four" && u[5] == "five"
      && u[6] == "six" && u[7] == "seven" && u[8] == "eight" && u[9] == "nine";
    assert u[10] == "ten" && u[11] == "eleven" && u[12] == "twelve" && u[13] == "thirteen" && u[14] == "fourteen"
      && u[15] == "fifteen" && u[16] == "sixteen" && u[17] == "seventeen" && u[18] == "eighteen" && u[19] == "nineteen";
    assert t[0] == "twenty" && t[1] == "thirty" && t[2] == "forty" && t[3] == "fifty" && t[4] == "sixty" && t[5] == "seventy"
      && t[6] == "eighty" && t[7] == "ninety";
  }

  // ----- nothing of that kind is left -----

  /** What Unicode says of the characters that matter: no white space is part of a word, the letters of the articles
      are. */
  ghost predicate Sensible(isWord: char -> bool) {
    && (forall c :: IsSpace(c) ==> !isWord(c))
    && forall c :: c in "aAnNtThHeE" ==> isWord(c)
  }

  predicate AllWord(s: string, isWord: char -> bool) {
    forall k :: 0 <= k < |s| ==> isWord(s[k])
  }

  lemma ArticleIsWord(w: string, isWord: char -> bool)
    requires Sensible(isWord) && IsArticle(w)
    ensures AllWord(w, isWord)
  {
    forall k | 0 <= k < |w| ensures w[k] in "aAnNtThHeE" {
      var c := w[k];
      assert "aAnNtThHeE"[0] == 'a' && "aAnNtThHeE"[1] == 'A' && "aAnNtThHeE"[2] == 'n' && "aAnNtThHeE"[3] == 'N'
        && "aAnNtThHeE"[4] == 't' && "aAnNtThHeE"[5] == 'T' && "aAnNtThHeE"[6] == 'h' && "aAnNtThHeE"[7] == 'H'
        && "aAnNtThHeE"[8] == 'e' && "aAnNtThHeE"[9] == 'E';
    }
  }

  lemma {:induction false} WordsThrough(a: string, b: string, w: string)
    requires forall k :: 0 <= k < |a| ==> !IsSpace(a[k])
    ensures Words(a + b, w) == Words(b, w + a)
  {
    if a == "" {
      assert a + b == b && w + a == w;
    } else {
      assert (a + b)[1..] == a[1..] + b;
      WordsThrough(a[1..], b, w + [a[0]]);
      assert w + [a[0]] + a[1..] == w + a;
    }
  }

  lemma SpaceFirst(c: char, b: string, w: string)
    requires IsSpace(c)
    ensures Words([c] + b, w) == Flush(w) + Words(b, "")
  {
    assert ([c] + b)[1..] == b;
  }

  lemma OtherFirst(c: char, b: string, w: string)
    requires !IsSpace(c)
    ensures Words([c] + b, w) == Words(b, w + [c])
  {
    assert ([c] + b)[1..] == b;
  }

  ghost predicate NoArticles(ts: seq<string>) {
    forall k :: 0 <= k < |ts| ==> !IsArticle(ts[k])
  }

  /** The beginning of a token: empty, or with a character that no article has. */
  predicate Open(pre: string, isWord: char -> bool) {
    pre == "" || !AllWord(pre, isWord)
  }

  lemma OpenIsNoArticle(pre: string, isWord: char -> bool)
    requires Sensible(isWord) && Open(pre, isWord)
    ensures NoArticles(Flush(pre))
  {
    if IsArticle(pre) {
      ArticleIsWord(pre, isWord);
    }
  }

  lemma NoArticlesJoin(a: seq<string>, b: seq<string>)
    requires NoArticles(a) && NoArticles(b)
    ensures NoArticles(a + b)
  {
  }

  lemma EndIsNoArticle(pre: string, word: string, isWord: char -> bool)
    requires Sensible(isWord) && Open(pre, isWord) && AllWord(word, isWord)
    ensures NoArticles(Words(WordOrBlank(word), pre))
    ensures !IsArticle(word) ==> NoArticles(Flush(pre + word))
  {
    OpenIsNoArticle(pre, isWord);
    if IsArticle(word) {
      SpaceFirst(' ', "", pre);
      assert [' '] + "" == " ";
    } else {
      WordsThrough(word, "", pre);
      assert word + "" == word;
      Extended(pre, word, isWord);
    }
  }

  lemma Extended(pre: string, word: string, isWord: char -> bool)
    requires Sensible(isWord) && Open(pre, isWord) && !IsArticle(word)
    ensures NoArticles(Flush(pre + word))
  {
    if pre == "" {
      assert pre + word == word;
    } else {
      var k :| 0 <= k < |pre| && !isWord(pre[k]);
      assert (pre + word)[k] == pre[k];
      assert Open(pre + word, isWord);
      OpenIsNoArticle(pre + word, isWord);
    }
  }

  lemma NowOpen(pre: string, c: char, isWord: char -> bool)
    requires !isWord(c)
    ensures Open(pre + [c], isWord)
  {
    assert (pre + [c])[|pre|] == c;
  }

  /** The tokens of a text whose articles were replaced, behind the beginning `pre` of a token. */
  lemma {:induction false} NoneLeft(s: string, word: string, pre: string, isWord: char -> bool)
    requires Sensible(isWord) && AllWord(word, isWord) && Open(pre, isWord)
    ensures NoArticles(Words(WithoutArticles(s, word, isWord), pre))
    decreases |s|
  {
    EndIsNoArticle(pre, word, isWord);
    if s == "" {
    } else if isWord(s[0]) {
      NoneLeft(s[1..], word + [s[0]], pre, isWord);
    } else {
      var c, rest := s[0], WithoutArticles(s[1..], "", isWord);
      assert WordOrBlank(word) + [c] + rest == WordOrBlank(word) + ([c] + rest);
      if IsArticle(word) {
        OpenIsNoArticle(pre, isWord);
        SpaceFirst(' ', [c] + rest, pre);
        NoneLeftBehind(s, "", isWord);
        NoArticlesJoin(Flush(pre), Words([c] + rest, ""));
      } else {
        WordsThrough(word, [c] + rest, pre);
        NoneLeftBehind(s, pre + word, isWord);
      }
    }
  }

  lemma {:induction false} NoneLeftBehind(s: string, w: string, isWord: char -> bool)
    requires Sensible(isWord) && s != "" && !isWord(s[0]) && NoArticles(Flush(w))
    ensures NoArticles(Words([s[0]] + WithoutArticles(s[1..], "", isWord), w))
    decreases |s|, 0
  {
    var c, rest := s[0], WithoutArticles(s[1..], "", isWord);
    if IsSpace(c) {
      SpaceFirst(c, rest, w);
      NoneLeft(s[1..], "", "", isWord);
      NoArticlesJoin(Flush(w), Words(rest, ""));
    } else {
      OtherFirst(c, rest, w);
      NowOpen(w, c, isWord);
      NoneLeft(s[1..], "", w + [c], isWord);
    }
  }

  // ----- punctuation -----

  ghost predicate Plain(s: string) {
    forall k :: 0 <= k < |s| ==> !IsPunctuation(s[k])
  }

  lemma {:induction false} PunctuationGone(s: string)
    ensures Plain(WithoutPunctuation(s))
  {
    if s != "" {
      PunctuationGone(s[1..]);
    }
  }

  /** Character by character: punctuation is dropped, everything else stays. */
  lemma {:induction false} PunctuationJoin(a: string, b: string)
    ensures WithoutPunctuation(a + b) == WithoutPunctuation(a) + WithoutPunctuation(b)
  {
    if a == "" {
      assert a + b == b;
    } else {
      assert (a + b)[1..] == a[1..] + b;
      PunctuationJoin(a[1..], b);
    }
  }

  lemma PunctuationOf(c: char)
    ensures WithoutPunctuation([c]) == if c in PUNCTUATION then "" else [c]
  {
    PunctuationIff(c);
    assert [c][1..] == "";
  }

  lemma {:induction false} StillPlain(s: string, word: string, isWord: char -> bool)
    requires Plain(s) && Plain(word)
    ensures Plain(WithoutArticles(s, word, isWord))
    decreases |s|
  {
    if s != "" {
      if isWord(s[0]) {
        StillPlain(s[1..], word + [s[0]], isWord);
      } else {
        StillPlain(s[1..], "", isWord);
      }
    }
  }

  lemma {:induction false} PlainWords(s: string, w: string)
    requires Plain(s) && Plain(w)
    ensures forall k :: 0 <= k < |Words(s, w)| ==> Plain(Words(s, w)[k])
    decreases |s|
  {
    if s != "" {
      if IsSpace(s[0]) {
        PlainWords(s[1..], "");
      } else {
        PlainWords(s[1..], w + [s[0]]);
      }
    }
  }

  // ----- tokens -----

  /** What no token is. */
  ghost predicate Clean(t: string) {
    Plain(t) && !IsArticle(t) && t !in NUMBER_WORDS
  }

  lemma NumeralIsClean(n: nat)
    requires n <= 100
    ensures Plain(Numeral(n)) && !IsArticle(Numeral(n)) && Numeral(n) !in NUMBER_WORDS
  {
    if Numeral(n) in NUMBER_WORDS {
      LettersFirst(Numeral(n));
    }
  }

  lemma LettersFirst(w: string)
    requires w in NUMBER_WORDS
    ensures w != "" && 'a' <= w[0] <= 'z'
  {
  }

  lemma NormalIsClean(t: string)
    requires Plain(t) && !IsArticle(t)
    ensures Clean(NormalizeNumber(t))
  {
    if t in NUMBER_WORDS {
      OnlyNumberWords(t);
      if t in UNITS {
        var n :| 0 <= n < |UNITS| && UNITS[n] == t;
        UnitWords(n);
        NumeralIsClean(n);
      } else if t in TENS {
        var n :| 0 <= n < |TENS| && TENS[n] == t;
        TenWords(n);
        NumeralIsClean(10 * (n + 2));
      } else {
        TenWords(0);
        NumeralIsClean(100);
      }
    }
  }

  lemma {:induction false} NormalizedAt(ts: seq<string>, k: nat)
    requires k < |ts|
    ensures |NormalizeAll(ts)| == |ts| && NormalizeAll(ts)[k] == NormalizeNumber(ts[k])
  {
    if k > 0 {
      NormalizedAt(ts[1..], k - 1);
    } else if |ts| > 1 {
      NormalizedAt(ts[1..], 0);
    }
  }

  lemma {:induction false} NormalizedSize(ts: seq<string>)
    ensures |NormalizeAll(ts)| == |ts|
  {
    if ts != [] {
      NormalizedSize(ts[1..]);
    }
  }

  /** Whatever the answer: no token has punctuation, is an article or a number word. */
  lemma TokensAreClean(answer: Answer, u: Unicode, k: nat)
    requires Sensible(u.isWord) && k < |AnswerTokens(answer, u)|
    ensures Clean(AnswerTokens(answer, u)[k]) && IsToken(AnswerTokens(answer, u)[k])
  {
    var s := WithoutPunctuation(if answer.Text? then u.lower(answer.text) else "");
    var folded := WithoutArticles(s, "", u.isWord);
    PunctuationGone(if answer.Text? then u.lower(answer.text) else "");
    StillPlain(s, "", u.isWord);
    PlainWords(folded, "");
    NoneLeft(s, "", "", u.isWord);
    NormalizedSize(Split(folded));
    NormalizedAt(Split(folded), k);
    NormalIsClean(Split(folded)[k]);
    AnswerTokensAreTokens(answer, u);
  }

  // ----- and nothing else is taken away -----

  /** A word of an answer: word characters only, none of them punctuation. */
  ghost predicate IsWordToken(w: string, isWord: char -> bool) {
    IsToken(w) && AllWord(w, isWord) && Plain(w)
  }

  ghost predicate AreWords(ws: seq<string>, isWord: char -> bool) {
    forall k :: 0 <= k < |ws| ==> IsWordToken(ws[k], isWord)
  }

  function Kept(ws: seq<string>): seq<string> {
    if ws == [] then []
    else (if ws[0] in ARTICLES then [] else [NormalizeNumber(ws[0])]) + Kept(ws[1..])
  }

  lemma {:induction false} PlainKept(s: string)
    requires Plain(s)
    ensures WithoutPunctuation(s) == s
  {
    if s != "" {
      PlainKept(s[1..]);
    }
  }

  lemma {:induction false} JoinPlain(ws: seq<string>)
    requires forall k :: 0 <= k < |ws| ==> Plain(ws[k])
    ensures Plain(Join(ws, " "))
  {
    if |ws| > 1 {
      JoinPlain(ws[1..]);
    }
  }

  lemma {:induction false} RunThrough(w: string, b: string, word: string, isWord: char -> bool)
    requires AllWord(w, isWord)
    ensures WithoutArticles(w + b, word, isWord) == WithoutArticles(b, word + w, isWord)
    decreases |w|
  {
    if w == "" {
      assert w + b == b && word + w == word;
    } else {
      assert (w + b)[1..] == w[1..] + b;
      RunThrough(w[1..], b, word + [w[0]], isWord);
      assert word + [w[0]] + w[1..] == word + w;
    }
  }

  function Blanked(ws: seq<string>): (r: seq<string>)
    ensures |r| == |ws|
  {
    if ws == [] then [] else [WordOrBlank(ws[0])] + Blanked(ws[1..])
  }

  lemma {:induction false} ArticlesBlanked(ws: seq<string>, isWord: char -> bool)
    requires Sensible(isWord) && AreWords(ws, isWord) && ws != []
    ensures WithoutArticles(Join(ws, " "), "", isWord) == Join(Blanked(ws), " ")
  {
    var w := ws[0];
    assert IsWordToken(w, isWord) && "" + w == w;
    if |ws| == 1 {
      assert w + "" == w;
      RunThrough(w, "", "", isWord);
    } else {
      var rest := Join(ws[1..], " ");
      assert Join(ws, " ") == w + (" " + rest);
      RunThrough(w, " " + rest, "", isWord);
      assert (" " + rest)[1..] == rest && IsSpace(' ');
      ArticlesBlanked(ws[1..], isWord);
      assert Blanked(ws)[1..] == Blanked(ws[1..]);
    }
  }

  lemma OneWord(w: string)
    requires IsToken(w)
    ensures Split(WordOrBlank(w)) == if w in ARTICLES then [] else [w]
  {
    ArticleIff(w);
    if w in ARTICLES {
      SpaceFirst(' ', "", "");
      assert [' '] + "" == " ";
    } else {
      WordsOfToken(w, "");
      assert "" + w == w;
    }
  }

  lemma {:induction false} KeptWords(ws: seq<string>)
    requires AreTokens(ws)
    ensures NormalizeAll(Flatten(Splits(Blanked(ws)))) == Kept(ws)
  {
    if ws != [] {
      assert IsToken(ws[0]);
      OneWord(ws[0]);
      KeptWords(ws[1..]);
      var rest := Flatten(Splits(Blanked(ws[1..])));
      assert Splits(Blanked(ws)) == [Split(WordOrBlank(ws[0]))] + Splits(Blanked(ws[1..]));
      if ws[0] in ARTICLES {
        assert [] + rest == rest && [] + Kept(ws[1..]) == Kept(ws[1..]);
      } else {
        assert ([ws[0]] + rest)[1..] == rest;
      }
    }
  }

  /** Of an answer made of words exactly the articles are dropped, and exactly the number words are replaced. */
  lemma WordsAreKept(ws: seq<string>, u: Unicode)
    requires Sensible(u.isWord) && AreWords(ws, u.isWord) && u.lower(Join(ws, " ")) == Join(ws, " ")
    ensures AnswerTokens(Text(Join(ws, " ")), u) == Kept(ws)
  {
    var s := Join(ws, " ");
    JoinPlain(ws);
    PlainKept(s);
    if ws == [] {
      assert s == "" && WithoutArticles("", "", u.isWord) == "";
    } else {
      ArticlesBlanked(ws, u.isWord);
      SplitJoin(Blanked(ws), ' ');
      KeptWords(ws);
    }
  }

  // ----- the alternatives of an answer -----

  /** One part of an answer between two periods, with the white space around it. */
  datatype Part = Part(left: string, core: string, right: string)

  predicate AllSpace(s: string) {
    forall k :: 0 <= k < |s| ==> IsSpace(s[k])
  }

  predicate IsPart(p: Part) {
    && AllSpace(p.left) && AllSpace(p.right) && '.' !in p.left + p.core + p.right
    && (p.core == "" || (!IsSpace(p.core[0]) && !IsSpace(p.core[|p.core| - 1])))
  }

  function PartTexts(ps: seq<Part>): (r: seq<string>)
    ensures |r| == |ps|
  {
    if ps == [] then [] else [ps[0].left + ps[0].core + ps[0].right] + PartTexts(ps[1..])
  }

  /** The parts that are not blank. */
  function Cores(ps: seq<Part>): seq<string> {
    if ps == [] then [] else (if ps[0].core == "" then [] else [ps[0].core]) + Cores(ps[1..])
  }

  lemma {:induction false} LeftStripped(a: string, b: string)
    requires AllSpace(a)
    ensures LStrip(a + b) == LStrip(b)
  {
    if a == "" {
      assert a + b == b;
    } else {
      assert (a + b)[1..] == a[1..] + b;
      LeftStripped(a[1..], b);
    }
  }

  lemma {:induction false} RightStripped(b: string, a: string)
    requires AllSpace(a)
    ensures RStrip(b + a) == RStrip(b)
  {
    if a == "" {
      assert b + a == b;
    } else {
      var m := |a| - 1;
      assert (b + a)[..|b + a| - 1] == b + a[..m];
      RightStripped(b, a[..m]);
    }
  }

  lemma PartStripped(p: Part)
    requires IsPart(p)
    ensures Strip(p.left + p.core + p.right) == p.core
  {
    assert p.left + p.core + p.right == p.left + (p.core + p.right);
    LeftStripped(p.left, p.core + p.right);
    if p.core == "" {
      assert p.core + p.right == p.right + "";
      LeftStripped(p.right, "");
    } else {
      RightStripped(p.core, p.right);
    }
  }

  lemma {:induction false} PeriodBehind(a: string, b: string, word: string)
    requires '.' !in a
    ensures SplitPeriods(a + "." + b, word) == [word + a] + SplitPeriods(b, "")
    decreases |a|
  {
    var s := a + "." + b;
    if a == "" {
      assert s[1..] == b && word + a == word;
    } else {
      assert s[1..] == a[1..] + "." + b;
      PeriodBehind(a[1..], b, word + [a[0]]);
      assert word + [a[0]] + a[1..] == word + a;
    }
  }

  lemma {:induction false} NoPeriod(a: string, word: string)
    requires '.' !in a
    ensures SplitPeriods(a, word) == [word + a]
    decreases |a|
  {
    if a == "" {
      assert word + a == word;
    } else {
      NoPeriod(a[1..], word + [a[0]]);
      assert word + [a[0]] + a[1..] == word + a;
    }
  }

  lemma {:induction false} PartsSplit(ps: seq<Part>)
    requires ps != [] && forall k :: 0 <= k < |ps| ==> IsPart(ps[k])
    ensures SplitPeriods(Join(PartTexts(ps), "."), "") == PartTexts(ps)
  {
    var first := ps[0].left + ps[0].core + ps[0].right;
    assert IsPart(ps[0]) && "" + first == first && PartTexts(ps)[1..] == PartTexts(ps[1..]);
    if |ps| == 1 {
      NoPeriod(first, "");
    } else {
      PeriodBehind(first, Join(PartTexts(ps[1..]), "."), "");
      PartsSplit(ps[1..]);
    }
  }

  lemma {:induction false} PartsStripped(ps: seq<Part>)
    requires forall k :: 0 <= k < |ps| ==> IsPart(ps[k])
    ensures Stripped(PartTexts(ps)) == Cores(ps)
  {
    if ps != [] {
      PartStripped(ps[0]);
      PartsStripped(ps[1..]);
      assert PartTexts(ps)[1..] == PartTexts(ps[1..]);
    }
  }

  /** The alternatives of an answer are its parts between periods without the white space around them, blank ones
      left out, and there are none when only one part is not blank. */
  lemma AlternativesAre(ps: seq<Part>)
    requires ps != [] && forall k :: 0 <= k < |ps| ==> IsPart(ps[k])
    ensures Alternatives(Text(Join(PartTexts(ps), "."))) == if |Cores(ps)| > 1 then Cores(ps) else []
  {
    PartsSplit(ps);
    PartsStripped(ps);
  }
}
