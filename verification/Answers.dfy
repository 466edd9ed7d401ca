/** Answers: how they are cut into tokens, the exact match with its alternatives, and what it says about the score. */
module Answers {
  import opened Metrics
  import opened PyText

  // ----- from a text to its tokens -----

  const NUMBER_WORDS := map["zero" := "0", "one" := "1", "two" := "2", "three" := "3", "four" := "4", "five" := "5",
    "six" := "6", "seven" := "7", "eight" := "8", "nine" := "9", "ten" := "10", "eleven" := "11", "twelve" := "12",
    "thirteen" := "13", "fourteen" := "14", "fifteen" := "15", "sixteen" := "16", "seventeen" := "17",
    "eighteen" := "18", "nineteen" := "19", "twenty" := "20", "thirty" := "30", "forty" := "40", "fifty" := "50",
    "sixty" := "60", "seventy" := "70", "eighty" := "80", "ninety" := "90", "hundred" := "100"]

  /** What Unicode says: `str.lower`, and which characters the word boundary of a regular expression counts as words. */
  datatype Unicode = Unicode(lower: string -> string, isWord: char -> bool)

  /** `string.punctuation`. */
  predicate IsPunctuation(c: char) {
    '!' <= c <= '/' || ':' <= c <= '@' || '[' <= c <= '`' || '{' <= c <= '~'
  }

  /** `translate(_PUNCTUATION)`. */
  function WithoutPunctuation(s: string): string {
    if s == "" then ""
    else if IsPunctuation(s[0]) then WithoutPunctuation(s[1..])
    else [s[0]] + WithoutPunctuation(s[1..])
  }

  /** The letter in either case. */
  predicate IsLetter(c: char, letter: char) {
    c == letter || c as int + 32 == letter as int
  }

  predicate IsArticle(word: string) {
    || (|word| == 1 && IsLetter(word[0], 'a'))
    || (|word| == 2 && IsLetter(word[0], 'a') && IsLetter(word[1], 'n'))
    || (|word| == 3 && IsLetter(word[0], 't') && IsLetter(word[1], 'h') && IsLetter(word[2], 'e'))
  }

  function WordOrBlank(word: string): string {
    if IsArticle(word) then " " else word
  }

  /** `_ARTICLES.sub(" ", word + s)`, where `word` is the word read so far: every whole word that is an article
      becomes a space. */
  function WithoutArticles(s: string, word: string, isWord: char -> bool): string {
    if s == "" then WordOrBlank(word)
    else if isWord(s[0]) then WithoutArticles(s[1..], word + [s[0]], isWord)
    else WordOrBlank(word) + [s[0]] + WithoutArticles(s[1..], "", isWord)
  }

  function Fold(s: string, u: Unicode): string {
    WithoutArticles(WithoutPunctuation(u.lower(s)), "", u.isWord)
  }

  function NormalizeNumber(token: string): string {
    if token in NUMBER_WORDS then NUMBER_WORDS[token] else token
  }

  function NormalizeAll(tokens: seq<string>): seq<string> {
    if tokens == [] then [] else [NormalizeNumber(tokens[0])] + NormalizeAll(tokens[1..])
  }

  datatype Answer = NoAnswer | Text(text: string)

  function FoldedText(answer: Answer, u: Unicode): string {
    match answer
    case NoAnswer => WithoutArticles(WithoutPunctuation(""), "", u.isWord)
    case Text(text) => Fold(text, u)
  }

  /** `_answer_tokens`. */
  function AnswerTokens(answer: Answer, u: Unicode): seq<string> {
    NormalizeAll(Split(FoldedText(answer, u)))
  }

  lemma NumberIsToken(token: string)
    requires IsToken(token)
    ensures IsToken(NormalizeNumber(token))
  {
  }

  lemma {:induction false} NormalizeKeepsTokens(tokens: seq<string>)
    requires AreTokens(tokens)
    ensures AreTokens(NormalizeAll(tokens))
  {
    if tokens != [] {
      assert IsToken(tokens[0]);
      NumberIsToken(tokens[0]);
      NormalizeKeepsTokens(tokens[1..]);
      TokensCons(NormalizeNumber(tokens[0]), NormalizeAll(tokens[1..]));
    }
  }

  lemma TokensCons(t: string, ts: seq<string>)
    requires IsToken(t) && AreTokens(ts)
    ensures AreTokens([t] + ts)
  {
  }

  lemma AnswerTokensAreTokens(answer: Answer, u: Unicode)
    ensures AreTokens(AnswerTokens(answer, u))
  {
    WordsAreTokens(FoldedText(answer, u), "");
    NormalizeKeepsTokens(Split(FoldedText(answer, u)));
  }

  // ----- exact match -----

  /** `str.split(".")`. */
  function SplitPeriods(s: string, word: string): seq<string> {
    if s == "" then [word]
    else if s[0] == '.' then [word] + SplitPeriods(s[1..], "")
    else SplitPeriods(s[1..], word + [s[0]])
  }

  function Stripped(parts: seq<string>): seq<string> {
    if parts == [] then []
    else (if Strip(parts[0]) == "" then [] else [Strip(parts[0])]) + Stripped(parts[1..])
  }

  /** `_alternative_answers`. */
  function Alternatives(gold: Answer): seq<string> {
    if gold.NoAnswer? then []
    else
      var parts := Stripped(SplitPeriods(gold.text, ""));
      if |parts| > 1 then parts else []
  }

  predicate Matches(gold: Answer, predicted: Answer, u: Unicode) {
    Join(AnswerTokens(gold, u), " ") == Join(AnswerTokens(predicted, u), " ")
  }

  predicate MatchesAlternative(gold: Answer, predicted: Answer, u: Unicode) {
    exists i :: 0 <= i < |Alternatives(gold)| && Matches(Text(Alternatives(gold)[i]), predicted, u)
  }

  method ComputeAnswerMetrics(gold: Answer, predicted: Answer, u: Unicode) returns (exact: bool, f1: real)
    ensures exact <==> Matches(gold, predicted, u) || MatchesAlternative(gold, predicted, u)
    ensures f1 == TokenF1(AnswerTokens(gold, u), AnswerTokens(predicted, u))
    ensures f1 == 1.0 <==> multiset(AnswerTokens(gold, u)) == multiset(AnswerTokens(predicted, u))
    ensures Matches(gold, predicted, u) ==> exact && f1 == 1.0
  {
    var goldTokens, predictedTokens := AnswerTokens(gold, u), AnswerTokens(predicted, u);
    exact := Join(goldTokens, " ") == Join(predictedTokens, " ");
    if !exact {
      exact := MatchAlternatives(gold, predicted, u);
    }
    f1 := TokenF1(goldTokens, predictedTokens);
    TokenF1Laws(goldTokens, predictedTokens);
    DirectMatch(gold, predicted, u);
  }

  /** The scan of the alternatives, which stops at the first match. */
  method MatchAlternatives(gold: Answer, predicted: Answer, u: Unicode) returns (found: bool)
    ensures found <==> MatchesAlternative(gold, predicted, u)
  {
    var alternatives := Alternatives(gold);
    found := false;
    for i := 0 to |alternatives|
      invariant !found && forall j :: 0 <= j < i ==> !Matches(Text(alternatives[j]), predicted, u)
    {
      if Join(AnswerTokens(Text(alternatives[i]), u), " ") == Join(AnswerTokens(predicted, u), " ") {
        assert Matches(Text(alternatives[i]), predicted, u);
        return true;
      }
    }
  }

  /** A direct match means equal tokens, hence the full score. */
  lemma DirectMatch(gold: Answer, predicted: Answer, u: Unicode)
    ensures Matches(gold, predicted, u) <==> AnswerTokens(gold, u) == AnswerTokens(predicted, u)
    ensures Matches(gold, predicted, u) ==> TokenF1(AnswerTokens(gold, u), AnswerTokens(predicted, u)) == 1.0
  {
    AnswerTokensAreTokens(gold, u);
    AnswerTokensAreTokens(predicted, u);
    if Matches(gold, predicted, u) {
      JoinInjective(AnswerTokens(gold, u), AnswerTokens(predicted, u));
      TokenF1Laws(AnswerTokens(gold, u), AnswerTokens(predicted, u));
    }
  }

  /** An exact match through an alternative answer does not force the full score: here it is two thirds.  All that is
      used of Unicode is that the letters x and y are lower-case word characters and a space is not. */
  lemma AlternativeScoresLess(u: Unicode)
    requires u.lower("x. y") == "x. y" && u.lower("x") == "x" && u.isWord('x') && u.isWord('y') && !u.isWord(' ')
    ensures var gold, predicted := Text("x. y"), Text("x");
            MatchesAlternative(gold, predicted, u) && !Matches(gold, predicted, u)
            && TokenF1(AnswerTokens(gold, u), AnswerTokens(predicted, u)) == 2.0 / 3.0
  {
    ExampleAlternatives();
    ExampleFold(u);
    ExampleTokens();
    ExampleNormalized();
    ExampleScore();
    DirectMatch(Text("x. y"), Text("x"), u);
    assert Matches(Text(Alternatives(Text("x. y"))[0]), Text("x"), u);
  }

  lemma ExampleFold(u: Unicode)
    requires u.lower("x. y") == "x. y" && u.lower("x") == "x" && u.isWord('x') && u.isWord('y') && !u.isWord(' ')
    ensures Fold("x. y", u) == "x y" && Fold("x", u) == "x"
  {
    ExampleWithoutPunctuation();
    ExampleWithoutArticles(u.isWord);
  }

  lemma ExampleWithoutPunctuation()
    ensures WithoutPunctuation("x. y") == "x y" && WithoutPunctuation("x") == "x"
  {
    assert "x. y"[1..] == ". y" && ". y"[1..] == " y" && " y"[1..] == "y";
    assert WithoutPunctuation("y") == "y";
    assert WithoutPunctuation(" y") == " y";
    assert WithoutPunctuation(". y") == " y";
  }

  lemma ExampleWithoutArticles(isWord: char -> bool)
    requires isWord('x') && isWord('y') && !isWord(' ')
    ensures WithoutArticles("x y", "", isWord) == "x y" && WithoutArticles("x", "", isWord) == "x"
  {
    assert "x y"[1..] == " y" && " y"[1..] == "y" && "" + ['x'] == "x" && "" + ['y'] == "y";
    assert WithoutArticles("y", "", isWord) == WithoutArticles("", "y", isWord) == "y";
    assert WithoutArticles(" y", "x", isWord) == "x" + [' '] + "y" == "x y";
    assert WithoutArticles("x", "", isWord) == WithoutArticles("", "x", isWord) == "x";
  }

  lemma ExampleNormalized()
    ensures NormalizeAll(["x", "y"]) == ["x", "y"] && NormalizeAll(["x"]) == ["x"]
  {
    NotANumber("x");
    NotANumber("y");
    assert ["x", "y"][1..] == ["y"];
    assert NormalizeAll(["y"]) == ["y"];
  }

  lemma NotANumber(token: string)
    requires |token| == 1
    ensures NormalizeNumber(token) == token
  {
  }

  lemma ExampleScore()
    ensures TokenF1(["x", "y"], ["x"]) == 2.0 / 3.0
  {
    var gold, predicted := ["x", "y"], ["x"];
    ClosedForm(gold, predicted);
    assert multiset(gold) * multiset(predicted) == multiset{"x"};
  }

  lemma ExampleParts()
    ensures SplitPeriods("x. y", "") == ["x", " y"]
  {
    assert "" + [' '] == " " && "" + ['x'] == "x" && " " + ['y'] == " y";
    assert SplitPeriods("y", " ") == [" y"];
    assert SplitPeriods(" y", "") == [" y"];
    assert ". y"[1..] == " y" && SplitPeriods(". y", "x") == ["x", " y"];
    assert "x. y"[1..] == ". y";
  }

  lemma ExampleStripped()
    ensures Stripped(["x", " y"]) == ["x", "y"]
  {
    assert Strip("x") == "x" && Strip(" y") == "y";
    assert Stripped([" y"]) == ["y"];
    assert ["x", " y"][1..] == [" y"];
  }

  lemma ExampleAlternatives()
    ensures Alternatives(Text("x. y")) == ["x", "y"]
  {
    ExampleParts();
    ExampleStripped();
  }

  lemma ExampleTokens()
    ensures Split("x y") == ["x", "y"] && Split("x") == ["x"]
  {
    SplitUndoesJoin(["x", "y"]);
    SplitUndoesJoin(["x"]);
    assert ["x", "y"][1..] == ["y"];
    assert Join(["x", "y"], " ") == "x y";
  }
}
