/** Greedy newest-first packing of a context into a token budget. */
module Packing {
  import opened Prelude
  import opened PyText

  /** One line of the history; `ids` are the turns it stands for. */
  datatype Line = Line(sourceType: string, sourceId: string, text: string, ids: seq<string>)

  datatype Truncation = Truncation(sourceType: string, sourceId: string, tokens: nat, maxTokens: nat)

  datatype Built = Built(prompt: string, inputTokens: nat, included: seq<string>, truncations: seq<Truncation>)

  function Cost(line: Line): nat {
    CountTokens(line.text)
  }

  function CostSum(lines: seq<Line>): nat {
    if lines == [] then 0 else Cost(lines[0]) + CostSum(lines[1..])
  }

  // ----- choices: which lines are in -----

  function One(line: Line, take: bool): seq<Line> {
    if take then [line] else []
  }

  function Picked(lines: seq<Line>, choice: seq<bool>): seq<Line>
    requires |choice| == |lines|
  {
    if lines == [] then []
    else One(lines[0], choice[0]) + Picked(lines[1..], choice[1..])
  }

  function Not(choice: seq<bool>): (r: seq<bool>)
    ensures |r| == |choice| && forall k :: 0 <= k < |r| ==> r[k] == !choice[k]
  {
    if choice == [] then [] else [!choice[0]] + Not(choice[1..])
  }

  function Weight(lines: seq<Line>, choice: seq<bool>): nat
    requires |choice| == |lines|
  {
    CostSum(Picked(lines, choice))
  }

  lemma {:induction false} CostSumJoin(a: seq<Line>, b: seq<Line>)
    ensures CostSum(a + b) == CostSum(a) + CostSum(b)
  {
    if a == [] {
      assert a + b == b;
    } else {
      assert (a + b)[1..] == a[1..] + b;
      CostSumJoin(a[1..], b);
    }
  }

  lemma {:induction false} PickedSnoc(lines: seq<Line>, choice: seq<bool>, line: Line, take: bool)
    requires |choice| == |lines|
    ensures Picked(lines + [line], choice + [take]) == Picked(lines, choice) + if take then [line] else []
  {
    if lines != [] {
      assert (lines + [line])[1..] == lines[1..] + [line];
      assert (choice + [take])[1..] == choice[1..] + [take];
      PickedSnoc(lines[1..], choice[1..], line, take);
    }
  }

  lemma WeightSnoc(lines: seq<Line>, choice: seq<bool>, line: Line, take: bool)
    requires |choice| == |lines|
    ensures Weight(lines + [line], choice + [take]) == Weight(lines, choice) + if take then Cost(line) else 0
  {
    PickedSnoc(lines, choice, line, take);
    CostSumJoin(Picked(lines, choice), if take then [line] else []);
  }

  /** The newest line is decided first. */
  function Greedy(lines: seq<Line>, budget: nat): (choice: seq<bool>)
    ensures |choice| == |lines|
  {
    if lines == [] then []
    else
      var last := lines[|lines| - 1];
      if Cost(last) <= budget then Greedy(lines[..|lines| - 1], budget - Cost(last)) + [true]
      else Greedy(lines[..|lines| - 1], budget) + [false]
  }

  /** Comparing two choices from the newest line to the oldest. */
  predicate LexLeq(f: seq<bool>, g: seq<bool>)
    requires |f| == |g|
  {
    f == [] ||
    (var n := |f| - 1; if f[n] == g[n] then LexLeq(f[..n], g[..n]) else g[n])
  }

  ghost predicate Best(lines: seq<Line>, budget: nat, choice: seq<bool>) {
    && |choice| == |lines| && Weight(lines, choice) <= budget
    && forall other: seq<bool> {:trigger LexLeq(other, choice)} ::
         |other| == |lines| && Weight(lines, other) <= budget ==> LexLeq(other, choice)
  }

  lemma LexSnoc(f: seq<bool>, g: seq<bool>, x: bool, y: bool)
    requires |f| == |g|
    ensures LexLeq(f + [x], g + [y]) <==> if x == y then LexLeq(f, g) else y
  {
    assert (f + [x])[..|f|] == f && (g + [y])[..|g|] == g;
  }

  lemma GreedySnoc(lines: seq<Line>, line: Line, budget: nat)
    ensures Greedy(lines + [line], budget)
         == if Cost(line) <= budget then Greedy(lines, budget - Cost(line)) + [true] else Greedy(lines, budget) + [false]
  {
    assert (lines + [line])[..|lines|] == lines;
  }

  lemma {:induction false} GreedyFits(lines: seq<Line>, budget: nat)
    ensures Weight(lines, Greedy(lines, budget)) <= budget
    decreases lines, 0
  {
    if lines != [] {
      var n := |lines| - 1;
      assert lines == lines[..n] + [lines[n]];
      GreedyFitsSnoc(lines[..n], lines[n], budget);
    }
  }

  lemma {:induction false} GreedyFitsSnoc(lines: seq<Line>, line: Line, budget: nat)
    ensures Weight(lines + [line], Greedy(lines + [line], budget)) <= budget
    decreases lines, 1
  {
    GreedySnoc(lines, line, budget);
    var fits := Cost(line) <= budget;
    var rest := if fits then budget - Cost(line) else budget;
    GreedyFits(lines, rest);
    WeightSnoc(lines, Greedy(lines, rest), line, fits);
  }

  lemma {:induction false} GreedyBeats(lines: seq<Line>, budget: nat, other: seq<bool>)
    requires |other| == |lines| && Weight(lines, other) <= budget
    ensures LexLeq(other, Greedy(lines, budget))
    decreases lines, 0
  {
    if lines != [] {
      var n := |lines| - 1;
      assert lines == lines[..n] + [lines[n]] && other == other[..n] + [other[n]];
      GreedyBeatsSnoc(lines[..n], lines[n], budget, other[..n], other[n]);
    }
  }

  lemma {:induction false} GreedyBeatsSnoc(lines: seq<Line>, line: Line, budget: nat, other: seq<bool>, take: bool)
    requires |other| == |lines| && Weight(lines + [line], other + [take]) <= budget
    ensures LexLeq(other + [take], Greedy(lines + [line], budget))
    decreases lines, 1
  {
    WeightSnoc(lines, other, line, take);
    GreedySnoc(lines, line, budget);
    var fits := Cost(line) <= budget;
    var rest := if fits then budget - Cost(line) else budget;
    LexSnoc(other, Greedy(lines, rest), take, fits);
    if take == fits {
      GreedyBeats(lines, rest, other);
    }
  }

  lemma {:induction false} LexAntisymmetric(f: seq<bool>, g: seq<bool>)
    requires |f| == |g| && LexLeq(f, g) && LexLeq(g, f)
    ensures f == g
  {
    if f != [] {
      var n := |f| - 1;
      LexAntisymmetric(f[..n], g[..n]);
      assert f == f[..n] + [f[n]] && g == g[..n] + [g[n]];
    }
  }

  /** Greedy packing is the best choice from the newest line backwards, and the only one. */
  lemma GreedyIsBest(lines: seq<Line>, budget: nat, choice: seq<bool>)
    ensures Best(lines, budget, choice) <==> choice == Greedy(lines, budget)
  {
    var greedy := Greedy(lines, budget);
    GreedyFits(lines, budget);
    forall other: seq<bool> | |other| == |lines| && Weight(lines, other) <= budget ensures LexLeq(other, greedy) {
      GreedyBeats(lines, budget, other);
    }
    if Best(lines, budget, choice) {
      assert LexLeq(greedy, choice);
      LexAntisymmetric(choice, greedy);
    }
  }

  function TokensOf(truncations: seq<Truncation>): nat {
    if truncations == [] then 0 else truncations[0].tokens + TokensOf(truncations[1..])
  }

  lemma DecisionsOne(line: Line, rest: seq<Line>, take: bool, maxTokens: nat)
    ensures TokensOf(Decisions(One(line, take) + rest, maxTokens))
         == (if take then Cost(line) else 0) + TokensOf(Decisions(rest, maxTokens))
  {
    if take {
      assert ([line] + rest)[1..] == rest;
      assert Decisions([line] + rest, maxTokens)[1..] == Decisions(rest, maxTokens);
    } else {
      assert [] + rest == rest;
    }
  }

  lemma CostOne(line: Line, rest: seq<Line>, take: bool)
    ensures CostSum(One(line, take) + rest) == (if take then Cost(line) else 0) + CostSum(rest)
  {
    if take {
      assert ([line] + rest)[1..] == rest;
    } else {
      assert [] + rest == rest;
    }
  }

  /** No token is lost: those of the accepted lines and those reported as truncated are all of the history's. */
  lemma {:induction false} TokensAccounted(lines: seq<Line>, choice: seq<bool>, maxTokens: nat)
    requires |choice| == |lines|
    ensures Weight(lines, choice) + TokensOf(Decisions(Picked(lines, Not(choice)), maxTokens)) == CostSum(lines)
  {
    if lines != [] {
      TokensAccounted(lines[1..], choice[1..], maxTokens);
      CostOne(lines[0], Picked(lines[1..], choice[1..]), choice[0]);
      DecisionsOne(lines[0], Picked(lines[1..], Not(choice[1..])), !choice[0], maxTokens);
      assert Not(choice)[1..] == Not(choice[1..]);
    }
  }

  /** The lines taken and the lines left out make up the history. */
  lemma {:induction false} PickedPartition(lines: seq<Line>, choice: seq<bool>)
    requires |choice| == |lines|
    ensures multiset(Picked(lines, choice)) + multiset(Picked(lines, Not(choice))) == multiset(lines)
  {
    if lines != [] {
      PickedPartition(lines[1..], choice[1..]);
      NotTail(choice);
      PickedHead(lines, choice);
      PickedHead(lines, Not(choice));
      OneOrOther(lines, choice[0]);
    }
  }

  lemma NotTail(choice: seq<bool>)
    requires choice != []
    ensures Not(choice)[1..] == Not(choice[1..]) && Not(choice)[0] == !choice[0]
  {
  }

  lemma PickedHead(lines: seq<Line>, choice: seq<bool>)
    requires |choice| == |lines| > 0
    ensures multiset(Picked(lines, choice)) == multiset(One(lines[0], choice[0])) + multiset(Picked(lines[1..], choice[1..]))
  {
  }

  lemma OneOrOther(lines: seq<Line>, take: bool)
    requires lines != []
    ensures multiset(lines) == multiset(One(lines[0], take)) + multiset(One(lines[0], !take)) + multiset(lines[1..])
  {
    assert lines == [lines[0]] + lines[1..];
  }

  // ----- the loop -----

  function Decision(line: Line, maxTokens: nat): Truncation {
    Truncation(line.sourceType, line.sourceId, Cost(line), maxTokens)
  }

  function Decisions(lines: seq<Line>, maxTokens: nat): (r: seq<Truncation>)
    ensures |r| == |lines| && forall k :: 0 <= k < |r| ==> r[k] == Decision(lines[k], maxTokens)
  {
    if lines == [] then [] else [Decision(lines[0], maxTokens)] + Decisions(lines[1..], maxTokens)
  }

  /** The lines decided so far are the newest ones; the others are yet to be packed into what remains. */
  ghost predicate Packs(lines: seq<Line>, i: nat, choice: seq<bool>, budget: nat, remaining: nat) {
    && i <= |lines| && |choice| == |lines| - i
    && Greedy(lines, budget) == Greedy(lines[..i], remaining) + choice
  }

  lemma PackOne(lines: seq<Line>, i: nat, choice: seq<bool>, budget: nat, remaining: nat, rest: nat)
    requires Packs(lines, i, choice, budget, remaining) && i > 0
    requires rest == if Cost(lines[i - 1]) <= remaining then remaining - Cost(lines[i - 1]) else remaining
    ensures Packs(lines, i - 1, [Cost(lines[i - 1]) <= remaining] + choice, budget, rest)
  {
    assert lines[..i][..i - 1] == lines[..i - 1];
    var take := Cost(lines[i - 1]) <= remaining;
    assert Greedy(lines[..i], remaining) == Greedy(lines[..i - 1], rest) + [take];
    Associate(Greedy(lines[..i - 1], rest), [take], choice);
  }

  lemma PickOne(lines: seq<Line>, i: nat, choice: seq<bool>, take: bool)
    requires 0 < i <= |lines| && |choice| == |lines| - i
    ensures Picked(lines[i - 1..], [take] + choice) == One(lines[i - 1], take) + Picked(lines[i..], choice)
  {
    assert lines[i - 1..][1..] == lines[i..] && ([take] + choice)[1..] == choice;
  }

  lemma NotCons(take: bool, choice: seq<bool>)
    ensures Not([take] + choice) == [!take] + Not(choice)
  {
  }

  ghost predicate PackedSoFar(lines: seq<Line>, i: nat, choice: seq<bool>, budget: nat, remaining: nat,
                              accepted: seq<Line>, truncated: seq<Line>) {
    && Packs(lines, i, choice, budget, remaining)
    && Reversed(accepted) == Picked(lines[i..], choice)
    && Reversed(truncated) == Picked(lines[i..], Not(choice))
  }

  lemma PackTakes(lines: seq<Line>, i: nat, choice: seq<bool>, budget: nat, remaining: nat, accepted: seq<Line>,
                  truncated: seq<Line>)
    requires PackedSoFar(lines, i, choice, budget, remaining, accepted, truncated) && i > 0
    requires Cost(lines[i - 1]) <= remaining
    ensures PackedSoFar(lines, i - 1, [true] + choice, budget, remaining - Cost(lines[i - 1]), accepted + [lines[i - 1]], truncated)
  {
    PackOne(lines, i, choice, budget, remaining, remaining - Cost(lines[i - 1]));
    PickOne(lines, i, choice, true);
    PickOne(lines, i, Not(choice), false);
    NotCons(true, choice);
    ReversedSnoc(accepted, lines[i - 1]);
  }

  lemma PackDrops(lines: seq<Line>, i: nat, choice: seq<bool>, budget: nat, remaining: nat, accepted: seq<Line>,
                  truncated: seq<Line>)
    requires PackedSoFar(lines, i, choice, budget, remaining, accepted, truncated) && i > 0
    requires Cost(lines[i - 1]) > remaining
    ensures PackedSoFar(lines, i - 1, [false] + choice, budget, remaining, accepted, truncated + [lines[i - 1]])
  {
    PackOne(lines, i, choice, budget, remaining, remaining);
    PickOne(lines, i, choice, false);
    PickOne(lines, i, Not(choice), true);
    NotCons(false, choice);
    ReversedSnoc(truncated, lines[i - 1]);
  }

  lemma PackBegins(lines: seq<Line>, budget: nat)
    ensures PackedSoFar(lines, |lines|, [], budget, budget, [], [])
  {
    assert lines[..|lines|] == lines && Greedy(lines, budget) == Greedy(lines, budget) + [];
  }

  lemma PackEnds(lines: seq<Line>, choice: seq<bool>, budget: nat, remaining: nat, accepted: seq<Line>, truncated: seq<Line>)
    requires PackedSoFar(lines, 0, choice, budget, remaining, accepted, truncated)
    ensures Reversed(accepted) == Picked(lines, Greedy(lines, budget))
    ensures Reversed(truncated) == Picked(lines, Not(Greedy(lines, budget)))
  {
    assert Greedy(lines, budget) == choice && lines[0..] == lines;
  }

  method Pack(lines: seq<Line>, budget: nat) returns (accepted: seq<Line>, truncated: seq<Line>)
    ensures accepted == Picked(lines, Greedy(lines, budget))
    ensures truncated == Picked(lines, Not(Greedy(lines, budget)))
  {
    accepted, truncated := [], [];
    var remaining: nat := budget;
    ghost var choice := [];
    var i := |lines|;
    PackBegins(lines, budget);
    while i > 0
      invariant 0 <= i <= |lines| && PackedSoFar(lines, i, choice, budget, remaining, accepted, truncated)
    {
      var line := lines[i - 1];
      if Cost(line) <= remaining {
        PackTakes(lines, i, choice, budget, remaining, accepted, truncated);
        accepted := accepted + [line];
        remaining := remaining - Cost(line);
        choice := [true] + choice;
      } else {
        PackDrops(lines, i, choice, budget, remaining, accepted, truncated);
        truncated := truncated + [line];
        choice := [false] + choice;
      }
      i := i - 1;
    }
    PackEnds(lines, choice, budget, remaining, accepted, truncated);
    accepted := Reversed(accepted);
    truncated := Reversed(truncated);
  }

  // ----- the builders -----

  function Texts(lines: seq<Line>): (r: seq<string>)
    ensures |r| == |lines|
  {
    if lines == [] then [] else [lines[0].text] + Texts(lines[1..])
  }

  function IncludedIds(lines: seq<Line>): seq<string> {
    if lines == [] then [] else lines[0].ids + IncludedIds(lines[1..])
  }

  lemma {:induction false} TextsCost(lines: seq<Line>, question: string)
    ensures TokenSum(Texts(lines) + [question]) == CostSum(lines) + CountTokens(question)
  {
    if lines == [] {
      assert Texts(lines) + [question] == [question];
    } else {
      TextsCost(lines[1..], question);
      assert Texts(lines)[1..] == Texts(lines[1..]);
      assert (Texts(lines) + [question])[1..] == Texts(lines[1..]) + [question];
    }
  }

  /** `_fit_question_only`: the question's first tokens when it does not fit. */
  function FitQuestionOnly(questionId: string, question: string, maxTokens: nat): Built {
    var tokens := Split(question);
    if |tokens| <= maxTokens then Built(question, CountTokens(question), [], [])
    else
      var prompt := Join(tokens[..maxTokens], " ");
      Built(prompt, CountTokens(prompt), [], [Truncation("question", questionId, |tokens| - maxTokens, maxTokens)])
  }

  lemma FitQuestionFits(questionId: string, question: string, maxTokens: nat)
    ensures var b := FitQuestionOnly(questionId, question, maxTokens);
            var n := CountTokens(question);
            b.inputTokens == (if n <= maxTokens then n else maxTokens)
            && b.inputTokens == CountTokens(b.prompt)
            && (n > maxTokens ==> Split(b.prompt) == Split(question)[..maxTokens]
                                  && b.truncations[0].tokens + b.inputTokens == n)
  {
    var tokens := Split(question);
    WordsAreTokens(question, "");
    if |tokens| > maxTokens {
      SplitUndoesJoin(tokens[..maxTokens]);
    }
  }

  /** The prompt made of chosen lines and the question. */
  function Assembled(question: string, lines: seq<Line>, maxTokens: nat, choice: seq<bool>): Built
    requires |choice| == |lines|
  {
    var prompt := Join(Texts(Picked(lines, choice)) + [question], "\n");
    Built(prompt, CountTokens(prompt), IncludedIds(Picked(lines, choice)), Decisions(Picked(lines, Not(choice)), maxTokens))
  }

  /** The tokens counted in the prompt are those of the question and of the chosen lines, so a choice that fits the
      budget keeps the prompt within the limit. */
  lemma AssembledTokens(question: string, lines: seq<Line>, maxTokens: nat, choice: seq<bool>)
    requires |choice| == |lines|
    ensures Assembled(question, lines, maxTokens, choice).inputTokens == CountTokens(question) + Weight(lines, choice)
  {
    LinesAdd(Texts(Picked(lines, choice)) + [question]);
    TextsCost(Picked(lines, choice), question);
  }

  /** The limited builders after the history has been put into lines. */
  function Result(questionId: string, question: string, lines: seq<Line>, maxTokens: nat): Built {
    if CountTokens(question) > maxTokens then FitQuestionOnly(questionId, question, maxTokens)
    else Assembled(question, lines, maxTokens, Greedy(lines, maxTokens - CountTokens(question)))
  }

  /** The reported tokens are those of the prompt and never exceed the limit. */
  lemma ResultFits(questionId: string, question: string, lines: seq<Line>, maxTokens: nat)
    ensures var b := Result(questionId, question, lines, maxTokens);
            b.inputTokens == CountTokens(b.prompt) <= maxTokens
  {
    if CountTokens(question) > maxTokens {
      FitQuestionFits(questionId, question, maxTokens);
    } else {
      var budget := maxTokens - CountTokens(question);
      AssembledTokens(question, lines, maxTokens, Greedy(lines, budget));
      GreedyFits(lines, budget);
    }
  }

  /** Whenever the question fits, the result is the one assembled from the best choice. */
  lemma ResultIsBest(questionId: string, question: string, lines: seq<Line>, maxTokens: nat, choice: seq<bool>)
    requires CountTokens(question) <= maxTokens && Best(lines, maxTokens - CountTokens(question), choice)
    ensures Result(questionId, question, lines, maxTokens) == Assembled(question, lines, maxTokens, choice)
  {
    GreedyIsBest(lines, maxTokens - CountTokens(question), choice);
  }

  // ----- without a limit -----

  function Everything(n: nat): (choice: seq<bool>)
    ensures |choice| == n
  {
    if n == 0 then [] else [true] + Everything(n - 1)
  }

  lemma {:induction false} EverythingPicked(lines: seq<Line>)
    ensures Picked(lines, Everything(|lines|)) == lines
    ensures Picked(lines, Not(Everything(|lines|))) == []
  {
    if lines != [] {
      EverythingPicked(lines[1..]);
      var all := Everything(|lines|);
      assert all[1..] == Everything(|lines[1..]|) && all[0];
      NotTail(all);
      assert lines == [lines[0]] + lines[1..];
    }
  }

  /** `_build_unlimited`: the prompt of all lines, nothing truncated. */
  function Unlimited(question: string, lines: seq<Line>, maxTokens: nat): Built {
    Assembled(question, lines, maxTokens, Everything(|lines|))
  }

  lemma UnlimitedHasAll(question: string, lines: seq<Line>, maxTokens: nat)
    ensures var b := Unlimited(question, lines, maxTokens);
            && b.prompt == Join(Texts(lines) + [question], "\n") && b.included == IncludedIds(lines)
            && b.truncations == [] && b.inputTokens == CountTokens(b.prompt) == CountTokens(question) + CostSum(lines)
  {
    EverythingPicked(lines);
    AssembledTokens(question, lines, maxTokens, Everything(|lines|));
  }

  lemma {:induction false} EverythingBeats(other: seq<bool>)
    ensures LexLeq(other, Everything(|other|))
  {
    if other != [] {
      var n := |other| - 1;
      EverythingBeats(other[..n]);
      EverythingSnoc(n);
      LexSnoc(other[..n], Everything(n), other[n], true);
      assert other == other[..n] + [other[n]];
    }
  }

  lemma {:induction false} EverythingSnoc(n: nat)
    ensures Everything(n + 1) == Everything(n) + [true]
  {
    if n > 0 {
      EverythingSnoc(n - 1);
    }
  }

  lemma EverythingIsBest(lines: seq<Line>, budget: nat)
    requires CostSum(lines) <= budget
    ensures Best(lines, budget, Everything(|lines|))
  {
    EverythingPicked(lines);
    forall other: seq<bool> | |other| == |lines| && Weight(lines, other) <= budget
      ensures LexLeq(other, Everything(|lines|))
    {
      EverythingBeats(other);
    }
  }

  /** The limited result is the unlimited one exactly when everything fits the limit. */
  lemma LimitedIsUnlimited(questionId: string, question: string, lines: seq<Line>, maxTokens: nat)
    ensures Result(questionId, question, lines, maxTokens) == Unlimited(question, lines, maxTokens)
       <==> CountTokens(question) + CostSum(lines) <= maxTokens
  {
    UnlimitedHasAll(question, lines, maxTokens);
    ResultFits(questionId, question, lines, maxTokens);
    if CountTokens(question) + CostSum(lines) <= maxTokens {
      EverythingIsBest(lines, maxTokens - CountTokens(question));
      ResultIsBest(questionId, question, lines, maxTokens, Everything(|lines|));
    }
  }

  method BuildUnlimited(question: string, lines: seq<Line>, ghost maxTokens: nat) returns (b: Built)
    ensures b == Unlimited(question, lines, maxTokens)
  {
    UnlimitedHasAll(question, lines, maxTokens);
    var prompt := Join(Texts(lines) + [question], "\n");
    b := Built(prompt, CountTokens(prompt), IncludedIds(lines), []);
  }

  method Build(questionId: string, question: string, lines: seq<Line>, maxTokens: nat) returns (b: Built)
    ensures b == Result(questionId, question, lines, maxTokens)
    ensures b.inputTokens == CountTokens(b.prompt) <= maxTokens
  {
    ResultFits(questionId, question, lines, maxTokens);
    var questionTokens := CountTokens(question);
    if questionTokens > maxTokens {
      return FitQuestionOnly(questionId, question, maxTokens);
    }
    var accepted, truncated := Pack(lines, maxTokens - questionTokens);
    var prompt := Join(Texts(accepted) + [question], "\n");
    b := Built(prompt, CountTokens(prompt), IncludedIds(accepted), Decisions(truncated, maxTokens));
  }
}
