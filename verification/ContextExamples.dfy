/** The texts of the context builders, on one small history. */
module ContextExamples {
  import opened History
  import opened Packing
  import opened PyText
  import opened Sorting

  /** The session listed first is the later one; its turn was said before the session's time. */
  const LATE := Session("a", Stamp(3, "t3"), [Turn("x", At(Stamp(2, "t2")), "u", "hi")])
  const EARLY := Session("b", Stamp(1, "t1"), [Turn("z", NoStamp, "v", "so"), Turn("y", NoStamp, "w", "yo")])
  const WHY := Question("q", "why?")

  lemma Ordered()
    ensures Sort([LATE, EARLY], SessionLeq) == [EARLY, LATE]
  {
    assert [LATE, EARLY][1..] == [EARLY] && [EARLY][1..] == [];
    assert Sort([EARLY], SessionLeq) == [EARLY];
    assert Insert(LATE, [EARLY], SessionLeq) == [EARLY] + Insert(LATE, [], SessionLeq);
  }

  lemma Turns()
    ensures SortedTurns(LATE) == [Spoken(Stamp(2, "t2"), LATE.turns[0])]
    ensures SortedTurns(EARLY) == [Spoken(Stamp(1, "t1"), EARLY.turns[1]), Spoken(Stamp(1, "t1"), EARLY.turns[0])]
  {
    var z, y := Spoken(Stamp(1, "t1"), EARLY.turns[0]), Spoken(Stamp(1, "t1"), EARLY.turns[1]);
    assert LATE.turns[1..] == [] && EARLY.turns[1..] == [EARLY.turns[1]] && EARLY.turns[1..][1..] == [];
    assert Timed(EARLY, EARLY.turns[1..]) == [y];
    assert Timed(EARLY, EARLY.turns) == [z, y];
    assert [z, y][1..] == [y] && [y][1..] == [];
    assert Sort([y], SpokenLeq) == [y];
    assert !StringLeq("z", "y");
    assert Insert(z, [y], SpokenLeq) == [y] + Insert(z, [], SpokenLeq);
    assert Timed(LATE, LATE.turns) == [Spoken(Stamp(2, "t2"), LATE.turns[0])];
  }

  const LINE_X := Line("turn", "x", "a t2 u: hi", ["x"])
  const LINE_Y := Line("turn", "y", "b t1 w: yo", ["y"])
  const LINE_Z := Line("turn", "z", "b t1 v: so", ["z"])

  /** One line a turn: session, time, speaker and content. */
  lemma TurnLinesAre()
    ensures LinesOf(Sort([LATE, EARLY], SessionLeq)) == [LINE_Y, LINE_Z, LINE_X]
  {
    Ordered();
    Turns();
    var y, z, x := SortedTurns(EARLY)[0], SortedTurns(EARLY)[1], SortedTurns(LATE)[0];
    assert TurnLine(EARLY, y) == LINE_Y && TurnLine(EARLY, z) == LINE_Z && TurnLine(LATE, x) == LINE_X;
    assert [y, z][..1] == [y] && [y][..0] == [] && [x][..0] == [];
    assert TurnLines(EARLY, [y]) == [LINE_Y];
    assert TurnLines(EARLY, [y, z]) == [LINE_Y] + [LINE_Z];
    assert TurnLines(LATE, [x]) == [LINE_X];
    assert [EARLY, LATE][..1] == [EARLY] && [EARLY][..0] == [];
    assert LinesOf([EARLY]) == [LINE_Y, LINE_Z];
  }

  /** One line a session: its id and the contents of its turns. */
  lemma SummaryLinesAre()
    ensures SummariesOf(Sort([LATE, EARLY], SessionLeq))
         == [Line("session", "b", "b summary: yo; so", ["y", "z"]), Line("session", "a", "a summary: hi", ["x"])]
  {
    Ordered();
    Turns();
    var y, z, x := SortedTurns(EARLY)[0], SortedTurns(EARLY)[1], SortedTurns(LATE)[0];
    assert [y, z][1..] == [z] && [z][1..] == [] && [x][1..] == [];
    assert Contents([z]) == ["so"] && Contents([y, z]) == ["yo", "so"] && Contents([x]) == ["hi"];
    assert TurnIds([z]) == ["z"] && TurnIds([y, z]) == ["y", "z"] && TurnIds([x]) == ["x"];
    assert ["yo", "so"][1..] == ["so"];
    assert Join(["so"], "; ") == "so" && Join(["yo", "so"], "; ") == "yo; so" && Join(["hi"], "; ") == "hi";
    assert SummaryLine(EARLY) == Line("session", "b", "b summary: yo; so", ["y", "z"]);
    assert SummaryLine(LATE) == Line("session", "a", "a summary: hi", ["x"]);
    assert [EARLY, LATE][..1] == [EARLY] && [EARLY][..0] == [];
    assert SummariesOf([EARLY]) == [SummaryLine(EARLY)];
  }

  lemma FourTokens(a: string, b: string, c: string, d: string)
    requires AreTokens([a, b, c, d])
    ensures CountTokens(a + " " + b + " " + c + " " + d) == 4
  {
    var ts := [a, b, c, d];
    SplitUndoesJoin(ts);
    assert ts[1..] == [b, c, d] && [b, c, d][1..] == [c, d] && [c, d][1..] == [d];
    assert Join([c, d], " ") == c + " " + d;
    assert Join([b, c, d], " ") == b + " " + (c + " " + d);
    assert Join(ts, " ") == a + " " + b + " " + c + " " + d;
  }

  lemma CostX()
    ensures Cost(LINE_X) == 4
  {
    FourTokens("a", "t2", "u:", "hi");
    assert "a" + " " + "t2" + " " + "u:" + " " + "hi" == "a t2 u: hi";
  }

  lemma CostY()
    ensures Cost(LINE_Y) == 4
  {
    FourTokens("b", "t1", "w:", "yo");
    assert "b" + " " + "t1" + " " + "w:" + " " + "yo" == "b t1 w: yo";
  }

  lemma CostZ()
    ensures Cost(LINE_Z) == 4
  {
    FourTokens("b", "t1", "v:", "so");
    assert "b" + " " + "t1" + " " + "v:" + " " + "so" == "b t1 v: so";
  }

  lemma Costs()
    ensures Cost(LINE_X) == Cost(LINE_Y) == Cost(LINE_Z) == 4
  {
    CostX();
    CostY();
    CostZ();
  }

  lemma QuestionSplit()
    ensures QuestionLine(WHY) == "Question: why?" && Split(QuestionLine(WHY)) == ["Question:", "why?"]
  {
    var ts := ["Question:", "why?"];
    SplitUndoesJoin(ts);
    assert ts[1..] == ["why?"];
    assert Join(ts, " ") == "Question: why?";
  }

  lemma Chosen()
    ensures Greedy([LINE_Y, LINE_Z, LINE_X], 9) == [false, true, true]
  {
    Costs();
    var lines := [LINE_Y, LINE_Z, LINE_X];
    assert lines[..2] == [LINE_Y, LINE_Z] && [LINE_Y, LINE_Z][..1] == [LINE_Y] && [LINE_Y][..0] == [];
    assert Greedy([LINE_Y], 1) == [] + [false];
    assert Greedy([LINE_Y, LINE_Z], 5) == [false] + [true];
    assert Greedy(lines, 9) == [false, true] + [true];
  }

  lemma Shown()
    ensures Texts([LINE_Z, LINE_X]) == ["b t1 v: so", "a t2 u: hi"] && IncludedIds([LINE_Z, LINE_X]) == ["z", "x"]
    ensures CostSum([LINE_Z, LINE_X]) == 8
  {
    Costs();
    assert [LINE_Z, LINE_X][1..] == [LINE_X] && [LINE_X][1..] == [];
    assert Texts([LINE_X]) == ["a t2 u: hi"] && IncludedIds([LINE_X]) == ["x"] && CostSum([LINE_X]) == 4;
  }

  lemma Reported()
    ensures Decisions([LINE_Y], 11) == [Truncation("turn", "y", 4, 11)]
  {
    Costs();
  }

  /** Room for eleven tokens: the two newest turns are kept, and the oldest is reported with its tokens. */
  lemma PackedPrompt()
    ensures Result("q", QuestionLine(WHY), [LINE_Y, LINE_Z, LINE_X], 11)
         == Built("b t1 v: so\na t2 u: hi\nQuestion: why?", 10, ["z", "x"], [Truncation("turn", "y", 4, 11)])
  {
    QuestionSplit();
    Chosen();
    PickedLines();
    Shown();
    Reported();
    JoinedPrompt();
    assert ["b t1 v: so", "a t2 u: hi"] + ["Question: why?"] == ["b t1 v: so", "a t2 u: hi", "Question: why?"];
    AssembledTokens(QuestionLine(WHY), [LINE_Y, LINE_Z, LINE_X], 11, [false, true, true]);
  }

  lemma PickedLines()
    ensures Picked([LINE_Y, LINE_Z, LINE_X], [false, true, true]) == [LINE_Z, LINE_X]
    ensures Picked([LINE_Y, LINE_Z, LINE_X], Not([false, true, true])) == [LINE_Y]
  {
    var lines := [LINE_Y, LINE_Z, LINE_X];
    assert lines[1..] == [LINE_Z, LINE_X] && [LINE_Z, LINE_X][1..] == [LINE_X] && [LINE_X][1..] == [];
    assert [false, true, true][1..] == [true, true] && [true, true][1..] == [true] && [true][1..] == [];
    assert Picked([LINE_X], [true]) == [LINE_X];
    assert Picked([LINE_Z, LINE_X], [true, true]) == [LINE_Z, LINE_X];
    assert Not([false, true, true]) == [true, false, false];
    assert [true, false, false][1..] == [false, false] && [false, false][1..] == [false] && [false][1..] == [];
    assert Picked([LINE_X], [false]) == [];
    assert Picked([LINE_Z, LINE_X], [false, false]) == [];
  }

  lemma JoinedPrompt()
    ensures Join(["b t1 v: so", "a t2 u: hi", "Question: why?"], "\n") == "b t1 v: so\na t2 u: hi\nQuestion: why?"
  {
    var parts := ["b t1 v: so", "a t2 u: hi", "Question: why?"];
    assert parts[1..] == ["a t2 u: hi", "Question: why?"] && ["a t2 u: hi", "Question: why?"][1..] == ["Question: why?"];
    assert Join(["a t2 u: hi", "Question: why?"], "\n") == "a t2 u: hi" + "\n" + "Question: why?";
  }

  /** Room for one token: the question is cut, and the rest of it reported. */
  lemma CutQuestion(lines: seq<Line>)
    ensures Result("q", QuestionLine(WHY), lines, 1) == Built("Question:", 1, [], [Truncation("question", "q", 1, 1)])
  {
    QuestionSplit();
    assert ["Question:", "why?"][..1] == ["Question:"];
    SplitUndoesJoin(["Question:"]);
  }
}
