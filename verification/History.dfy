/** The history as lines, and the two limited context builders over it. */
module History {
  import opened Prelude
  import opened PyText
  import opened Sorting
  import opened Packing

  /** A time-zone aware time: compared as an instant, written as `isoformat()` writes it. */
  datatype Stamp = Stamp(instant: int, iso: string)

  datatype MaybeStamp = NoStamp | At(stamp: Stamp)

  datatype Turn = Turn(id: string, stamp: MaybeStamp, speaker: string, content: string)

  datatype Session = Session(id: string, stamp: Stamp, turns: seq<Turn>)

  datatype Question = Question(id: string, text: string)

  /** A turn with its session's time where it has none. */
  datatype Spoken = Spoken(when: Stamp, turn: Turn)

  function TimedTurn(session: Session, t: Turn): Spoken {
    Spoken(if t.stamp.At? then t.stamp.stamp else session.stamp, t)
  }

  function Timed(session: Session, turns: seq<Turn>): (r: seq<Spoken>)
    ensures |r| == |turns|
  {
    if turns == [] then [] else [TimedTurn(session, turns[0])] + Timed(session, turns[1..])
  }

  predicate KeyLeq(a: int, x: string, b: int, y: string) {
    a < b || (a == b && StringLeq(x, y))
  }

  predicate SessionLeq(a: Session, b: Session) {
    KeyLeq(a.stamp.instant, a.id, b.stamp.instant, b.id)
  }

  predicate SpokenLeq(a: Spoken, b: Spoken) {
    KeyLeq(a.when.instant, a.turn.id, b.when.instant, b.turn.id)
  }

  function SortedTurns(session: Session): seq<Spoken> {
    Sort(Timed(session, session.turns), SpokenLeq)
  }

  // ----- full context: one line a turn -----

  function TurnLine(session: Session, s: Spoken): Line {
    Line("turn", s.turn.id, session.id + " " + s.when.iso + " " + s.turn.speaker + ": " + s.turn.content, [s.turn.id])
  }

  function TurnLines(session: Session, turns: seq<Spoken>): seq<Line> {
    if turns == [] then [] else TurnLines(session, turns[..|turns| - 1]) + [TurnLine(session, turns[|turns| - 1])]
  }

  function LinesOf(sessions: seq<Session>): seq<Line> {
    if sessions == [] then []
    else
      var last := sessions[|sessions| - 1];
      LinesOf(sessions[..|sessions| - 1]) + TurnLines(last, SortedTurns(last))
  }

  method HistoryLines(history: seq<Session>) returns (lines: seq<Line>)
    ensures lines == LinesOf(Sort(history, SessionLeq))
  {
    lines := [];
    var sessions := Sort(history, SessionLeq);
    for i := 0 to |sessions|
      invariant lines == LinesOf(sessions[..i])
    {
      assert sessions[..i + 1][..i] == sessions[..i];
      lines := AppendTurns(lines, sessions[i]);
    }
    assert sessions[..|sessions|] == sessions;
  }

  method AppendTurns(before: seq<Line>, session: Session) returns (lines: seq<Line>)
    ensures lines == before + TurnLines(session, SortedTurns(session))
  {
    lines := before;
    var turns := SortedTurns(session);
    for j := 0 to |turns|
      invariant lines == before + TurnLines(session, turns[..j])
    {
      assert turns[..j + 1][..j] == turns[..j];
      lines := lines + [TurnLine(session, turns[j])];
    }
    assert turns[..|turns|] == turns;
  }

  // ----- session summaries: one line a session -----

  function Contents(turns: seq<Spoken>): seq<string> {
    if turns == [] then [] else [turns[0].turn.content] + Contents(turns[1..])
  }

  function TurnIds(turns: seq<Spoken>): seq<string> {
    if turns == [] then [] else [turns[0].turn.id] + TurnIds(turns[1..])
  }

  function SummaryLine(session: Session): Line {
    var turns := SortedTurns(session);
    Line("session", session.id, session.id + " summary: " + Join(Contents(turns), "; "), TurnIds(turns))
  }

  function SummariesOf(sessions: seq<Session>): seq<Line> {
    if sessions == [] then []
    else SummariesOf(sessions[..|sessions| - 1]) + [SummaryLine(sessions[|sessions| - 1])]
  }

  method SessionSummaryLines(history: seq<Session>) returns (lines: seq<Line>)
    ensures lines == SummariesOf(Sort(history, SessionLeq))
  {
    lines := [];
    var sessions := Sort(history, SessionLeq);
    for i := 0 to |sessions|
      invariant lines == SummariesOf(sessions[..i])
    {
      assert sessions[..i + 1][..i] == sessions[..i];
      lines := lines + [SummaryLine(sessions[i])];
    }
    assert sessions[..|sessions|] == sessions;
  }

  // ----- the builders -----

  function QuestionLine(question: Question): string {
    "Question: " + question.text
  }

  class FullContextBuilder {
    const maxInputTokens: nat
    const unlimited: bool

    constructor (maxInputTokens: nat, unlimited: bool)
      ensures this.maxInputTokens == maxInputTokens && this.unlimited == unlimited
    {
      this.maxInputTokens := maxInputTokens;
      this.unlimited := unlimited;
    }

    method BuildContext(question: Question, history: seq<Session>) returns (b: Built)
      ensures b.inputTokens == CountTokens(b.prompt)
      ensures var lines := LinesOf(Sort(history, SessionLeq));
              if unlimited then b == Unlimited(QuestionLine(question), lines, maxInputTokens)
              else b == Result(question.id, QuestionLine(question), lines, maxInputTokens) && b.inputTokens <= maxInputTokens
    {
      var lines := HistoryLines(history);
      if unlimited {
        UnlimitedHasAll(QuestionLine(question), lines, maxInputTokens);
        b := BuildUnlimited(QuestionLine(question), lines, maxInputTokens);
      } else {
        b := Build(question.id, QuestionLine(question), lines, maxInputTokens);
      }
    }
  }

  class SessionSummaryBuilder {
    const maxInputTokens: nat

    constructor (maxInputTokens: nat)
      ensures this.maxInputTokens == maxInputTokens
    {
      this.maxInputTokens := maxInputTokens;
    }

    method BuildContext(question: Question, history: seq<Session>) returns (b: Built)
      ensures b == Result(question.id, QuestionLine(question), SummariesOf(Sort(history, SessionLeq)), maxInputTokens)
      ensures b.inputTokens == CountTokens(b.prompt) <= maxInputTokens
    {
      var lines := SessionSummaryLines(history);
      b := Build(question.id, QuestionLine(question), lines, maxInputTokens);
    }
  }

  // ----- the order of the input -----

  lemma KeyPreorder()
    ensures Preorder(SessionLeq) && Preorder(SpokenLeq)
  {
    StringOrder();
  }

  /** Sessions, and the turns within each, are listed by time and then by id, none lost and none invented. */
  lemma Chronological(history: seq<Session>, session: Session)
    ensures Sorted(Sort(history, SessionLeq), SessionLeq) && multiset(Sort(history, SessionLeq)) == multiset(history)
    ensures Sorted(SortedTurns(session), SpokenLeq)
    ensures multiset(SortedTurns(session)) == multiset(Timed(session, session.turns))
  {
    KeyPreorder();
    SortSorts(history, SessionLeq);
    SortSorts(Timed(session, session.turns), SpokenLeq);
  }

  /** When a turn was said: at its own time, or at its session's. */
  function SaidAt(session: Session, t: Turn): Stamp {
    match t.stamp
    case At(stamp) => stamp
    case NoStamp => session.stamp
  }

  function TurnOf(s: Spoken): Turn {
    s.turn
  }

  /** Earlier sessions come first, and sessions of one instant by id. */
  lemma SessionsInOrder(history: seq<Session>, i: nat, j: nat)
    requires i < j < |Sort(history, SessionLeq)|
    ensures var s := Sort(history, SessionLeq);
            && s[i].stamp.instant <= s[j].stamp.instant
            && (s[i].stamp.instant == s[j].stamp.instant ==> StringLeq(s[i].id, s[j].id))
  {
    Chronological(history, Session("", Stamp(0, ""), []));
    assert SessionLeq(Sort(history, SessionLeq)[i], Sort(history, SessionLeq)[j]);
  }

  lemma TimedAt(session: Session, turns: seq<Turn>, k: nat)
    requires k < |turns|
    ensures Timed(session, turns)[k] == Spoken(SaidAt(session, turns[k]), turns[k])
  {
    TimedIsMapped(session, turns);
  }

  lemma TurnsTimed(session: Session, k: nat)
    requires k < |SortedTurns(session)|
    ensures SortedTurns(session)[k].when == SaidAt(session, SortedTurns(session)[k].turn)
  {
    var turns := SortedTurns(session);
    Chronological([], session);
    assert turns[k] in multiset(turns);
    assert turns[k] in Timed(session, session.turns);
    var i :| 0 <= i < |session.turns| && Timed(session, session.turns)[i] == turns[k];
    TimedAt(session, session.turns, i);
  }

  /** Every turn of a session is listed once, the earlier said first, and turns of one instant by id. */
  lemma TurnsInOrder(session: Session, i: nat, j: nat)
    requires i < j < |SortedTurns(session)|
    ensures var a, b := SortedTurns(session)[i], SortedTurns(session)[j];
            && a.when == SaidAt(session, a.turn) && b.when == SaidAt(session, b.turn)
            && a.when.instant <= b.when.instant
            && (a.when.instant == b.when.instant ==> StringLeq(a.turn.id, b.turn.id))
  {
    TurnsTimed(session, i);
    TurnsTimed(session, j);
    Chronological([], session);
    assert SpokenLeq(SortedTurns(session)[i], SortedTurns(session)[j]);
  }

  lemma TurnsComplete(session: Session)
    ensures multiset(Mapped(SortedTurns(session), TurnOf)) == multiset(session.turns)
  {
    var timed := Timed(session, session.turns);
    Chronological([], session);
    MappedPermutation(timed, SortedTurns(session), TurnOf);
    forall k | 0 <= k < |session.turns| ensures Mapped(timed, TurnOf)[k] == session.turns[k] {
      TimedAt(session, session.turns, k);
    }
    assert Mapped(timed, TurnOf) == session.turns;
  }

  lemma {:induction false} IncludedJoin(a: seq<Line>, b: seq<Line>)
    ensures IncludedIds(a + b) == IncludedIds(a) + IncludedIds(b)
  {
    if a == [] {
      assert a + b == b;
    } else {
      assert (a + b)[1..] == a[1..] + b;
      IncludedJoin(a[1..], b);
      Associate(a[0].ids, IncludedIds(a[1..]), IncludedIds(b));
    }
  }

  lemma OneLine(line: Line)
    ensures IncludedIds([line]) == line.ids
  {
    assert IncludedIds([line]) == line.ids + IncludedIds([]);
  }

  lemma {:induction false} TurnIdsSnoc(turns: seq<Spoken>, t: Spoken)
    ensures TurnIds(turns + [t]) == TurnIds(turns) + [t.turn.id]
  {
    if turns == [] {
      assert turns + [t] == [t];
    } else {
      assert (turns + [t])[1..] == turns[1..] + [t];
      TurnIdsSnoc(turns[1..], t);
      Associate([turns[0].turn.id], TurnIds(turns[1..]), [t.turn.id]);
    }
  }

  lemma {:induction false} TurnLineIds(session: Session, turns: seq<Spoken>)
    ensures IncludedIds(TurnLines(session, turns)) == TurnIds(turns)
  {
    if turns != [] {
      var init, last := turns[..|turns| - 1], turns[|turns| - 1];
      TurnLineIds(session, init);
      OneLine(TurnLine(session, last));
      IncludedJoin(TurnLines(session, init), [TurnLine(session, last)]);
      TurnIdsSnoc(init, last);
      assert turns == init + [last];
    }
  }

  /** Both ways of writing the history stand for the same turns in the same order. */
  lemma {:induction false} SameTurns(sessions: seq<Session>)
    ensures IncludedIds(LinesOf(sessions)) == IncludedIds(SummariesOf(sessions))
  {
    if sessions != [] {
      var init, last := sessions[..|sessions| - 1], sessions[|sessions| - 1];
      SameTurns(init);
      TurnLineIds(last, SortedTurns(last));
      OneLine(SummaryLine(last));
      IncludedJoin(LinesOf(init), TurnLines(last, SortedTurns(last)));
      IncludedJoin(SummariesOf(init), [SummaryLine(last)]);
    }
  }

  /** Shuffling the sessions of a history without ties changes no line, hence no prompt. */
  lemma SessionsReordered(a: seq<Session>, b: seq<Session>)
    requires multiset(a) == multiset(b) && TieFree(a, SessionLeq)
    ensures LinesOf(Sort(a, SessionLeq)) == LinesOf(Sort(b, SessionLeq))
    ensures SummariesOf(Sort(a, SessionLeq)) == SummariesOf(Sort(b, SessionLeq))
  {
    KeyPreorder();
    SortPermutation(a, b, SessionLeq);
  }

  lemma {:induction false} TimedPermutation(session: Session, a: seq<Turn>, b: seq<Turn>)
    requires multiset(a) == multiset(b)
    ensures multiset(Timed(session, a)) == multiset(Timed(session, b))
  {
    TimedIsMapped(session, a);
    TimedIsMapped(session, b);
    MappedPermutation(a, b, t => TimedTurn(session, t));
  }

  lemma {:induction false} TimedIsMapped(session: Session, a: seq<Turn>)
    ensures Timed(session, a) == Mapped(a, t => TimedTurn(session, t))
  {
    if a != [] {
      TimedIsMapped(session, a[1..]);
      forall k | 0 <= k < |a| ensures Timed(session, a)[k] == TimedTurn(session, a[k]) {
        if k > 0 {
          assert Timed(session, a)[k] == Timed(session, a[1..])[k - 1];
        }
      }
    }
  }

  /** Shuffling the turns of a session without ties does not change their order in the lines. */
  lemma TurnsReordered(session: Session, turns: seq<Turn>)
    requires multiset(turns) == multiset(session.turns) && TieFree(Timed(session, session.turns), SpokenLeq)
    ensures SortedTurns(session) == SortedTurns(session.(turns := turns))
    ensures TurnLines(session, SortedTurns(session))
         == TurnLines(session.(turns := turns), SortedTurns(session.(turns := turns)))
    ensures SummaryLine(session) == SummaryLine(session.(turns := turns))
  {
    KeyPreorder();
    TimedPermutation(session, session.turns, turns);
    SameTiming(session, turns, turns);
    SortPermutation(Timed(session, session.turns), Timed(session, turns), SpokenLeq);
    SameTurnLines(session, session.(turns := turns), SortedTurns(session));
  }

  lemma {:induction false} SameTiming(session: Session, turns: seq<Turn>, part: seq<Turn>)
    ensures Timed(session, part) == Timed(session.(turns := turns), part)
  {
    if part != [] {
      SameTiming(session, turns, part[1..]);
    }
  }

  lemma {:induction false} SameTurnLines(a: Session, b: Session, turns: seq<Spoken>)
    requires a.id == b.id
    ensures TurnLines(a, turns) == TurnLines(b, turns)
  {
    if turns != [] {
      SameTurnLines(a, b, turns[..|turns| - 1]);
    }
  }
}
