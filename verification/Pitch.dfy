/** A pitch session (`pitchsim/service.py`). Each request is one transaction: a request that raises leaves the session
    as it was. What the model answers is a parameter of `Deliberate`. */
module Pitch {
  import opened Options
  import opened Orchestrator

  datatype Status = InProgress | Finished | GivenUp

  datatype Turn =
    | Welcome
    | Narration(text: string)
    | Question(actor: string, axis: string, angle: string)
    | Answer(text: string)
    | Exchange(actor: string)
    | Verdict(actor: string, text: string)

  /** The columns of a session, its orchestration state and its timeline. */
  datatype Row = Row(
    phase: Phase,
    status: Status,
    quota: int,
    personas: seq<Persona>,
    convictions: map<string, int>,
    order: seq<string>,
    index: nat,
    askedCount: nat,
    asked: map<string, seq<string>>,
    history: map<string, seq<string>>,
    turns: seq<Turn>)

  predicate WellFormed(s: Row) {
    forall n | n in s.order :: HasName(s.personas, n)
  }

  function Opened(personas: seq<Persona>, quota: int): Row {
    Row(Briefing, InProgress, quota, personas, map[], [], 0, 0, map[], map[], [Welcome])
  }

  // ---- The questions -----------------------------------------------------------------------------------------

  /** The question the judge at the microphone would ask now. */
  function NextQuestion(env: Env, s: Row): (q: Option<Turn>)
    requires WellFormed(s)
    ensures q.Some? ==> q.value.Question?
    ensures q.Some? ==> s.index < |s.order| && q.value.actor == s.order[s.index]
                        && q.value.axis == Named(s.personas, q.value.actor).obsession
  {
    if s.index >= |s.order| then None
    else
      var name := s.order[s.index];
      var axis := Named(s.personas, name).obsession;
      var angle := PickAngle(Get(env.pools, axis), Get(s.asked, axis), Get(s.history, axis),
                             env.seed(s.index, s.askedCount, axis));
      if angle.None? then None else Some(Question(name, axis, angle.value))
  }

  function Asked(s: Row, q: Turn): Row
    requires q.Question?
  {
    s.(asked := s.asked[q.axis := Get(s.asked, q.axis) + [q.angle]], askedCount := s.askedCount + 1,
       turns := s.turns + [q])
  }

  /** The place after `i` of the first judge who has something to ask, or a place past the last judge. */
  function Landing(env: Env, s: Row, i: nat): (k: nat)
    requires WellFormed(s)
    ensures k > i
    decreases |s.order| - i
  {
    if i + 1 >= |s.order| || Asks(env, s, i + 1) then i + 1 else Landing(env, s, i + 1)
  }

  /** The judge at place `k` has a question to open with. */
  predicate Asks(env: Env, s: Row, k: nat)
    requires WellFormed(s)
  {
    NextQuestion(env, s.(index := k, askedCount := 0)).Some?
  }

  lemma {:induction false} LandingAsks(env: Env, s: Row, i: nat)
    requires WellFormed(s)
    ensures Landing(env, s, i) < |s.order| ==> Asks(env, s, Landing(env, s, i))
    decreases |s.order| - i
  {
    if !(i + 1 >= |s.order| || Asks(env, s, i + 1)) {
      LandingAsks(env, s, i + 1);
    }
  }

  /** The microphone goes to the next judge who has something to ask; with nobody left the free round opens. */
  function Advanced(env: Env, s: Row): Row
    requires WellFormed(s)
  {
    var k := Landing(env, s, s.index);
    var t := s.(index := k, askedCount := 0);
    LandingAsks(env, s, s.index);
    if k < |t.order| then Asked(t, NextQuestion(env, t).value) else t.(phase := FreeRound)
  }

  /** The judges between two places have nothing to ask. */
  ghost predicate PassedOver(env: Env, s: Row, i: nat, k: nat)
    requires WellFormed(s)
  {
    forall j | i < j < k && j < |s.order| :: !Asks(env, s, j)
  }

  lemma {:induction false} SilentBeforeLanding(env: Env, s: Row, i: nat, j: nat)
    requires WellFormed(s) && i < j < Landing(env, s, i) && j < |s.order|
    ensures !Asks(env, s, j)
    decreases |s.order| - i
  {
    if j > i + 1 {
      SilentBeforeLanding(env, s, i + 1, j);
    }
  }

  lemma LandingPassesOver(env: Env, s: Row, i: nat)
    requires WellFormed(s)
    ensures PassedOver(env, s, i, Landing(env, s, i))
  {
    forall j | i < j < Landing(env, s, i) && j < |s.order|
      ensures !Asks(env, s, j)
    {
      SilentBeforeLanding(env, s, i, j);
    }
  }

  /** Where the microphone lands does not depend on where it was. */
  lemma {:induction false} LandingSame(env: Env, s: Row, t: Row, i: nat)
    requires WellFormed(s) && t == s.(index := t.index, askedCount := t.askedCount)
    ensures Landing(env, s, i) == Landing(env, t, i)
    decreases |s.order| - i
  {
    AsksSame(env, s, t, i + 1);
    if !(i + 1 >= |s.order| || Asks(env, s, i + 1)) {
      LandingSame(env, s, t, i + 1);
    }
  }

  lemma AsksSame(env: Env, s: Row, t: Row, k: nat)
    requires WellFormed(s) && t == s.(index := t.index, askedCount := t.askedCount)
    ensures Asks(env, s, k) == Asks(env, t, k)
  {
    assert s.(index := k, askedCount := 0) == t.(index := k, askedCount := 0);
  }

  lemma LandingSkips(env: Env, s: Row, i: nat)
    requires WellFormed(s) && i + 1 < |s.order| && !Asks(env, s, i + 1)
    ensures Landing(env, s, i) == Landing(env, s, i + 1)
  {
  }

  lemma AdvancedFromNext(env: Env, s: Row)
    requires WellFormed(s)
    ensures var t := s.(index := s.index + 1, askedCount := 0);
            Advanced(env, s) == if t.index >= |t.order| then t.(phase := FreeRound)
                                else if NextQuestion(env, t).Some? then Asked(t, NextQuestion(env, t).value)
                                else Advanced(env, t)
  {
    var t := s.(index := s.index + 1, askedCount := 0);
    if t.index < |t.order| && !Asks(env, s, s.index + 1) {
      LandingSkips(env, s, s.index);
      LandingSame(env, s, t, s.index + 1);
      AdvancedSame(env, s, t);
    }
  }

  lemma AdvancedSame(env: Env, s: Row, t: Row)
    requires WellFormed(s) && t == s.(index := t.index, askedCount := t.askedCount)
    requires Landing(env, s, s.index) == Landing(env, t, t.index)
    ensures Advanced(env, s) == Advanced(env, t)
  {
    var k := Landing(env, t, t.index);
    assert s.(index := k, askedCount := 0) == t.(index := k, askedCount := 0);
  }

  // ---- The requests --------------------------------------------------------------------------------------------

  datatype Request =
    | StartPitch
    | Narrate(text: string, weak: set<string>)
    | EndPitch(history: map<string, seq<string>>)
    | Respond(text: string)
    | Deliberate(verdicts: Option<seq<string>>)
    | Abandon

  predicate HasNarration(turns: seq<Turn>) {
    exists i :: 0 <= i < |turns| && turns[i].Narration?
  }

  function Exchanges(names: seq<string>): seq<Turn> {
    seq(|names|, i requires 0 <= i < |names| => Exchange(names[i]))
  }

  function Verdicts(personas: seq<Persona>, texts: seq<string>): seq<Turn>
    requires |texts| == |personas|
  {
    seq(|texts|, i requires 0 <= i < |texts| => Verdict(personas[i].name, texts[i]))
  }

  predicate Succeeds(s: Row, r: Request) {
    match r
    case StartPitch => s.phase == Briefing
    case Narrate(_, _) => s.phase == Pitching
    case EndPitch(_) => s.phase == Pitching && HasNarration(s.turns)
    case Respond(_) => s.phase == Qa
    case Deliberate(v) => (s.phase == Qa || s.phase == FreeRound) && v.Some? && |v.value| == |s.personas|
    case Abandon => true
  }

  /** The session at the opening of the questions, before the first one. */
  function Floor(s: Row, history: map<string, seq<string>>): Row {
    s.(phase := Qa, order := Names(s.personas), index := 0, askedCount := 0, asked := map[], history := history)
  }

  function Applied(env: Env, s: Row, r: Request): (t: Row)
    requires WellFormed(s)
    ensures WellFormed(t) && t.personas == s.personas && t.quota == s.quota
  {
    if !Succeeds(s, r) then s
    else
      match r
      case StartPitch => s.(phase := Pitching)
      case Narrate(text, weak) =>
        s.(turns := s.turns + [Narration(text)], convictions := Convinced(s.convictions, s.personas, weak))
      case EndPitch(history) =>
        var t := Floor(s, history);
        var q := NextQuestion(env, t);
        if q.Some? then Asked(t, q.value) else t
      case Respond(text) =>
        var t := s.(turns := s.turns + [Answer(text)]);
        var q := NextQuestion(env, t);
        if t.askedCount < t.quota && q.Some? then Asked(t, q.value) else Advanced(env, t)
      case Deliberate(v) =>
        s.(phase := Completed, status := Finished,
           turns := s.turns + Exchanges(Debate(s.personas, s.convictions)) + Verdicts(s.personas, v.value))
      case Abandon => s.(status := GivenUp)
  }

  /** The judges in the order of the committee, the memory of past sessions, and nothing else changed. */
  ghost predicate FloorOpened(s: Row, t: Row, past: map<string, seq<string>>) {
    && t.phase == Qa && t.status == s.status && t.convictions == s.convictions && t.history == past
    && t.index == 0 && |t.order| == |s.personas|
    && forall i | 0 <= i < |s.personas| :: t.order[i] == s.personas[i].name
  }

  /** One more question on the timeline, noted for its axis. */
  ghost predicate OneQuestion(s: Row, t: Row) {
    && t.askedCount == 1 && |t.turns| == |s.turns| + 1 && s.turns < t.turns && s.personas != []
    && t.turns[|s.turns|].Question? && t.turns[|s.turns|].actor == s.personas[0].name
    && t.asked == map[t.turns[|s.turns|].axis := [t.turns[|s.turns|].angle]]
  }

  /** The questions open from a pitch that has a narration, with at most one question, by the first judge. */
  lemma OpeningIs(env: Env, s: Row, past: map<string, seq<string>>)
    requires WellFormed(s)
    ensures var t := Applied(env, s, EndPitch(past));
            if s.phase == Pitching && exists i :: 0 <= i < |s.turns| && s.turns[i].Narration?
            then FloorOpened(s, t, past)
                 && ((t.turns == s.turns && t.askedCount == 0 && t.asked == map[]) || OneQuestion(s, t))
            else t == s
  {
    var t := Applied(env, s, EndPitch(past));
    var q := NextQuestion(env, Floor(s, past));
    if Succeeds(s, EndPitch(past)) && q.Some? {
      assert t.turns == s.turns + [q.value] && [] + [q.value.angle] == [q.value.angle];
      assert t.asked == map[][q.value.axis := [q.value.angle]];
    }
  }

  /** An answer is taken during the questions only, after all that was said and before the next question. */
  lemma AnswerIs(env: Env, s: Row, text: string)
    requires WellFormed(s)
    ensures var t := Applied(env, s, Respond(text));
            if s.phase == Qa then Answered(s, t, text) else t == s
  {
    if s.phase == Qa {
      var t, a := Applied(env, s, Respond(text)), s.(turns := s.turns + [Answer(text)]);
      var q, k := NextQuestion(env, a), Landing(env, a, a.index);
      LandingAsks(env, a, a.index);
      if a.askedCount < a.quota && q.Some? {
        assert t.turns == a.turns + [q.value];
      } else if k < |a.order| {
        assert t.turns == a.turns + [NextQuestion(env, a.(index := k, askedCount := 0)).value];
      }
    }
  }

  ghost predicate Answered(s: Row, t: Row, text: string) {
    && t.status == s.status && t.convictions == s.convictions && t.history == s.history
    && s.turns < t.turns && t.turns[|s.turns|] == Answer(text) && |t.turns| <= |s.turns| + 2
    && (|t.turns| == |s.turns| + 2 ==> t.turns[|s.turns| + 1].Question?)
  }

  /** What a conclusion adds to the timeline: the voices of the debate, then one verdict for each judge, its own. */
  ghost predicate Concluded(s: Row, t: Row, texts: seq<string>) {
    var n, d := |s.turns|, Debate(s.personas, s.convictions);
    && t.phase == Completed && t.status == Finished && |texts| == |s.personas|
    && |t.turns| == n + |d| + |s.personas| && t.turns[..n] == s.turns
    && (forall i | 0 <= i < |d| :: t.turns[n + i] == Exchange(d[i]))
    && forall i | 0 <= i < |s.personas| :: t.turns[n + |d| + i] == Verdict(s.personas[i].name, texts[i])
  }

  /** A session is concluded from the questions or the free round, with one text for each judge, or not at all. */
  lemma VerdictsAreSigned(env: Env, s: Row, texts: Option<seq<string>>)
    requires WellFormed(s)
    ensures var t := Applied(env, s, Deliberate(texts));
            if s.phase in {Qa, FreeRound} && texts.Some? && |texts.value| == |s.personas|
            then Concluded(s, t, texts.value) else t == s
  {
    if s.phase in {Qa, FreeRound} && texts.Some? && |texts.value| == |s.personas| {
      VerdictsAreInOrder(env, s, texts.value);
      assert texts == Some(texts.value);
    }
  }

  lemma VerdictsAreInOrder(env: Env, s: Row, texts: seq<string>)
    requires WellFormed(s) && Succeeds(s, Deliberate(Some(texts)))
    ensures Concluded(s, Applied(env, s, Deliberate(Some(texts))), texts)
  {
    var d := Debate(s.personas, s.convictions);
    var t := Applied(env, s, Deliberate(Some(texts)));
    assert t.turns == s.turns + Exchanges(d) + Verdicts(s.personas, texts);
  }

  class PitchSession {
    var phase: Phase
    var status: Status
    const quota: int
    const personas: seq<Persona>
    var convictions: map<string, int>
    var order: seq<string>
    var index: nat
    var askedCount: nat
    var asked: map<string, seq<string>>
    var history: map<string, seq<string>>
    var turns: seq<Turn>

    function Value(): Row
      reads this
    {
      Row(phase, status, quota, personas, convictions, order, index, askedCount, asked, history, turns)
    }

    constructor (personas: seq<Persona>, quota: int)
      ensures Value() == Opened(personas, quota)
    {
      this.personas, this.quota := personas, quota;
      phase, status, convictions, order, index, askedCount := Briefing, InProgress, map[], [], 0, 0;
      asked, history, turns := map[], map[], [Welcome];
    }

    /** An illegal jump is refused. */
    method SetPhase(target: Phase) returns (ok: bool)
      modifies `phase
      ensures ok <==> CanTransition(old(phase), target)
      ensures phase == if ok then target else old(phase)
    {
      ok := CanTransition(phase, target);
      if ok {
        phase := target;
      }
    }

    method Add(turn: Turn)
      modifies `turns
      ensures turns == old(turns) + [turn]
    {
      turns := turns + [turn];
    }

    method BeginPitch(env: Env) returns (ok: bool)
      requires WellFormed(Value())
      modifies this
      ensures ok == Succeeds(old(Value()), StartPitch) && Value() == Applied(env, old(Value()), StartPitch)
      ensures ok <==> old(phase) == Briefing
      ensures Value() == if ok then old(Value()).(phase := Pitching) else old(Value())
    {
      ok := SetPhase(Pitching);
    }

    method TakeNarration(env: Env, text: string, weak: set<string>) returns (ok: bool)
      requires WellFormed(Value())
      modifies this
      ensures var r := Narrate(text, weak); ok == Succeeds(old(Value()), r) && Value() == Applied(env, old(Value()), r)
      ensures ok <==> old(phase) == Pitching
      ensures Value() == if ok then old(Value()).(turns := old(turns) + [Narration(text)],
                                                  convictions := Convinced(old(convictions), personas, weak))
                         else old(Value())
    {
      if phase != Pitching {
        return false;
      }
      var updated := UpdateConvictions(convictions, personas, weak);
      Add(Narration(text));
      convictions := updated;
      return true;
    }

    method ServeQuestion(env: Env) returns (served: bool)
      requires WellFormed(Value())
      modifies `asked, `askedCount, `turns
      ensures var q := NextQuestion(env, old(Value()));
              served == q.Some? && Value() == if q.Some? then Asked(old(Value()), q.value) else old(Value())
    {
      if index >= |order| {
        return false;
      }
      var name := order[index];
      var axis := Named(personas, name).obsession;
      var angle := PickAngle(Get(env.pools, axis), Get(asked, axis), Get(history, axis),
                             env.seed(index, askedCount, axis));
      if angle.None? {
        return false;
      }
      asked := asked[axis := Get(asked, axis) + [angle.value]];
      askedCount := askedCount + 1;
      Add(Question(name, axis, angle.value));
      return true;
    }

    method AdvanceQa(env: Env)
      requires WellFormed(Value()) && phase == Qa
      modifies this
      ensures Value() == Advanced(env, old(Value()))
      decreases |order| - index
    {
      ghost var s := Value();
      AdvancedFromNext(env, s);
      index, askedCount := index + 1, 0;
      ghost var t := Value();
      assert t == s.(index := s.index + 1, askedCount := 0);
      if index >= |order| {
        var ok := SetPhase(FreeRound);
      } else {
        var served := ServeQuestion(env);
        if !served {
          AdvanceQa(env);
        }
      }
    }

    method FinishPitch(env: Env, past: map<string, seq<string>>) returns (ok: bool)
      requires WellFormed(Value())
      modifies this
      ensures ok == Succeeds(old(Value()), EndPitch(past)) && Value() == Applied(env, old(Value()), EndPitch(past))
      ensures WellFormed(Value())
    {
      if !HasNarration(turns) {
        return false;
      }
      ok := SetPhase(Qa);
      if !ok {
        return;
      }
      order, index, askedCount, asked, history := Names(personas), 0, 0, map[], past;
      var served := ServeQuestion(env);
    }

    method TakeAnswer(env: Env, text: string) returns (ok: bool)
      requires WellFormed(Value())
      modifies this
      ensures ok == Succeeds(old(Value()), Respond(text)) && Value() == Applied(env, old(Value()), Respond(text))
    {
      if phase != Qa {
        return false;
      }
      Add(Answer(text));
      var served := false;
      if askedCount < quota {
        served := ServeQuestion(env);
      }
      if !served {
        AdvanceQa(env);
      }
      return true;
    }

    /** `texts` are the verdicts of the model, or `None` when a call or the validation of the scores fails. The
        phase and the turns written before a failure are rolled back. */
    method Conclude(env: Env, texts: Option<seq<string>>) returns (ok: bool)
      requires WellFormed(Value())
      modifies this
      ensures ok == Succeeds(old(Value()), Deliberate(texts))
              && Value() == Applied(env, old(Value()), Deliberate(texts))
    {
      var before, timeline := phase, turns;
      if phase == Qa {
        ok := SetPhase(FreeRound);
      }
      turns := turns + Exchanges(Debate(personas, convictions));
      ok := SetPhase(Deliberating);
      if !ok || texts.None? || |texts.value| != |personas| {
        phase, turns := before, timeline;
        return false;
      }
      turns := turns + Verdicts(personas, texts.value);
      ok := SetPhase(Completed);
      status := Finished;
    }

    method GiveUp(env: Env)
      requires WellFormed(Value())
      modifies `status
      ensures Value() == Applied(env, old(Value()), Abandon) && Value() == old(Value()).(status := GivenUp)
    {
      status := GivenUp;
    }
  }
}
