/** Whole sessions: what holds after any sequence of requests. */
module PitchRuns {
  import opened Options
  import opened Orchestrator
  import opened Pitch

  /** The session after the requests, in order. */
  function Played(env: Env, s: Row, requests: seq<Request>): (t: Row)
    requires WellFormed(s)
    ensures WellFormed(t) && t.personas == s.personas && t.quota == s.quota
  {
    if requests == [] then s else Applied(env, Played(env, s, requests[..|requests| - 1]), requests[|requests| - 1])
  }

  // ---- What the timeline says of the questions -------------------------------------------------------------

  predicate IsQuestion(t: Turn, axis: string, angle: string) {
    t.Question? && t.axis == axis && t.angle == angle
  }

  predicate Posed(turns: seq<Turn>, axis: string, angle: string) {
    exists i :: 0 <= i < |turns| && IsQuestion(turns[i], axis, angle)
  }

  /** No angle of an axis comes twice. */
  ghost predicate NoRepeat(turns: seq<Turn>) {
    forall i, j | 0 <= i < j < |turns| && turns[i].Question? && turns[j].Question? ::
      turns[i].axis != turns[j].axis || turns[i].angle != turns[j].angle
  }

  /** When an angle of a previous session is asked, the axis has no new angle left. */
  ghost predicate NewFirst(env: Env, history: map<string, seq<string>>, turns: seq<Turn>) {
    forall j | 0 <= j < |turns| && turns[j].Question? && turns[j].angle in Get(history, turns[j].axis) ::
      NoNewLeft(env, history, turns[..j], turns[j].axis)
  }

  ghost predicate NoNewLeft(env: Env, history: map<string, seq<string>>, turns: seq<Turn>, axis: string) {
    forall b | b in Get(env.pools, axis) && b !in Get(history, axis) :: Posed(turns, axis, b)
  }

  /** Judges ask on their own axis, from its pool. */
  ghost predicate FromPools(env: Env, personas: seq<Persona>, turns: seq<Turn>) {
    forall i | 0 <= i < |turns| && turns[i].Question? ::
      turns[i].angle in Get(env.pools, turns[i].axis)
      && exists p :: p in personas && p.obsession == turns[i].axis && p.name == turns[i].actor
  }

  ghost predicate Remembered(asked: map<string, seq<string>>, turns: seq<Turn>) {
    forall axis, angle :: angle in Get(asked, axis) <==> Posed(turns, axis, angle)
  }

  ghost predicate Orderly(env: Env, personas: seq<Persona>, asked: map<string, seq<string>>,
                          history: map<string, seq<string>>, turns: seq<Turn>)
  {
    Remembered(asked, turns) && NoRepeat(turns) && NewFirst(env, history, turns) && FromPools(env, personas, turns)
  }

  lemma PosedSnoc(turns: seq<Turn>, t: Turn, axis: string, angle: string)
    ensures Posed(turns + [t], axis, angle) <==> Posed(turns, axis, angle) || IsQuestion(t, axis, angle)
  {
    var all := turns + [t];
    if Posed(turns, axis, angle) {
      var i :| 0 <= i < |turns| && IsQuestion(turns[i], axis, angle);
      assert IsQuestion(all[i], axis, angle);
    }
    if IsQuestion(t, axis, angle) {
      assert IsQuestion(all[|turns|], axis, angle);
    }
  }

  lemma RememberedAsk(asked: map<string, seq<string>>, turns: seq<Turn>, q: Turn)
    requires Remembered(asked, turns) && q.Question?
    ensures Remembered(asked[q.axis := Get(asked, q.axis) + [q.angle]], turns + [q])
  {
    var m := asked[q.axis := Get(asked, q.axis) + [q.angle]];
    forall axis, angle
      ensures angle in Get(m, axis) <==> Posed(turns + [q], axis, angle)
    {
      PosedSnoc(turns, q, axis, angle);
      assert angle in Get(asked, axis) <==> Posed(turns, axis, angle);
    }
  }

  lemma OrderlyAsk(env: Env, s: Row)
    requires WellFormed(s) && Orderly(env, s.personas, s.asked, s.history, s.turns) && NextQuestion(env, s).Some?
    ensures var t := Asked(s, NextQuestion(env, s).value); Orderly(env, t.personas, t.asked, t.history, t.turns)
  {
    var q := NextQuestion(env, s).value;
    var axis := q.axis;
    PickAngleSpec(Get(env.pools, axis), Get(s.asked, axis), Get(s.history, axis),
                  env.seed(s.index, s.askedCount, axis));
    RememberedAsk(s.asked, s.turns, q);
    QuestionSnoc(env, s.personas, s.asked, s.history, s.turns, q, Named(s.personas, q.actor));
  }

  lemma QuestionSnoc(env: Env, personas: seq<Persona>, asked: map<string, seq<string>>,
                     history: map<string, seq<string>>, turns: seq<Turn>, q: Turn, p: Persona)
    requires Orderly(env, personas, asked, history, turns) && q.Question?
    requires p in personas && p.obsession == q.axis && p.name == q.actor
    requires q.angle in Get(env.pools, q.axis) && q.angle !in Get(asked, q.axis)
    requires q.angle in Get(history, q.axis)
             ==> forall b | b in Get(env.pools, q.axis) && b !in Get(history, q.axis) :: b in Get(asked, q.axis)
    ensures NoRepeat(turns + [q]) && NewFirst(env, history, turns + [q]) && FromPools(env, personas, turns + [q])
  {
    var all := turns + [q];
    assert !Posed(turns, q.axis, q.angle);
    forall i | 0 <= i < |turns| && turns[i].Question?
      ensures turns[i].axis != q.axis || turns[i].angle != q.angle
    {
      assert !IsQuestion(turns[i], q.axis, q.angle);
    }
    forall j | 0 <= j < |all| && all[j].Question? && all[j].angle in Get(history, all[j].axis)
      ensures NoNewLeft(env, history, all[..j], all[j].axis)
    {
      if j < |turns| {
        assert all[..j] == turns[..j];
      } else {
        assert all[..j] == turns;
      }
    }
  }

  lemma OrderlyOther(env: Env, personas: seq<Persona>, asked: map<string, seq<string>>,
                     history: map<string, seq<string>>, turns: seq<Turn>, t: Turn)
    requires Orderly(env, personas, asked, history, turns) && !t.Question?
    ensures Orderly(env, personas, asked, history, turns + [t])
  {
    var all := turns + [t];
    forall axis, angle
      ensures angle in Get(asked, axis) <==> Posed(all, axis, angle)
    {
      PosedSnoc(turns, t, axis, angle);
      assert angle in Get(asked, axis) <==> Posed(turns, axis, angle);
    }
    forall j | 0 <= j < |all| && all[j].Question? && all[j].angle in Get(history, all[j].axis)
      ensures NoNewLeft(env, history, all[..j], all[j].axis)
    {
      assert all[..j] == turns[..j];
    }
  }

  lemma {:induction false} OrderlyOthers(env: Env, personas: seq<Persona>, asked: map<string, seq<string>>,
                                         history: map<string, seq<string>>, turns: seq<Turn>, more: seq<Turn>)
    requires Orderly(env, personas, asked, history, turns) && forall t | t in more :: !t.Question?
    ensures Orderly(env, personas, asked, history, turns + more)
  {
    if more == [] {
      assert turns + more == turns;
    } else {
      var r, t := more[..|more| - 1], more[|more| - 1];
      assert turns + more == (turns + r) + [t];
      OrderlyOthers(env, personas, asked, history, turns, r);
      OrderlyOther(env, personas, asked, history, turns + r, t);
    }
  }

  // ---- Quotas -----------------------------------------------------------------------------------------------------

  /** The quota in force: the first question of a judge is served without looking at it. */
  function Quota(s: Row): nat {
    if s.quota < 1 then 1 else s.quota
  }

  function QuestionsBy(turns: seq<Turn>, name: string): nat {
    if turns == [] then 0
    else
      var t := turns[|turns| - 1];
      QuestionsBy(turns[..|turns| - 1], name) + if t.Question? && t.actor == name then 1 else 0
  }

  function Questions(turns: seq<Turn>): nat {
    if turns == [] then 0 else Questions(turns[..|turns| - 1]) + if turns[|turns| - 1].Question? then 1 else 0
  }

  function Answers(turns: seq<Turn>): nat {
    if turns == [] then 0 else Answers(turns[..|turns| - 1]) + if turns[|turns| - 1].Answer? then 1 else 0
  }

  /** What the first `n` places of the order allow `name` to ask, and allow in all. */
  function Allowance(order: seq<string>, n: nat, name: string, quota: nat): nat {
    if n == 0 then 0
    else Allowance(order, n - 1, name, quota) + if n - 1 < |order| && order[n - 1] == name then quota else 0
  }

  function Capacity(order: seq<string>, n: nat, quota: nat): nat {
    if n == 0 then 0 else Capacity(order, n - 1, quota) + if n - 1 < |order| then quota else 0
  }

  function AtMicrophone(s: Row, name: string): nat {
    if s.index < |s.order| && s.order[s.index] == name then s.askedCount else 0
  }

  ghost predicate WithinQuotas(s: Row) {
    && s.askedCount <= Quota(s)
    && (forall n :: QuestionsBy(s.turns, n) <= Allowance(s.order, s.index, n, Quota(s)) + AtMicrophone(s, n))
    && Questions(s.turns) <= Capacity(s.order, s.index, Quota(s)) + if s.index < |s.order| then s.askedCount else 0
  }

  /** Moving the microphone forward only adds allowance. */
  lemma {:induction false} QuotaMoves(s: Row, k: nat)
    requires WithinQuotas(s) && k > s.index
    ensures WithinQuotas(s.(index := k, askedCount := 0))
  {
    var q := Quota(s);
    var t := s.(index := k, askedCount := 0);
    if k > s.index + 1 {
      QuotaMoves(s, k - 1);
      var m := s.(index := k - 1, askedCount := 0);
      forall n
        ensures QuestionsBy(t.turns, n) <= Allowance(t.order, k, n, q) + AtMicrophone(t, n)
      {
        assert QuestionsBy(m.turns, n) <= Allowance(m.order, k - 1, n, q) + AtMicrophone(m, n);
      }
    } else {
      forall n
        ensures QuestionsBy(t.turns, n) <= Allowance(t.order, k, n, q) + AtMicrophone(t, n)
      {
        assert QuestionsBy(s.turns, n) <= Allowance(s.order, s.index, n, q) + AtMicrophone(s, n);
      }
    }
  }

  // ---- The invariant of a session --------------------------------------------------------------------------------

  predicate Early(s: Row) {
    s.phase == Briefing || s.phase == Pitching
  }

  ghost predicate Staged(s: Row) {
    && s.phase in {Briefing, Pitching, Qa, FreeRound, Completed}
    && (Early(s) ==> s.order == [] && s.asked == map[] && s.index == 0 && s.askedCount == 0
                     && Questions(s.turns) == 0 && Answers(s.turns) == 0)
    && (!Early(s) ==> s.order == Names(s.personas) && HasNarration(s.turns))
    && (s.status == Finished ==> s.phase == Completed)
  }

  /** While questions last, at most one of them is unanswered, and only the answer that opens the free round may
      come without a question. */
  ghost predicate Balanced(s: Row) {
    && (s.phase == Qa ==> Answers(s.turns) <= Questions(s.turns) <= Answers(s.turns) + 1)
    && Answers(s.turns) <= Questions(s.turns) + 1
  }

  ghost predicate Sound(env: Env, s: Row) {
    && WellFormed(s) && Orderly(env, s.personas, s.asked, s.history, s.turns)
    && WithinQuotas(s) && Staged(s) && Balanced(s)
  }

  lemma NarrationKept(turns: seq<Turn>, more: seq<Turn>)
    requires HasNarration(turns)
    ensures HasNarration(turns + more)
  {
    var i :| 0 <= i < |turns| && turns[i].Narration?;
    assert (turns + more)[i].Narration?;
  }

  /** Turns that are neither questions nor answers change none of the counts. */
  lemma {:induction false} CountOthers(turns: seq<Turn>, more: seq<Turn>)
    requires forall t | t in more :: !t.Question? && !t.Answer?
    ensures Questions(turns + more) == Questions(turns) && Answers(turns + more) == Answers(turns)
    ensures forall n :: QuestionsBy(turns + more, n) == QuestionsBy(turns, n)
  {
    if more == [] {
      assert turns + more == turns;
    } else {
      var r, t := more[..|more| - 1], more[|more| - 1];
      assert turns + more == (turns + r) + [t] && t in more;
      CountOthers(turns, r);
    }
  }

  /** An answer either brings exactly one question or opens the free round. */
  lemma RespondShape(env: Env, s: Row, text: string) returns (k: nat, count: nat)
    requires WellFormed(s) && s.phase == Qa
    ensures var a := s.(turns := s.turns + [Answer(text)], index := k, askedCount := count);
            var r := Applied(env, s, Respond(text));
            && ((k == s.index && count == s.askedCount && count < s.quota) || (k > s.index && count == 0))
            && if r.phase == Qa then NextQuestion(env, a).Some? && r == Asked(a, NextQuestion(env, a).value)
               else k >= |s.order| && r == a.(phase := FreeRound)
    ensures var t := s.(turns := s.turns + [Answer(text)]);
            && (k > s.index && s.index < |s.order| ==> s.askedCount >= s.quota || NextQuestion(env, t).None?)
            && PassedOver(env, t, s.index, k)
  {
    var t := s.(turns := s.turns + [Answer(text)]);
    k, count := s.index, s.askedCount;
    if !(t.askedCount < t.quota && NextQuestion(env, t).Some?) {
      k := Landing(env, t, t.index);
      LandingAsks(env, t, t.index);
      LandingPassesOver(env, t, t.index);
      count := 0;
    }
  }

  /** The questions are on and the last one, if any, has its answer. */
  ghost predicate Pending(env: Env, s: Row) {
    && WellFormed(s) && Orderly(env, s.personas, s.asked, s.history, s.turns) && WithinQuotas(s) && Staged(s)
    && s.phase == Qa
    && Questions(s.turns) <= Answers(s.turns) <= Questions(s.turns) + 1
  }

  lemma AnswerLeavesPending(env: Env, s: Row, text: string)
    requires Sound(env, s) && s.phase == Qa
    ensures Pending(env, s.(turns := s.turns + [Answer(text)]))
  {
    OrderlyOther(env, s.personas, s.asked, s.history, s.turns, Answer(text));
    NarrationKept(s.turns, [Answer(text)]);
  }

  lemma AskKeeps(env: Env, s: Row)
    requires Pending(env, s) && s.askedCount < Quota(s) && NextQuestion(env, s).Some?
    ensures Sound(env, Asked(s, NextQuestion(env, s).value))
  {
    var q := NextQuestion(env, s).value;
    OrderlyAsk(env, s);
    NarrationKept(s.turns, [q]);
  }

  lemma MoveKeepsPending(env: Env, s: Row, k: nat)
    requires Pending(env, s) && k > s.index
    ensures Pending(env, s.(index := k, askedCount := 0))
  {
    QuotaMoves(s, k);
  }

  lemma FreeKeeps(env: Env, s: Row)
    requires Pending(env, s)
    ensures Sound(env, s.(phase := FreeRound))
  {
  }

  /** The session between the answer and what follows it. */
  lemma AnswerIsPending(env: Env, s: Row, text: string) returns (a: Row)
    requires Sound(env, s) && s.phase == Qa
    ensures Pending(env, a)
    ensures var r := Applied(env, s, Respond(text));
            if r.phase == Qa
            then a.askedCount < Quota(a) && NextQuestion(env, a).Some? && r == Asked(a, NextQuestion(env, a).value)
            else r == a.(phase := FreeRound)
  {
    var k, count := RespondShape(env, s, text);
    var t := s.(turns := s.turns + [Answer(text)]);
    a := t.(index := k, askedCount := count);
    AnswerLeavesPending(env, s, text);
    if k > s.index {
      MoveKeepsPending(env, t, k);
    }
  }

  lemma RespondKeeps(env: Env, s: Row, text: string)
    requires Sound(env, s) && s.phase == Qa
    ensures Sound(env, Applied(env, s, Respond(text)))
  {
    var a := AnswerIsPending(env, s, text);
    if Applied(env, s, Respond(text)).phase == Qa {
      AskKeeps(env, a);
    } else {
      FreeKeeps(env, a);
    }
  }

  /** Before the first question nobody has asked anything. */
  lemma {:induction false} NoQuestionYet(turns: seq<Turn>)
    requires Questions(turns) == 0
    ensures forall i | 0 <= i < |turns| :: !turns[i].Question?
    ensures forall n :: QuestionsBy(turns, n) == 0
  {
    if turns != [] {
      NoQuestionYet(turns[..|turns| - 1]);
    }
  }

  lemma FloorIsSound(env: Env, s: Row, past: map<string, seq<string>>)
    requires Sound(env, s) && s.phase == Pitching && HasNarration(s.turns)
    ensures Sound(env, Floor(s, past))
  {
    var t := Floor(s, past);
    NoQuestionYet(s.turns);
    forall axis, angle
      ensures angle in Get(t.asked, axis) <==> Posed(t.turns, axis, angle)
    {
    }
    forall n
      ensures QuestionsBy(t.turns, n) <= Allowance(t.order, 0, n, Quota(t)) + AtMicrophone(t, n)
    {
    }
  }

  lemma EndPitchKeeps(env: Env, s: Row, past: map<string, seq<string>>)
    requires Sound(env, s) && Succeeds(s, EndPitch(past))
    ensures Sound(env, Applied(env, s, EndPitch(past)))
  {
    var t := Floor(s, past);
    FloorIsSound(env, s, past);
    if NextQuestion(env, t).Some? {
      AskKeeps(env, t);
    }
  }

  lemma NarrateKeeps(env: Env, s: Row, text: string, weak: set<string>)
    requires Sound(env, s) && s.phase == Pitching
    ensures Sound(env, Applied(env, s, Narrate(text, weak)))
  {
    OrderlyOther(env, s.personas, s.asked, s.history, s.turns, Narration(text));
  }

  lemma ClosedKeeps(env: Env, s: Row, more: seq<Turn>)
    requires Sound(env, s) && !Early(s) && forall t | t in more :: !t.Question? && !t.Answer?
    ensures Sound(env, s.(phase := Completed, status := Finished, turns := s.turns + more))
  {
    OrderlyOthers(env, s.personas, s.asked, s.history, s.turns, more);
    CountOthers(s.turns, more);
    NarrationKept(s.turns, more);
  }

  lemma ConcludeKeeps(env: Env, s: Row, verdicts: Option<seq<string>>)
    requires Sound(env, s) && Succeeds(s, Deliberate(verdicts))
    ensures Sound(env, Applied(env, s, Deliberate(verdicts)))
  {
    var debate := Debate(s.personas, s.convictions);
    ClosedKeeps(env, s, Exchanges(debate) + Verdicts(s.personas, verdicts.value));
    assert s.turns + (Exchanges(debate) + Verdicts(s.personas, verdicts.value))
        == s.turns + Exchanges(debate) + Verdicts(s.personas, verdicts.value);
  }

  lemma SoundStep(env: Env, s: Row, r: Request)
    requires Sound(env, s)
    ensures Sound(env, Applied(env, s, r))
  {
    if Succeeds(s, r) {
      match r
      case StartPitch =>
      case Narrate(text, weak) => NarrateKeeps(env, s, text, weak);
      case EndPitch(past) => EndPitchKeeps(env, s, past);
      case Respond(text) => RespondKeeps(env, s, text);
      case Deliberate(verdicts) => ConcludeKeeps(env, s, verdicts);
      case Abandon =>
    }
  }

  lemma OpenedIsSound(env: Env, personas: seq<Persona>, quota: int)
    ensures Sound(env, Opened(personas, quota))
  {
    var s := Opened(personas, quota);
    assert s.turns == [Welcome];
    assert Questions([]) == 0;
    assert [] + [Welcome] == [Welcome];
  }

  lemma {:induction false} SessionsAreSound(env: Env, personas: seq<Persona>, quota: int, requests: seq<Request>)
    ensures Sound(env, Played(env, Opened(personas, quota), requests))
  {
    var s := Opened(personas, quota);
    OpenedIsSound(env, personas, quota);
    if requests != [] {
      SessionsAreSound(env, personas, quota, requests[..|requests| - 1]);
      SoundStep(env, Played(env, s, requests[..|requests| - 1]), requests[|requests| - 1]);
    }
  }

  // ---- Bounds ------------------------------------------------------------------------------------------------------

  function Seats(names: seq<string>, n: nat, name: string): nat
    requires n <= |names|
  {
    if n == 0 then 0 else Seats(names, n - 1, name) + if names[n - 1] == name then 1 else 0
  }

  lemma ProductIsNat(a: nat, b: nat)
    ensures a * b >= 0
  {
  }

  lemma Distribute(q: nat, n: nat, d: nat)
    ensures q * (n + d) == q * n + q * d
  {
  }

  lemma {:induction false} AllowanceIs(order: seq<string>, n: nat, name: string, q: nat)
    requires n <= |order|
    ensures Allowance(order, n, name, q) == q * Seats(order, n, name) && Capacity(order, n, q) == q * n
  {
    if n > 0 {
      AllowanceIs(order, n - 1, name, q);
      Distribute(q, Seats(order, n - 1, name), if order[n - 1] == name then 1 else 0);
      Distribute(q, n - 1, 1);
    }
  }

  lemma {:induction false} AllowanceGrows(order: seq<string>, i: nat, j: nat, name: string, q: nat)
    requires i <= j
    ensures Allowance(order, i, name, q) <= Allowance(order, j, name, q)
            && Capacity(order, i, q) <= Capacity(order, j, q)
    ensures i >= |order| ==> Allowance(order, i, name, q) == Allowance(order, j, name, q)
    ensures i >= |order| ==> Capacity(order, i, q) == Capacity(order, j, q)
  {
    if i < j {
      AllowanceGrows(order, i, j - 1, name, q);
    }
  }

  lemma QuotaEnds(s: Row, name: string)
    requires WithinQuotas(s)
    ensures QuestionsBy(s.turns, name) <= Allowance(s.order, |s.order|, name, Quota(s))
    ensures Questions(s.turns) <= Capacity(s.order, |s.order|, Quota(s))
  {
    var q := Quota(s);
    assert QuestionsBy(s.turns, name) <= Allowance(s.order, s.index, name, q) + AtMicrophone(s, name);
    if s.index < |s.order| {
      AllowanceGrows(s.order, s.index + 1, |s.order|, name, q);
    } else {
      AllowanceGrows(s.order, |s.order|, s.index, name, q);
    }
  }

  /** Every angle the judges of a committee can ask on. */
  ghost function Pairs(env: Env, personas: seq<Persona>): set<(string, string)> {
    set i, a | 0 <= i < |personas| && a in Get(env.pools, personas[i].obsession) :: (personas[i].obsession, a)
  }

  ghost function PosedPairs(turns: seq<Turn>): set<(string, string)> {
    if turns == [] then {}
    else
      var t := turns[|turns| - 1];
      PosedPairs(turns[..|turns| - 1]) + if t.Question? then {(t.axis, t.angle)} else {}
  }

  lemma {:induction false} PosedPairsIs(turns: seq<Turn>, axis: string, angle: string)
    ensures (axis, angle) in PosedPairs(turns) <==> Posed(turns, axis, angle)
  {
    if turns != [] {
      var r, t := turns[..|turns| - 1], turns[|turns| - 1];
      assert turns == r + [t];
      PosedPairsIs(r, axis, angle);
      PosedSnoc(r, t, axis, angle);
    }
  }

  lemma {:induction false} PosedCount(turns: seq<Turn>)
    requires NoRepeat(turns)
    ensures |PosedPairs(turns)| == Questions(turns)
  {
    if turns != [] {
      var r, t := turns[..|turns| - 1], turns[|turns| - 1];
      PosedCount(r);
      if t.Question? {
        PosedPairsIs(r, t.axis, t.angle);
        forall i | 0 <= i < |r|
          ensures !IsQuestion(r[i], t.axis, t.angle)
        {
          assert r[i] == turns[i];
        }
      }
    }
  }

  lemma SubsetSize<T>(a: set<T>, b: set<T>)
    requires a <= b
    ensures |a| <= |b|
  {
    assert |b| == |a| + |b - a| by { assert b == a + (b - a); }
  }

  lemma PoolBound(env: Env, personas: seq<Persona>, turns: seq<Turn>)
    requires NoRepeat(turns) && FromPools(env, personas, turns)
    ensures Questions(turns) <= |Pairs(env, personas)|
  {
    PosedCount(turns);
    forall x | x in PosedPairs(turns)
      ensures x in Pairs(env, personas)
    {
      PosedPairsIs(turns, x.0, x.1);
      var i :| 0 <= i < |turns| && IsQuestion(turns[i], x.0, x.1);
      var p :| p in personas && p.obsession == turns[i].axis && p.name == turns[i].actor;
      var k :| 0 <= k < |personas| && personas[k] == p;
      assert personas[k].obsession == x.0;
    }
    SubsetSize(PosedPairs(turns), Pairs(env, personas));
  }

  // ---- The session of a committee ----------------------------------------------------------------------------------

  /** In every session, whatever the requests and their order: no angle of an axis is asked twice, an angle of an
      earlier session comes only after every new angle of its axis, and a judge asks at most its quota (once for each
      seat it holds), a quota below one counting as one. */
  lemma QuestionsAreSound(env: Env, personas: seq<Persona>, quota: int, requests: seq<Request>, name: string)
    ensures var s := Played(env, Opened(personas, quota), requests);
            && NoRepeat(s.turns) && NewFirst(env, s.history, s.turns) && FromPools(env, personas, s.turns)
            && QuestionsBy(s.turns, name) <= (if quota < 1 then 1 else quota) * Seats(Names(personas), |personas|, name)
  {
    var s := Played(env, Opened(personas, quota), requests);
    SessionsAreSound(env, personas, quota, requests);
    QuotaEnds(s, name);
    AllowanceIs(s.order, |s.order|, name, Quota(s));
    if Early(s) {
      NoQuestionYet(s.turns);
      ProductIsNat(Quota(s), Seats(Names(personas), |personas|, name));
    }
  }

  /** The founder answers at most once more than the committee can ask: the quota of every judge, or every angle of
      their axes if those run out first. */
  lemma AnswersAreBounded(env: Env, personas: seq<Persona>, quota: int, requests: seq<Request>)
    ensures var s := Played(env, Opened(personas, quota), requests);
            && Answers(s.turns) <= (if quota < 1 then 1 else quota) * |personas| + 1
            && Answers(s.turns) <= |Pairs(env, personas)| + 1
  {
    var s := Played(env, Opened(personas, quota), requests);
    SessionsAreSound(env, personas, quota, requests);
    QuotaEnds(s, "");
    AllowanceIs(s.order, |s.order|, "", Quota(s));
    PoolBound(env, personas, s.turns);
    if Early(s) {
      ProductIsNat(Quota(s), |personas|);
    }
  }

  /** Every answer accepted brings exactly one question or opens the free round. */
  lemma AnswerBringsOneQuestion(env: Env, s: Row, text: string)
    requires WellFormed(s) && s.phase == Qa
    ensures var r := Applied(env, s, Respond(text));
            && (r.phase == Qa || r.phase == FreeRound)
            && Answers(r.turns) == Answers(s.turns) + 1
            && Questions(r.turns) == Questions(s.turns) + if r.phase == Qa then 1 else 0
  {
    var r := Applied(env, s, Respond(text));
    var k, count := RespondShape(env, s, text);
    var a := s.(turns := s.turns + [Answer(text)], index := k, askedCount := count);
  }

  // ---- Phases and the end of a session ------------------------------------------------------------------------------

  function Rank(p: Phase): nat {
    match p
    case Briefing => 0
    case Pitching => 1
    case Qa => 2
    case FreeRound => 3
    case Deliberating => 4
    case Completed => 5
    case Abandoned => 6
  }

  lemma PhaseAdvances(env: Env, s: Row, r: Request)
    requires WellFormed(s)
    ensures Rank(s.phase) <= Rank(Applied(env, s, r).phase)
  {
    if r.Respond? && s.phase == Qa {
      AnswerBringsOneQuestion(env, s, r.text);
    }
  }

  lemma {:induction false} PhasesOnlyAdvance(env: Env, s: Row, requests: seq<Request>)
    requires WellFormed(s)
    ensures Rank(s.phase) <= Rank(Played(env, s, requests).phase)
  {
    if requests != [] {
      var t, r := Played(env, s, requests[..|requests| - 1]), requests[|requests| - 1];
      PhasesOnlyAdvance(env, s, requests[..|requests| - 1]);
      PhaseAdvances(env, t, r);
    }
  }

  lemma {:induction false} CompletedStaysAbandoned(env: Env, s: Row, requests: seq<Request>)
    requires WellFormed(s) && s.phase == Completed && s.status == GivenUp
    ensures var t := Played(env, s, requests); t.phase == Completed && t.status == GivenUp
  {
    if requests != [] {
      CompletedStaysAbandoned(env, s, requests[..|requests| - 1]);
    }
  }

  lemma PlayedOne(env: Env, s: Row, requests: seq<Request>, r: Request)
    requires WellFormed(s)
    ensures Played(env, s, requests + [r]) == Applied(env, Played(env, s, requests), r)
  {
    assert (requests + [r])[..|requests|] == requests;
  }

  /** The requests that still bring an abandoned session to its verdict. */
  function Rescue(s: Row): seq<Request> {
    var speak := [Narrate("", {}), EndPitch(map[])];
    (match s.phase case Briefing => [StartPitch] + speak case Pitching => speak case _ => [])
    + [Deliberate(Some(seq(|s.personas|, _ => "")))]
  }

  lemma SpeakOpensQuestions(env: Env, s: Row, before: seq<Request>)
    requires WellFormed(s) && Played(env, s, before).phase == Pitching
    ensures Played(env, s, before + [Narrate("", {}), EndPitch(map[])]).phase == Qa
  {
    var t := Played(env, s, before);
    PlayedOne(env, s, before, Narrate("", {}));
    PlayedOne(env, s, before + [Narrate("", {})], EndPitch(map[]));
    assert before + [Narrate("", {})] + [EndPitch(map[])] == before + [Narrate("", {}), EndPitch(map[])];
    assert (t.turns + [Narration("")])[|t.turns|].Narration?;
  }

  /** The verdict comes once the session has reached its questions. */
  lemma VerdictCompletes(env: Env, s: Row, before: seq<Request>)
    requires WellFormed(s) && Played(env, s, before).phase in {Qa, FreeRound}
    ensures Played(env, s, before + [Deliberate(Some(seq(|s.personas|, _ => "")))]).status == Finished
  {
    PlayedOne(env, s, before, Deliberate(Some(seq(|s.personas|, _ => ""))));
  }

  lemma RescueCompletes(env: Env, s: Row)
    requires WellFormed(s) && s.phase in {Briefing, Pitching, Qa, FreeRound}
    ensures Played(env, s, Rescue(s)).status == Finished
  {
    var speak := [Narrate("", {}), EndPitch(map[])];
    if s.phase == Briefing {
      PlayedOne(env, s, [], StartPitch);
      assert [] + [StartPitch] == [StartPitch];
      SpeakOpensQuestions(env, s, [StartPitch]);
      VerdictCompletes(env, s, [StartPitch] + speak);
    } else if s.phase == Pitching {
      SpeakOpensQuestions(env, s, []);
      assert [] + speak == speak;
      VerdictCompletes(env, s, speak);
    } else {
      VerdictCompletes(env, s, []);
    }
  }

  /** Giving up is announced as final, but only writes the status: it stays for ever exactly when the verdict had
      already been given. */
  lemma AbandonIsFinalIff(env: Env, personas: seq<Persona>, quota: int, requests: seq<Request>)
    ensures var s := Applied(env, Played(env, Opened(personas, quota), requests), Abandon);
            (forall later :: Played(env, s, later).status == GivenUp) <==> s.phase == Completed
  {
    var s := Applied(env, Played(env, Opened(personas, quota), requests), Abandon);
    SessionsAreSound(env, personas, quota, requests);
    if s.phase == Completed {
      forall later
        ensures Played(env, s, later).status == GivenUp
      {
        CompletedStaysAbandoned(env, s, later);
      }
    } else {
      RescueCompletes(env, s);
    }
  }

  // ---- Convictions -----------------------------------------------------------------------------------------------

  ghost predicate Measured(convictions: map<string, int>) {
    forall n | n in convictions :: -2 <= convictions[n] <= 2
  }

  lemma {:induction false} ConvincedIsMeasured(convictions: map<string, int>, personas: seq<Persona>, weak: set<string>)
    requires Measured(convictions)
    ensures Measured(Convinced(convictions, personas, weak))
  {
    if personas != [] {
      ConvincedIsMeasured(convictions, personas[..|personas| - 1], weak);
    }
  }

  /** Convictions never leave [-2, 2], however long the pitch. */
  lemma {:induction false} ConvictionsStayMeasured(env: Env, personas: seq<Persona>, quota: int, requests: seq<Request>)
    ensures Measured(Played(env, Opened(personas, quota), requests).convictions)
  {
    if requests != [] {
      var t, r := Played(env, Opened(personas, quota), requests[..|requests| - 1]), requests[|requests| - 1];
      ConvictionsStayMeasured(env, personas, quota, requests[..|requests| - 1]);
      if r.Narrate? {
        ConvincedIsMeasured(t.convictions, t.personas, r.weak);
      } else if r.Respond? && t.phase == Qa {
        var k, count := RespondShape(env, t, r.text);
      }
    }
  }

  // ---- Every judge is heard ----------------------------------------------------------------------------------------

  /** The axis of the judge has no angle left. */
  ghost predicate Exhausted(env: Env, personas: seq<Persona>, asked: map<string, seq<string>>, name: string)
    requires HasName(personas, name)
  {
    var axis := Named(personas, name).obsession;
    forall a | a in Get(env.pools, axis) :: a in Get(asked, axis)
  }

  /** Whoever has left the microphone had asked its quota or had nothing left to ask. */
  ghost predicate Heard(env: Env, s: Row)
    requires WellFormed(s)
  {
    && (forall j | 0 <= j < s.index && j < |s.order| ::
          QuestionsBy(s.turns, s.order[j]) >= s.quota || Exhausted(env, s.personas, s.asked, s.order[j]))
    && (s.index < |s.order| ==> QuestionsBy(s.turns, s.order[s.index]) >= s.askedCount)
    && (s.phase == FreeRound ==> s.index >= |s.order|)
  }

  lemma NothingToAsk(env: Env, s: Row)
    requires WellFormed(s) && s.index < |s.order| && NextQuestion(env, s).None?
    ensures Exhausted(env, s.personas, s.asked, s.order[s.index])
  {
    var axis := Named(s.personas, s.order[s.index]).obsession;
    PickAngleSpec(Get(env.pools, axis), Get(s.asked, axis), Get(s.history, axis),
                  env.seed(s.index, s.askedCount, axis));
  }

  lemma HeardAsk(env: Env, s: Row)
    requires WellFormed(s) && Heard(env, s) && s.phase == Qa && NextQuestion(env, s).Some?
    ensures Heard(env, Asked(s, NextQuestion(env, s).value))
  {
    var q := NextQuestion(env, s).value;
    var t := Asked(s, q);
    forall j | 0 <= j < t.index && j < |t.order|
      ensures QuestionsBy(t.turns, t.order[j]) >= t.quota || Exhausted(env, t.personas, t.asked, t.order[j])
    {
      assert QuestionsBy(s.turns, s.order[j]) >= s.quota || Exhausted(env, s.personas, s.asked, s.order[j]);
    }
  }

  /** The microphone moves to place `k`: the judges it passes over had nothing to ask. */
  lemma HeardMove(env: Env, s: Row, k: nat)
    requires WellFormed(s) && Heard(env, s) && k > s.index
    requires s.index < |s.order| ==> s.askedCount >= s.quota || NextQuestion(env, s).None?
    requires PassedOver(env, s, s.index, k)
    ensures s.phase == Qa ==> Heard(env, s.(index := k, askedCount := 0))
    ensures k >= |s.order| ==> Heard(env, s.(index := k, askedCount := 0, phase := FreeRound))
  {
    forall j | 0 <= j < k && j < |s.order|
      ensures QuestionsBy(s.turns, s.order[j]) >= s.quota || Exhausted(env, s.personas, s.asked, s.order[j])
    {
      if j == s.index {
        if s.askedCount < s.quota {
          NothingToAsk(env, s);
        }
      } else if j > s.index {
        assert !Asks(env, s, j);
        NothingToAsk(env, s.(index := j, askedCount := 0));
      }
    }
  }

  lemma HeardRespond(env: Env, s: Row, text: string)
    requires WellFormed(s) && Heard(env, s) && s.phase == Qa
    ensures Heard(env, Applied(env, s, Respond(text)))
  {
    var t := s.(turns := s.turns + [Answer(text)]);
    var k, count := RespondShape(env, s, text);
    var a := t.(index := k, askedCount := count);
    if k > s.index {
      HeardMove(env, t, k);
    }
    if Applied(env, s, Respond(text)).phase == Qa {
      HeardAsk(env, a);
    }
  }

  lemma ClosedHeard(env: Env, s: Row, more: seq<Turn>)
    requires WellFormed(s) && Heard(env, s) && forall t | t in more :: !t.Question? && !t.Answer?
    ensures Heard(env, s.(phase := Completed, status := Finished, turns := s.turns + more))
  {
    CountOthers(s.turns, more);
  }

  lemma HeardConclude(env: Env, s: Row, verdicts: Option<seq<string>>)
    requires WellFormed(s) && Heard(env, s) && Succeeds(s, Deliberate(verdicts))
    ensures Heard(env, Applied(env, s, Deliberate(verdicts)))
  {
    var debate := Debate(s.personas, s.convictions);
    ClosedHeard(env, s, Exchanges(debate) + Verdicts(s.personas, verdicts.value));
    assert s.turns + (Exchanges(debate) + Verdicts(s.personas, verdicts.value))
        == s.turns + Exchanges(debate) + Verdicts(s.personas, verdicts.value);
  }

  lemma HeardStep(env: Env, s: Row, r: Request)
    requires Sound(env, s) && Heard(env, s)
    ensures Heard(env, Applied(env, s, r))
  {
    var t := Applied(env, s, r);
    if Succeeds(s, r) {
      match r
      case Narrate(text, weak) =>
      case EndPitch(past) =>
      case Respond(text) =>
        HeardRespond(env, s, text);
      case Deliberate(verdicts) =>
        HeardConclude(env, s, verdicts);
      case StartPitch =>
      case Abandon =>
    }
  }

  /** When the answers have led to the free round, every judge has asked its quota or exhausted its axis: nobody was
      passed over. */
  lemma {:induction false} CommitteeIsHeard(env: Env, personas: seq<Persona>, quota: int, requests: seq<Request>)
    ensures var s := Played(env, Opened(personas, quota), requests);
            Heard(env, s)
            && (s.phase == FreeRound ==> forall j | 0 <= j < |personas| ::
                  QuestionsBy(s.turns, personas[j].name) >= quota
                  || Exhausted(env, personas, s.asked, personas[j].name))
  {
    var s := Played(env, Opened(personas, quota), requests);
    if requests != [] {
      var t := Played(env, Opened(personas, quota), requests[..|requests| - 1]);
      CommitteeIsHeard(env, personas, quota, requests[..|requests| - 1]);
      SessionsAreSound(env, personas, quota, requests[..|requests| - 1]);
      HeardStep(env, t, requests[|requests| - 1]);
    }
    SessionsAreSound(env, personas, quota, requests);
    if s.phase == FreeRound {
      forall j | 0 <= j < |personas|
        ensures QuestionsBy(s.turns, personas[j].name) >= quota || Exhausted(env, personas, s.asked, personas[j].name)
      {
        assert s.order[j] == personas[j].name && j < s.index;
      }
    }
  }
}
