/** The silent committee: phases, choice of an angle and order of speech (`pitchsim/orchestrator.py`). The pool of
    angles and the hash that varies the choice are parameters. */
module Orchestrator {
  import opened Options

  datatype Phase = Briefing | Pitching | Qa | FreeRound | Deliberating | Completed | Abandoned

  predicate CanTransition(current: Phase, target: Phase) {
    match current
    case Briefing => target in {Pitching, Abandoned}
    case Pitching => target in {Qa, Abandoned}
    case Qa => target in {FreeRound, Abandoned}
    case FreeRound => target in {Deliberating, Abandoned}
    case Deliberating => target == Completed
    case Completed => false
    case Abandoned => false
  }

  /** The moves between phases and no others. */
  lemma PhasesAre(p: Phase, q: Phase)
    ensures CanTransition(p, q)
            <==> (p, q) in {(Briefing, Pitching), (Briefing, Abandoned), (Pitching, Qa), (Pitching, Abandoned),
                            (Qa, FreeRound), (Qa, Abandoned), (FreeRound, Deliberating), (FreeRound, Abandoned),
                            (Deliberating, Completed)}
  {
  }

  datatype Persona = Persona(name: string, obsession: string)

  /** `pools` gives the angles of each axis; `seed` is the hash of (judge, questions already asked, axis). */
  datatype Env = Env(pools: map<string, seq<string>>, seed: (nat, nat, string) -> nat)

  function Get(m: map<string, seq<string>>, key: string): seq<string> {
    if key in m then m[key] else []
  }

  // ---- The angle of a question ---------------------------------------------------------------------------

  function Without(pool: seq<string>, intra: seq<string>, hist: seq<string>): seq<string> {
    if pool == [] then []
    else
      var rest, a := Without(pool[..|pool| - 1], intra, hist), pool[|pool| - 1];
      if a in intra || a in hist then rest else rest + [a]
  }

  lemma {:induction false} WithoutIs(pool: seq<string>, intra: seq<string>, hist: seq<string>)
    ensures forall a :: a in Without(pool, intra, hist) <==> a in pool && a !in intra && a !in hist
  {
    if pool != [] {
      WithoutIs(pool[..|pool| - 1], intra, hist);
      assert pool == pool[..|pool| - 1] + [pool[|pool| - 1]];
    }
  }

  function PickAngle(pool: seq<string>, intra: seq<string>, hist: seq<string>, n: nat): Option<string> {
    var left := LeftOver(pool, intra, hist);
    if left == [] then None else Some(left[n % |left|])
  }

  /** No angle is asked twice in a session; an angle of a previous session is asked only when the axis has no
      other left; nothing is asked only when the axis is exhausted. */
  lemma PickAngleSpec(pool: seq<string>, intra: seq<string>, hist: seq<string>, n: nat)
    ensures var r := PickAngle(pool, intra, hist, n);
            && (r.None? <==> forall a | a in pool :: a in intra)
            && (r.Some? ==> r.value in pool && r.value !in intra)
            && (r.Some? && r.value in hist ==> forall a | a in pool && a !in hist :: a in intra)
  {
    var unseen := Without(pool, intra, hist);
    WithoutIs(pool, intra, hist);
    WithoutIs(pool, intra, []);
    if unseen != [] {
      assert unseen[0] in unseen;
      assert unseen[n % |unseen|] in unseen;
    } else {
      var left := Without(pool, intra, []);
      forall a | a in pool && a !in hist
        ensures a in intra
      {
        assert a !in unseen;
      }
      if left != [] {
        assert left[0] in left;
        assert left[n % |left|] in left;
      } else {
        forall a | a in pool
          ensures a in intra
        {
          assert a !in left;
        }
      }
    }
  }

  /** With nothing asked yet, here or before, the seed picks its rank in the pool, round and round. */
  lemma {:induction false} FreshPick(pool: seq<string>, n: nat)
    ensures PickAngle(pool, [], [], n) == if pool == [] then None else Some(pool[n % |pool|])
  {
    WithoutNothing(pool);
  }

  lemma {:induction false} WithoutNothing(pool: seq<string>)
    ensures Without(pool, [], []) == pool
  {
    if pool != [] {
      WithoutNothing(pool[..|pool| - 1]);
    }
  }

  lemma {:induction false} WithoutConcat(a: seq<string>, b: seq<string>, intra: seq<string>, hist: seq<string>)
    ensures Without(a + b, intra, hist) == Without(a, intra, hist) + Without(b, intra, hist)
  {
    if b == [] {
      assert a + b == a;
    } else {
      var n := |b| - 1;
      WithoutConcat(a, b[..n], intra, hist);
      assert (a + b)[..|a| + n] == a + b[..n];
    }
  }

  function LeftOver(pool: seq<string>, intra: seq<string>, hist: seq<string>): seq<string> {
    var unseen := Without(pool, intra, hist);
    if unseen != [] then unseen else Without(pool, intra, [])
  }

  lemma LeftOverHas(pool: seq<string>, intra: seq<string>, hist: seq<string>, a: string)
    requires a in pool && a !in intra && (a !in hist || forall b | b in pool && b !in hist :: b in intra)
    ensures a in LeftOver(pool, intra, hist)
  {
    WithoutIs(pool, intra, hist);
    WithoutIs(pool, intra, []);
    var unseen := Without(pool, intra, hist);
    if unseen != [] {
      assert unseen[0] in unseen;
    }
  }

  lemma PlaceOf(left: seq<string>, a: string) returns (n: nat)
    requires a in left
    ensures n < |left| && left[n % |left|] == a
  {
    n :| 0 <= n < |left| && left[n] == a;
    assert n % |left| == n;
  }

  /** Every angle that may be asked is asked for some seed. */
  lemma EveryAngleIsPicked(pool: seq<string>, intra: seq<string>, hist: seq<string>, a: string) returns (n: nat)
    requires a in pool && a !in intra && (a !in hist || forall b | b in pool && b !in hist :: b in intra)
    ensures PickAngle(pool, intra, hist, n) == Some(a)
  {
    LeftOverHas(pool, intra, hist, a);
    n := PlaceOf(LeftOver(pool, intra, hist), a);
  }

  // ---- The committee ---------------------------------------------------------------------------------------

  predicate HasName(personas: seq<Persona>, name: string) {
    exists i :: 0 <= i < |personas| && personas[i].name == name
  }

  /** The first judge of that name. */
  function Named(personas: seq<Persona>, name: string): (p: Persona)
    requires HasName(personas, name)
    ensures p in personas && p.name == name
  {
    if personas[0].name == name then personas[0] else Named(personas[1..], name)
  }

  lemma {:induction false} NamedIsFirst(personas: seq<Persona>, i: nat)
    requires i < |personas| && forall j | 0 <= j < i :: personas[j].name != personas[i].name
    ensures HasName(personas, personas[i].name) && Named(personas, personas[i].name) == personas[i]
  {
    assert HasName(personas, personas[i].name);
    if i > 0 {
      assert personas[1..][i - 1] == personas[i];
      NamedIsFirst(personas[1..], i - 1);
    }
  }

  function Names(personas: seq<Persona>): (r: seq<string>)
    ensures |r| == |personas| && forall n | n in r :: HasName(personas, n)
    ensures forall i | 0 <= i < |personas| :: r[i] == personas[i].name
  {
    seq(|personas|, i requires 0 <= i < |personas| => personas[i].name)
  }

  function Conviction(convictions: map<string, int>, name: string): int {
    if name in convictions then convictions[name] else 0
  }

  function Clamp(x: int): (r: int)
    ensures -2 <= r <= 2
  {
    if x > 2 then 2 else if x < -2 then -2 else x
  }

  /** Convictions after a narration that is weak on the axes `weak`. */
  function Convinced(convictions: map<string, int>, personas: seq<Persona>, weak: set<string>): map<string, int> {
    if personas == [] then convictions
    else
      var c, p := Convinced(convictions, personas[..|personas| - 1], weak), personas[|personas| - 1];
      c[p.name := Clamp(Conviction(c, p.name) + if p.obsession in weak then -1 else 1)]
  }

  method UpdateConvictions(convictions: map<string, int>, personas: seq<Persona>, weak: set<string>)
    returns (updated: map<string, int>)
    ensures updated == Convinced(convictions, personas, weak)
  {
    updated := convictions;
    for n := 0 to |personas|
      invariant updated == Convinced(convictions, personas[..n], weak)
    {
      var p := personas[n];
      assert personas[..n + 1][..n] == personas[..n];
      var delta := if p.obsession in weak then -1 else 1;
      updated := updated[p.name := Clamp(Conviction(updated, p.name) + delta)];
    }
    assert personas[..|personas|] == personas;
  }

  /** A narration moves every judge by one, down when its obsession is weak, within [-2, 2]; nobody else moves. */
  lemma {:induction false} ConvictionsMove(convictions: map<string, int>, personas: seq<Persona>, weak: set<string>)
    requires forall i, j | 0 <= i < j < |personas| :: personas[i].name != personas[j].name
    ensures var c := Convinced(convictions, personas, weak);
            && (forall i | 0 <= i < |personas| :: Conviction(c, personas[i].name)
                  == Clamp(Conviction(convictions, personas[i].name) + if personas[i].obsession in weak then -1 else 1))
            && (forall name | !HasName(personas, name) :: Conviction(c, name) == Conviction(convictions, name))
  {
    if personas != [] {
      var r, p := personas[..|personas| - 1], personas[|personas| - 1];
      ConvictionsMove(convictions, r, weak);
      assert forall i | 0 <= i < |r| :: r[i] == personas[i];
      assert !HasName(r, p.name);
      forall name | !HasName(personas, name)
        ensures name != p.name && !HasName(r, name)
      {
        assert personas[|personas| - 1].name == p.name;
      }
    }
  }

  /** One step down from a weak narration, one step up from another, and no further than two either way. */
  lemma OneStep(convictions: map<string, int>, personas: seq<Persona>, weak: set<string>, i: nat)
    requires forall j, k | 0 <= j < k < |personas| :: personas[j].name != personas[k].name
    requires i < |personas| && -2 <= Conviction(convictions, personas[i].name) <= 2
    ensures var before := Conviction(convictions, personas[i].name);
            Conviction(Convinced(convictions, personas, weak), personas[i].name)
            == if personas[i].obsession in weak then (if before == -2 then -2 else before - 1)
               else if before == 2 then 2 else before + 1
  {
    ConvictionsMove(convictions, personas, weak);
  }

  /** Place of the first judge of least `key`, as the library `min` chooses. */
  function FirstLeast(personas: seq<Persona>, key: Persona -> int): (i: nat)
    requires personas != []
    ensures i < |personas| && (forall j | 0 <= j < |personas| :: key(personas[i]) <= key(personas[j]))
    ensures forall j | 0 <= j < i :: key(personas[i]) < key(personas[j])
  {
    var n := |personas| - 1;
    if n == 0 then 0
    else
      var i := FirstLeast(personas[..n], key);
      assert forall j | 0 <= j < n :: personas[..n][j] == personas[j];
      if key(personas[n]) < key(personas[i]) then n else i
  }

  /** `p` is the judge at place `i`, nobody is below it and everybody before it is above, by `key`. */
  ghost predicate IsFirstLeast(personas: seq<Persona>, key: Persona -> int, i: int, p: Persona) {
    && 0 <= i < |personas| && personas[i] == p
    && (forall j | 0 <= j < |personas| :: key(p) <= key(personas[j]))
    && (forall j | 0 <= j < i :: key(p) < key(personas[j]))
  }

  function Warmth(convictions: map<string, int>): Persona -> int {
    (p: Persona) => Conviction(convictions, p.name)
  }

  function Coldness(convictions: map<string, int>): Persona -> int {
    (p: Persona) => -Conviction(convictions, p.name)
  }

  /** The first judge of lowest conviction. */
  function Skeptic(personas: seq<Persona>, convictions: map<string, int>): (p: Persona)
    requires personas != []
    ensures exists i :: IsFirstLeast(personas, Warmth(convictions), i, p)
  {
    var i := FirstLeast(personas, Warmth(convictions));
    assert IsFirstLeast(personas, Warmth(convictions), i, personas[i]);
    personas[i]
  }

  /** The first judge of highest conviction. */
  function Champion(personas: seq<Persona>, convictions: map<string, int>): (p: Persona)
    requires personas != []
    ensures exists i :: IsFirstLeast(personas, Coldness(convictions), i, p)
  {
    var i := FirstLeast(personas, Coldness(convictions));
    assert IsFirstLeast(personas, Coldness(convictions), i, personas[i]);
    personas[i]
  }

  /** Who speaks in the free round: the most sceptical judge, then the most convinced if it is another one. */
  function Debate(personas: seq<Persona>, convictions: map<string, int>): seq<string> {
    if personas == [] then []
    else
      var s, c := Skeptic(personas, convictions), Champion(personas, convictions);
      if c.name != s.name then [s.name, c.name] else [s.name]
  }

  /** `name` is that of the first judge nobody is less convinced than. */
  ghost predicate IsColdest(personas: seq<Persona>, convictions: map<string, int>, name: string, i: int) {
    && 0 <= i < |personas| && personas[i].name == name
    && (forall j | 0 <= j < |personas| :: Conviction(convictions, name) <= Conviction(convictions, personas[j].name))
    && (forall j | 0 <= j < i :: Conviction(convictions, name) < Conviction(convictions, personas[j].name))
  }

  /** `name` is that of the first judge nobody is more convinced than. */
  ghost predicate IsWarmest(personas: seq<Persona>, convictions: map<string, int>, name: string, i: int) {
    && 0 <= i < |personas| && personas[i].name == name
    && (forall j | 0 <= j < |personas| :: Conviction(convictions, name) >= Conviction(convictions, personas[j].name))
    && (forall j | 0 <= j < i :: Conviction(convictions, name) > Conviction(convictions, personas[j].name))
  }

  /** The first to speak is the least convinced judge, and the most convinced one answers, if it is another. */
  lemma DebateIs(personas: seq<Persona>, convictions: map<string, int>) returns (i: int, j: int)
    requires personas != []
    ensures var d := Debate(personas, convictions);
            && 1 <= |d| <= 2 && IsColdest(personas, convictions, d[0], i)
            && IsWarmest(personas, convictions, d[|d| - 1], j) && (|d| == 2 ==> d[0] != d[1])
    ensures Debate([], convictions) == []
  {
    var s, c := Skeptic(personas, convictions), Champion(personas, convictions);
    i :| IsFirstLeast(personas, Warmth(convictions), i, s);
    j :| IsFirstLeast(personas, Coldness(convictions), j, c);
    assert forall p :: Warmth(convictions)(p) == Conviction(convictions, p.name);
    assert forall p :: Coldness(convictions)(p) == -Conviction(convictions, p.name);
  }
}
