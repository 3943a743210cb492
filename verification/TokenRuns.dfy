/** Concurrent refreshes. A refresh is two steps: its first statement (which takes the row, or selects the rows to cut)
    and its commit; other transactions may run in between, waiting only for rows already taken. */
module TokenRuns {
  import opened Tokens

  datatype Transaction =
    | Rotating(hash: nat)
    | Cutting(user: nat, marks: set<nat>)

  /** `parent`, `chain` and `logins` are bookkeeping: the token a rotation replaced, the rank of the login a token
      descends from, and the number of logins so far. */
  datatype World = World(
    rows: Rows,
    parent: map<nat, nat>,
    chain: map<nat, nat>,
    logins: nat,
    pending: map<nat, Transaction>)

  datatype Step =
    | Login(user: nat, next: nat, expiresAt: int)
    | Logout(hash: nat)
    | Begin(tx: nat, hash: nat)
    | Issue(tx: nat, next: nat, expiresAt: int)
    | Cut(tx: nat)
    | Rollback(tx: nat)

  predicate Locked(w: World, h: nat) {
    exists tx :: tx in w.pending && w.pending[tx] == Rotating(h)
  }

  predicate Enabled(w: World, s: Step) {
    match s
    case Login(_, next, _) => next !in w.rows
    case Logout(h) => !Locked(w, h)
    case Begin(tx, h) => tx !in w.pending && !Locked(w, h)
    case Issue(tx, next, _) => tx in w.pending && w.pending[tx].Rotating? && next !in w.rows
    case Cut(tx) => tx in w.pending && w.pending[tx].Cutting? && forall h | h in w.pending[tx].marks :: !Locked(w, h)
    case Rollback(tx) => tx in w.pending
  }

  function After(w: World, s: Step): World
    requires Enabled(w, s) && (s.Issue? ==> w.pending[s.tx].hash in w.rows && w.pending[s.tx].hash in w.chain)
  {
    match s
    case Login(user, next, expiresAt) =>
      w.(rows := w.rows[next := Token(user, expiresAt, false)], chain := w.chain[next := w.logins],
         logins := w.logins + 1)
    case Logout(h) => w.(rows := if Active(w.rows, h) then Revoked(w.rows, {h}) else w.rows)
    case Begin(tx, h) =>
      if h !in w.rows then w
      else if w.rows[h].revoked then
        w.(pending := w.pending[tx := Cutting(w.rows[h].user, ActiveOf(w.rows, w.rows[h].user))])
      else w.(pending := w.pending[tx := Rotating(h)])
    case Issue(tx, next, expiresAt) =>
      var h := w.pending[tx].hash;
      World(Rotated(w.rows, h, next, expiresAt), w.parent[next := h], w.chain[next := w.chain[h]], w.logins,
            w.pending - {tx})
    case Cut(tx) => w.(rows := Revoked(w.rows, w.pending[tx].marks), pending := w.pending - {tx})
    case Rollback(tx) => w.(pending := w.pending - {tx})
  }

  // ---- The invariant -----------------------------------------------------------------------------------------------

  ghost predicate Replaced(w: World, c: nat)
    requires c in w.parent
  {
    var p := w.parent[c];
    c in w.rows && p in w.rows && w.rows[p].revoked && w.rows[c].user == w.rows[p].user
    && c in w.chain && p in w.chain && w.chain[c] == w.chain[p]
  }

  /** A rotation replaces one token, once, by a token of the same user and the same login. */
  ghost predicate Lineage(w: World) {
    && (forall h | h in w.rows :: h in w.chain && w.chain[h] < w.logins)
    && (forall c | c in w.parent :: Replaced(w, c))
    && (forall c, d | c in w.parent && d in w.parent && w.parent[c] == w.parent[d] :: c == d)
  }

  ghost predicate OneActive(w: World) {
    forall h, k | Active(w.rows, h) && Active(w.rows, k) && h in w.chain && k in w.chain && w.chain[h] == w.chain[k] ::
      h == k
  }

  /** Whoever rotates a token holds its row alone, and the row is still active for everybody else. */
  ghost predicate Exclusive(w: World) {
    && (forall t | t in w.pending && w.pending[t].Rotating? :: Active(w.rows, w.pending[t].hash))
    && (forall t, u | t in w.pending && u in w.pending && w.pending[t].Rotating? && w.pending[t] == w.pending[u] ::
          t == u)
  }

  ghost predicate Secure(w: World) {
    Lineage(w) && OneActive(w) && Exclusive(w)
  }

  /** A token that descends from no active one joins the store. */
  lemma AddKeeps(w: World, next: nat, token: Token, login: nat)
    requires Secure(w) && next !in w.rows && login < w.logins
    requires forall k | Active(w.rows, k) && k in w.chain :: w.chain[k] != login
    ensures Secure(w.(rows := w.rows[next := token], chain := w.chain[next := login]))
  {
    var t := w.(rows := w.rows[next := token], chain := w.chain[next := login]);
    forall c | c in t.parent
      ensures Replaced(t, c)
    {
      assert Replaced(w, c);
    }
    forall u | u in t.pending && t.pending[u].Rotating?
      ensures Active(t.rows, t.pending[u].hash)
    {
      assert Active(w.rows, w.pending[u].hash);
    }
    forall k | Active(t.rows, k) && k != next
      ensures Active(w.rows, k) && t.chain[k] == w.chain[k]
    {
    }
  }

  lemma AdoptKeeps(w: World, c: nat, p: nat)
    requires Secure(w) && c !in w.parent && (forall d | d in w.parent :: w.parent[d] != p)
    requires Replaced(w.(parent := w.parent[c := p]), c)
    ensures Secure(w.(parent := w.parent[c := p]))
  {
    var t := w.(parent := w.parent[c := p]);
    forall d | d in t.parent && d != c
      ensures Replaced(t, d)
    {
      assert Replaced(w, d);
    }
  }

  lemma NewLogin(w: World)
    requires Secure(w)
    ensures Secure(w.(logins := w.logins + 1))
    ensures forall k | Active(w.rows, k) && k in w.chain :: w.chain[k] != w.logins
  {
    forall c | c in w.parent
      ensures Replaced(w.(logins := w.logins + 1), c)
    {
      assert Replaced(w, c);
    }
  }

  lemma LoginKeeps(w: World, s: Step)
    requires Secure(w) && s.Login? && Enabled(w, s)
    ensures Secure(After(w, s))
  {
    NewLogin(w);
    AddKeeps(w.(logins := w.logins + 1), s.next, Token(s.user, s.expiresAt, false), w.logins);
  }

  lemma RevokeKeepsExclusive(w: World, marks: set<nat>)
    requires Exclusive(w) && forall h | h in marks :: !Locked(w, h)
    ensures Exclusive(w.(rows := Revoked(w.rows, marks)))
  {
    forall t | t in w.pending && w.pending[t].Rotating?
      ensures w.pending[t].hash !in marks
    {
      assert Locked(w, w.pending[t].hash);
    }
  }

  /** Revoking rows that no rotation holds. */
  lemma RevokeKeeps(w: World, marks: set<nat>)
    requires Secure(w) && forall h | h in marks :: !Locked(w, h)
    ensures Secure(w.(rows := Revoked(w.rows, marks)))
  {
    RevokeKeepsExclusive(w, marks);
    assert forall h | Active(Revoked(w.rows, marks), h) :: Active(w.rows, h);
  }

  lemma BeginKeeps(w: World, s: Step)
    requires Secure(w) && s.Begin? && Enabled(w, s)
    ensures Secure(After(w, s))
  {
    var t := After(w, s);
    if s.hash in w.rows && !w.rows[s.hash].revoked {
      forall u | u in w.pending && w.pending[u].Rotating?
        ensures w.pending[u] != Rotating(s.hash)
      {
        assert !Locked(w, s.hash);
      }
    }
  }

  lemma IssueKeeps(w: World, s: Step)
    requires Secure(w) && s.Issue? && Enabled(w, s)
    ensures Secure(After(w, s))
  {
    var h, login := w.pending[s.tx].hash, w.chain[w.pending[s.tx].hash];
    assert Active(w.rows, h);
    var a := w.(pending := w.pending - {s.tx});
    assert !Locked(a, h);
    var b := a.(rows := Revoked(a.rows, {h}));
    RevokeKeeps(a, {h});
    forall k | Active(b.rows, k) && k in b.chain
      ensures b.chain[k] != login
    {
      assert Active(w.rows, k);
    }
    forall d | d in b.parent
      ensures b.parent[d] != h && d in b.rows
    {
      assert Replaced(w, d);
    }
    var token := Token(w.rows[h].user, s.expiresAt, false);
    AddKeeps(b, s.next, token, login);
    AdoptKeeps(b.(rows := b.rows[s.next := token], chain := b.chain[s.next := login]), s.next, h);
  }

  lemma SecureStep(w: World, s: Step)
    requires Secure(w) && Enabled(w, s)
    ensures Secure(After(w, s))
  {
    match s
    case Login(_, _, _) => LoginKeeps(w, s);
    case Logout(h) =>
      if Active(w.rows, h) {
        RevokeKeeps(w, {h});
      }
    case Begin(_, _) => BeginKeeps(w, s);
    case Issue(_, _, _) => IssueKeeps(w, s);
    case Cut(tx) =>
      RevokeKeeps(w, w.pending[tx].marks);
    case Rollback(tx) =>
  }

  /** Alone in the store, the two steps of a refresh leave what the sequential method leaves. */
  lemma RefreshIsTwoSteps(w: World, tx: nat, h: nat, now: int, accountActive: bool, next: nat, expiresAt: int)
    requires Secure(w) && w.pending == map[] && next !in w.rows
    ensures Enabled(w, Begin(tx, h))
    ensures var r, b := OutcomeOf(w.rows, h, now, accountActive), After(w, Begin(tx, h));
            var second := match r
                          case Issued => Issue(tx, next, expiresAt)
                          case Reused => Cut(tx)
                          case _ => Rollback(tx);
            if r == Unknown then b == w && Refreshed(w.rows, h, now, accountActive, next, expiresAt) == w.rows
            else Enabled(b, second) && Secure(b) && After(b, second).pending == map[]
                 && After(b, second).rows == Refreshed(w.rows, h, now, accountActive, next, expiresAt)
  {
    assert !Locked(w, h);
    SecureStep(w, Begin(tx, h));
    var b := After(w, Begin(tx, h));
    if h in w.rows && w.rows[h].revoked {
      assert b.pending == map[tx := Cutting(w.rows[h].user, ActiveOf(w.rows, w.rows[h].user))];
    } else if h in w.rows {
      assert b.pending == map[tx := Rotating(h)];
    }
  }

  // ---- Runs --------------------------------------------------------------------------------------------------------

  /** `w` leads to `t` by the steps, in order. */
  ghost predicate Leads(w: World, steps: seq<Step>, t: World)
    requires Secure(w)
    decreases |steps|
  {
    if steps == [] then t == w
    else Enabled(w, steps[0]) && (SecureStep(w, steps[0]); Leads(After(w, steps[0]), steps[1..], t))
  }

  const EMPTY_STORE := World(map[], map[], map[], 0, map[])

  lemma {:induction false} LeadsSecure(w: World, steps: seq<Step>, t: World)
    requires Secure(w) && Leads(w, steps, t)
    ensures Secure(t)
    decreases |steps|
  {
    if steps != [] {
      SecureStep(w, steps[0]);
      LeadsSecure(After(w, steps[0]), steps[1..], t);
    }
  }

  /** In every interleaving each token yields at most one new pair, and each login keeps at most one active token. */
  lemma TokensAreSecure(steps: seq<Step>, t: World)
    requires Leads(EMPTY_STORE, steps, t)
    ensures forall c, d | c in t.parent && d in t.parent && t.parent[c] == t.parent[d] :: c == d
    ensures OneActive(t)
    ensures forall c | c in t.parent :: Replaced(t, c)
  {
    LeadsSecure(EMPTY_STORE, steps, t);
  }

  // ---- What a replay cuts ------------------------------------------------------------------------------------------

  /** Later stores remember every token, and no token comes back. */
  ghost predicate Extends(w: World, t: World) {
    forall h | h in w.rows ::
      h in t.rows && t.rows[h].user == w.rows[h].user && (w.rows[h].revoked ==> t.rows[h].revoked)
  }

  lemma StepExtends(w: World, s: Step)
    requires Secure(w) && Enabled(w, s)
    ensures Extends(w, After(w, s))
  {
  }

  lemma {:induction false} LeadsExtends(w: World, steps: seq<Step>, t: World)
    requires Secure(w) && Leads(w, steps, t)
    ensures Extends(w, t)
    decreases |steps|
  {
    if steps != [] {
      SecureStep(w, steps[0]);
      StepExtends(w, steps[0]);
      LeadsExtends(After(w, steps[0]), steps[1..], t);
    }
  }

  predicate Touches(s: Step, tx: nat) {
    match s
    case Login(_, _, _) => false
    case Logout(_) => false
    case Begin(u, _) => u == tx
    case Issue(u, _, _) => u == tx
    case Cut(u) => u == tx
    case Rollback(u) => u == tx
  }

  lemma {:induction false} LeadsHolds(w: World, steps: seq<Step>, t: World, tx: nat)
    requires Secure(w) && Leads(w, steps, t) && tx in w.pending && forall s | s in steps :: !Touches(s, tx)
    ensures tx in t.pending && t.pending[tx] == w.pending[tx]
    decreases |steps|
  {
    if steps != [] {
      SecureStep(w, steps[0]);
      assert !Touches(steps[0], tx);
      LeadsHolds(After(w, steps[0]), steps[1..], t, tx);
    }
  }

  /** A replayed token cuts every token its user had when the replay was noticed; the tokens left after the commit
      are exactly those issued to the user in the meantime. */
  lemma ReplaySurvivors(w: World, tx: nat, h: nat, steps: seq<Step>, t: World)
    requires Secure(w) && Enabled(w, Begin(tx, h)) && h in w.rows && w.rows[h].revoked
    requires Secure(After(w, Begin(tx, h))) && Leads(After(w, Begin(tx, h)), steps, t)
    requires (forall s | s in steps :: !Touches(s, tx)) && Enabled(t, Cut(tx))
    ensures var user := w.rows[h].user;
            ActiveOf(After(t, Cut(tx)).rows, user) == set k | k in ActiveOf(t.rows, user) && k !in w.rows
  {
    var b := After(w, Begin(tx, h));
    LeadsHolds(b, steps, t, tx);
    LeadsExtends(b, steps, t);
    var user := w.rows[h].user;
    forall k | k in ActiveOf(t.rows, user) && k in w.rows
      ensures k in t.pending[tx].marks
    {
      assert Active(w.rows, k);
    }
  }

  function Session(user: nat, revoked: bool): Token {
    Token(user, 100, revoked)
  }

  const IDLE: map<nat, Transaction> := map[]

  /** A user logs in twice and closes the first session; then the second one is being rotated, a replay of the first is
      noticed, the rotation commits, and the replay commits. */
  function Scene(user: nat, at: nat): World {
    var closed, current := Session(user, true), Session(user, false);
    if at == 0 then EMPTY_STORE
    else if at == 1 then World(map[0 := current], map[], map[0 := 0], 1, IDLE)
    else if at == 2 then World(map[0 := current, 1 := current], map[], map[0 := 0, 1 := 1], 2, IDLE)
    else if at <= 5 then
      World(map[0 := closed, 1 := current], map[], map[0 := 0, 1 := 1], 2,
            if at == 3 then IDLE
            else if at == 4 then map[10 := Rotating(1)]
            else map[10 := Rotating(1), 11 := Cutting(user, {1})])
    else
      World(map[0 := closed, 1 := closed, 2 := current], map[2 := 1], map[0 := 0, 1 := 1, 2 := 1], 2,
            if at == 6 then map[11 := Cutting(user, {1})] else IDLE)
  }

  function SceneStep(user: nat, at: nat): Step {
    if at == 0 then Login(user, 0, 100)
    else if at == 1 then Login(user, 1, 100)
    else if at == 2 then Step.Logout(0)
    else if at == 3 then Begin(10, 1)
    else if at == 4 then Begin(11, 0)
    else if at == 5 then Issue(10, 2, 100)
    else Cut(11)
  }

  /** The step of the scene is allowed and leads to its next state. */
  ghost predicate SceneGoes(user: nat, at: nat) {
    var w, s := Scene(user, at), SceneStep(user, at);
    && Enabled(w, s) && (s.Issue? ==> w.pending[s.tx].hash in w.rows && w.pending[s.tx].hash in w.chain)
    && After(w, s) == Scene(user, at + 1)
  }

  lemma SceneGoesOn(user: nat, at: nat)
    requires at < 7
    ensures SceneGoes(user, at)
  {
    if at == 4 {
      assert ActiveOf(Scene(user, 4).rows, user) == {1};
    }
  }

  lemma {:induction false} SceneIsSecure(user: nat, at: nat)
    requires at <= 7
    ensures Secure(Scene(user, at))
  {
    if at > 0 {
      SceneIsSecure(user, at - 1);
      SceneGoesOn(user, at - 1);
      SecureStep(Scene(user, at - 1), SceneStep(user, at - 1));
    }
  }

  function StepsFrom(step: nat -> Step, at: nat, n: nat): seq<Step>
    requires at <= n
    decreases n - at
  {
    if at == n then [] else [step(at)] + StepsFrom(step, at + 1, n)
  }

  ghost predicate Moves(world: nat -> World, step: nat -> Step, at: nat) {
    && Secure(world(at)) && Enabled(world(at), step(at))
    && Secure(world(at + 1)) && After(world(at), step(at)) == world(at + 1)
  }

  lemma {:induction false} MovesLead(world: nat -> World, step: nat -> Step, at: nat, n: nat)
    requires at <= n && Secure(world(n)) && forall i: nat | i < n :: Moves(world, step, i)
    ensures Secure(world(at)) && Leads(world(at), StepsFrom(step, at, n), world(n))
    decreases n - at
  {
    if at < n {
      assert Moves(world, step, at);
      MovesLead(world, step, at + 1, n);
    }
  }

  /** The scene is a run of the store from its opening: every step was allowed when it was taken. */
  lemma SceneLeads(user: nat)
    ensures Secure(Scene(user, 0))
            && Leads(Scene(user, 0), StepsFrom((i: nat) => SceneStep(user, i), 0, 7), Scene(user, 7))
  {
    var world, step := (i: nat) => Scene(user, i), (i: nat) => SceneStep(user, i);
    forall i: nat | i < 7
      ensures Moves(world, step, i)
    {
      SceneIsSecure(user, i);
      SceneIsSecure(user, i + 1);
      SceneGoesOn(user, i);
    }
    SceneIsSecure(user, 7);
    MovesLead(world, step, 0, 7);
  }

  /** So the promise that a replay leaves the user without a session fails when another session of the user is being
      rotated at that moment: the scene starts from the empty store and ends with nothing pending, and the token
      obtained has escaped the cut. */
  lemma RotationEscapesTheCut(user: nat)
    ensures Scene(user, 0) == EMPTY_STORE && Scene(user, 7).pending == IDLE
    ensures ActiveOf(Scene(user, 3).rows, user) == {1} && Scene(user, 3).rows[0].revoked
    ensures ActiveOf(Scene(user, 7).rows, user) == {2}
  {
  }
}
