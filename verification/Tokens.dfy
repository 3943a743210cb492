/** Refresh tokens (`iam/repository.py`, `iam/service.py`). Tokens are named by their hash; a new token has a hash
    never stored before. */
module Tokens {

  datatype Token = Token(user: nat, expiresAt: int, revoked: bool)

  type Rows = map<nat, Token>

  predicate Active(rows: Rows, h: nat) {
    h in rows && !rows[h].revoked
  }

  function Revoked(rows: Rows, marks: set<nat>): Rows {
    map h | h in rows :: if h in marks then rows[h].(revoked := true) else rows[h]
  }

  function ActiveOf(rows: Rows, user: nat): set<nat> {
    set h | h in rows && rows[h].user == user && !rows[h].revoked
  }

  /** The rotation of `h` into `next`. */
  function Rotated(rows: Rows, h: nat, next: nat, expiresAt: int): Rows
    requires h in rows
  {
    Revoked(rows, {h})[next := Token(rows[h].user, expiresAt, false)]
  }

  datatype Outcome = Issued | Reused | Unknown | Expired | Inactive

  /** What a refresh answers, and what it leaves committed. */
  function OutcomeOf(rows: Rows, h: nat, now: int, accountActive: bool): Outcome {
    if h !in rows then Unknown
    else if rows[h].revoked then Reused
    else if rows[h].expiresAt < now then Expired
    else if !accountActive then Inactive
    else Issued
  }

  function Refreshed(rows: Rows, h: nat, now: int, accountActive: bool, next: nat, expiresAt: int): Rows {
    match OutcomeOf(rows, h, now, accountActive)
    case Issued => Rotated(rows, h, next, expiresAt)
    case Reused => Revoked(rows, ActiveOf(rows, rows[h].user))
    case _ => rows
  }

  class TokenStore {
    var rows: Rows

    constructor ()
      ensures rows == map[]
    {
      rows := map[];
    }

    method Add(h: nat, user: nat, expiresAt: int)
      requires h !in rows
      modifies this
      ensures rows == old(rows)[h := Token(user, expiresAt, false)]
    {
      rows := rows[h := Token(user, expiresAt, false)];
    }

    /** One conditional update: the row is returned only to the transaction that revoked it. */
    method ConsumeIfActive(h: nat) returns (ok: bool, user: nat, expiresAt: int)
      modifies this
      ensures ok == Active(old(rows), h)
      ensures ok ==> user == old(rows)[h].user && expiresAt == old(rows)[h].expiresAt
      ensures rows == if ok then Revoked(old(rows), {h}) else old(rows)
    {
      ok, user, expiresAt := Active(rows, h), 0, 0;
      if ok {
        user, expiresAt := rows[h].user, rows[h].expiresAt;
        ghost var before := rows;
        rows := rows[h := rows[h].(revoked := true)];
        assert rows == Revoked(before, {h});
      }
    }

    method RevokeAllForUser(user: nat)
      modifies this
      ensures rows == Revoked(old(rows), ActiveOf(old(rows), user))
    {
      var selected := ActiveOf(rows, user);
      var left := selected;
      assert rows == Revoked(rows, {});
      while left != {}
        invariant left <= selected <= rows.Keys
        invariant rows == Revoked(old(rows), selected - left)
        decreases |left|
      {
        var h :| h in left;
        rows := rows[h := rows[h].(revoked := true)];
        left := left - {h};
      }
      assert selected - left == selected;
    }

    /** A refusal after the token was consumed raises without a commit: the consumption is rolled back. */
    method Refresh(h: nat, now: int, accountActive: bool, next: nat, expiresAt: int) returns (r: Outcome)
      requires next !in rows
      modifies this
      ensures r == OutcomeOf(old(rows), h, now, accountActive)
      ensures rows == Refreshed(old(rows), h, now, accountActive, next, expiresAt)
      ensures next in rows
              <==> h in old(rows) && !old(rows)[h].revoked && old(rows)[h].expiresAt >= now && accountActive
      ensures next in rows ==> rows == old(rows)[h := old(rows)[h].(revoked := true)]
                                               [next := Token(old(rows)[h].user, expiresAt, false)]
      ensures forall k | k in rows && !rows[k].revoked && k != next :: k in old(rows) && !old(rows)[k].revoked
      ensures h in old(rows) && old(rows)[h].revoked ==>
                r == Reused && forall k | k in rows && !rows[k].revoked :: rows[k].user != old(rows)[h].user
      ensures h in old(rows) && !old(rows)[h].revoked && old(rows)[h].expiresAt < now ==>
                r == Expired && rows == old(rows)
      ensures h in old(rows) && !old(rows)[h].revoked && old(rows)[h].expiresAt >= now && !accountActive ==>
                r == Inactive && rows == old(rows)
      ensures h !in old(rows) ==> r == Unknown && rows == old(rows)
    {
      RefreshAnswers(rows, h, now, accountActive, next, expiresAt);
      var before := rows;
      var ok, user, until := ConsumeIfActive(h);
      if !ok {
        if h !in rows {
          return Unknown;
        }
        RevokeAllForUser(rows[h].user);
        return Reused;
      }
      if until < now {
        rows := before;
        return Expired;
      }
      if !accountActive {
        rows := before;
        return Inactive;
      }
      Add(next, user, expiresAt);
      return Issued;
    }

    method Logout(h: nat)
      modifies this
      ensures rows == if Active(old(rows), h) then Revoked(old(rows), {h}) else old(rows)
    {
      if !Active(rows, h) {
        return;
      }
      ghost var before := rows;
      rows := rows[h := rows[h].(revoked := true)];
      assert rows == Revoked(before, {h});
    }
  }

  /** What the answers of a refresh mean, and what each leaves: a new token comes from a stored, live and unexpired one
      of an active account, and from nothing else; every other answer makes no token active. */
  lemma RefreshAnswers(rows: Rows, h: nat, now: int, accountActive: bool, next: nat, expiresAt: int)
    requires next !in rows
    ensures var o := OutcomeOf(rows, h, now, accountActive);
            && (o == Unknown <==> h !in rows)
            && (o == Reused <==> h in rows && rows[h].revoked)
            && (o == Expired <==> h in rows && !rows[h].revoked && rows[h].expiresAt < now)
            && (o == Inactive <==> h in rows && !rows[h].revoked && rows[h].expiresAt >= now && !accountActive)
            && (o == Issued <==> h in rows && !rows[h].revoked && rows[h].expiresAt >= now && accountActive)
    ensures var r := Refreshed(rows, h, now, accountActive, next, expiresAt);
            && (next in r <==> OutcomeOf(rows, h, now, accountActive) == Issued)
            && (next in r ==> r == rows[h := rows[h].(revoked := true)][next := Token(rows[h].user, expiresAt, false)])
            && (forall k | k in r && !r[k].revoked && k != next :: k in rows && !rows[k].revoked)
            && (h in rows && rows[h].revoked ==> forall k | k in r && !r[k].revoked :: r[k].user != rows[h].user)
            && (!(h in rows && rows[h].revoked) && next !in r ==> r == rows)
  {
  }

  /** Alone in the store, a replay leaves the user without a token, and touches nobody else. */
  lemma ReplayCutsTheUser(rows: Rows, h: nat, now: int, accountActive: bool, next: nat, expiresAt: int)
    requires OutcomeOf(rows, h, now, accountActive) == Reused
    ensures var r := Refreshed(rows, h, now, accountActive, next, expiresAt);
            && ActiveOf(r, rows[h].user) == {}
            && forall other | other != rows[h].user :: ActiveOf(r, other) == ActiveOf(rows, other)
  {
  }
}
