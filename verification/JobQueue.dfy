/** The table of jobs and the transactions on it (`jobs/repository.py`, `jobs/service.py`, the job part of
    `worker.py`). Times are in seconds. */
module JobQueue {
  import opened Options

  datatype Status = Pending | Processing | Retrying | Completed | Failed

  /** A row of the table. `lease` is `coalesce(heartbeat_at, locked_at)`: the code always writes both. */
  datatype Row = Row(
    status: Status,
    retryCount: nat,
    maxRetries: int,
    priority: int,
    scheduledAt: int,
    lease: Option<int>,
    idempotencyKey: Option<string>)

  type Table = map<nat, Row>

  const JOB_LEASE_SECONDS := 1800

  /** Delay before the next attempt: 1, 5, then 15 minutes. */
  function Backoff(retryCount: nat): int {
    60 * (if retryCount == 0 then 1 else if retryCount == 1 then 5 else 15)
  }

  // ---- What each write makes of a row -----------------------------------------------------------

  function NewRow(maxRetries: int, priority: int, scheduledAt: int, key: Option<string>): Row {
    Row(Pending, 0, maxRetries, priority, scheduledAt, None, key)
  }

  predicate Eligible(r: Row, now: int) {
    (r.status == Pending || r.status == Retrying) && r.scheduledAt <= now
  }

  function ClaimedRow(r: Row, now: int): Row {
    r.(status := Processing, lease := Some(now))
  }

  function BeatenRow(r: Row, now: int): Row {
    if r.status == Processing then r.(lease := Some(now)) else r
  }

  function CompletedRow(r: Row): Row {
    r.(status := Completed, lease := None)
  }

  /** `retryCount` is the count of the writer's own copy of the job, not of the row. */
  function RetriedRow(r: Row, retryCount: nat, nextRun: int): Row {
    r.(status := Retrying, retryCount := retryCount + 1, scheduledAt := nextRun, lease := None)
  }

  function FailedRow(r: Row): Row {
    r.(status := Failed, lease := None)
  }

  /** A failed attempt reported by a worker whose copy reads `retryCount` and `maxRetries`. */
  function AttemptFailedRow(r: Row, retryCount: nat, maxRetries: int, now: int): Row {
    if retryCount < maxRetries then RetriedRow(r, retryCount, now + Backoff(retryCount)) else FailedRow(r)
  }

  /** A job with retries left comes back exactly when its delay is over: one minute, then five, then a quarter of an
      hour. Without retries left it never does. */
  lemma RetryWaits(r: Row, retryCount: nat, maxRetries: int, now: int, t: int)
    ensures var f := AttemptFailedRow(r, retryCount, maxRetries, now);
            Eligible(f, t) <==> retryCount < maxRetries && t >= now + Backoff(retryCount)
    ensures Backoff(retryCount) <= Backoff(retryCount + 1)
    ensures Backoff(0) == 60 && Backoff(1) == 300 && (retryCount >= 2 ==> Backoff(retryCount) == 900)
  {
  }

  predicate Stale(r: Row, before: int) {
    r.status == Processing && r.lease.Some? && r.lease.value < before
  }

  function RecoveredRow(r: Row, now: int): Row {
    if r.retryCount < r.maxRetries then RetriedRow(r, r.retryCount, now) else FailedRow(r)
  }

  function RequeuedRow(r: Row, now: int): Row {
    r.(status := Pending, retryCount := 0, scheduledAt := now, lease := None)
  }

  // ---- The order of the claim query -------------------------------------------------------------

  /** `ORDER BY priority ASC, scheduled_at ASC`. */
  predicate Before(r: Row, s: Row) {
    r.priority < s.priority || (r.priority == s.priority && r.scheduledAt <= s.scheduledAt)
  }

  lemma {:induction false} FirstExists(rows: Table, ids: set<nat>) returns (id: nat)
    requires ids != {} && forall i | i in ids :: i in rows
    ensures id in ids && forall i | i in ids :: Before(rows[id], rows[i])
    decreases |ids|
  {
    var i :| i in ids;
    var rest := ids - {i};
    if rest == {} {
      assert ids == {i};
      id := i;
    } else {
      var j := FirstExists(rows, rest);
      id := if Before(rows[i], rows[j]) then i else j;
      assert forall k | k in ids :: k == i || k in rest;
    }
  }

  /** The row written over `r`, with no lease left. */
  ghost predicate Rewritten(r: Row, s: Row, status: Status, retryCount: nat, scheduledAt: int) {
    s == Row(status, retryCount, r.maxRetries, r.priority, scheduledAt, None, r.idempotencyKey)
  }

  /** The object a session holds for a row: loaded once, then out of date (`expire_on_commit=False`). */
  class Job {
    const id: nat
    const maxRetries: int
    var status: Status
    var retryCount: nat
    var scheduledAt: int
    var lease: Option<int>

    constructor (id: nat, row: Row)
      ensures this.id == id && maxRetries == row.maxRetries && status == row.status
      ensures retryCount == row.retryCount && scheduledAt == row.scheduledAt && lease == row.lease
    {
      this.id := id;
      maxRetries := row.maxRetries;
      status := row.status;
      retryCount := row.retryCount;
      scheduledAt := row.scheduledAt;
      lease := row.lease;
    }
  }

  class JobRepository {
    var rows: Table

    ghost predicate KeysUnique()
      reads this
    {
      UniqueKeys(rows)
    }

    constructor ()
      ensures rows == map[]
    {
      rows := map[];
    }

    /** Enqueueing again under a known key returns the job already there. */
    method Enqueue(newId: nat, key: Option<string>, maxRetries: int, priority: int, scheduledAt: int)
      returns (id: nat)
      requires newId !in rows && KeysUnique()
      modifies this
      ensures KeysUnique()
      ensures key.Some? && (exists i :: i in old(rows) && old(rows)[i].idempotencyKey == key)
              ==> rows == old(rows) && id in rows && rows[id].idempotencyKey == key
      ensures !(key.Some? && exists i :: i in old(rows) && old(rows)[i].idempotencyKey == key)
              ==> id == newId && rows == old(rows)[newId := NewRow(maxRetries, priority, scheduledAt, key)]
      ensures id in rows && (key.Some? ==> rows[id].idempotencyKey == key && forall i ::
                               i in rows && rows[i].idempotencyKey == key <==> i == id)
      ensures id !in old(rows) ==> rows[id] == Row(Pending, 0, maxRetries, priority, scheduledAt, None, key)
      ensures forall i | i in old(rows) :: i in rows && rows[i] == old(rows)[i]
    {
      if key.Some? && exists i :: i in rows && rows[i].idempotencyKey == key {
        id :| id in rows && rows[id].idempotencyKey == key;
      } else {
        id := newId;
        rows := rows[newId := NewRow(maxRetries, priority, scheduledAt, key)];
      }
    }

    /** The first eligible row that no other transaction has locked, now marked as processing. */
    method ClaimOne(lockedIds: set<nat>, now: int) returns (job: Job?)
      modifies this
      ensures job == null ==> rows == old(rows)
                              && forall i | i in rows && i !in lockedIds ::
                                   rows[i].status in {Processing, Completed, Failed} || rows[i].scheduledAt > now
      ensures job != null ==>
                && fresh(job) && job.id in old(rows) && job.id !in lockedIds && Eligible(old(rows)[job.id], now)
                && (forall i | i in old(rows) && i !in lockedIds && Eligible(old(rows)[i], now) ::
                      Before(old(rows)[job.id], old(rows)[i]))
                && (forall i | i in old(rows) && i !in lockedIds && old(rows)[i].status in {Pending, Retrying}
                               && old(rows)[i].scheduledAt <= now ::
                      var r, s := old(rows)[job.id], old(rows)[i];
                      r.priority < s.priority || (r.priority == s.priority && r.scheduledAt <= s.scheduledAt))
                && rows == old(rows)[job.id := ClaimedRow(old(rows)[job.id], now)]
                && rows[job.id] == old(rows)[job.id].(status := Processing, lease := Some(now))
                && old(rows)[job.id].status in {Pending, Retrying} && old(rows)[job.id].scheduledAt <= now
                && job.retryCount == rows[job.id].retryCount && job.maxRetries == rows[job.id].maxRetries
                && job.status == Processing
    {
      var ids := set i | i in rows && i !in lockedIds && Eligible(rows[i], now);
      if ids == {} {
        assert forall i | i in rows && i !in lockedIds && Eligible(rows[i], now) :: i in ids;
        return null;
      }
      ghost var first := FirstExists(rows, ids);
      var id :| id in ids && forall i | i in ids :: Before(rows[id], rows[i]);
      rows := rows[id := ClaimedRow(rows[id], now)];
      job := new Job(id, rows[id]);
    }

    method Heartbeat(id: nat, now: int)
      modifies this
      ensures rows == if id in old(rows) then old(rows)[id := BeatenRow(old(rows)[id], now)] else old(rows)
      ensures rows == if id in old(rows) && old(rows)[id].status == Processing
                      then old(rows)[id := old(rows)[id].(lease := Some(now))] else old(rows)
    {
      if id in rows && rows[id].status == Processing {
        rows := rows[id := rows[id].(lease := Some(now))];
      }
    }

    method MarkCompleted(job: Job)
      requires job.id in rows
      modifies this, job
      ensures rows == old(rows)[job.id := CompletedRow(old(rows)[job.id])]
      ensures Rewritten(old(rows)[job.id], rows[job.id], Completed, old(rows)[job.id].retryCount,
                        old(rows)[job.id].scheduledAt)
      ensures job.status == Completed && job.lease == None && job.retryCount == old(job.retryCount)
    {
      job.status := Completed;
      job.lease := None;
      rows := rows[job.id := rows[job.id].(status := job.status, lease := job.lease)];
    }

    method MarkRetry(job: Job, nextRun: int)
      requires job.id in rows
      modifies this, job
      ensures rows == old(rows)[job.id := RetriedRow(old(rows)[job.id], old(job.retryCount), nextRun)]
      ensures Rewritten(old(rows)[job.id], rows[job.id], Retrying, old(job.retryCount) + 1, nextRun)
      ensures job.status == Retrying && job.lease == None && job.retryCount == old(job.retryCount) + 1
    {
      job.status := Retrying;
      job.retryCount := job.retryCount + 1;
      job.scheduledAt := nextRun;
      job.lease := None;
      rows := rows[job.id := rows[job.id].(status := job.status, retryCount := job.retryCount,
                                           scheduledAt := job.scheduledAt, lease := job.lease)];
    }

    method MarkFailed(job: Job)
      requires job.id in rows
      modifies this, job
      ensures rows == old(rows)[job.id := FailedRow(old(rows)[job.id])]
      ensures Rewritten(old(rows)[job.id], rows[job.id], Failed, old(rows)[job.id].retryCount,
                        old(rows)[job.id].scheduledAt)
      ensures job.status == Failed && job.lease == None && job.retryCount == old(job.retryCount)
    {
      job.status := Failed;
      job.lease := None;
      rows := rows[job.id := rows[job.id].(status := job.status, lease := job.lease)];
    }

    /** One abandoned job: retried at once, or given up. */
    method RecoverOne(id: nat, now: int) returns (givenUp: bool)
      requires id in rows
      modifies this
      ensures rows == old(rows)[id := RecoveredRow(old(rows)[id], now)]
      ensures var r := old(rows)[id];
              if r.retryCount >= r.maxRetries then Rewritten(r, rows[id], Failed, r.retryCount, r.scheduledAt)
              else Rewritten(r, rows[id], Retrying, r.retryCount + 1, now)
      ensures givenUp <==> old(rows)[id].retryCount >= old(rows)[id].maxRetries
    {
      var job := new Job(id, rows[id]);
      givenUp := job.retryCount >= job.maxRetries;
      if givenUp {
        MarkFailed(job);
      } else {
        MarkRetry(job, now);
      }
    }

    /** Every abandoned row not locked by another transaction, in any order; the jobs without retries left are returned,
        each once. */
    method RecoverStale(lockedIds: set<nat>, before: int, now: int) returns (terminal: seq<nat>)
      modifies this
      ensures rows == RecoveredTable(old(rows), lockedIds, before, now)
      ensures forall id :: id in terminal <==> Abandoned(old(rows), lockedIds, before, id)
                                               && old(rows)[id].retryCount >= old(rows)[id].maxRetries
      ensures forall i, j | 0 <= i < j < |terminal| :: terminal[i] != terminal[j]
      ensures rows.Keys == old(rows).Keys && forall i | i in old(rows) ::
                var r := old(rows)[i];
                if i !in lockedIds && r.status == Processing && r.lease.Some? && r.lease.value < before
                then if r.retryCount >= r.maxRetries then Rewritten(r, rows[i], Failed, r.retryCount, r.scheduledAt)
                     else Rewritten(r, rows[i], Retrying, r.retryCount + 1, now)
                else rows[i] == r
    {
      ghost var was := rows;
      var stale := set i | i in rows && Abandoned(rows, lockedIds, before, i);
      ghost var all, done: set<nat> := stale, {};
      terminal := [];
      while stale != {}
        invariant Splits(all, stale, done) && all <= was.Keys
        invariant RecoveredSome(was, rows, done, now) && GivenUp(was, done, terminal)
        decreases |stale|
      {
        var id :| id in stale;
        assert id in was && rows[id] == was[id];
        RecoverNext(was, rows, done, terminal, id, now);
        var givenUp := RecoverOne(id, now);
        if givenUp {
          terminal := terminal + [id];
        }
        stale, done := stale - {id}, done + {id};
      }
      assert done == all;
    }

    method Requeue(job: Job, now: int)
      requires job.id in rows
      modifies this, job
      ensures rows == old(rows)[job.id := RequeuedRow(old(rows)[job.id], now)]
      ensures Rewritten(old(rows)[job.id], rows[job.id], Pending, 0, now)
      ensures job.status == Pending && job.retryCount == 0
    {
      job.status := Pending;
      job.retryCount := 0;
      job.lease := None;
      job.scheduledAt := now;
      rows := rows[job.id := rows[job.id].(status := job.status, retryCount := job.retryCount,
                                           scheduledAt := job.scheduledAt, lease := job.lease)];
    }

    /** Retry with backoff or definitive failure, decided on the worker's copy of the job. */
    method Fail(job: Job, now: int) returns (terminal: bool)
      requires job.id in rows
      modifies this, job
      ensures rows == old(rows)[job.id := AttemptFailedRow(old(rows)[job.id], old(job.retryCount), job.maxRetries, now)]
      ensures terminal <==> old(job.retryCount) >= job.maxRetries
      ensures var r, n := old(rows)[job.id], old(job.retryCount);
              if n >= job.maxRetries then Rewritten(r, rows[job.id], Failed, r.retryCount, r.scheduledAt)
              else Rewritten(r, rows[job.id], Retrying, n + 1,
                             now + if n == 0 then 60 else if n == 1 then 300 else 900)
    {
      if job.retryCount < job.maxRetries {
        var delay := Backoff(job.retryCount);
        MarkRetry(job, now + delay);
        return false;
      }
      MarkFailed(job);
      return true;
    }

    /** The end of a worker's attempt: `failed` tells whether the handler raised. A missing handler fails
        the job without its terminal clean-up. */
    method Process(job: Job, hasHandler: bool, failed: bool, now: int) returns (cleanup: bool)
      requires job.id in rows
      modifies this, job
      ensures rows == old(rows)[job.id := if hasHandler && !failed then CompletedRow(old(rows)[job.id])
                                          else AttemptFailedRow(old(rows)[job.id], old(job.retryCount),
                                                                job.maxRetries, now)]
      ensures cleanup <==> hasHandler && failed && old(job.retryCount) >= job.maxRetries
      ensures rows[job.id].status == if hasHandler && !failed then Completed
                                     else if old(job.retryCount) >= job.maxRetries then Failed else Retrying
    {
      cleanup := false;
      if !hasHandler {
        var _ := Fail(job, now);
      } else if failed {
        cleanup := Fail(job, now);
      } else {
        MarkCompleted(job);
      }
    }
  }

  ghost predicate UniqueKeys(rows: Table) {
    forall i, j | i in rows && j in rows && rows[i].idempotencyKey.Some? &&
                  rows[i].idempotencyKey == rows[j].idempotencyKey :: i == j
  }

  predicate Abandoned(rows: Table, lockedIds: set<nat>, before: int, id: nat) {
    id in rows && id !in lockedIds && Stale(rows[id], before)
  }

  ghost function RecoveredTable(rows: Table, lockedIds: set<nat>, before: int, now: int): Table {
    map i | i in rows :: if Abandoned(rows, lockedIds, before, i) then RecoveredRow(rows[i], now) else rows[i]
  }

  ghost predicate Splits(all: set<nat>, stale: set<nat>, done: set<nat>) {
    forall i :: (i in all <==> i in stale || i in done) && !(i in stale && i in done)
  }

  /** The rows of `done` have been recovered and no other. */
  ghost predicate RecoveredSome(was: Table, rows: Table, done: set<nat>, now: int) {
    rows.Keys == was.Keys && forall i | i in was :: rows[i] == if i in done then RecoveredRow(was[i], now) else was[i]
  }

  /** The jobs of `done` without retries left, each once. */
  ghost predicate GivenUp(was: Table, done: set<nat>, terminal: seq<nat>) {
    && (forall id :: id in terminal <==> id in done && id in was && was[id].retryCount >= was[id].maxRetries)
    && (forall i, j | 0 <= i < j < |terminal| :: terminal[i] != terminal[j])
  }

  lemma RecoverNext(was: Table, rows: Table, done: set<nat>, terminal: seq<nat>, id: nat, now: int)
    requires RecoveredSome(was, rows, done, now) && GivenUp(was, done, terminal) && id in was && id !in done
    ensures RecoveredSome(was, rows[id := RecoveredRow(was[id], now)], done + {id}, now)
    ensures GivenUp(was, done + {id}, if was[id].retryCount >= was[id].maxRetries then terminal + [id] else terminal)
  {
    assert id !in terminal;
  }
}
