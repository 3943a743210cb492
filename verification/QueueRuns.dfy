/** Runs of the job queue: any interleaving of the transactions of any number of workers, each of which may
    crash, stall past its lease, or write late. */
module QueueRuns {
  import opened Options
  import opened JobQueue

  /** A live worker's claim-time copy of its job. */
  datatype Holder = Holder(job: nat, retryCount: nat, maxRetries: int)

  /** `claims` counts, for each job, the claims since it was enqueued or last requeued. */
  datatype Queue = Queue(rows: Table, holders: map<nat, Holder>, claims: map<nat, nat>)

  datatype Step =
    | Enqueue(newId: nat, key: Option<string>, maxRetries: int, priority: int, scheduledAt: int)
    | Claim(worker: nat, job: nat, now: int)
    | Heartbeat(worker: nat, now: int)
    | Complete(worker: nat)
    | Fail(worker: nat, now: int)
    | Crash(worker: nat)
    | Recover(job: nat, now: int)
    | Requeue(job: nat, now: int)

  const EMPTY_QUEUE := Queue(map[], map[], map[])

  ghost predicate Known(rows: Table, key: Option<string>) {
    key.Some? && exists i :: i in rows && rows[i].idempotencyKey == key
  }

  /** What the database and the workers allow. A worker writes through its copy, without looking at the row. */
  ghost predicate Enabled(q: Queue, s: Step) {
    match s
    case Enqueue(id, _, _, _, _) => id !in q.rows
    case Claim(w, id, now) => w !in q.holders && id in q.rows && Eligible(q.rows[id], now)
    case Heartbeat(w, _) => w in q.holders
    case Complete(w) => w in q.holders && q.holders[w].job in q.rows
    case Fail(w, _) => w in q.holders && q.holders[w].job in q.rows
    case Crash(w) => w in q.holders
    case Recover(id, now) => id in q.rows && Stale(q.rows[id], now - JOB_LEASE_SECONDS)
    case Requeue(id, _) => id in q.rows
  }

  ghost function Apply(q: Queue, s: Step): Queue
    requires Enabled(q, s)
  {
    match s
    case Enqueue(id, key, maxRetries, priority, scheduledAt) =>
      if Known(q.rows, key) then q
      else q.(rows := q.rows[id := NewRow(maxRetries, priority, scheduledAt, key)], claims := q.claims[id := 0])
    case Claim(w, id, now) =>
      var r := q.rows[id];
      Queue(q.rows[id := ClaimedRow(r, now)],
            q.holders[w := Holder(id, r.retryCount, r.maxRetries)],
            q.claims[id := Count(q, id) + 1])
    case Heartbeat(w, now) =>
      var id := q.holders[w].job;
      if id in q.rows then q.(rows := q.rows[id := BeatenRow(q.rows[id], now)]) else q
    case Complete(w) =>
      var id := q.holders[w].job;
      q.(rows := q.rows[id := CompletedRow(q.rows[id])], holders := q.holders - {w})
    case Fail(w, now) =>
      var h := q.holders[w];
      q.(rows := q.rows[h.job := AttemptFailedRow(q.rows[h.job], h.retryCount, h.maxRetries, now)],
         holders := q.holders - {w})
    case Crash(w) => q.(holders := q.holders - {w})
    case Recover(id, now) => q.(rows := q.rows[id := RecoveredRow(q.rows[id], now)])
    case Requeue(id, now) => q.(rows := q.rows[id := RequeuedRow(q.rows[id], now)], claims := q.claims[id := 0])
  }

  function Count(q: Queue, id: nat): nat {
    if id in q.claims then q.claims[id] else 0
  }

  ghost predicate Run(q: Queue, steps: seq<Step>, q': Queue)
    decreases |steps|
  {
    if steps == [] then q' == q
    else Enabled(q, steps[0]) && Run(Apply(q, steps[0]), steps[1..], q')
  }

  function Max0(n: int): nat {
    if n < 0 then 0 else n
  }

  // ---- The retry bound, in every run ------------------------------------------------------------

  ghost predicate Bounded(q: Queue) {
    && UniqueKeys(q.rows)
    && (forall i | i in q.rows :: q.rows[i].retryCount <= Max0(q.rows[i].maxRetries))
    && (forall w | w in q.holders ::
          && q.holders[w].job in q.rows
          && q.holders[w].maxRetries == q.rows[q.holders[w].job].maxRetries
          && q.holders[w].retryCount <= Max0(q.holders[w].maxRetries))
  }

  /** Writing a row that keeps its key and its maximum, within the bound. */
  lemma BoundedWrite(q: Queue, id: nat, r: Row)
    requires Bounded(q) && id in q.rows && r.idempotencyKey == q.rows[id].idempotencyKey
    requires r.maxRetries == q.rows[id].maxRetries && r.retryCount <= Max0(r.maxRetries)
    ensures Bounded(q.(rows := q.rows[id := r]))
  {
  }

  lemma BoundedStep(q: Queue, s: Step)
    requires Bounded(q) && Enabled(q, s)
    ensures Bounded(Apply(q, s))
  {
    match s
    case Enqueue(_, _, _, _, _) =>
    case Claim(w, id, now) =>
      BoundedWrite(q.(holders := q.holders[w := Holder(id, q.rows[id].retryCount, q.rows[id].maxRetries)]), id,
                   ClaimedRow(q.rows[id], now));
    case Heartbeat(w, now) =>
      BoundedWrite(q, q.holders[w].job, BeatenRow(q.rows[q.holders[w].job], now));
    case Complete(w) =>
      BoundedWrite(q, q.holders[w].job, CompletedRow(q.rows[q.holders[w].job]));
    case Fail(w, now) =>
      var h := q.holders[w];
      var r := AttemptFailedRow(q.rows[h.job], h.retryCount, h.maxRetries, now);
      BoundedWrite(q, h.job, r);
    case Crash(w) =>
    case Recover(id, now) =>
      BoundedWrite(q, id, RecoveredRow(q.rows[id], now));
    case Requeue(id, now) =>
      BoundedWrite(q, id, RequeuedRow(q.rows[id], now));
  }

  /** No interleaving, no late write, no requeue takes a job past its number of retries, and one business
      command makes one job. */
  lemma {:induction false} RetriesStayBounded(q: Queue, steps: seq<Step>, q': Queue)
    requires Bounded(q) && Run(q, steps, q')
    ensures Bounded(q')
    decreases |steps|
  {
    if steps != [] {
      BoundedStep(q, steps[0]);
      RetriesStayBounded(Apply(q, steps[0]), steps[1..], q');
    }
  }

  /** What a row was enqueued with. */
  ghost predicate SameJob(r: Row, s: Row) {
    r.idempotencyKey == s.idempotencyKey && r.maxRetries == s.maxRetries && r.priority == s.priority
  }

  lemma {:induction false} JobsStay(q: Queue, steps: seq<Step>, q': Queue, i: nat)
    requires Run(q, steps, q') && i in q.rows
    ensures i in q'.rows && SameJob(q.rows[i], q'.rows[i])
    decreases |steps|
  {
    if steps != [] {
      JobsStay(Apply(q, steps[0]), steps[1..], q', i);
    }
  }

  /** The idempotency of `enqueue`: a command enqueued under a key leaves a pending row with that key, its priority, its
      retries and its date; and whatever the workers do meanwhile, enqueueing it again changes nothing. */
  lemma EnqueueIsIdempotent(q: Queue, id: nat, k: string, maxRetries: int, priority: int, at: int, steps: seq<Step>,
                            q': Queue, again: Step)
    requires Bounded(q) && Enabled(q, Enqueue(id, Some(k), maxRetries, priority, at))
    requires Run(Apply(q, Enqueue(id, Some(k), maxRetries, priority, at)), steps, q')
    requires again.Enqueue? && again.key == Some(k) && Enabled(q', again)
    ensures var t := Apply(q, Enqueue(id, Some(k), maxRetries, priority, at));
            && (exists i :: i in t.rows && t.rows[i].idempotencyKey == Some(k))
            && ((forall i | i in q.rows :: q.rows[i].idempotencyKey != Some(k))
                ==> t.rows == q.rows[id := Row(Pending, 0, maxRetries, priority, at, None, Some(k))])
    ensures Apply(q', again) == q'
  {
    var t := Apply(q, Enqueue(id, Some(k), maxRetries, priority, at));
    var i := if Known(q.rows, Some(k)) then var j :| j in q.rows && q.rows[j].idempotencyKey == Some(k); j else id;
    assert i in t.rows && t.rows[i].idempotencyKey == Some(k);
    JobsStay(t, steps, q', i);
  }

  // ---- Exclusion, while leases are kept fresh -----------------------------------------------------

  /** Every live worker has renewed its lease within the lease time. */
  ghost predicate LeasesFresh(q: Queue, now: int) {
    forall w | w in q.holders && q.holders[w].job in q.rows ::
      var lease := q.rows[q.holders[w].job].lease;
      lease.Some? && lease.value >= now - JOB_LEASE_SECONDS
  }

  /** The discipline the queue relies on and does not enforce: recovery runs while live workers keep their
      leases fresh, and an administrator never requeues a job that is being processed. */
  ghost predicate Disciplined(q: Queue, s: Step) {
    && (s.Recover? ==> LeasesFresh(q, s.now))
    && (s.Requeue? ==> s.job in q.rows && q.rows[s.job].status != Processing)
  }

  predicate Claimed(status: Status) {
    status == Processing || status == Completed || status == Failed
  }

  /** One live holder at most, with an exact copy; the claims of a job are its retries, plus one from the
      moment it is claimed until it is retried. */
  ghost predicate Exclusive(q: Queue) {
    && (forall w | w in q.holders :: HolderExact(q, q.holders[w]))
    && (forall v, w | v in q.holders && w in q.holders && v != w :: q.holders[v].job != q.holders[w].job)
    && (forall i | i in q.rows :: RowExact(q.rows[i], Count(q, i)))
  }

  ghost predicate HolderExact(q: Queue, h: Holder) {
    && h.job in q.rows && q.rows[h.job].status == Processing
    && h.retryCount == q.rows[h.job].retryCount && h.maxRetries == q.rows[h.job].maxRetries
  }

  ghost predicate RowExact(r: Row, claims: nat) {
    && r.retryCount <= Max0(r.maxRetries)
    && claims == r.retryCount + (if Claimed(r.status) then 1 else 0)
    && (r.status == Processing ==> r.lease.Some?)
    && (r.status == Failed ==> r.retryCount == Max0(r.maxRetries))
  }

  lemma RowsStep(q: Queue, s: Step, i: nat)
    requires Exclusive(q) && Enabled(q, s) && Disciplined(q, s) && i in Apply(q, s).rows
    ensures RowExact(Apply(q, s).rows[i], Count(Apply(q, s), i))
  {
    if i in q.rows {
      assert RowExact(q.rows[i], Count(q, i));
    }
    if (s.Complete? || s.Fail?) && q.holders[s.worker].job == i {
      assert HolderExact(q, q.holders[s.worker]);
    }
  }

  lemma HoldersStep(q: Queue, s: Step, w: nat)
    requires Exclusive(q) && Enabled(q, s) && Disciplined(q, s) && w in Apply(q, s).holders
    ensures HolderExact(Apply(q, s), Apply(q, s).holders[w])
  {
    if w in q.holders {
      assert HolderExact(q, q.holders[w]);
    }
  }

  /** A claimed job was in nobody's hands. */
  lemma HoldersApart(q: Queue, s: Step, v: nat, w: nat)
    requires Exclusive(q) && Enabled(q, s) && v in Apply(q, s).holders && w in Apply(q, s).holders && v != w
    ensures Apply(q, s).holders[v].job != Apply(q, s).holders[w].job
  {
    assert v in q.holders ==> HolderExact(q, q.holders[v]);
    assert w in q.holders ==> HolderExact(q, q.holders[w]);
  }

  lemma ExclusiveStep(q: Queue, s: Step)
    requires Exclusive(q) && Enabled(q, s) && Disciplined(q, s)
    ensures Exclusive(Apply(q, s))
  {
    var q' := Apply(q, s);
    forall w | w in q'.holders
      ensures HolderExact(q', q'.holders[w])
    {
      HoldersStep(q, s, w);
    }
    forall v, w | v in q'.holders && w in q'.holders && v != w
      ensures q'.holders[v].job != q'.holders[w].job
    {
      HoldersApart(q, s, v, w);
    }
    forall i | i in q'.rows
      ensures RowExact(q'.rows[i], Count(q', i))
    {
      RowsStep(q, s, i);
    }
  }

  ghost predicate DisciplinedRun(q: Queue, steps: seq<Step>, q': Queue)
    decreases |steps|
  {
    if steps == [] then q' == q
    else
      && Enabled(q, steps[0]) && Disciplined(q, steps[0])
      && DisciplinedRun(Apply(q, steps[0]), steps[1..], q')
  }

  lemma {:induction false} ExclusionHolds(q: Queue, steps: seq<Step>, q': Queue)
    requires Exclusive(q) && DisciplinedRun(q, steps, q')
    ensures Exclusive(q')
    decreases |steps|
  {
    if steps != [] {
      ExclusiveStep(q, steps[0]);
      ExclusionHolds(Apply(q, steps[0]), steps[1..], q');
    }
  }

  /** From an empty table: a job is claimed at most `max_retries + 1` times, is given up exactly then, and
      is never in two hands. */
  lemma JobsAreTriedExactly(steps: seq<Step>, q: Queue, i: nat)
    requires DisciplinedRun(EMPTY_QUEUE, steps, q) && i in q.rows
    ensures Count(q, i) <= Max0(q.rows[i].maxRetries) + 1
    ensures q.rows[i].status == Failed ==> Count(q, i) == Max0(q.rows[i].maxRetries) + 1
    ensures forall v, w | v in q.holders && w in q.holders && q.holders[v].job == q.holders[w].job :: v == w
  {
    ExclusionHolds(EMPTY_QUEUE, steps, q);
    assert RowExact(q.rows[i], Count(q, i));
  }

  /** Recovering one stale row keeps exclusion exactly when no live worker holds it. */
  lemma RecoveryIsSafeIff(q: Queue, id: nat, now: int)
    requires Exclusive(q) && Enabled(q, Recover(id, now))
    ensures Exclusive(Apply(q, Recover(id, now))) <==> !exists w :: w in q.holders && q.holders[w].job == id
  {
    var q' := Apply(q, Recover(id, now));
    if w :| w in q.holders && q.holders[w].job == id {
      assert !HolderExact(q', q'.holders[w]);
    } else {
      forall i | i in q'.rows
        ensures RowExact(q'.rows[i], Count(q', i))
      {
        assert RowExact(q.rows[i], Count(q, i));
      }
    }
  }

  /** Requeueing keeps exclusion exactly when no live worker holds the job. */
  lemma RequeueIsSafeIff(q: Queue, id: nat, now: int)
    requires Exclusive(q) && Enabled(q, Requeue(id, now))
    ensures Exclusive(Apply(q, Requeue(id, now))) <==> !exists w :: w in q.holders && q.holders[w].job == id
  {
    var q' := Apply(q, Requeue(id, now));
    if w :| w in q.holders && q.holders[w].job == id {
      assert !HolderExact(q', q'.holders[w]);
    } else {
      forall i | i in q'.rows
        ensures RowExact(q'.rows[i], Count(q', i))
      {
        assert RowExact(q.rows[i], Count(q, i));
      }
    }
  }

  // ---- Progress -----------------------------------------------------------------------------------

  /** Work left on a job: two for each retry not yet spent, two while it waits, one while it is processed. */
  function Budget(r: Row): int {
    2 * (Max0(r.maxRetries) - r.retryCount)
    + (match r.status case Pending => 2 case Retrying => 2 case Processing => 1 case Completed => 0 case Failed => 0)
  }

  /** A claim or a resolution of job `id`. */
  ghost predicate WorksOn(q: Queue, s: Step, id: nat) {
    match s
    case Claim(_, i, _) => i == id
    case Complete(w) => w in q.holders && q.holders[w].job == id
    case Fail(w, _) => w in q.holders && q.holders[w].job == id
    case Recover(i, _) => i == id
    case _ => false
  }

  lemma BudgetStep(q: Queue, s: Step, id: nat)
    requires Exclusive(q) && Enabled(q, s) && Disciplined(q, s) && !s.Requeue? && id in q.rows
    ensures id in Apply(q, s).rows && Apply(q, s).rows[id].maxRetries == q.rows[id].maxRetries
    ensures Budget(Apply(q, s).rows[id]) == Budget(q.rows[id]) - (if WorksOn(q, s, id) then 1 else 0)
    ensures q.rows[id].status in {Completed, Failed} ==> !WorksOn(q, s, id) && Apply(q, s).rows[id] == q.rows[id]
  {
    assert RowExact(q.rows[id], Count(q, id));
    if s.Complete? || s.Fail? || s.Heartbeat? {
      assert HolderExact(q, q.holders[s.worker]);
    }
  }

  ghost function Work(q: Queue, steps: seq<Step>, id: nat): nat
    decreases |steps|
  {
    if steps == [] || !Enabled(q, steps[0]) then 0
    else (if WorksOn(q, steps[0], id) then 1 else 0) + Work(Apply(q, steps[0]), steps[1..], id)
  }

  lemma {:induction false} WorkIsSpent(q: Queue, steps: seq<Step>, q': Queue, id: nat)
    requires Exclusive(q) && DisciplinedRun(q, steps, q') && id in q.rows
    requires forall s | s in steps :: !s.Requeue?
    ensures id in q'.rows && Work(q, steps, id) == Budget(q.rows[id]) - Budget(q'.rows[id])
    ensures q'.rows[id].maxRetries == q.rows[id].maxRetries
    ensures q.rows[id].status in {Completed, Failed} ==> q'.rows[id] == q.rows[id]
    decreases |steps|
  {
    if steps != [] {
      assert steps[0] in steps;
      BudgetStep(q, steps[0], id);
      ExclusiveStep(q, steps[0]);
      WorkIsSpent(Apply(q, steps[0]), steps[1..], q', id);
    }
  }

  /** Without requeue, the claims and resolutions of a job over a run are exactly the budget it has spent:
      at most `2 * max_retries + 2`. A finished job is never touched again. */
  lemma WorkIsBounded(q: Queue, steps: seq<Step>, q': Queue, id: nat)
    requires Exclusive(q) && DisciplinedRun(q, steps, q') && id in q.rows
    requires forall s | s in steps :: !s.Requeue?
    ensures id in q'.rows && Work(q, steps, id) == Budget(q.rows[id]) - Budget(q'.rows[id])
    ensures Work(q, steps, id) <= 2 * Max0(q.rows[id].maxRetries) + 2
    ensures q.rows[id].status in {Completed, Failed} ==> q'.rows[id] == q.rows[id] && Work(q, steps, id) == 0
  {
    WorkIsSpent(q, steps, q', id);
    ExclusionHolds(q, steps, q');
    assert RowExact(q'.rows[id], Count(q', id));
  }

  // ---- Without the discipline ----------------------------------------------------------------------

  lemma RunCons(q: Queue, s: Step, steps: seq<Step>, q': Queue)
    requires Enabled(q, s) && Run(Apply(q, s), steps, q')
    ensures Run(q, [s] + steps, q')
  {
    assert ([s] + steps)[1..] == steps;
  }

  const FIRST_ROW := NewRow(3, 100, 0, None)

  const RETRIED_ONCE := RetriedRow(FIRST_ROW, 0, 1801)

  /** Job 0 has been enqueued. */
  const ENQUEUED := Queue(map[0 := FIRST_ROW], map[], map[0 := 0])

  /** A first worker has claimed job 0 and stalls. */
  const STALLED := Queue(map[0 := ClaimedRow(FIRST_ROW, 0)], map[1 := Holder(0, 0, 3)], map[0 := 1])

  /** The job has been recovered although the first worker still lives. */
  const RECOVERED := Queue(map[0 := RETRIED_ONCE], map[1 := Holder(0, 0, 3)], map[0 := 1])

  /** A second worker has claimed it. */
  const SHARED := Queue(map[0 := ClaimedRow(RETRIED_ONCE, 1801)],
                        map[1 := Holder(0, 0, 3), 2 := Holder(0, 1, 3)],
                        map[0 := 2])

  /** The second worker has completed it. */
  const DONE := Queue(map[0 := CompletedRow(RETRIED_ONCE)], map[1 := Holder(0, 0, 3)], map[0 := 2])

  lemma StalledIsReached()
    ensures Enabled(EMPTY_QUEUE, Enqueue(0, None, 3, 100, 0))
            && Apply(EMPTY_QUEUE, Enqueue(0, None, 3, 100, 0)) == ENQUEUED
    ensures Enabled(ENQUEUED, Claim(1, 0, 0)) && Apply(ENQUEUED, Claim(1, 0, 0)) == STALLED
  {
    assert Apply(EMPTY_QUEUE, Enqueue(0, None, 3, 100, 0)) == ENQUEUED;
    assert Apply(ENQUEUED, Claim(1, 0, 0)) == STALLED;
  }

  lemma SharedIsReached()
    ensures Enabled(STALLED, Recover(0, 1801)) && Apply(STALLED, Recover(0, 1801)) == RECOVERED
    ensures Enabled(RECOVERED, Claim(2, 0, 1801)) && Apply(RECOVERED, Claim(2, 0, 1801)) == SHARED
  {
    assert Apply(STALLED, Recover(0, 1801)) == RECOVERED;
    assert Apply(RECOVERED, Claim(2, 0, 1801)) == SHARED;
  }

  lemma SecondAttempt() returns (steps: seq<Step>)
    ensures Run(STALLED, steps, DONE)
  {
    SharedIsReached();
    assert Apply(SHARED, Complete(2)) == DONE;
    RunCons(SHARED, Complete(2), [], DONE);
    RunCons(RECOVERED, Claim(2, 0, 1801), [Complete(2)] + [], DONE);
    RunCons(STALLED, Recover(0, 1801), [Claim(2, 0, 1801)] + ([Complete(2)] + []), DONE);
    steps := [Recover(0, 1801)] + ([Claim(2, 0, 1801)] + ([Complete(2)] + []));
  }

  /** A worker stalls past its lease, the job is recovered, claimed again and completed; then the stalled
      worker reports its failure and the completed job is put back in the queue. */
  lemma LateWriteRevivesCompletedJob() returns (steps: seq<Step>, mid: Queue, late: Step, q: Queue)
    ensures Run(EMPTY_QUEUE, steps, mid) && 0 in mid.rows && mid.rows[0].status == Completed
    ensures Enabled(mid, late) && late.Fail? && Apply(mid, late) == q
    ensures 0 in q.rows && q.rows[0].status == Retrying && Eligible(q.rows[0], 4000)
  {
    var rest := SecondAttempt();
    StalledIsReached();
    mid := DONE;
    RunCons(ENQUEUED, Claim(1, 0, 0), rest, mid);
    RunCons(EMPTY_QUEUE, Enqueue(0, None, 3, 100, 0), [Claim(1, 0, 0)] + rest, mid);
    steps := [Enqueue(0, None, 3, 100, 0)] + ([Claim(1, 0, 0)] + rest);
    late := Fail(1, 1900);
    q := Apply(mid, late);
  }
}
