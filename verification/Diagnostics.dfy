/** The `run_diagnostic` handler and its terminal clean-up (`diagnostics/handlers.py`,
    `reports/repository.py`), run by the workers of the job queue. The handler commits twice, first the
    Radar, then the full report, and may raise or die before either commit. */
module Diagnostics {
  import opened Options
  import opened ProjectState
  import opened JobQueue
  import opened QueueRuns

  datatype ReportStatus = ReportPending | ReportReady | ReportFailed

  /** The committed report and project of one diagnostic; `radar` tells whether `radar_score` is set. */
  datatype Db = Db(report: ReportStatus, radar: bool, diagnostic: DiagnosticStatus, review: ReviewStatus)

  /** State left by the transaction that starts a diagnostic. */
  const STARTED_DB := Db(ReportPending, false, DiagnosticInProgress, NewDiagnostic)

  /** The ORM writes back the attributes whose value differs from the one loaded. */
  function Flush(db: Db, loaded: Db, changed: Db): Db {
    Db(if changed.report != loaded.report then changed.report else db.report,
       if changed.radar != loaded.radar then changed.radar else db.radar,
       if changed.diagnostic != loaded.diagnostic then changed.diagnostic else db.diagnostic,
       if changed.review != loaded.review then changed.review else db.review)
  }

  predicate Reaches(current: DiagnosticStatus, target: DiagnosticStatus) {
    current == target || CanTransitionDiagnostic(current, target)
  }

  /** First commit, on the attempt's copy: the Radar, the project status, the automatic review. `None` when
      the requested transition is illegal: the attempt raises and commits nothing. */
  function Scored(copy: Db, needsReview: bool): Option<Db> {
    if !Reaches(copy.diagnostic, DiagnosticCompleted) then None
    else Some(copy.(radar := true, diagnostic := DiagnosticCompleted,
                    review := if needsReview && copy.review == NewDiagnostic then InReview else copy.review))
  }

  /** Second commit: the full report. */
  function Published(copy: Db): Option<Db> {
    if !Reaches(copy.diagnostic, BilanReady) then None
    else Some(copy.(report := ReportReady, radar := true, diagnostic := BilanReady))
  }

  /** Terminal clean-up, in a transaction of its own. */
  function CleanedUp(db: Db): Option<Db> {
    if db.report != ReportPending then Some(db)
    else if !db.radar then Some(db.(report := ReportFailed))
    else if !Reaches(db.diagnostic, BilanReady) then None
    else Some(db.(report := ReportReady, diagnostic := BilanReady))
  }

  // ---- The code, on session copies ----------------------------------------------------------------

  class Report {
    var status: ReportStatus
    var radar: bool

    constructor (status: ReportStatus, radar: bool)
      ensures this.status == status && this.radar == radar
    {
      this.status := status;
      this.radar := radar;
    }

    method MarkScored()
      modifies this
      ensures radar && status == old(status)
    {
      radar := true;
    }

    method MarkReady()
      modifies this
      ensures radar && status == ReportReady
    {
      status := ReportReady;
      radar := true;
    }

    method MarkFailed()
      modifies this
      ensures status == ReportFailed && radar == old(radar)
    {
      status := ReportFailed;
    }
  }

  /** What a session sees of the two rows. */
  ghost function View(report: Report, project: Project): Db
    reads report, project
  {
    Db(report.status, report.radar, project.diagnosticStatus, project.reviewStatus)
  }

  /** The writes of the first phase, up to its commit. */
  method ScorePhase(report: Report, project: Project, needsReview: bool) returns (ok: bool)
    modifies report, project
    ensures ok <==> Scored(old(View(report, project)), needsReview).Some?
    ensures ok ==> View(report, project) == Scored(old(View(report, project)), needsReview).value
    ensures ok <==> old(project.diagnosticStatus) in {DiagnosticInProgress, DiagnosticCompleted}
    ensures ok ==> report.radar && report.status == old(report.status)
                   && project.diagnosticStatus == DiagnosticCompleted
                   && project.reviewStatus == if needsReview && old(project.reviewStatus) == NewDiagnostic then InReview
                                              else old(project.reviewStatus)
    ensures old(project.Audited()) ==> project.Audited()
  {
    report.MarkScored();
    var o := project.TransitionDiagnostic(DiagnosticCompleted);
    if o == Illegal {
      return false;
    }
    if needsReview && project.reviewStatus == NewDiagnostic {
      var _ := project.TransitionReview(InReview);
    }
    return true;
  }

  /** The writes of the second phase, up to its commit. */
  method PublishPhase(report: Report, project: Project) returns (ok: bool)
    modifies report, project
    ensures ok <==> Published(old(View(report, project))).Some?
    ensures ok ==> View(report, project) == Published(old(View(report, project))).value
    ensures ok <==> old(project.diagnosticStatus) in {DiagnosticCompleted, BilanReady}
    ensures ok ==> report.status == ReportReady && report.radar && project.diagnosticStatus == BilanReady
                   && project.reviewStatus == old(project.reviewStatus)
    ensures old(project.Audited()) ==> project.Audited()
  {
    report.MarkReady();
    var o := project.TransitionDiagnostic(BilanReady);
    return o != Illegal;
  }

  method CleanupPhase(report: Report, project: Project) returns (ok: bool)
    modifies report, project
    ensures ok <==> CleanedUp(old(View(report, project))).Some?
    ensures ok ==> View(report, project) == CleanedUp(old(View(report, project))).value
    ensures old(report.status) != ReportPending ==> ok && View(report, project) == old(View(report, project))
    ensures old(report.status) == ReportPending && !old(report.radar) ==>
              ok && report.status == ReportFailed && !report.radar
              && project.diagnosticStatus == old(project.diagnosticStatus)
    ensures old(report.status) == ReportPending && old(report.radar) ==>
              (ok <==> old(project.diagnosticStatus) in {DiagnosticCompleted, BilanReady})
              && report.status == ReportReady && report.radar
              && (ok ==> project.diagnosticStatus == BilanReady)
    ensures project.reviewStatus == old(project.reviewStatus)
    ensures old(project.Audited()) ==> project.Audited()
  {
    if report.status != ReportPending {
      return true;
    }
    if report.radar {
      report.status := ReportReady;
      var o := project.TransitionDiagnostic(BilanReady);
      return o != Illegal;
    }
    report.MarkFailed();
    return true;
  }

  // ---- The handler under the queue ----------------------------------------------------------------

  /** An attempt in flight: what it loaded or last committed, and whether the Radar is committed. */
  datatype Attempt = Attempt(copy: Db, scored: bool)

  /** The queue, the rows of the diagnostic, the attempts in flight and the workers whose handler has
      returned normally. */
  datatype System = System(queue: Queue, db: Db, attempts: map<nat, Attempt>, returned: set<nat>)

  datatype Event =
    | Queued(step: Step)
    | Load(worker: nat)
    | Score(worker: nat, needsReview: bool)
    | Publish(worker: nat)
    | Cleanup
    | Curate(target: ReviewStatus)

  ghost predicate Works(s: System, job: nat, w: nat) {
    w in s.queue.holders && s.queue.holders[w].job == job
  }

  /** The worker leaves its job with this queue step. */
  ghost predicate Leaves(step: Step, w: nat) {
    (step.Complete? || step.Fail? || step.Crash?) && step.worker == w
  }

  /** A worker acknowledges the diagnostic's job only after its handler returned, and reports a failure only
      when it raised. Clean-up may run at any time, and an analyst may curate at any time. */
  ghost predicate Allowed(s: System, job: nat, e: Event) {
    match e
    case Queued(step) =>
      && Enabled(s.queue, step)
      && (step.Complete? && Works(s, job, step.worker) ==> step.worker in s.returned)
      && (step.Fail? && Works(s, job, step.worker) ==> step.worker !in s.returned)
    case Load(w) => Works(s, job, w) && w !in s.attempts && w !in s.returned
    case Score(w, _) => Works(s, job, w) && w in s.attempts && !s.attempts[w].scored
    case Publish(w) => Works(s, job, w) && w in s.attempts && s.attempts[w].scored
    case Cleanup => true
    case Curate(_) => true
  }

  /** The same under the discipline of the queue. */
  ghost predicate Possible(s: System, job: nat, e: Event) {
    Allowed(s, job, e) && (e.Queued? ==> Disciplined(s.queue, e.step))
  }

  ghost function React(s: System, job: nat, e: Event): System
    requires Allowed(s, job, e)
  {
    match e
    case Queued(step) =>
      var gone := set w | w in s.attempts.Keys + s.returned && Leaves(step, w);
      System(Apply(s.queue, step), s.db, s.attempts - gone, s.returned - gone)
    case Load(w) =>
      if s.db.report == ReportReady && s.db.diagnostic == BilanReady then s.(returned := s.returned + {w})
      else s.(attempts := s.attempts[w := Attempt(s.db, false)])
    case Score(w, needsReview) =>
      var c := s.attempts[w].copy;
      var n := Scored(c, needsReview);
      if n.None? then s.(attempts := s.attempts - {w})
      else s.(db := Flush(s.db, c, n.value), attempts := s.attempts[w := Attempt(n.value, true)])
    case Publish(w) =>
      var c := s.attempts[w].copy;
      var n := Published(c);
      if n.None? then s.(attempts := s.attempts - {w})
      else s.(db := Flush(s.db, c, n.value), attempts := s.attempts - {w}, returned := s.returned + {w})
    case Cleanup =>
      var n := CleanedUp(s.db);
      if n.None? then s else s.(db := n.value)
    case Curate(target) => s.(db := CuratedBy(s.db, target))
  }

  /** An analyst's transaction: a move of the table, or nothing. */
  function CuratedBy(db: Db, target: ReviewStatus): Db {
    if CanTransitionReview(db.review, target) then db.(review := target) else db
  }

  /** READY means a Radar and a project at BILAN_READY; a Radar means a project past its diagnostic. */
  ghost predicate Coherent(db: Db) {
    && (db.report == ReportReady <==> db.diagnostic == BilanReady)
    && (db.radar <==> db.diagnostic == DiagnosticCompleted || db.diagnostic == BilanReady)
    && (!db.radar ==> db.diagnostic == DiagnosticInProgress)
  }

  /** What clean-up may have done to the rows since an attempt loaded or scored them. */
  ghost predicate Since(copy: Db, db: Db) {
    || (db.report == copy.report && db.radar == copy.radar && db.diagnostic == copy.diagnostic)
    || (copy.report == ReportPending && db.report == ReportFailed && db.radar == copy.radar
        && db.diagnostic == copy.diagnostic)
    || (copy.report == ReportPending && copy.radar && db.report == ReportReady && db.radar
        && db.diagnostic == BilanReady)
  }

  ghost predicate AttemptSound(a: Attempt, db: Db) {
    Coherent(a.copy) && a.copy.report != ReportReady && (a.scored ==> a.copy.radar) && Since(a.copy, db)
    && (a.copy.review != NewDiagnostic ==> db.review != NewDiagnostic)
  }

  ghost predicate Sound(s: System, job: nat) {
    && Exclusive(s.queue)
    && Coherent(s.db)
    && (forall w | w in s.attempts || w in s.returned :: Works(s, job, w))
    && (forall w | w in s.attempts :: AttemptSound(s.attempts[w], s.db) && w !in s.returned)
    && (s.returned != {} ==> s.db.report == ReportReady)
    && (job in s.queue.rows && s.queue.rows[job].status == Completed ==> s.db.report == ReportReady)
  }

  /** No attempt and no clean-up ever requests an illegal transition. */
  lemma TransitionsAreLegal(s: System, job: nat, e: Event)
    requires Sound(s, job) && Possible(s, job, e)
    ensures e.Score? ==> Scored(s.attempts[e.worker].copy, e.needsReview).Some?
    ensures e.Publish? ==> Published(s.attempts[e.worker].copy).Some?
    ensures e.Cleanup? ==> CleanedUp(s.db).Some?
  {
    if e.Score? || e.Publish? {
      assert AttemptSound(s.attempts[e.worker], s.db);
    }
  }

  /** Exclusion in the queue leaves at most one attempt in flight. */
  lemma OneAttempt(s: System, job: nat, v: nat, w: nat)
    requires Sound(s, job) && (v in s.attempts || v in s.returned) && (w in s.attempts || w in s.returned)
    ensures v == w
  {
    assert Works(s, job, v) && Works(s, job, w);
  }

  /** What any commit may do: READY stays, PENDING is never re-entered, the project status moves along an
      edge of its table, a Radar is never lost, and a project that was looked at is never new again. */
  ghost predicate Committed(db: Db, db': Db) {
    && (db.report == ReportReady ==> db'.report == ReportReady)
    && (db.report != ReportPending ==> db'.report != ReportPending)
    && Reaches(db.diagnostic, db'.diagnostic)
    && (db.radar ==> db'.radar)
    && (db.review != NewDiagnostic ==> db'.review != NewDiagnostic)
  }

  lemma QueueEvent(s: System, job: nat, step: Step)
    requires Sound(s, job) && Possible(s, job, Queued(step))
    ensures Sound(React(s, job, Queued(step)), job)
  {
    var s' := React(s, job, Queued(step));
    ExclusiveStep(s.queue, step);
    forall w | w in s'.attempts || w in s'.returned
      ensures Works(s', job, w)
    {
      assert Works(s, job, w) && !Leaves(step, w);
      assert HolderExact(s.queue, s.queue.holders[w]);
    }
    if job in s'.queue.rows && s'.queue.rows[job].status == Completed {
      assert job in s.queue.rows;
      if s.queue.rows[job].status != Completed {
        assert step.Complete? && Works(s, job, step.worker);
      }
    }
  }

  lemma ScoreEvent(s: System, job: nat, w: nat, needsReview: bool)
    requires Sound(s, job) && Possible(s, job, Score(w, needsReview))
    ensures Sound(React(s, job, Score(w, needsReview)), job)
    ensures Committed(s.db, React(s, job, Score(w, needsReview)).db)
    ensures needsReview ==> React(s, job, Score(w, needsReview)).db.review != NewDiagnostic
  {
    NoOtherAttempt(s, job, w);
  }

  lemma LoadEvent(s: System, job: nat, w: nat)
    requires Sound(s, job) && Possible(s, job, Load(w))
    ensures Sound(React(s, job, Load(w)), job) && Committed(s.db, React(s, job, Load(w)).db)
  {
    if s.db.report != ReportReady {
      NoOtherAttempt(s, job, w);
    }
  }

  lemma PublishEvent(s: System, job: nat, w: nat)
    requires Sound(s, job) && Possible(s, job, Publish(w))
    ensures Sound(React(s, job, Publish(w)), job) && Committed(s.db, React(s, job, Publish(w)).db)
  {
    NoOtherAttempt(s, job, w);
  }

  /** Every event keeps the system sound, and every commit is one that `Committed` allows. */
  lemma SoundStep(s: System, job: nat, e: Event)
    requires Sound(s, job) && Possible(s, job, e)
    ensures Sound(React(s, job, e), job) && Committed(s.db, React(s, job, e).db)
    ensures e.Cleanup? ==> React(s, job, e).db.report != ReportPending
    ensures e.Score? && e.needsReview ==> React(s, job, e).db.review != NewDiagnostic
  {
    match e
    case Queued(step) =>
      QueueEvent(s, job, step);
    case Load(w) =>
      LoadEvent(s, job, w);
    case Score(w, needsReview) =>
      ScoreEvent(s, job, w, needsReview);
    case Publish(w) =>
      PublishEvent(s, job, w);
    case Cleanup =>
    case Curate(target) =>
  }

  /** What the terminal clean-up decides: a report still pending becomes READY, on a BILAN_READY project, exactly when
      its Radar is committed, and FAILED exactly when it has none; any other report is left as it is. */
  lemma CleanupDecides(s: System, job: nat)
    requires Sound(s, job)
    ensures var db, db' := s.db, React(s, job, Cleanup).db;
            && (db.report != ReportPending ==> db' == db)
            && (db.report == ReportPending && db.radar ==>
                  db' == Db(ReportReady, true, BilanReady, db.review))
            && (db.report == ReportPending && !db.radar ==> db' == Db(ReportFailed, false, db.diagnostic, db.review))
  {
  }

  lemma NoOtherAttempt(s: System, job: nat, w: nat)
    requires Sound(s, job) && Works(s, job, w)
    ensures forall v | v in s.attempts || v in s.returned :: v == w
  {
    forall v | v in s.attempts || v in s.returned
      ensures v == w
    {
      assert Works(s, job, v);
    }
  }

  ghost predicate Happens(s: System, job: nat, events: seq<Event>, s': System)
    decreases |events|
  {
    if events == [] then s' == s
    else Possible(s, job, events[0]) && Happens(React(s, job, events[0]), job, events[1..], s')
  }

  /** Some attempt committed a score that asks for a review. */
  ghost predicate Uncertain(events: seq<Event>) {
    exists i :: 0 <= i < |events| && events[i].Score? && events[i].needsReview
  }

  /** End to end, over every run in which live workers keep their leases fresh: the rows stay coherent,
      READY is absorbing, a job marked completed has a READY report, once a clean-up has committed the
      founder is never left waiting, and an uncertain score always reaches a human. */
  lemma {:induction false} DiagnosticRunsAreSound(s: System, job: nat, events: seq<Event>, s': System)
    requires Sound(s, job) && Happens(s, job, events, s')
    ensures Sound(s', job)
    ensures s.db.report == ReportReady ==> s'.db.report == ReportReady
    ensures s.db.report != ReportPending || Cleanup in events ==> s'.db.report != ReportPending
    ensures Stage(s.db.diagnostic) <= Stage(s'.db.diagnostic)
    ensures s.db.review != NewDiagnostic || Uncertain(events) ==> s'.db.review != NewDiagnostic
    decreases |events|
  {
    if events != [] {
      var e := events[0];
      SoundStep(s, job, e);
      DiagnosticRunsAreSound(React(s, job, e), job, events[1..], s');
      assert events == [e] + events[1..];
      if Uncertain(events) && !(e.Score? && e.needsReview) {
        var i :| 0 <= i < |events| && events[i].Score? && events[i].needsReview;
        assert events[1..][i - 1] == events[i];
      }
    }
  }

  /** Some attempt committed its Radar. */
  ghost predicate RadarCommitted(events: seq<Event>) {
    exists i :: 0 <= i < |events| && events[i].Score?
  }

  lemma {:induction false} RadarStays(s: System, job: nat, events: seq<Event>, t: System)
    requires Sound(s, job) && Happens(s, job, events, t)
    ensures Sound(t, job) && (s.db.radar || RadarCommitted(events) ==> t.db.radar)
    ensures t.db.radar && !s.db.radar ==> RadarCommitted(events)
    decreases |events|
  {
    if events != [] {
      var e := events[0];
      SoundStep(s, job, e);
      TransitionsAreLegal(s, job, e);
      ScoreCommitsRadar(s, job, e);
      RadarStays(React(s, job, e), job, events[1..], t);
      assert events == [e] + events[1..];
      if RadarCommitted(events) && !e.Score? {
        var i :| 0 <= i < |events| && events[i].Score?;
        assert events[1..][i - 1] == events[i];
      }
      if RadarCommitted(events[1..]) {
        var i :| 0 <= i < |events[1..]| && events[1..][i].Score?;
        assert events[i + 1].Score?;
      }
    }
  }

  /** The Radar is committed by the first commit of an attempt and by nothing else. */
  lemma ScoreCommitsRadar(s: System, job: nat, e: Event)
    requires Sound(s, job) && Possible(s, job, e)
    ensures React(s, job, e).db.radar <==> s.db.radar || e.Score?
  {
    TransitionsAreLegal(s, job, e);
    if e.Score? || e.Publish? {
      assert AttemptSound(s.attempts[e.worker], s.db);
    }
  }

  /** A Radar once committed is never hidden: from a diagnostic without one, whatever happens, a clean-up that finds the
      report pending makes it READY exactly when some attempt has scored, and FAILED exactly when none has. */
  lemma CleanupAfterScore(s: System, job: nat, events: seq<Event>, t: System)
    requires Sound(s, job) && !s.db.radar && Happens(s, job, events, t) && t.db.report == ReportPending
    ensures var db := React(t, job, Cleanup).db;
            && (db.report == ReportReady && db.diagnostic == BilanReady <==> RadarCommitted(events))
            && (db.report == ReportFailed <==> !RadarCommitted(events))
  {
    RadarStays(s, job, events, t);
    CleanupDecides(t, job);
  }

  /** A diagnostic just started, on a queue that has run so far under the discipline. */
  lemma StartIsSound(q: Queue, job: nat)
    requires Exclusive(q) && job in q.rows && q.rows[job].status == Pending
    ensures Sound(System(q, STARTED_DB, map[], {}), job)
  {
  }

  // ---- Two attempts at once -------------------------------------------------------------------------

  /** The first commit of an attempt that loaded the rows earlier, against whatever stands there now, keeps
      them coherent unless that attempt saw a diagnostic in progress and another one has since published. */
  lemma StaleScoreIsSafeIff(db: Db, copy: Db, needsReview: bool)
    requires Coherent(db) && Coherent(copy) && copy.report != ReportReady
    requires copy.radar ==> db.radar
    ensures Scored(copy, needsReview).Some?
    ensures Coherent(Flush(db, copy, Scored(copy, needsReview).value))
            <==> !(db.report == ReportReady && copy.diagnostic == DiagnosticInProgress)
  {
  }

  /** Its second commit is harmless whatever has happened since the first one: that first commit is the only
      dangerous one. */
  lemma StalePublishIsSafe(db: Db, copy: Db)
    requires Coherent(db) && Coherent(copy) && copy.report != ReportReady && copy.radar && db.radar
    ensures Published(copy).Some?
    ensures var db' := Flush(db, copy, Published(copy).value);
            Coherent(db') && db'.report == ReportReady && Committed(db, db')
  {
  }

  /** Any run, disciplined or not. */
  ghost predicate Occurs(s: System, job: nat, events: seq<Event>, s': System)
    decreases |events|
  {
    if events == [] then s' == s
    else Allowed(s, job, events[0]) && Occurs(React(s, job, events[0]), job, events[1..], s')
  }

  lemma OccursFirst(s: System, job: nat, e: Event, events: seq<Event>, s': System)
    requires Allowed(s, job, e) && Occurs(React(s, job, e), job, events, s')
    ensures Occurs(s, job, [e] + events, s')
  {
    assert ([e] + events)[1..] == events;
  }

  const SCORED_DB := STARTED_DB.(radar := true, diagnostic := DiagnosticCompleted)

  const READY_DB := Db(ReportReady, true, BilanReady, NewDiagnostic)

  /** READY on a project sent back. */
  const REGRESSED_DB := READY_DB.(diagnostic := DiagnosticCompleted)

  const FRESH_ATTEMPT := Attempt(STARTED_DB, false)

  /** A worker stalls with the rows it loaded; its job is recovered all the same, a second worker runs it to the
      end, and the first one commits its score. */
  function Scene(at: nat): System {
    if at == 0 then System(ENQUEUED, STARTED_DB, map[], {})
    else if at == 1 then System(STALLED, STARTED_DB, map[], {})
    else if at == 2 then System(STALLED, STARTED_DB, map[1 := FRESH_ATTEMPT], {})
    else if at == 3 then System(RECOVERED, STARTED_DB, map[1 := FRESH_ATTEMPT], {})
    else if at == 4 then System(SHARED, STARTED_DB, map[1 := FRESH_ATTEMPT], {})
    else if at == 5 then System(SHARED, STARTED_DB, map[1 := FRESH_ATTEMPT, 2 := FRESH_ATTEMPT], {})
    else if at == 6 then System(SHARED, SCORED_DB, map[1 := FRESH_ATTEMPT, 2 := Attempt(SCORED_DB, true)], {})
    else if at == 7 then System(SHARED, READY_DB, map[1 := FRESH_ATTEMPT], {2})
    else System(SHARED, REGRESSED_DB, map[1 := Attempt(SCORED_DB, true)], {2})
  }

  function SceneEvent(at: nat): Event {
    if at == 0 then Queued(Claim(1, 0, 0))
    else if at == 1 then Load(1)
    else if at == 2 then Queued(Recover(0, 1801))
    else if at == 3 then Queued(Claim(2, 0, 1801))
    else if at == 4 then Load(2)
    else if at == 5 then Score(2, false)
    else if at == 6 then Publish(2)
    else Score(1, false)
  }

  ghost predicate SceneGoes(at: nat) {
    Allowed(Scene(at), 0, SceneEvent(at)) && React(Scene(at), 0, SceneEvent(at)) == Scene(at + 1)
  }

  lemma SceneQueueSteps()
    ensures SceneGoes(0) && SceneGoes(2) && SceneGoes(3)
  {
    StalledIsReached();
    SharedIsReached();
    QueueReact(0);
    QueueReact(2);
    QueueReact(3);
  }

  /** A queue step that no worker leaves by touches no attempt. */
  lemma QueueReact(at: nat)
    requires at == 0 || at == 2 || at == 3
    requires Enabled(Scene(at).queue, SceneEvent(at).step)
    ensures Allowed(Scene(at), 0, SceneEvent(at))
    ensures React(Scene(at), 0, SceneEvent(at)) == Scene(at).(queue := Apply(Scene(at).queue, SceneEvent(at).step))
  {
    var s, step := Scene(at), SceneEvent(at).step;
    var gone := set w | w in s.attempts.Keys + s.returned && Leaves(step, w);
    assert gone == {};
    assert s.attempts - gone == s.attempts && s.returned - gone == s.returned;
  }

  lemma SceneLoads()
    ensures SceneGoes(1) && SceneGoes(4)
  {
    assert map[][1 := FRESH_ATTEMPT] == map[1 := FRESH_ATTEMPT];
    assert map[1 := FRESH_ATTEMPT][2 := FRESH_ATTEMPT] == map[1 := FRESH_ATTEMPT, 2 := FRESH_ATTEMPT];
  }

  lemma SceneScores()
    ensures SceneGoes(5)
  {
    var s := Scene(5);
    assert Scored(STARTED_DB, false) == Some(SCORED_DB);
    assert s.attempts[2 := Attempt(SCORED_DB, true)] == Scene(6).attempts;
  }

  lemma ScenePublishes()
    ensures SceneGoes(6)
  {
    assert Published(SCORED_DB) == Some(READY_DB);
    assert Scene(6).attempts - {2} == Scene(7).attempts;
  }

  lemma SceneRegresses()
    ensures SceneGoes(7)
  {
    assert Scored(STARTED_DB, false) == Some(SCORED_DB);
    assert Scene(7).attempts[1 := Attempt(SCORED_DB, true)] == Scene(8).attempts;
  }

  function SceneFrom(at: nat): seq<Event>
    requires at <= 8
    decreases 8 - at
  {
    if at == 8 then [] else [SceneEvent(at)] + SceneFrom(at + 1)
  }

  lemma SceneGoesOn(at: nat)
    requires at < 8
    ensures SceneGoes(at)
  {
    if at == 0 || at == 2 || at == 3 {
      SceneQueueSteps();
    } else if at == 1 || at == 4 {
      SceneLoads();
    } else if at == 5 {
      SceneScores();
    } else if at == 6 {
      ScenePublishes();
    } else {
      SceneRegresses();
    }
  }

  /** The scene is a run of the system. */
  lemma {:induction false} SceneOccurs(at: nat)
    requires at <= 8
    ensures Occurs(Scene(at), 0, SceneFrom(at), Scene(8))
    decreases 8 - at
  {
    if at < 8 {
      SceneGoesOn(at);
      SceneOccurs(at + 1);
      OccursFirst(Scene(at), 0, SceneEvent(at), SceneFrom(at + 1), Scene(8));
    }
  }

  /** So two live attempts at the same diagnostic, which a recovery before the death of the first worker brings
      about, can leave a READY report on a project sent back to DIAGNOSTIC_COMPLETED, a move its table forbids. The
      run starts sound and that recovery is what breaks the discipline. */
  lemma TwoAttemptsRegress()
    ensures Sound(Scene(0), 0) && !Disciplined(STALLED, Recover(0, 1801))
    ensures Coherent(Scene(7).db) && !Coherent(Scene(8).db) && Scene(8).db.report == ReportReady
    ensures !Reaches(Scene(7).db.diagnostic, Scene(8).db.diagnostic)
  {
    SceneIsSound();
    assert 1 in STALLED.holders;
  }

  lemma SceneIsSound()
    ensures Sound(Scene(0), 0)
  {
    assert RowExact(FIRST_ROW, Count(ENQUEUED, 0));
    StartIsSound(ENQUEUED, 0);
  }

  // ---- Curation during an attempt -------------------------------------------------------------------------------

  predicate ReviewMoves(r: ReviewStatus, r': ReviewStatus) {
    r' == r || CanTransitionReview(r, r')
  }

  /** When the first commit of an attempt that loaded the rows earlier leaves the analyst's decision alone, and when
      it at least moves it along its table: an attempt that saw a new project writes IN_REVIEW over what stands. */
  lemma StaleReviewIff(db: Db, copy: Db, needsReview: bool)
    requires Scored(copy, needsReview).Some?
    ensures var r := Flush(db, copy, Scored(copy, needsReview).value).review;
            && (r == db.review <==> !(needsReview && copy.review == NewDiagnostic && db.review != InReview))
            && (ReviewMoves(db.review, r)
                <==> !(needsReview && copy.review == NewDiagnostic && db.review in {Qualified, Excellence}))
  {
  }

  /** A score commits over a qualification it has not seen. */
  ghost predicate Overwrites(s: System, e: Event) {
    && e.Score? && e.needsReview && e.worker in s.attempts
    && s.attempts[e.worker].copy.review == NewDiagnostic && s.db.review in {Qualified, Excellence}
  }

  /** No other event takes the review status out of its table. */
  lemma ReviewStepIff(s: System, job: nat, e: Event)
    requires Sound(s, job) && Possible(s, job, e)
    ensures ReviewMoves(s.db.review, React(s, job, e).db.review) <==> !Overwrites(s, e)
  {
    TransitionsAreLegal(s, job, e);
  }

  /** Even under the discipline of the queue: a project qualified while its first score is being computed is back in
      review when an uncertain score commits. */
  lemma QualificationIsOverwritten(s: System, job: nat, w: nat) returns (events: seq<Event>, t: System, s': System)
    requires Sound(s, job) && Works(s, job, w) && w !in s.attempts && w !in s.returned
    requires s.db.report != ReportReady && s.db.review == NewDiagnostic
    ensures Happens(s, job, events, t) && t.db.review == Qualified
    ensures Possible(t, job, Score(w, true)) && s' == React(t, job, Score(w, true)) && Overwrites(t, Score(w, true))
    ensures s'.db.review == InReview && !ReviewMoves(t.db.review, s'.db.review)
  {
    var a := React(s, job, Load(w));
    assert a == s.(attempts := s.attempts[w := Attempt(s.db, false)]) && Scored(s.db, true).Some?;
    var rest;
    rest, t := QualifiedAtOnce(a, job);
    HappensThen(s, job, Load(w), rest, t);
    events := [Load(w)] + rest;
    s' := React(t, job, Score(w, true));
  }

  /** Two moves of the analyst. */
  lemma QualifiedAtOnce(s: System, job: nat) returns (events: seq<Event>, t: System)
    requires s.db.review == NewDiagnostic
    ensures Happens(s, job, events, t) && t == s.(db := s.db.(review := Qualified))
  {
    var b := React(s, job, Curate(InReview));
    t := React(b, job, Curate(Qualified));
    HappensThen(b, job, Curate(Qualified), [], t);
    HappensThen(s, job, Curate(InReview), [Curate(Qualified)] + [], t);
    events := [Curate(InReview)] + ([Curate(Qualified)] + []);
  }

  /** What an analyst can check: no attempt that loaded a new project is still to commit its score. */
  ghost predicate CurationWaits(s: System, e: Event) {
    e.Curate? ==> forall w | w in s.attempts && !s.attempts[w].scored :: s.attempts[w].copy.review != NewDiagnostic
  }

  ghost predicate Patient(s: System, job: nat, events: seq<Event>)
    decreases |events|
  {
    events == []
    || (Possible(s, job, events[0]) && CurationWaits(s, events[0])
        && Patient(React(s, job, events[0]), job, events[1..]))
  }

  /** Every change of the review status is an analyst's move of the table, or the routing of a new project. */
  ghost predicate DecisionsStand(s: System, job: nat, events: seq<Event>)
    decreases |events|
  {
    events == []
    || (Possible(s, job, events[0])
        && var r, s' := s.db.review, React(s, job, events[0]);
           && ReviewMoves(r, s'.db.review)
           && (s'.db.review == r || events[0].Curate? || r == NewDiagnostic)
           && DecisionsStand(s', job, events[1..]))
  }

  ghost predicate SeesReview(s: System) {
    forall w | w in s.attempts && !s.attempts[w].scored && s.attempts[w].copy.review == NewDiagnostic ::
      s.db.review == NewDiagnostic
  }

  lemma SeesReviewStep(s: System, job: nat, e: Event)
    requires Sound(s, job) && SeesReview(s) && Possible(s, job, e) && CurationWaits(s, e)
    ensures SeesReview(React(s, job, e))
  {
    if e.Score? {
      NoOtherAttempt(s, job, e.worker);
    }
  }

  /** No decision of an analyst who waits is ever undone by the pipeline. */
  lemma {:induction false} PatientDecisionsStand(s: System, job: nat, events: seq<Event>)
    requires Sound(s, job) && SeesReview(s) && Patient(s, job, events)
    ensures DecisionsStand(s, job, events)
    decreases |events|
  {
    if events != [] {
      var e := events[0];
      TransitionsAreLegal(s, job, e);
      ReviewStepIff(s, job, e);
      SoundStep(s, job, e);
      SeesReviewStep(s, job, e);
      PatientDecisionsStand(React(s, job, e), job, events[1..]);
    }
  }

  // ---- A clean-up that never runs ---------------------------------------------------------------------------------

  /** A job given up has no live worker left. */
  lemma NobodyHolds(s: System, job: nat)
    requires Sound(s, job) && job in s.queue.rows && s.queue.rows[job].status == Failed
    ensures s.attempts == map[] && forall w :: !Works(s, job, w)
  {
    forall w
      ensures !Works(s, job, w)
    {
      if w in s.queue.holders {
        assert HolderExact(s.queue, s.queue.holders[w]);
      }
    }
    assert forall w :: w !in s.attempts;
  }

  ghost predicate RequeuesJob(e: Event, job: nat) {
    e.Queued? && e.step.Requeue? && e.step.job == job
  }

  /** Only a requeue takes a job out of FAILED, and only a clean-up then touches the rows. */
  lemma GivenUpStep(s: System, job: nat, e: Event)
    requires Sound(s, job) && Possible(s, job, e) && !RequeuesJob(e, job)
    requires job in s.queue.rows && s.queue.rows[job].status == Failed
    ensures var s' := React(s, job, e);
            && job in s'.queue.rows && s'.queue.rows[job].status == Failed
            && s'.db == if e.Cleanup? then CleanedUp(s.db).value
                        else if e.Curate? then CuratedBy(s.db, e.target) else s.db
  {
    NobodyHolds(s, job);
    TransitionsAreLegal(s, job, e);
    if e.Queued? && e.step.Heartbeat? && e.step.worker in s.queue.holders {
      assert HolderExact(s.queue, s.queue.holders[e.step.worker]);
    }
  }

  /** The worker may die between giving the job up and cleaning up: the founder then waits for ever, exactly as long as
      no clean-up comes and nobody requeues the job. */
  lemma {:induction false} PendingUntilCleanedIff(s: System, job: nat, events: seq<Event>, s': System)
    requires Sound(s, job) && Happens(s, job, events, s') && forall e | e in events :: !RequeuesJob(e, job)
    requires job in s.queue.rows && s.queue.rows[job].status == Failed && s.db.report == ReportPending
    ensures s'.db.report == ReportPending <==> Cleanup !in events
    decreases |events|
  {
    if events != [] {
      var e := events[0];
      assert events == [e] + events[1..];
      assert e in events && forall f | f in events[1..] :: f in events;
      var t := React(s, job, e);
      SoundStep(s, job, e);
      GivenUpStep(s, job, e);
      if e.Cleanup? {
        DiagnosticRunsAreSound(t, job, events[1..], s');
      } else {
        PendingUntilCleanedIff(t, job, events[1..], s');
      }
    }
  }

  /** A job nobody holds, waiting for its next attempt, on a diagnostic that has no Radar yet. */
  ghost predicate Waiting(s: System, job: nat, w: nat) {
    && Sound(s, job) && w !in s.queue.holders && w !in s.returned && s.attempts == map[]
    && job in s.queue.rows && s.queue.rows[job].status in {Pending, Retrying}
    && s.db.report == ReportPending && !s.db.radar
  }

  lemma HappensThen(s: System, job: nat, e: Event, events: seq<Event>, s': System)
    requires Possible(s, job, e) && Happens(React(s, job, e), job, events, s')
    ensures Happens(s, job, [e] + events, s')
  {
    assert ([e] + events)[1..] == events;
  }

  lemma {:induction false} HappensAll(s: System, job: nat, first: seq<Event>, t: System, rest: seq<Event>, u: System)
    requires Happens(s, job, first, t) && Happens(t, job, rest, u)
    ensures Happens(s, job, first + rest, u)
    decreases |first|
  {
    if first == [] {
      assert first + rest == rest;
    } else {
      HappensAll(React(s, job, first[0]), job, first[1..], t, rest, u);
      HappensThen(s, job, first[0], first[1..] + rest, u);
      assert first + rest == [first[0]] + (first[1..] + rest);
    }
  }

  lemma AfterClaim(s: System, job: nat, w: nat) returns (e: Event, a: System)
    requires Waiting(s, job, w)
    ensures e.Queued? && Possible(s, job, e) && a == React(s, job, e) && Sound(a, job)
    ensures a.db == s.db && a.attempts == map[] && w !in a.returned && w in a.queue.holders && job in a.queue.rows
    ensures var r := s.queue.rows[job]; a.queue.holders[w] == Holder(job, r.retryCount, r.maxRetries)
    ensures a.queue.rows[job] == ClaimedRow(s.queue.rows[job], s.queue.rows[job].scheduledAt)
  {
    e := Queued(Claim(w, job, s.queue.rows[job].scheduledAt));
    a := React(s, job, e);
    SoundStep(s, job, e);
  }

  lemma AfterFail(b: System, job: nat, w: nat, now: int) returns (e: Event, s': System)
    requires Sound(b, job) && Works(b, job, w) && w !in b.returned && b.db.report == ReportPending && !b.db.radar
    requires forall v | v in b.attempts :: v == w
    ensures e.Queued? && Possible(b, job, e) && s' == React(b, job, e) && Sound(s', job)
    ensures s'.db == b.db && s'.attempts == map[] && w !in s'.queue.holders && w !in s'.returned
    ensures job in b.queue.rows && job in s'.queue.rows
    ensures var h := b.queue.holders[w];
            s'.queue.rows[job] == AttemptFailedRow(b.queue.rows[job], h.retryCount, h.maxRetries, now)
  {
    e := Queued(Step.Fail(w, now));
    assert HolderExact(b.queue, b.queue.holders[w]);
    s' := React(b, job, e);
    SoundStep(b, job, e);
    assert forall v :: v !in s'.attempts;
  }

  /** One attempt that raises before its first commit. */
  lemma AttemptFails(s: System, job: nat, w: nat) returns (events: seq<Event>, s': System)
    requires Waiting(s, job, w)
    ensures Happens(s, job, events, s') && (forall e | e in events :: !e.Cleanup?) && job in s'.queue.rows
    ensures var r, r' := s.queue.rows[job], s'.queue.rows[job];
            && Sound(s', job) && s'.db == s.db && r'.maxRetries == r.maxRetries
            && if r.retryCount < r.maxRetries then Waiting(s', job, w) && r'.retryCount == r.retryCount + 1
               else r'.status == Failed
  {
    var claim, a := AfterClaim(s, job, w);
    assert Works(a, job, w);
    var b := React(a, job, Load(w));
    SoundStep(a, job, Load(w));
    var fail, t := AfterFail(b, job, w, s.queue.rows[job].scheduledAt);
    s' := t;
    HappensThen(b, job, fail, [], s');
    HappensThen(a, job, Load(w), [fail] + [], s');
    HappensThen(s, job, claim, [Load(w)] + ([fail] + []), s');
    events := [claim] + ([Load(w)] + ([fail] + []));
  }

  /** Whatever the number of retries, a diagnostic whose attempts all raise can end with the job given up and the
      founder waiting: the clean-up is not part of the transaction that gives the job up. */
  lemma {:induction false} FounderLeftWaiting(s: System, job: nat, w: nat) returns (events: seq<Event>, s': System)
    requires Waiting(s, job, w)
    ensures Happens(s, job, events, s') && (forall e | e in events :: !e.Cleanup?)
    ensures Sound(s', job) && job in s'.queue.rows && s'.queue.rows[job].status == Failed
            && s'.db.report == ReportPending
    decreases s.queue.rows[job].maxRetries - s.queue.rows[job].retryCount
  {
    var first, t := AttemptFails(s, job, w);
    events, s' := first, t;
    if s.queue.rows[job].retryCount < s.queue.rows[job].maxRetries {
      var rest, u := FounderLeftWaiting(t, job, w);
      HappensAll(s, job, first, t, rest, u);
      events, s' := first + rest, u;
    }
  }

  // ---- An attempt that succeeds ----------------------------------------------------------------------------------

  /** A worker that holds the job and has not yet looked at it. */
  ghost predicate Starts(s: System, job: nat, w: nat) {
    Sound(s, job) && Works(s, job, w) && w !in s.attempts && w !in s.returned
  }

  /** Its attempt on a diagnostic without a full report: two commits, each allowed, then READY on a BILAN_READY project,
      sent to a human if the score asks for it and nobody has looked yet. */
  lemma AttemptPublishes(s: System, job: nat, w: nat, needsReview: bool) returns (events: seq<Event>, t: System)
    requires Starts(s, job, w) && s.db.report != ReportReady
    ensures Happens(s, job, events, t) && Sound(t, job) && w in t.returned && Works(t, job, w)
    ensures t.db == Db(ReportReady, true, BilanReady,
                       if needsReview && s.db.review == NewDiagnostic then InReview else s.db.review)
  {
    var a := React(s, job, Load(w));
    SoundStep(s, job, Load(w));
    TransitionsAreLegal(a, job, Score(w, needsReview));
    var b := React(a, job, Score(w, needsReview));
    SoundStep(a, job, Score(w, needsReview));
    TransitionsAreLegal(b, job, Publish(w));
    t := React(b, job, Publish(w));
    SoundStep(b, job, Publish(w));
    events := ThreeEvents(s, job, Load(w), Score(w, needsReview), Publish(w), t);
  }

  lemma ThreeEvents(s: System, job: nat, e: Event, f: Event, g: Event, t: System) returns (events: seq<Event>)
    requires Possible(s, job, e) && Possible(React(s, job, e), job, f)
    requires Possible(React(React(s, job, e), job, f), job, g)
    requires t == React(React(React(s, job, e), job, f), job, g)
    ensures Happens(s, job, events, t)
  {
    var a := React(s, job, e);
    HappensThen(React(a, job, f), job, g, [], t);
    HappensThen(a, job, f, [g] + [], t);
    HappensThen(s, job, e, [f] + ([g] + []), t);
    events := [e] + ([f] + ([g] + []));
  }

  /** A diagnostic already READY is left as it is, and its worker may acknowledge the job. */
  lemma ReadyIsSkipped(s: System, job: nat, w: nat)
    requires Starts(s, job, w) && s.db.report == ReportReady
    ensures Possible(s, job, Load(w)) && React(s, job, Load(w)) == s.(returned := s.returned + {w})
  {
  }

  /** Once its handler has returned, a worker completes its job, for good and with nothing of it left in flight. */
  lemma ReturnedCompletes(s: System, job: nat, w: nat)
    requires Sound(s, job) && Works(s, job, w) && w in s.returned
    ensures Possible(s, job, Queued(Step.Complete(w)))
    ensures var t := React(s, job, Queued(Step.Complete(w)));
            && Sound(t, job) && t.db == s.db && job in t.queue.rows && t.queue.rows[job].status == Completed
            && w !in t.returned && w !in t.attempts && w !in t.queue.holders
  {
    assert HolderExact(s.queue, s.queue.holders[w]);
    SoundStep(s, job, Queued(Step.Complete(w)));
  }
}
