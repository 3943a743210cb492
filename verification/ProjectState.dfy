/** The two state machines of a project and the audited transitions (`projects/models.py`,
    `projects/state_service.py`). */
module ProjectState {

  datatype DiagnosticStatus = Draft | DiagnosticInProgress | DiagnosticCompleted | BilanReady | Archived

  datatype ReviewStatus = NewDiagnostic | InReview | NeedsWork | Qualified | Excellence | Rejected

  function DiagnosticTargets(s: DiagnosticStatus): seq<DiagnosticStatus> {
    match s
    case Draft => [DiagnosticInProgress, Archived]
    case DiagnosticInProgress => [DiagnosticCompleted, Archived]
    case DiagnosticCompleted => [BilanReady]
    case BilanReady => [Archived]
    case Archived => []
  }

  function ReviewTargets(s: ReviewStatus): seq<ReviewStatus> {
    match s
    case NewDiagnostic => [InReview]
    case InReview => [Qualified, NeedsWork, Rejected]
    case NeedsWork => [InReview]
    case Qualified => [Excellence, NeedsWork]
    case Excellence => [Qualified]
    case Rejected => [InReview]
  }

  predicate CanTransitionDiagnostic(current: DiagnosticStatus, target: DiagnosticStatus) {
    target in DiagnosticTargets(current)
  }

  predicate CanTransitionReview(current: ReviewStatus, target: ReviewStatus) {
    target in ReviewTargets(current)
  }

  /** The moves of the two tables and no others: the diagnostic only goes forward, step by step but for its archiving,
      and no review goes back to new. */
  lemma TablesAre(d: DiagnosticStatus, e: DiagnosticStatus, r: ReviewStatus, s: ReviewStatus)
    ensures CanTransitionDiagnostic(d, e)
            <==> (d, e) in {(Draft, DiagnosticInProgress), (Draft, Archived),
                            (DiagnosticInProgress, DiagnosticCompleted), (DiagnosticInProgress, Archived),
                            (DiagnosticCompleted, BilanReady), (BilanReady, Archived)}
    ensures CanTransitionReview(r, s)
            <==> (r, s) in {(NewDiagnostic, InReview), (InReview, Qualified), (InReview, NeedsWork),
                            (InReview, Rejected), (NeedsWork, InReview), (Qualified, Excellence),
                            (Qualified, NeedsWork), (Excellence, Qualified), (Rejected, InReview)}
  {
  }

  datatype Outcome = Changed | Unchanged | Illegal

  datatype AuditEntry =
    | DiagnosticChange(before: DiagnosticStatus, after: DiagnosticStatus)
    | ReviewChange(oldReview: ReviewStatus, newReview: ReviewStatus)

  /** Following the entries from one pair of statuses leads to another, along legal edges only. */
  ghost predicate Replays(trail: seq<AuditEntry>, d: DiagnosticStatus, r: ReviewStatus,
                          d': DiagnosticStatus, r': ReviewStatus)
    decreases |trail|
  {
    if trail == [] then d' == d && r' == r
    else
      var last := trail[|trail| - 1];
      match last
      case DiagnosticChange(x, y) =>
        CanTransitionDiagnostic(x, y) && d' == y && Replays(trail[..|trail| - 1], d, r, x, r')
      case ReviewChange(x, y) =>
        CanTransitionReview(x, y) && r' == y && Replays(trail[..|trail| - 1], d, r, d', x)
  }

  class Project {
    var diagnosticStatus: DiagnosticStatus
    var reviewStatus: ReviewStatus
    /** The audit rows written for this project, oldest first. */
    var trail: seq<AuditEntry>

    constructor ()
      ensures diagnosticStatus == Draft && reviewStatus == NewDiagnostic && trail == []
    {
      diagnosticStatus := Draft;
      reviewStatus := NewDiagnostic;
      trail := [];
    }

    /** The trail accounts for the current statuses. */
    ghost predicate Audited()
      reads this
    {
      Replays(trail, Draft, NewDiagnostic, diagnosticStatus, reviewStatus)
    }

    method TransitionDiagnostic(target: DiagnosticStatus) returns (o: Outcome)
      modifies this
      ensures reviewStatus == old(reviewStatus)
      ensures o == if old(diagnosticStatus) == target then Unchanged
                   else if CanTransitionDiagnostic(old(diagnosticStatus), target) then Changed else Illegal
      ensures o == Changed ==> diagnosticStatus == target
                               && trail == old(trail) + [DiagnosticChange(old(diagnosticStatus), target)]
      ensures o != Changed ==> diagnosticStatus == old(diagnosticStatus) && trail == old(trail)
      ensures old(Audited()) ==> Audited()
    {
      var current := diagnosticStatus;
      if current == target {
        return Unchanged;
      }
      if !CanTransitionDiagnostic(current, target) {
        return Illegal;
      }
      diagnosticStatus := target;
      trail := trail + [DiagnosticChange(current, target)];
      assert trail[..|trail| - 1] == old(trail);
      return Changed;
    }

    method TransitionReview(target: ReviewStatus) returns (o: Outcome)
      modifies this
      ensures diagnosticStatus == old(diagnosticStatus)
      ensures o == if old(reviewStatus) == target then Unchanged
                   else if CanTransitionReview(old(reviewStatus), target) then Changed else Illegal
      ensures o == Changed ==> reviewStatus == target
                               && trail == old(trail) + [ReviewChange(old(reviewStatus), target)]
      ensures o != Changed ==> reviewStatus == old(reviewStatus) && trail == old(trail)
      ensures old(Audited()) ==> Audited()
    {
      var current := reviewStatus;
      if current == target {
        return Unchanged;
      }
      if !CanTransitionReview(current, target) {
        return Illegal;
      }
      reviewStatus := target;
      trail := trail + [ReviewChange(current, target)];
      assert trail[..|trail| - 1] == old(trail);
      return Changed;
    }
  }

  function Stage(d: DiagnosticStatus): nat {
    match d
    case Draft => 0
    case DiagnosticInProgress => 1
    case DiagnosticCompleted => 2
    case BilanReady => 3
    case Archived => 4
  }

  function DiagnosticChanges(trail: seq<AuditEntry>): nat {
    if trail == [] then 0
    else DiagnosticChanges(trail[..|trail| - 1]) + if trail[|trail| - 1].DiagnosticChange? then 1 else 0
  }

  /** The diagnostic pipeline only moves forward: however long the audit trail, it holds at most four
      changes of the diagnostic status. A curated project is never new again. */
  lemma {:induction false} TrailMovesForward(trail: seq<AuditEntry>, d: DiagnosticStatus, r: ReviewStatus,
                                             d': DiagnosticStatus, r': ReviewStatus)
    requires Replays(trail, d, r, d', r')
    ensures Stage(d) + DiagnosticChanges(trail) <= Stage(d') <= 4
    ensures r != NewDiagnostic ==> r' != NewDiagnostic
    decreases |trail|
  {
    if trail != [] {
      match trail[|trail| - 1]
      case DiagnosticChange(x, y) => TrailMovesForward(trail[..|trail| - 1], d, r, x, r');
      case ReviewChange(x, y) => TrailMovesForward(trail[..|trail| - 1], d, r, d', x);
    }
  }
}
