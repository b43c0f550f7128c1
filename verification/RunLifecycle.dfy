/** The lifecycle of a sync run: which event traces it accepts. */
module RunLifecycle {
  import opened Common

  datatype ActiveState =
    | IdleEdit | Prechecking | Analyzing | PlanReview | ExecutionConfirmation | Executing
    | CompletionReconciliation | ReviewResolution

  datatype TerminalOutcome =
    | Completed | OutcomeBlocked | OutcomeFailed | OutcomeCancelled | OutcomeInterrupted | OutcomeRecoveryReview
    | OutcomeReviewCleared

  datatype RunState = Active(active: ActiveState) | PendingReview | Terminal(outcome: TerminalOutcome)

  datatype RunEvent =
    | BeginPrecheck | PrecheckPassed | AnalysisCompleted | PlanReviewed | ExecutionConfirmed | ExecutionCompleted
    | ReconciliationCompleted(requiresReview: bool) | OpenReview | BeginResolutionRun | ReviewCleared
    | Blocked | Failed | Cancelled | Interrupted | RecoveryReview

  /** The outcome an event that stops the run gives. */
  function StopOutcome(event: RunEvent): Option<TerminalOutcome> {
    match event
    case Blocked => Some(OutcomeBlocked)
    case Failed => Some(OutcomeFailed)
    case Cancelled => Some(OutcomeCancelled)
    case Interrupted => Some(OutcomeInterrupted)
    case RecoveryReview => Some(OutcomeRecoveryReview)
    case _ => None
  }

  /** `next_state`. */
  function NextState(state: RunState, event: RunEvent): Option<RunState> {
    var stop := StopOutcome(event);
    if stop.Some? then
      match state
      case Active(_) => Some(Terminal(stop.value))
      case PendingReview => Some(Terminal(stop.value))
      case Terminal(_) => None
    else
      match (state, event)
      case (Active(IdleEdit), BeginPrecheck) => Some(Active(Prechecking))
      case (Active(Prechecking), PrecheckPassed) => Some(Active(Analyzing))
      case (Active(Analyzing), AnalysisCompleted) => Some(Active(PlanReview))
      case (Active(PlanReview), PlanReviewed) => Some(Active(ExecutionConfirmation))
      case (Active(ExecutionConfirmation), ExecutionConfirmed) => Some(Active(Executing))
      case (Active(Executing), ExecutionCompleted) => Some(Active(CompletionReconciliation))
      case (Active(CompletionReconciliation), ReconciliationCompleted(requiresReview)) =>
        Some(if requiresReview then PendingReview else Terminal(Completed))
      case (PendingReview, OpenReview) => Some(Active(ReviewResolution))
      case (Active(ReviewResolution), BeginResolutionRun) => Some(Active(Analyzing))
      case (Active(ReviewResolution), ReviewCleared) => Some(Terminal(OutcomeReviewCleared))
      case _ => None
  }

  datatype SyncRun = SyncRun(id: nat, state: RunState)

  datatype TransitionError = InvalidTransition(state: RunState, event: RunEvent)

  /** `SyncRun::transition`. */
  function Transition(run: SyncRun, event: RunEvent): Result<SyncRun, TransitionError> {
    match NextState(run.state, event)
    case None => Err(InvalidTransition(run.state, event))
    case Some(next) => Ok(run.(state := next))
  }

  /** The run after a trace of transitions, when all of them are accepted. */
  function RunAll(run: SyncRun, trace: seq<RunEvent>): Result<SyncRun, TransitionError> {
    if trace == [] then Ok(run)
    else
      match RunAll(run, Init(trace))
      case Err(error) => Err(error)
      case Ok(before) => Transition(before, Last(trace))
  }

  function NewRun(id: nat): SyncRun {
    SyncRun(id, Active(IdleEdit))
  }

  // ----- The accepted traces -----

  /** The one event that keeps a run going at position `k`: the precheck, then the review cycle over and over. */
  function Expected(k: nat): RunEvent {
    if k == 0 then BeginPrecheck else if k == 1 then PrecheckPassed
    else
      match (k - 2) % 7
      case 0 => AnalysisCompleted
      case 1 => PlanReviewed
      case 2 => ExecutionConfirmed
      case 3 => ExecutionCompleted
      case 4 => ReconciliationCompleted(true)
      case 5 => OpenReview
      case _ => BeginResolutionRun
  }

  /** Where a run is after `k` such events. */
  function Reached(k: nat): RunState {
    if k == 0 then Active(IdleEdit) else if k == 1 then Active(Prechecking)
    else
      match (k - 2) % 7
      case 0 => Active(Analyzing)
      case 1 => Active(PlanReview)
      case 2 => Active(ExecutionConfirmation)
      case 3 => Active(Executing)
      case 4 => Active(CompletionReconciliation)
      case 5 => PendingReview
      case _ => Active(ReviewResolution)
  }

  predicate OnCourse(trace: seq<RunEvent>) {
    forall k :: 0 <= k < |trace| ==> trace[k] == Expected(k)
  }

  /** How an event ends a run that has gone `k` events along its course. */
  function EndOutcome(k: nat, event: RunEvent): Option<TerminalOutcome> {
    if StopOutcome(event).Some? then StopOutcome(event)
    else if k >= 2 && (k - 2) % 7 == 4 && event == ReconciliationCompleted(false) then Some(Completed)
    else if k >= 2 && (k - 2) % 7 == 6 && event == ReviewCleared then Some(OutcomeReviewCleared)
    else None
  }

  lemma StepOnCourse(k: nat, event: RunEvent)
    ensures NextState(Reached(k), event) ==
            if event == Expected(k) then Some(Reached(k + 1))
            else if EndOutcome(k, event).Some? then Some(Terminal(EndOutcome(k, event).value))
            else None
  {
    if k >= 2 {
      var phase := (k - 2) % 7;
      assert (k + 1 - 2) % 7 == if phase == 6 then 0 else phase + 1;
      assert phase == 0 || phase == 1 || phase == 2 || phase == 3 || phase == 4 || phase == 5 || phase == 6;
    }
  }

  /** The language of a run: it is accepted along its course, and for one ending event; nothing follows an ending. */
  lemma {:induction false} AcceptedExactly(id: nat, trace: seq<RunEvent>, state: RunState)
    ensures RunAll(NewRun(id), trace) == Ok(SyncRun(id, state)) <==>
            || (OnCourse(trace) && state == Reached(|trace|))
            || (trace != [] && OnCourse(Init(trace)) && EndOutcome(|trace| - 1, Last(trace)).Some? &&
                state == Terminal(EndOutcome(|trace| - 1, Last(trace)).value))
  {
    AcceptedIs(id, trace);
    NotBoth(trace);
  }

  function Language(trace: seq<RunEvent>): Option<RunState> {
    if OnCourse(trace) then Some(Reached(|trace|))
    else if trace != [] && OnCourse(Init(trace)) && EndOutcome(|trace| - 1, Last(trace)).Some? then
      Some(Terminal(EndOutcome(|trace| - 1, Last(trace)).value))
    else None
  }

  /** An ending event is never the one that continues the course. */
  lemma NotBoth(trace: seq<RunEvent>)
    ensures trace != [] && EndOutcome(|trace| - 1, Last(trace)).Some? ==> !OnCourse(trace)
  {
    if trace != [] {
      var k := |trace| - 1;
      assert trace[k] == Last(trace);
      if k >= 2 {
        var phase := (k - 2) % 7;
        assert phase == 0 || phase == 1 || phase == 2 || phase == 3 || phase == 4 || phase == 5 || phase == 6;
      }
      assert EndOutcome(k, Expected(k)) == None;
    }
  }

  lemma {:induction false} AcceptedIs(id: nat, trace: seq<RunEvent>)
    ensures match Language(trace)
            case None => RunAll(NewRun(id), trace).Err?
            case Some(state) => RunAll(NewRun(id), trace) == Ok(SyncRun(id, state))
  {
    if trace != [] {
      var most, last := Init(trace), Last(trace);
      AcceptedIs(id, most);
      NotBoth(trace);
      assert OnCourse(trace) <==> OnCourse(most) && last == Expected(|most|) by {
        assert trace == most + [last];
      }
      if OnCourse(most) {
        StepOnCourse(|most|, last);
      }
    }
  }

  /** Execution is only ever entered from a fresh analysis that was reviewed and confirmed: the last three events are
      its completion, the review and the confirmation, and the run was analysing before them. */
  lemma ExecutingFollowsConfirmation(id: nat, trace: seq<RunEvent>)
    requires RunAll(NewRun(id), trace) == Ok(SyncRun(id, Active(Executing)))
    ensures |trace| >= 5
    ensures trace[|trace| - 3..] == [AnalysisCompleted, PlanReviewed, ExecutionConfirmed]
    ensures RunAll(NewRun(id), trace[..|trace| - 3]) == Ok(SyncRun(id, Active(Analyzing)))
  {
    ActiveIsOnCourse(id, trace, Executing);
    CourseOfExecuting(trace);
    OnCourseIsAccepted(id, trace[..|trace| - 3]);
  }

  lemma CourseOfExecuting(trace: seq<RunEvent>)
    requires OnCourse(trace) && Reached(|trace|) == Active(Executing)
    ensures |trace| >= 5 && OnCourse(trace[..|trace| - 3]) && Reached(|trace| - 3) == Active(Analyzing)
    ensures trace[|trace| - 3..] == [AnalysisCompleted, PlanReviewed, ExecutionConfirmed]
  {
    ExecutingPhase(|trace|);
  }

  lemma ActiveIsOnCourse(id: nat, trace: seq<RunEvent>, active: ActiveState)
    requires RunAll(NewRun(id), trace) == Ok(SyncRun(id, Active(active)))
    ensures OnCourse(trace) && Reached(|trace|) == Active(active)
  {
    AcceptedIs(id, trace);
  }

  lemma OnCourseIsAccepted(id: nat, trace: seq<RunEvent>)
    requires OnCourse(trace)
    ensures RunAll(NewRun(id), trace) == Ok(SyncRun(id, Reached(|trace|)))
  {
    AcceptedIs(id, trace);
  }

  lemma ExecutingPhase(n: nat)
    requires Reached(n) == Active(Executing)
    ensures n >= 5 && (n - 2) % 7 == 3
    ensures Expected(n - 1) == ExecutionConfirmed
    ensures Expected(n - 2) == PlanReviewed && Expected(n - 3) == AnalysisCompleted
    ensures Reached(n - 3) == Active(Analyzing)
  {
    assert n >= 2;
    var phase := (n - 2) % 7;
    assert phase == 0 || phase == 1 || phase == 2 || phase == 3 || phase == 4 || phase == 5 || phase == 6;
    assert phase == 3;
    assert (n - 3) % 7 == 2 && (n - 4) % 7 == 1 && (n - 5) % 7 == 0;
  }

  /** A finished run accepts nothing more. */
  lemma {:induction false} TerminalAbsorbs(run: SyncRun, trace: seq<RunEvent>)
    requires run.state.Terminal? && trace != []
    ensures RunAll(run, trace).Err?
  {
    if |trace| == 1 {
      assert RunAll(run, Init(trace)) == Ok(run);
    } else {
      TerminalAbsorbs(run, Init(trace));
    }
  }
}
