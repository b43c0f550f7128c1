/** Run reports: the status a journal shows and when a run may be marked Review-Cleared. */
module Reports {
  import opened Common
  import opened EvidenceTypes
  import opened EvidenceReplay
  import opened EvidenceAgreement
  import opened EvidenceJournal
  import opened SafeDelete

  datatype MirrorResolutionOutcome =
    | MirrorCompleted | MirrorDeferred | MirrorFailed(reason: ActionReason) | MirrorUnresolved(reason: ActionReason)

  datatype ReviewState = SettledReview | ReviewLater

  datatype MirrorResolutionReportItem = MirrorResolutionReportItem(
    resolution: ConflictResolution, outcome: MirrorResolutionOutcome, reviewState: ReviewState)
  {
    predicate RequiresReview() {
      resolution in {PreserveBoth, RenamePreserveForReview} || !outcome.MirrorCompleted? || reviewState == ReviewLater
    }
  }

  datatype CompletionReconciliation = CompletionReconciliation(findings: seq<Path>)
  {
    predicate RequiresReview() { findings != [] }
  }

  datatype RunReportStatus =
    | StatusInProgress | StatusCompleted | StatusFailed | StatusCancelled | StatusInterrupted | StatusBlocked
    | StatusReviewRequired | StatusRecoveryReview | StatusReviewCleared

  datatype RunExecutionResult =
    | NotStarted | ResultInProgress | Succeeded | ResultFailed | ResultCancelled | ResultInterrupted
    | ResultBlocked | ResultRecoveryReview

  datatype RunLifecycle = Open | LifecycleReviewRequired | LifecycleReviewCleared

  /** Everything a report is computed from. */
  datatype RunRecord = RunRecord(
    items: seq<ActionJournalEntry>,
    mirrorResolutions: seq<MirrorResolutionReportItem>,
    reviewCleared: bool,
    blocked: bool,
    reconciliation: Option<CompletionReconciliation>,
    inventoriesRecorded: bool)

  predicate AnyOutcome(items: seq<ActionJournalEntry>, wanted: ActionOutcome -> bool) {
    exists i :: 0 <= i < |items| && wanted(items[i].outcome)
  }

  predicate AnyMirrorReview(items: seq<MirrorResolutionReportItem>) {
    exists i :: 0 <= i < |items| && items[i].RequiresReview()
  }

  predicate AnyMirrorFailure(items: seq<MirrorResolutionReportItem>) {
    exists i :: 0 <= i < |items| && (items[i].outcome.MirrorFailed? || items[i].outcome.MirrorUnresolved?)
  }

  predicate ReconciliationReview(run: RunRecord) {
    run.reconciliation.Some? && run.reconciliation.value.RequiresReview()
  }

  function ReportStatus(run: RunRecord): RunReportStatus {
    if run.blocked then StatusBlocked
    else if AnyOutcome(run.items, (o: ActionOutcome) => o.InProgress?)
            || (run.items == [] && run.inventoriesRecorded && run.reconciliation.None?) then StatusInProgress
    else if AnyOutcome(run.items, (o: ActionOutcome) => o.RecoveryReviewOutcome?) then StatusRecoveryReview
    else if AnyOutcome(run.items, (o: ActionOutcome) => o.FailedOutcome?)
            || AnyMirrorFailure(run.mirrorResolutions) then StatusFailed
    else if AnyOutcome(run.items, (o: ActionOutcome) => o.InterruptedOutcome?) then StatusInterrupted
    else if AnyOutcome(run.items, (o: ActionOutcome) => o.CancelledOutcome?) then StatusCancelled
    else if AnyOutcome(run.items, (o: ActionOutcome) => o.DeferredOutcome? || o.UnresolvedOutcome?)
            || AnyMirrorReview(run.mirrorResolutions)
            || ReconciliationReview(run)
            || (run.inventoriesRecorded && run.reconciliation.None?) then StatusReviewRequired
    else if run.reviewCleared then StatusReviewCleared
    else StatusCompleted
  }

  function ExecutionResult(run: RunRecord): RunExecutionResult {
    if run.blocked then ResultBlocked
    else if run.items == [] && run.reconciliation.None? then NotStarted
    else if AnyOutcome(run.items, (o: ActionOutcome) => o.InProgress?) then ResultInProgress
    else if AnyOutcome(run.items, (o: ActionOutcome) => o.RecoveryReviewOutcome?) then ResultRecoveryReview
    else if AnyOutcome(run.items, (o: ActionOutcome) => o.FailedOutcome?) then ResultFailed
    else if AnyOutcome(run.items, (o: ActionOutcome) => o.InterruptedOutcome?) then ResultInterrupted
    else if AnyOutcome(run.items, (o: ActionOutcome) => o.CancelledOutcome?) then ResultCancelled
    else Succeeded
  }

  function Lifecycle(run: RunRecord): RunLifecycle {
    if run.reviewCleared then
      if AnyMirrorReview(run.mirrorResolutions) || ReconciliationReview(run) then LifecycleReviewRequired
      else LifecycleReviewCleared
    else if run.blocked || ReconciliationReview(run) || AnyMirrorReview(run.mirrorResolutions)
    then LifecycleReviewRequired
    else if AnyOutcome(run.items, (o: ActionOutcome) => !o.InProgress? && !o.CompletedOutcome?)
    then LifecycleReviewRequired
    else Open
  }

  predicate CanMarkReviewCleared(run: RunRecord) {
    && Lifecycle(run).Open?
    && ExecutionResult(run).Succeeded?
    && (run.inventoriesRecorded ==> run.reconciliation.Some? && !run.reconciliation.value.RequiresReview())
    && !AnyMirrorReview(run.mirrorResolutions)
  }

  /** Three separately written summaries agree: a run can be cleared exactly when its status is Completed and
      something was executed or reconciled. */
  lemma ClearableMeansCompleted(run: RunRecord)
    ensures CanMarkReviewCleared(run) <==>
            ReportStatus(run).StatusCompleted? && (run.items != [] || run.reconciliation.Some?)
  {
    if CanMarkReviewCleared(run) {
      forall i | 0 <= i < |run.items| ensures run.items[i].outcome == CompletedOutcome {
        assert !AnyOutcome(run.items, (o: ActionOutcome) => !o.InProgress? && !o.CompletedOutcome?);
        assert !AnyOutcome(run.items, (o: ActionOutcome) => o.InProgress?);
      }
      forall i | 0 <= i < |run.mirrorResolutions|
        ensures !run.mirrorResolutions[i].outcome.MirrorFailed? && !run.mirrorResolutions[i].outcome.MirrorUnresolved?
      {
        assert !run.mirrorResolutions[i].RequiresReview();
      }
    }
    if ReportStatus(run).StatusCompleted? {
      CompletedStatusMeans(run);
    }
  }

  lemma CompletedStatusMeans(run: RunRecord)
    requires ReportStatus(run) in {StatusCompleted, StatusReviewCleared}
    ensures forall i :: 0 <= i < |run.items| ==> run.items[i].outcome == CompletedOutcome
  {
    forall i | 0 <= i < |run.items| ensures run.items[i].outcome == CompletedOutcome {
      assert !AnyOutcome(run.items, (o: ActionOutcome) => o.InProgress?);
      assert !AnyOutcome(run.items, (o: ActionOutcome) => o.RecoveryReviewOutcome?);
      assert !AnyOutcome(run.items, (o: ActionOutcome) => o.FailedOutcome?);
      assert !AnyOutcome(run.items, (o: ActionOutcome) => o.InterruptedOutcome?);
      assert !AnyOutcome(run.items, (o: ActionOutcome) => o.CancelledOutcome?);
      assert !AnyOutcome(run.items, (o: ActionOutcome) => o.DeferredOutcome? || o.UnresolvedOutcome?);
    }
  }

  /** Status and execution result, two separate orders of precedence, agree: Blocked and Recovery Review are the same in
      both, and the other outcomes of actions show in the status unless a Mirror resolution failed. */
  lemma StatusAgreesWithResult(run: RunRecord)
    ensures ReportStatus(run) == StatusBlocked <==> ExecutionResult(run) == ResultBlocked
    ensures ReportStatus(run) == StatusRecoveryReview <==> ExecutionResult(run) == ResultRecoveryReview
    ensures ReportStatus(run) == StatusInProgress <==>
            ExecutionResult(run) == ResultInProgress || (ExecutionResult(run) == NotStarted && run.inventoriesRecorded)
    ensures ExecutionResult(run) == ResultFailed ==> ReportStatus(run) == StatusFailed
    ensures ReportStatus(run) == StatusFailed ==>
              ExecutionResult(run) == ResultFailed || AnyMirrorFailure(run.mirrorResolutions)
    ensures ReportStatus(run) == StatusInterrupted <==>
            ExecutionResult(run) == ResultInterrupted && !AnyMirrorFailure(run.mirrorResolutions)
    ensures ReportStatus(run) == StatusCancelled <==>
            ExecutionResult(run) == ResultCancelled && !AnyMirrorFailure(run.mirrorResolutions)
    ensures ReportStatus(run) in {StatusReviewRequired, StatusCompleted, StatusReviewCleared} ==>
            ExecutionResult(run) in {Succeeded, NotStarted}
  {
  }

  /** The events after which an action counts as completed. */
  predicate CompletesAction(e: JournalEvent) {
    e.Completed? || e.RemovalCompleted? || (e.RecoveryResolved? && e.resolution.ResolvedCompleted?)
  }

  lemma OutcomeRecorded(entry: ActionJournalEntry, e: JournalEvent)
    requires !e.Planned?
    ensures RecordOn(entry, e).outcome == CompletedOutcome <==>
            CompletesAction(e) || ((e.Started? || e.Progress?) && entry.outcome == CompletedOutcome)
    ensures e.ProofBoundary? || e.RemovalStarted? ==> RecordOn(entry, e).outcome.RecoveryReviewOutcome?
  {
  }

  /** The outcome of an action is Completed exactly when its last event completed it, and it is open for
      recovery after a proof boundary or the start of a removal. */
  lemma OutcomeOfLastEvent(configured: Option<DeletionMethod>, a: ActionId, es: History)
    requires AcceptedAlone(configured, a, es) && es != []
    ensures Fold(es).Some?
    ensures Fold(es).value.outcome == CompletedOutcome <==> CompletesAction(Last(es))
    ensures Last(es).ProofBoundary? || Last(es).RemovalStarted? ==> Fold(es).value.outcome.RecoveryReviewOutcome?
  {
    EntryOfEvents(configured, a, es);
    if |es| > 1 {
      var entry := FoldedBefore(configured, a, es);
      OutcomeStaysOpen(configured, a, Init(es));
      OutcomeRecorded(entry, Last(es));
    }
  }

  lemma FoldedBefore(configured: Option<DeletionMethod>, a: ActionId, es: History) returns (entry: ActionJournalEntry)
    requires AcceptedAlone(configured, a, es) && |es| > 1
    ensures Fold(Init(es)) == Some(entry) && Fold(es) == Some(RecordOn(entry, Last(es)))
    ensures !Last(es).Planned? && !IsSettledPhase(PhaseOf(Last(Init(es))))
  {
    LastWasAdmitted(configured, a, es);
    entry := Fold(Init(es)).value;
    AdmittedFollows(configured, entry, Last(es));
    TransitionFacts(Last(es), entry.lastPhase);
  }

  /** The items are the loaded entries of the journal. */
  predicate ReportsJournal(run: RunRecord, entries: Entries) {
    && (forall i :: 0 <= i < |run.items| ==>
          run.items[i].plan.actionId in entries && entries[run.items[i].plan.actionId] == run.items[i])
    && (forall a :: a in entries ==> entries[a] in run.items)
  }

  /** A run reported Completed or Review-Cleared left nothing open: the last event of every action completed
      it. In particular no action may rest at a proof boundary or inside a removal. */
  lemma CompletedReportIsSettled(configured: Option<DeletionMethod>, h: History, run: RunRecord, a: ActionId)
    requires Accepted(configured, h) && Load(Rows(h), configured).Ok?
    requires ReportsJournal(run, Load(Rows(h), configured).value)
    requires ReportStatus(run) in {StatusCompleted, StatusReviewCleared}
    requires EventsOf(h, a) != []
    ensures CompletesAction(Last(EventsOf(h, a)))
  {
    var entries, es := Load(Rows(h), configured).value, EventsOf(h, a);
    WriteReplayAgreement(configured, h);
    assert EntryAt(entries, a) == FoldReread(es);
    FoldsAlike(es);
    AcceptedPerAction(configured, h, a);
    OutcomeOfLastEvent(configured, a, es);
    CompletedStatusMeans(run);
    var i :| 0 <= i < |run.items| && run.items[i] == entries[a];
    assert run.items[i].outcome == CompletedOutcome;
  }
}
