/** Whether what `append_event` admits is what `load_journal` accepts, for every accepted history. */
module EvidenceAgreement {
  import opened Common
  import opened EvidenceTypes
  import opened EvidenceAppend
  import opened EvidenceReplay

  // ----- Histories -----

  type History = seq<JournalEvent>

  /** The events of one action, in the order they were accepted. */
  function EventsOf(h: History, a: ActionId): History {
    if h == [] then []
    else EventsOf(Init(h), a) + (if ActionOf(Last(h)) == a then [Last(h)] else [])
  }

  /** The table a history leaves behind. */
  function Rows(h: History): seq<Row> {
    if h == [] then []
    else
      var before := Rows(Init(h));
      before + [RowOf(Last(h), MaxSequence(RowsFor(before, ActionOf(Last(h)))) + 1)]
  }

  /** Every event was accepted by `append_event` when it came. */
  predicate Accepted(configured: Option<DeletionMethod>, h: History) {
    h == [] || (Accepted(configured, Init(h)) && Append(configured, Rows(Init(h)), Last(h)).Ok?)
  }

  // ----- What the events say, without tables or checks -----

  function RecordOn(entry: ActionJournalEntry, e: JournalEvent): ActionJournalEntry {
    var next :=
      match e
      case Planned(plan) => NewEntry(plan)
      case Started(_) => entry.(started := true)
      case Progress(_, bytes) => entry.(progressBytes := entry.progressBytes + [bytes])
      case TransferVerified(_, evidence, _) => entry.(transferEvidence := Some(evidence), outcome := InProgress)
      case ProofBoundary(_, _, evidence, _) =>
        entry.(proofBoundary := Some(evidence), outcome := RecoveryReviewOutcome(InterruptedBoundary))
      case RemovalStarted(_, _) => entry.(outcome := RecoveryReviewOutcome(InterruptedBoundary))
      case RemovalCompleted(_, result) => entry.(removalResult := Some(result), outcome := CompletedOutcome)
      case Completed(_) => entry.(outcome := CompletedOutcome)
      case Failed(_, reason) => entry.(outcome := FailedOutcome(reason))
      case Cancelled(_) => entry.(outcome := CancelledOutcome)
      case Interrupted(_) => entry.(outcome := InterruptedOutcome)
      case Deferred(_) => entry.(outcome := DeferredOutcome)
      case Unresolved(_, reason) => entry.(outcome := UnresolvedOutcome(reason))
      case RecoveryReview(_, reason, evidence) =>
        entry.(recoveryEvidence := Some(evidence), outcome := RecoveryReviewOutcome(reason))
      case RecoveryResolved(_, ResolvedCompleted(evidence)) =>
        entry.(resolutionEvidence := Some(evidence), outcome := CompletedOutcome)
      case RecoveryResolved(_, ResolvedUnresolved(reason)) => entry.(outcome := UnresolvedOutcome(reason));
    next.(lastPhase := PhaseOf(e))
  }

  function Record(entry: Option<ActionJournalEntry>, e: JournalEvent): Option<ActionJournalEntry> {
    match entry
    case Some(current) => Some(RecordOn(current, e))
    case None => if e.Planned? then Some(NewEntry(e.plan)) else None
  }

  /** The entry the typed events of one action add up to. */
  function Fold(es: History): Option<ActionJournalEntry> {
    if es == [] then None else Record(Fold(Init(es)), Last(es))
  }

  // ----- How events read back -----

  /** Evidence as it reads after storage: provenance is rebuilt from the columns of the row. */
  function Reloaded(evidence: RecoveryEvidence, e: JournalEvent): RecoveryEvidence {
    match evidence.provenance
    case None => evidence
    case Some(p) =>
      evidence.(provenance := Some(RecoveryProvenance(
        Some(ActionOf(e)), p.peer, p.originalRoot, p.relativePath, p.runId, p.removedAt,
        MethodRead(e), VerificationRead(e), p.itemType, ContentRead(evidence), p.identity, None)))
  }

  /** The method, verification and content that replay puts into a provenance. */
  function MethodRead(e: JournalEvent): DeletionMethod {
    if MethodOf(e).Some? then MethodOf(e).value else Trash
  }

  function VerificationRead(e: JournalEvent): VerificationState {
    if e.RemovalCompleted? then Verified else ReviewRequired
  }

  function ContentRead(evidence: RecoveryEvidence): Option<ContentProof> {
    if evidence.sourceSize.Some? && evidence.sourceSha256.Some?
    then Some(ContentProof(evidence.sourceSize.value, evidence.sourceSha256.value)) else None
  }

  /** The event with its evidence as it reads back. */
  function Reread(e: JournalEvent): JournalEvent {
    match e
    case TransferVerified(a, evidence, verified) => TransferVerified(a, Reloaded(evidence, e), verified)
    case ProofBoundary(a, chosen, evidence, verified) => ProofBoundary(a, chosen, Reloaded(evidence, e), verified)
    case RemovalCompleted(a, result) => RemovalCompleted(a, result.(evidence := Reloaded(result.evidence, e)))
    case RecoveryReview(a, reason, evidence) => RecoveryReview(a, reason, Reloaded(evidence, e))
    case RecoveryResolved(a, ResolvedCompleted(evidence)) =>
      RecoveryResolved(a, ResolvedCompleted(Reloaded(evidence, e)))
    case _ => e
  }

  /** The entry the events of one action add up to as they read back. */
  function FoldReread(es: History): Option<ActionJournalEntry> {
    if es == [] then None else Record(FoldReread(Init(es)), Reread(Last(es)))
  }

  predicate SameButProvenance(said: Option<RecoveryEvidence>, read: Option<RecoveryEvidence>) {
    && (said.Some? <==> read.Some?)
    && (said.Some? ==> read.value == said.value.(provenance := read.value.provenance))
  }

  predicate SameRemoval(said: Option<RemovalResult>, read: Option<RemovalResult>) {
    && (said.Some? <==> read.Some?)
    && (said.Some? ==>
          && read.value.deletionMethod == said.value.deletionMethod
          && SameButProvenance(Some(said.value.evidence), Some(read.value.evidence)))
  }

  /** The two entries differ in the provenance of their evidence and in nothing else. */
  predicate Alike(said: ActionJournalEntry, read: ActionJournalEntry) {
    && read == said.(transferEvidence := read.transferEvidence, proofBoundary := read.proofBoundary,
                     removalResult := read.removalResult, recoveryEvidence := read.recoveryEvidence,
                     resolutionEvidence := read.resolutionEvidence)
    && SameButProvenance(said.transferEvidence, read.transferEvidence)
    && SameButProvenance(said.proofBoundary, read.proofBoundary)
    && SameRemoval(said.removalResult, read.removalResult)
    && SameButProvenance(said.recoveryEvidence, read.recoveryEvidence)
    && SameButProvenance(said.resolutionEvidence, read.resolutionEvidence)
  }

  predicate AlikeIfAny(said: Option<ActionJournalEntry>, read: Option<ActionJournalEntry>) {
    (said.Some? <==> read.Some?) && (said.Some? ==> Alike(said.value, read.value))
  }

  lemma RereadIsThatEvent(e: JournalEvent)
    ensures PhaseOf(Reread(e)) == PhaseOf(e) && ActionOf(Reread(e)) == ActionOf(e)
    ensures Reread(e).Planned? <==> e.Planned?
    ensures e.Planned? ==> Reread(e) == e
  {
  }

  lemma ReloadedKeepsTheRest(evidence: RecoveryEvidence, e: JournalEvent)
    ensures SameButProvenance(Some(evidence), Some(Reloaded(evidence, e)))
  {
  }

  lemma PlainKeepsAlike(said: ActionJournalEntry, read: ActionJournalEntry, e: JournalEvent)
    requires Alike(said, read) && EvidenceOf(e).None?
    ensures Alike(RecordOn(said, e), RecordOn(read, e))
  {
  }

  lemma ProofKeepsAlike(said: ActionJournalEntry, read: ActionJournalEntry, e: JournalEvent)
    requires Alike(said, read) && (e.TransferVerified? || e.ProofBoundary? || e.RemovalCompleted?)
    ensures Alike(RecordOn(said, e), RecordOn(read, Reread(e)))
  {
    ReloadedKeepsTheRest(EvidenceOf(e).value, e);
  }

  lemma RecoveryKeepsAlike(said: ActionJournalEntry, read: ActionJournalEntry, e: JournalEvent)
    requires Alike(said, read) && EvidenceOf(e).Some? && (e.RecoveryReview? || e.RecoveryResolved?)
    ensures Alike(RecordOn(said, e), RecordOn(read, Reread(e)))
  {
    ReloadedKeepsTheRest(EvidenceOf(e).value, e);
  }

  lemma RecordKeepsAlike(said: ActionJournalEntry, read: ActionJournalEntry, e: JournalEvent)
    requires Alike(said, read)
    ensures Alike(RecordOn(said, e), RecordOn(read, Reread(e)))
  {
    if EvidenceOf(e).None? {
      PlainKeepsAlike(said, read, e);
    } else if e.RecoveryReview? || e.RecoveryResolved? {
      RecoveryKeepsAlike(said, read, e);
    } else {
      ProofKeepsAlike(said, read, e);
    }
  }

  /** What reads back differs from what the events say in provenance only. */
  lemma {:induction false} FoldsAlike(es: History)
    ensures AlikeIfAny(Fold(es), FoldReread(es))
  {
    if es != [] {
      FoldsAlike(Init(es));
      RereadIsThatEvent(Last(es));
      if Fold(Init(es)).Some? {
        RecordKeepsAlike(Fold(Init(es)).value, FoldReread(Init(es)).value, Last(es));
      }
    }
  }

  // ----- Which events can be loaded -----

  predicate Fits(n: Option<U64>) {
    n.Some? ==> n.value < TWO_TO_THE_63
  }

  predicate EvidenceStorable(evidence: RecoveryEvidence) {
    && Fits(evidence.sourceSize)
    && Fits(evidence.destinationSize)
    && (evidence.recoveryProof.Some? ==> evidence.recoveryProof.value.size < TWO_TO_THE_63)
    && (evidence.provenance.Some? ==>
          && evidence.provenance.value.runId < TWO_TO_THE_63
          && (evidence.sourceSize.Some? <==> evidence.sourceSha256.Some?))
  }

  /** A check on the event a caller is about to append, given the entry of its action so far. */
  predicate Storable(e: JournalEvent, entry: Option<ActionJournalEntry>) {
    && (e.Planned? ==> Fits(e.plan.plannedBytes) && e.plan.preAction.size < TWO_TO_THE_63)
    && (e.Progress? ==> e.completedBytes < TWO_TO_THE_63)
    && (EvidenceOf(e).Some? ==> EvidenceStorable(EvidenceOf(e).value))
    && (e.RemovalCompleted? && entry.Some? && entry.value.plan.preAction.itemType == RegularFile
        && e.result.evidence.provenance.Some? ==>
          e.result.evidence.recoveryProof.Some? && e.result.evidence.recoveryProof.value.sha256.Some?)
  }

  predicate AllStorable(h: History) {
    h == [] || (AllStorable(Init(h)) && Storable(Last(h), Fold(EventsOf(Init(h), ActionOf(Last(h))))))
  }

  // ----- One action -----

  /** The rows a history of one action leaves. */
  function Encode(es: History): seq<Row> {
    if es == [] then [] else Encode(Init(es)) + [RowOf(Last(es), |es| - 1)]
  }

  predicate AcceptedAlone(configured: Option<DeletionMethod>, a: ActionId, es: History) {
    es == [] ||
    (&& AcceptedAlone(configured, a, Init(es))
     && ActionOf(Last(es)) == a
     && AdmittedAlone(configured, Encode(Init(es)), Last(es))
     && Bindable(Last(es)))
  }

  predicate StorableAlone(es: History) {
    es == [] || (StorableAlone(Init(es)) && Storable(Last(es), Fold(Init(es))))
  }

  function ReplayNext(before: Result<Option<ActionJournalEntry>, StorageError>, row: Row,
                      configured: Option<DeletionMethod>)
    : Result<Option<ActionJournalEntry>, StorageError>
    requires Readable(row)
  {
    match before
    case Err(error) => Err(error)
    case Ok(entry) =>
      match ApplyRow(entry, row, configured)
      case Err(error) => Err(error)
      case Ok(next) => Ok(Some(next))
  }

  function ReplayOne(rows: seq<Row>, configured: Option<DeletionMethod>):
    Result<Option<ActionJournalEntry>, StorageError>
    requires AllReadable(rows)
  {
    if rows == [] then Ok(None) else ReplayNext(ReplayOne(Init(rows), configured), Last(rows), configured)
  }

  /** The queries of `append_event` read the table as the fold reads the events. */
  predicate Mirrors(rows: seq<Row>, entry: Option<ActionJournalEntry>) {
    match entry
    case None => rows == []
    case Some(current) =>
      var planned := LatestWith(rows, PlannedPhase);
      var proof := LatestWith(rows, ProofBoundaryPhase);
      var review := LatestWith(rows, RecoveryReviewPhase);
      && CurrentPhase(rows) == Some(current.lastPhase)
      && planned.Some? && planned.value.plan == PlanFields(current.plan)
      && (proof.Some? <==> current.proofBoundary.Some?)
      && (proof.Some? ==>
            && proof.value.proof.destinationSize == AsI64Column(current.proofBoundary.value.destinationSize)
            && proof.value.proof.destinationSha256 == current.proofBoundary.value.destinationSha256)
      && (review.Some? <==> current.recoveryEvidence.Some?)
      && (review.Some? ==> review.value.evidence.observedAt == Some(current.recoveryEvidence.value.observedAt))
  }

  /** Which evidence an entry can hold at each phase. */
  predicate Staged(entry: ActionJournalEntry) {
    var removesSource := entry.plan.operation == RemoveSourceAfterVerification;
    && (entry.lastPhase in {PlannedPhase, StartedPhase, ProgressPhase} ==> entry.transferEvidence.None?)
    && (entry.lastPhase in {PlannedPhase, StartedPhase, ProgressPhase, TransferVerifiedPhase} ==>
          entry.proofBoundary.None?)
    && (entry.lastPhase == TransferVerifiedPhase ==> entry.transferEvidence.Some?)
    && (entry.lastPhase in {ProofBoundaryPhase, RemovalStartedPhase} ==>
          removesSource && entry.transferEvidence.Some? && entry.proofBoundary.Some?)
    && (entry.lastPhase != RemovalCompletedPhase ==> entry.removalResult.None?)
    && (entry.lastPhase == RecoveryReviewPhase ==> entry.recoveryEvidence.Some?)
    && (entry.lastPhase !in {RecoveryReviewPhase, RecoveryResolvedPhase} ==> entry.recoveryEvidence.None?)
    && (entry.lastPhase != RecoveryResolvedPhase ==> entry.resolutionEvidence.None?)
  }

  /** The write-side rules for an action that has an entry, read from the entry instead of the table. */
  predicate AdmittedOn(configured: Option<DeletionMethod>, entry: ActionJournalEntry, e: JournalEvent) {
    var plan := entry.plan;
    && ValidateEvent(e, true, Some(entry.lastPhase), Some(plan.operation), Some(plan.preAction.itemType), configured)
    && (e.TransferVerified? ==>
          && e.evidence.sourceSize == Some(plan.preAction.size)
          && e.evidence.sourceSha256 == plan.preAction.sha256)
    && (e.RemovalCompleted? ==>
          && entry.proofBoundary.Some?
          && e.result.evidence.destinationSize == entry.proofBoundary.value.destinationSize
          && e.result.evidence.destinationSha256 == entry.proofBoundary.value.destinationSha256)
    && (e.RecoveryResolved? && e.resolution.ResolvedCompleted? ==>
          && entry.recoveryEvidence.Some?
          && e.resolution.evidence.observedAt > entry.recoveryEvidence.value.observedAt)
  }

  lemma AdmissionSeenOnEntry(configured: Option<DeletionMethod>, rows: seq<Row>, entry: Option<ActionJournalEntry>,
                             e: JournalEvent)
    requires Mirrors(rows, entry)
    requires AdmittedAlone(configured, rows, e)
    ensures e.Planned? <==> entry.None?
    ensures entry.Some? ==> AdmittedOn(configured, entry.value, e)
  {
  }

  lemma AdmittedFollows(configured: Option<DeletionMethod>, entry: ActionJournalEntry, e: JournalEvent)
    requires AdmittedOn(configured, entry, e)
    ensures !e.Planned?
    ensures TransitionAllowed(PhaseOf(e), Some(entry.lastPhase))
  {
  }

  lemma TransitionFacts(e: JournalEvent, current: Phase)
    requires !e.Planned? && TransitionAllowed(PhaseOf(e), Some(current))
    ensures e.Started? <==> current == PlannedPhase && !e.Cancelled? && !e.Interrupted?
    ensures !IsSettledPhase(current)
  {
  }

  lemma RecordKeepsStage(configured: Option<DeletionMethod>, entry: ActionJournalEntry, e: JournalEvent)
    requires Staged(entry) && AdmittedOn(configured, entry, e)
    ensures Staged(RecordOn(entry, e))
  {
  }

  lemma LatestWithAppended(rows: seq<Row>, row: Row, phase: Phase)
    ensures LatestWith(rows + [row], phase) == if row.phase == phase then Some(row) else LatestWith(rows, phase)
    ensures CurrentPhase(rows + [row]) == Some(row.phase)
  {
    assert Init(rows + [row]) == rows;
  }

  /** The latest row of each phase, once the row of an event is added. */
  lemma QueriesAfter(rows: seq<Row>, e: JournalEvent, phase: Phase)
    ensures
      var row := RowOf(e, |rows|);
      && LatestWith(rows + [row], phase) == (if PhaseOf(e) == phase then Some(row) else LatestWith(rows, phase))
      && CurrentPhase(rows + [row]) == Some(PhaseOf(e))
  {
    LatestWithAppended(rows, RowOf(e, |rows|), phase);
  }

  lemma FirstMirrors(rows: seq<Row>, e: JournalEvent)
    requires rows == [] && e.Planned?
    ensures Mirrors(rows + [RowOf(e, |rows|)], Some(NewEntry(e.plan)))
  {
    QueriesAfter(rows, e, PlannedPhase);
    QueriesAfter(rows, e, ProofBoundaryPhase);
    QueriesAfter(rows, e, RecoveryReviewPhase);
  }

  lemma MarkedKeepsMirror(rows: seq<Row>, entry: ActionJournalEntry, e: JournalEvent)
    requires Mirrors(rows, Some(entry)) && (e.ProofBoundary? || e.RecoveryReview?)
    ensures Mirrors(rows + [RowOf(e, |rows|)], Some(RecordOn(entry, e)))
  {
    QueriesAfter(rows, e, PlannedPhase);
    QueriesAfter(rows, e, ProofBoundaryPhase);
    QueriesAfter(rows, e, RecoveryReviewPhase);
  }

  lemma OtherKeepsMirror(rows: seq<Row>, entry: ActionJournalEntry, e: JournalEvent)
    requires Mirrors(rows, Some(entry)) && !e.Planned? && !e.ProofBoundary? && !e.RecoveryReview?
    ensures Mirrors(rows + [RowOf(e, |rows|)], Some(RecordOn(entry, e)))
  {
    QueriesAfter(rows, e, PlannedPhase);
    QueriesAfter(rows, e, ProofBoundaryPhase);
    QueriesAfter(rows, e, RecoveryReviewPhase);
  }

  lemma RecordKeepsMirror(configured: Option<DeletionMethod>, rows: seq<Row>, entry: Option<ActionJournalEntry>,
                          e: JournalEvent)
    requires Mirrors(rows, entry) && (entry.Some? ==> Staged(entry.value))
    requires AdmittedAlone(configured, rows, e)
    ensures Mirrors(rows + [RowOf(e, |rows|)], Record(entry, e))
    ensures Record(entry, e).Some? && Staged(Record(entry, e).value)
  {
    AdmissionSeenOnEntry(configured, rows, entry, e);
    if entry.None? {
      FirstMirrors(rows, e);
    } else {
      RecordKeepsStage(configured, entry.value, e);
      if e.ProofBoundary? || e.RecoveryReview? {
        MarkedKeepsMirror(rows, entry.value, e);
      } else {
        OtherKeepsMirror(rows, entry.value, e);
      }
    }
  }

  lemma StorableFitsColumns(e: JournalEvent, sequence: nat)
    requires EvidenceOf(e).Some? && Bindable(e) && EvidenceStorable(EvidenceOf(e).value)
    ensures Readable(RowOf(e, sequence))
  {
  }

  /** Sizes below 2^63 and well-shaped provenance read back as they were. */
  lemma StorableReadsBack(e: JournalEvent, sequence: nat)
    requires EvidenceOf(e).Some? && Bindable(e) && EvidenceStorable(EvidenceOf(e).value)
    ensures Readable(RowOf(e, sequence))
    ensures DecodeEvidence(RowOf(e, sequence)) == Ok(Reloaded(EvidenceOf(e).value, e))
  {
    StorableFitsColumns(e, sequence);
    var row := RowOf(e, sequence);
    if EvidenceOf(e).value.provenance.Some? {
      assert row.provenance != NO_PROVENANCE by { assert row.provenance.peer.Some?; }
    }
  }

  /** Any other evidence is written, and cannot be read back. */
  lemma UnstorableDoesNotReadBack(e: JournalEvent, sequence: nat)
    requires EvidenceOf(e).Some? && Bindable(e) && !EvidenceStorable(EvidenceOf(e).value)
    ensures !Readable(RowOf(e, sequence)) || DecodeEvidence(RowOf(e, sequence)).Err?
  {
    var row := RowOf(e, sequence);
    assert row.plan == NO_PLAN || e.Planned?;
    if Readable(row) && EvidenceOf(e).value.provenance.Some? {
      assert row.provenance != NO_PROVENANCE by { assert row.provenance.peer.Some?; }
    }
  }

  lemma EvidenceReadsBack(e: JournalEvent, sequence: nat)
    requires EvidenceOf(e).Some? && Bindable(e)
    ensures
      var row := RowOf(e, sequence);
      if EvidenceStorable(EvidenceOf(e).value)
      then Readable(row) && DecodeEvidence(row) == Ok(Reloaded(EvidenceOf(e).value, e))
      else !Readable(row) || DecodeEvidence(row).Err?
  {
    if EvidenceStorable(EvidenceOf(e).value) {
      StorableReadsBack(e, sequence);
    } else {
      UnstorableDoesNotReadBack(e, sequence);
    }
  }

  /** Every admitted transition is one that replay allows. */
  lemma AdmittedTransitionReplays(configured: Option<DeletionMethod>, entry: ActionJournalEntry, e: JournalEvent)
    requires Staged(entry) && AdmittedOn(configured, entry, e)
    ensures !e.Planned? && ReplayedTransitionAllowed(entry, PhaseOf(e))
  {
  }

  /** Applying the row to the entry gives what the event says, as it reads back. */
  predicate PhaseApplies(entry: ActionJournalEntry, e: JournalEvent, row: Row, configured: Option<DeletionMethod>)
    requires Readable(row) && row.phase != PlannedPhase
  {
    var applied := ApplyPhase(entry, row, configured);
    applied.Ok? && applied.value.(lastPhase := PhaseOf(e)) == RecordOn(entry, Reread(e))
  }

  lemma PlainPhaseReplays(configured: Option<DeletionMethod>, entry: ActionJournalEntry, e: JournalEvent, row: Row)
    requires AdmittedOn(configured, entry, e) && !e.Planned? && EvidenceOf(e).None?
    requires Storable(e, Some(entry)) && row == RowOf(e, row.sequence) && Readable(row)
    ensures PhaseApplies(entry, e, row, configured)
  {
  }

  lemma TransferReplays(configured: Option<DeletionMethod>, entry: ActionJournalEntry, e: JournalEvent, row: Row)
    requires AdmittedOn(configured, entry, e) && e.TransferVerified?
    requires row == RowOf(e, row.sequence) && Readable(row) && DecodeEvidence(row) == Ok(Reloaded(e.evidence, e))
    ensures PhaseApplies(entry, e, row, configured)
  {
  }

  lemma ProofReplays(configured: Option<DeletionMethod>, entry: ActionJournalEntry, e: JournalEvent, row: Row)
    requires Staged(entry) && AdmittedOn(configured, entry, e) && e.ProofBoundary?
    requires Storable(e, Some(entry))
    requires row == RowOf(e, row.sequence) && Readable(row) && DecodeEvidence(row) == Ok(Reloaded(e.evidence, e))
    ensures PhaseApplies(entry, e, row, configured)
  {
  }

  lemma RemovalReplays(configured: Option<DeletionMethod>, entry: ActionJournalEntry, e: JournalEvent, row: Row)
    requires AdmittedOn(configured, entry, e) && e.RemovalCompleted?
    requires entry.plan.actionId == ActionOf(e) && Storable(e, Some(entry))
    requires row == RowOf(e, row.sequence) && Readable(row) && DecodeEvidence(row) == Ok(Reloaded(e.result.evidence, e))
    ensures PhaseApplies(entry, e, row, configured)
  {
  }

  lemma RecoveryReplays(configured: Option<DeletionMethod>, entry: ActionJournalEntry, e: JournalEvent, row: Row)
    requires AdmittedOn(configured, entry, e) && EvidenceOf(e).Some? && (e.RecoveryReview? || e.RecoveryResolved?)
    requires row == RowOf(e, row.sequence) && Readable(row)
    requires DecodeEvidence(row) == Ok(Reloaded(EvidenceOf(e).value, e))
    ensures PhaseApplies(entry, e, row, configured)
  {
  }

  lemma PhaseReplays(configured: Option<DeletionMethod>, entry: ActionJournalEntry, e: JournalEvent, row: Row)
    requires Staged(entry) && AdmittedOn(configured, entry, e) && !e.Planned?
    requires entry.plan.actionId == ActionOf(e) && Storable(e, Some(entry))
    requires row == RowOf(e, row.sequence) && Readable(row)
    requires EvidenceOf(e).Some? ==> DecodeEvidence(row) == Ok(Reloaded(EvidenceOf(e).value, e))
    ensures PhaseApplies(entry, e, row, configured)
  {
    if EvidenceOf(e).None? {
      PlainPhaseReplays(configured, entry, e, row);
    } else if e.TransferVerified? {
      TransferReplays(configured, entry, e, row);
    } else if e.ProofBoundary? {
      ProofReplays(configured, entry, e, row);
    } else if e.RemovalCompleted? {
      RemovalReplays(configured, entry, e, row);
    } else {
      RecoveryReplays(configured, entry, e, row);
    }
  }

  lemma StorableIsReadable(e: JournalEvent, entry: ActionJournalEntry, sequence: nat)
    requires Storable(e, Some(entry)) && Bindable(e)
    ensures Readable(RowOf(e, sequence))
    ensures EvidenceOf(e).Some? ==> DecodeEvidence(RowOf(e, sequence)) == Ok(Reloaded(EvidenceOf(e).value, e))
  {
    if EvidenceOf(e).Some? {
      EvidenceReadsBack(e, sequence);
    }
  }

  lemma StorableReplays(configured: Option<DeletionMethod>, entry: ActionJournalEntry, e: JournalEvent, sequence: nat)
    requires Staged(entry) && AdmittedOn(configured, entry, e) && Bindable(e)
    requires entry.plan.actionId == ActionOf(e)
    requires Storable(e, Some(entry))
    ensures Readable(RowOf(e, sequence))
    ensures ApplyRow(Some(entry), RowOf(e, sequence), configured) == Ok(RecordOn(entry, Reread(e)))
  {
    AdmittedTransitionReplays(configured, entry, e);
    StorableIsReadable(e, entry, sequence);
    RereadIsThatEvent(e);
    PhaseReplays(configured, entry, e, RowOf(e, sequence));
  }

  lemma PlannedReplays(configured: Option<DeletionMethod>, e: JournalEvent, sequence: nat)
    requires e.Planned? && Bindable(e)
    ensures Storable(e, None) ==>
      Readable(RowOf(e, sequence)) && ApplyRow(None, RowOf(e, sequence), configured) == Ok(NewEntry(e.plan))
    ensures !Storable(e, None) ==> !Readable(RowOf(e, sequence))
  {
  }

  lemma UnstorableFails(configured: Option<DeletionMethod>, entry: ActionJournalEntry, e: JournalEvent, sequence: nat)
    requires AdmittedOn(configured, entry, e) && Bindable(e)
    requires !Storable(e, Some(entry))
    ensures !Readable(RowOf(e, sequence)) || ApplyRow(Some(entry), RowOf(e, sequence), configured).Err?
  {
    if EvidenceOf(e).Some? {
      EvidenceReadsBack(e, sequence);
    }
  }

  /** The rules look at nothing in which a loaded entry can differ from what the events say. */
  lemma AlikeAdmits(configured: Option<DeletionMethod>, said: ActionJournalEntry, read: ActionJournalEntry,
                    e: JournalEvent)
    requires Alike(said, read) && Staged(said) && AdmittedOn(configured, said, e)
    ensures Staged(read) && AdmittedOn(configured, read, e)
    ensures Storable(e, Some(read)) <==> Storable(e, Some(said))
  {
  }

  /** One more event: its row replays, to the event as it reads back, exactly when the event is storable. */
  lemma EventReplays(configured: Option<DeletionMethod>, rows: seq<Row>, said: Option<ActionJournalEntry>,
                     read: Option<ActionJournalEntry>, e: JournalEvent)
    requires Mirrors(rows, said) && AlikeIfAny(said, read)
    requires said.Some? ==> Staged(said.value) && said.value.plan.actionId == ActionOf(e)
    requires AdmittedAlone(configured, rows, e) && Bindable(e)
    ensures Storable(e, said) ==>
      Readable(RowOf(e, |rows|)) && ApplyRow(read, RowOf(e, |rows|), configured) == Ok(Record(read, Reread(e)).value)
    ensures !Storable(e, said) ==> !Readable(RowOf(e, |rows|)) || ApplyRow(read, RowOf(e, |rows|), configured).Err?
  {
    AdmissionSeenOnEntry(configured, rows, said, e);
    if said.None? {
      PlannedReplays(configured, e, |rows|);
    } else {
      AlikeAdmits(configured, said.value, read.value, e);
      if Storable(e, said) {
        StorableReplays(configured, read.value, e, |rows|);
      } else {
        UnstorableFails(configured, read.value, e, |rows|);
      }
    }
  }

  lemma RecordKeepsAction(entry: Option<ActionJournalEntry>, e: JournalEvent)
    requires e.Planned? <==> entry.None?
    ensures Record(entry, e).Some?
    ensures Record(entry, e).value.plan.actionId == if entry.Some? then entry.value.plan.actionId else ActionOf(e)
  {
  }

  lemma EntryStep(configured: Option<DeletionMethod>, rows: seq<Row>, entry: Option<ActionJournalEntry>,
                  e: JournalEvent, a: ActionId)
    requires Mirrors(rows, entry) && ActionOf(e) == a && AdmittedAlone(configured, rows, e)
    requires entry.Some? ==> Staged(entry.value) && entry.value.plan.actionId == a
    ensures Mirrors(rows + [RowOf(e, |rows|)], Record(entry, e))
    ensures Record(entry, e).Some? && Staged(Record(entry, e).value) && Record(entry, e).value.plan.actionId == a
  {
    RecordKeepsMirror(configured, rows, entry, e);
    AdmissionSeenOnEntry(configured, rows, entry, e);
    RecordKeepsAction(entry, e);
  }

  lemma {:induction false} EncodeMirrors(configured: Option<DeletionMethod>, a: ActionId, es: History)
    requires AcceptedAlone(configured, a, es)
    ensures Mirrors(Encode(es), Fold(es)) && |Encode(es)| == |es|
    ensures es != [] ==> Fold(es).Some? && Staged(Fold(es).value) && Fold(es).value.plan.actionId == a
  {
    if es != [] {
      EncodeMirrors(configured, a, Init(es));
      EntryStep(configured, Encode(Init(es)), Fold(Init(es)), Last(es), a);
    }
  }

  lemma ReplayStep(configured: Option<DeletionMethod>, rows: seq<Row>, row: Row)
    ensures AllReadable(rows + [row]) <==> AllReadable(rows) && Readable(row)
    ensures AllReadable(rows + [row]) ==>
      ReplayOne(rows + [row], configured) == ReplayNext(ReplayOne(rows, configured), row, configured)
  {
    var all := rows + [row];
    assert Init(all) == rows && Last(all) == row;
    if AllReadable(all) {
      forall i | 0 <= i < |rows| ensures Readable(rows[i]) { assert rows[i] == all[i]; }
      assert Readable(all[|rows|]);
    }
  }

  /** The last event of an accepted action replays, to itself as it reads back, exactly when it is storable. */
  lemma LastReplays(configured: Option<DeletionMethod>, a: ActionId, es: History)
    requires AcceptedAlone(configured, a, es) && es != []
    ensures
      var said, read, row := Fold(Init(es)), FoldReread(Init(es)), RowOf(Last(es), |es| - 1);
      && FoldReread(es).Some?
      && (Storable(Last(es), said) ==> Readable(row) && ApplyRow(read, row, configured) == Ok(FoldReread(es).value))
      && (!Storable(Last(es), said) ==> !Readable(row) || ApplyRow(read, row, configured).Err?)
  {
    EncodeMirrors(configured, a, Init(es));
    EncodeMirrors(configured, a, es);
    FoldsAlike(Init(es));
    FoldsAlike(es);
    EventReplays(configured, Encode(Init(es)), Fold(Init(es)), FoldReread(Init(es)), Last(es));
  }

  /** For one action: its rows replay exactly when its events are storable, and then to their fold as they read back. */
  lemma {:induction false} ActionReplays(configured: Option<DeletionMethod>, a: ActionId, es: History)
    requires AcceptedAlone(configured, a, es)
    ensures AllReadable(Encode(es)) && ReplayOne(Encode(es), configured).Ok? <==> StorableAlone(es)
    ensures StorableAlone(es) ==> ReplayOne(Encode(es), configured) == Ok(FoldReread(es))
  {
    if es != [] {
      ActionReplays(configured, a, Init(es));
      ReplayStep(configured, Encode(Init(es)), RowOf(Last(es), |es| - 1));
      LastReplays(configured, a, es);
    }
  }
}
