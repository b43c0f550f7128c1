/** The write side of the journal: the checks `append_event` makes before it inserts a row. */
module EvidenceAppend {
  import opened Common
  import opened EvidenceTypes

  // ----- Queries over the table -----

  /** The rows of one action, in insertion order. */
  function RowsFor(rows: seq<Row>, a: ActionId): seq<Row> {
    if rows == [] then []
    else RowsFor(Init(rows), a) + (if Last(rows).actionId == a then [Last(rows)] else [])
  }

  /** The newest row carrying a phase. */
  function LatestWith(rows: seq<Row>, phase: Phase): Option<Row> {
    if rows == [] then None
    else if Last(rows).phase == phase then Some(Last(rows))
    else LatestWith(Init(rows), phase)
  }

  function CurrentPhase(rows: seq<Row>): Option<Phase> {
    if rows == [] then None else Some(Last(rows).phase)
  }

  /** `MAX(sequence)`, or -1 when there is no row. */
  function MaxSequence(rows: seq<Row>): (n: int)
    ensures n >= -1
  {
    if rows == [] then -1
    else if Last(rows).sequence > MaxSequence(Init(rows)) then Last(rows).sequence
    else MaxSequence(Init(rows))
  }

  // ----- Checks on one action -----

  predicate ValidRecovery(deletionMethod: DeletionMethod, evidence: RecoveryEvidence) {
    match deletionMethod
    case Trash => evidence.recoveryPresent && evidence.recoveryTarget.Some?
    case PermanentRemoval => !evidence.recoveryPresent && evidence.recoveryTarget.None?
  }

  /** Source and destination both present, with sizes, digests where content counts, and no recovery copy. */
  predicate CompleteProof(evidence: RecoveryEvidence, contentRequired: bool) {
    && evidence.sourcePresent
    && evidence.destinationPresent
    && !evidence.recoveryPresent
    && evidence.recoveryTarget.None?
    && evidence.sourceSize.Some?
    && (contentRequired ==> evidence.sourceSha256.Some?)
    && evidence.destinationSize.Some?
    && (contentRequired ==> evidence.destinationSha256.Some?)
  }

  predicate TransitionAllowed(phase: Phase, current: Option<Phase>) {
    match phase
    case PlannedPhase => false
    case StartedPhase => current == Some(PlannedPhase)
    case ProgressPhase => current in {Some(StartedPhase), Some(ProgressPhase)}
    case TransferVerifiedPhase => current in {Some(StartedPhase), Some(ProgressPhase)}
    case ProofBoundaryPhase => current == Some(TransferVerifiedPhase)
    case RemovalStartedPhase => current == Some(ProofBoundaryPhase)
    case RemovalCompletedPhase => current == Some(RemovalStartedPhase)
    case RecoveryResolvedPhase => current == Some(RecoveryReviewPhase)
    case CancelledPhase => current in {Some(PlannedPhase), Some(StartedPhase), Some(ProgressPhase)}
    case InterruptedPhase => current in {Some(PlannedPhase), Some(StartedPhase), Some(ProgressPhase)}
    case _ =>
      current in {Some(StartedPhase), Some(ProgressPhase), Some(TransferVerifiedPhase),
                  Some(ProofBoundaryPhase), Some(RemovalStartedPhase)}
  }

  predicate ValidateEvent(e: JournalEvent, hasPlan: bool, current: Option<Phase>,
                          operation: Option<PlanActionKind>, itemType: Option<ItemType>,
                          configured: Option<DeletionMethod>)
  {
    var contentRequired := itemType == Some(RegularFile);
    var removesSource := operation == Some(RemoveSourceAfterVerification);
    && (e.TransferVerified? ==>
          && operation in {Some(CopyToDestination), Some(OverwriteDestination), Some(RemoveSourceAfterVerification)}
          && e.metadataVerified
          && CompleteProof(e.evidence, contentRequired)
          && current in {Some(StartedPhase), Some(ProgressPhase)})
    && (e.ProofBoundary? ==>
          && e.metadataVerified
          && CompleteProof(e.evidence, contentRequired)
          && (removesSource ==> current == Some(TransferVerifiedPhase)))
    && !(e.Completed? && removesSource)
    && !(e.RecoveryResolved? && e.resolution.ResolvedCompleted? && removesSource)
    && (MethodOf(e).Some? ==> removesSource && configured == MethodOf(e))
    && (e.RemovalCompleted? ==>
          var evidence := e.result.evidence;
          && !evidence.sourcePresent
          && evidence.destinationPresent
          && evidence.destinationSize.Some?
          && (contentRequired ==> evidence.destinationSha256.Some?)
          && ValidRecovery(e.result.deletionMethod, evidence))
    && if e.Planned? then !hasPlan && current.None?
       else
         && hasPlan
         && !(current.Some? && IsSettledPhase(current.value) && current.value != RecoveryResolvedPhase)
         && TransitionAllowed(PhaseOf(e), current)
  }

  /** The verified source must be the planned one, read back from the planned row. */
  predicate TransferMatchesPlan(rows: seq<Row>, e: JournalEvent) {
    e.TransferVerified? ==>
      match LatestWith(rows, PlannedPhase)
      case None => false
      case Some(row) =>
        && row.plan.size.Some? && row.plan.size.value >= 0
        && (row.plan.itemType == Some(RegularFile) ==> row.plan.sha256.Some?)
        && e.evidence.sourceSize == row.plan.size
        && e.evidence.sourceSha256 == row.plan.sha256
  }

  /** The removal result must show the destination the proof boundary showed. */
  predicate RemovalMatchesProof(rows: seq<Row>, e: JournalEvent) {
    e.RemovalCompleted? ==>
      match (LatestWith(rows, PlannedPhase), LatestWith(rows, ProofBoundaryPhase))
      case (Some(planned), Some(row)) =>
        && row.proof.destinationSize.Some? && row.proof.destinationSize.value >= 0
        && (planned.plan.itemType == Some(RegularFile) ==> row.proof.destinationSha256.Some?)
        && e.result.evidence.destinationSize == row.proof.destinationSize
        && e.result.evidence.destinationSha256 == row.proof.destinationSha256
      case _ => false
  }

  predicate RecoveryResolutionValid(rows: seq<Row>, e: JournalEvent) {
    e.RecoveryResolved? && e.resolution.ResolvedCompleted? ==>
      match LatestWith(rows, RecoveryReviewPhase)
      case None => false
      case Some(row) =>
        && row.evidence.observedAt.Some?
        && e.resolution.evidence.observedAt > row.evidence.observedAt.value
  }

  /** Every check but the order between actions; `rows` are the rows of the event's action. */
  predicate AdmittedAlone(configured: Option<DeletionMethod>, rows: seq<Row>, e: JournalEvent) {
    var planned := LatestWith(rows, PlannedPhase);
    && ValidateEvent(
         e, planned.Some?, CurrentPhase(rows),
         if planned.Some? then planned.value.plan.operation else None,
         if planned.Some? then planned.value.plan.itemType else None,
         configured)
    && TransferMatchesPlan(rows, e)
    && RemovalMatchesProof(rows, e)
    && RecoveryResolutionValid(rows, e)
  }

  // ----- Order between actions -----

  predicate SkipsOrder(e: JournalEvent) {
    e.Cancelled? || e.Interrupted? || e.Planned?
  }

  predicate SettledIn(rows: seq<Row>, a: ActionId) {
    var current := CurrentPhase(RowsFor(rows, a));
    current.Some? ==> IsSettledPhase(current.value)
  }

  /** Whether every action with a smaller id that has rows is settled. */
  predicate PriorActionsSettled(rows: seq<Row>, a: ActionId) {
    forall i :: 0 <= i < |rows| && rows[i].actionId < a ==> SettledIn(rows, rows[i].actionId)
  }

  // ----- Append -----

  predicate IdentityBindable(identity: Option<FileIdentity>) {
    identity.Some? ==> identity.value.device < TWO_TO_THE_63 && identity.value.inode < TWO_TO_THE_63
  }

  /** Unsigned values bound without a cast must fit SQLite's signed integers. */
  predicate Bindable(e: JournalEvent) {
    && ActionOf(e) < TWO_TO_THE_63
    && (e.Planned? ==> IdentityBindable(e.plan.preAction.identity))
    && (EvidenceOf(e).Some? && EvidenceOf(e).value.provenance.Some? ==>
          IdentityBindable(EvidenceOf(e).value.provenance.value.identity))
  }

  /** The table after one append, or the reason it was refused and left as it was. */
  function Append(configured: Option<DeletionMethod>, rows: seq<Row>, e: JournalEvent)
    : (r: Result<seq<Row>, StorageError>)
  {
    var own := RowsFor(rows, ActionOf(e));
    if ActionOf(e) >= TWO_TO_THE_63 then Err(Sqlite)
    else if !AdmittedAlone(configured, own, e) then Err(InvalidEvent)
    else if !SkipsOrder(e) && !PriorActionsSettled(rows, ActionOf(e)) then Err(InvalidEvent)
    else if !Bindable(e) then Err(Sqlite)
    else Ok(rows + [RowOf(e, MaxSequence(own) + 1)])
  }
}
