/** The typed events of the run-evidence journal and the columns of the `action_events` table that store them. */
module EvidenceTypes {
  import opened Common

  type ActionId = U64

  datatype DeletionMethod = Trash | PermanentRemoval

  datatype ActionReason =
    | TransferFailed | VerificationMismatch | SourceChanged | PermissionDenied
    | CancellationRequested | DeferredForReview | FilesystemUncertain
    | InterruptedBoundary | DestinationUnavailable

  datatype FileIdentity = FileIdentity(device: U64, inode: U64)

  datatype ContentProof = ContentProof(size: U64, sha256: Digest)

  datatype VerificationState = Verified | ReviewRequired | Unverified

  /** A value of this type has passed the peer, root and relative-path checks of its constructors. */
  datatype RecoveryProvenance = RecoveryProvenance(
    actionId: Option<ActionId>,
    peer: string,
    originalRoot: Path,
    relativePath: Path,
    runId: U64,
    removedAt: I64,
    deletionMethod: DeletionMethod,
    verification: VerificationState,
    itemType: ItemType,
    content: Option<ContentProof>,
    identity: Option<FileIdentity>,
    symlinkTarget: Option<Path>)

  /** The size and digest of a recovered item; the digest never comes without the size. */
  datatype RecoveryProof = RecoveryProof(size: U64, sha256: Option<Digest>)

  datatype RecoveryEvidence = RecoveryEvidence(
    observedAt: I64,
    recoveryTarget: Option<Path>,
    sourcePresent: bool,
    destinationPresent: bool,
    recoveryPresent: bool,
    sourceSize: Option<U64>,
    destinationSize: Option<U64>,
    sourceSha256: Option<Digest>,
    destinationSha256: Option<Digest>,
    recoveryProof: Option<RecoveryProof>,
    provenance: Option<RecoveryProvenance>)

  datatype PreActionState = PreActionState(
    itemType: ItemType,
    size: U64,
    modifiedAt: Option<I64>,
    identity: Option<FileIdentity>,
    sha256: Option<Digest>)

  datatype PlanRecord = PlanRecord(
    actionId: ActionId,
    relativePath: Path,
    operation: PlanActionKind,
    affectedSide: PeerSide,
    plannedBytes: Option<U64>,
    preAction: PreActionState)

  datatype RecoveryResolution =
    | ResolvedCompleted(evidence: RecoveryEvidence)
    | ResolvedUnresolved(reason: ActionReason)

  datatype RemovalResult = RemovalResult(deletionMethod: DeletionMethod, evidence: RecoveryEvidence)

  datatype JournalEvent =
    | Planned(plan: PlanRecord)
    | Started(actionId: ActionId)
    | Progress(actionId: ActionId, completedBytes: U64)
    | TransferVerified(actionId: ActionId, evidence: RecoveryEvidence, metadataVerified: bool)
    | ProofBoundary(
        actionId: ActionId, deletionMethod: DeletionMethod, evidence: RecoveryEvidence, metadataVerified: bool)
    | RemovalStarted(actionId: ActionId, deletionMethod: DeletionMethod)
    | RemovalCompleted(actionId: ActionId, result: RemovalResult)
    | Completed(actionId: ActionId)
    | Failed(actionId: ActionId, reason: ActionReason)
    | Cancelled(actionId: ActionId)
    | Interrupted(actionId: ActionId)
    | Deferred(actionId: ActionId)
    | Unresolved(actionId: ActionId, reason: ActionReason)
    | RecoveryReview(actionId: ActionId, reason: ActionReason, evidence: RecoveryEvidence)
    | RecoveryResolved(actionId: ActionId, resolution: RecoveryResolution)

  datatype Phase =
    | PlannedPhase | StartedPhase | ProgressPhase | TransferVerifiedPhase | ProofBoundaryPhase
    | RemovalStartedPhase | RemovalCompletedPhase | CompletedPhase | FailedPhase | CancelledPhase
    | InterruptedPhase | DeferredPhase | UnresolvedPhase | RecoveryReviewPhase | RecoveryResolvedPhase

  function ActionOf(e: JournalEvent): ActionId {
    if e.Planned? then e.plan.actionId else e.actionId
  }

  function PhaseOf(e: JournalEvent): Phase {
    match e
    case Planned(_) => PlannedPhase
    case Started(_) => StartedPhase
    case Progress(_, _) => ProgressPhase
    case TransferVerified(_, _, _) => TransferVerifiedPhase
    case ProofBoundary(_, _, _, _) => ProofBoundaryPhase
    case RemovalStarted(_, _) => RemovalStartedPhase
    case RemovalCompleted(_, _) => RemovalCompletedPhase
    case Completed(_) => CompletedPhase
    case Failed(_, _) => FailedPhase
    case Cancelled(_) => CancelledPhase
    case Interrupted(_) => InterruptedPhase
    case Deferred(_) => DeferredPhase
    case Unresolved(_, _) => UnresolvedPhase
    case RecoveryReview(_, _, _) => RecoveryReviewPhase
    case RecoveryResolved(_, _) => RecoveryResolvedPhase
  }

  predicate IsSettledPhase(p: Phase) {
    p in {CompletedPhase, FailedPhase, CancelledPhase, InterruptedPhase, DeferredPhase,
          UnresolvedPhase, RemovalCompletedPhase, RecoveryResolvedPhase}
  }

  /** The evidence an event carries, when it carries any. */
  function EvidenceOf(e: JournalEvent): Option<RecoveryEvidence> {
    match e
    case TransferVerified(_, evidence, _) => Some(evidence)
    case ProofBoundary(_, _, evidence, _) => Some(evidence)
    case RemovalCompleted(_, result) => Some(result.evidence)
    case RecoveryReview(_, _, evidence) => Some(evidence)
    case RecoveryResolved(_, ResolvedCompleted(evidence)) => Some(evidence)
    case _ => None
  }

  function MethodOf(e: JournalEvent): Option<DeletionMethod> {
    match e
    case ProofBoundary(_, deletionMethod, _, _) => Some(deletionMethod)
    case RemovalStarted(_, deletionMethod) => Some(deletionMethod)
    case RemovalCompleted(_, result) => Some(result.deletionMethod)
    case _ => None
  }

  // ----- Table columns -----

  datatype PlanColumns = PlanColumns(
    relativePath: Option<Path>,
    operation: Option<PlanActionKind>,
    affectedSide: Option<PeerSide>,
    plannedBytes: Option<int>,
    itemType: Option<ItemType>,
    size: Option<int>,
    modifiedAt: Option<I64>,
    device: Option<int>,
    inode: Option<int>,
    sha256: Option<Digest>)

  datatype EvidenceColumns = EvidenceColumns(
    observedAt: Option<I64>,
    target: Option<Path>,
    sourcePresent: Option<bool>,
    destinationPresent: Option<bool>,
    recoveryPresent: Option<bool>,
    sourceSize: Option<int>,
    destinationSize: Option<int>,
    sourceSha256: Option<Digest>,
    destinationSha256: Option<Digest>,
    itemSize: Option<int>,
    itemSha256: Option<Digest>)

  datatype ProofColumns = ProofColumns(
    destinationSize: Option<int>,
    destinationSha256: Option<Digest>,
    metadataVerified: Option<bool>)

  datatype ProvenanceColumns = ProvenanceColumns(
    peer: Option<string>,
    root: Option<Path>,
    relative: Option<Path>,
    runId: Option<int>,
    removedAt: Option<I64>,
    itemType: Option<ItemType>,
    device: Option<int>,
    inode: Option<int>)

  datatype ResolutionColumn = CompletedText | UnresolvedText(reason: ActionReason)

  /** One row of `action_events` within one run. Integer columns hold SQLite's signed values. */
  datatype Row = Row(
    actionId: ActionId,
    sequence: nat,
    phase: Phase,
    plan: PlanColumns,
    progressBytes: Option<int>,
    reason: Option<ActionReason>,
    resolution: Option<ResolutionColumn>,
    evidence: EvidenceColumns,
    proof: ProofColumns,
    provenance: ProvenanceColumns,
    deletionMethod: Option<DeletionMethod>)

  const NO_PLAN := PlanColumns(None, None, None, None, None, None, None, None, None, None)
  const NO_EVIDENCE := EvidenceColumns(None, None, None, None, None, None, None, None, None, None, None)
  const NO_PROOF := ProofColumns(None, None, None)
  const NO_PROVENANCE := ProvenanceColumns(None, None, None, None, None, None, None, None)

  /** Rust's `value as i64`: values from 2^63 up come out negative. */
  function AsI64(n: U64): I64 {
    if n < TWO_TO_THE_63 then n else n - TWO_TO_THE_64
  }

  function AsI64Column(n: Option<U64>): Option<int> {
    match n
    case Some(value) => Some(AsI64(value))
    case None => None
  }

  function PlanFields(plan: PlanRecord): PlanColumns {
    var pre := plan.preAction;
    PlanColumns(
      Some(plan.relativePath), Some(plan.operation), Some(plan.affectedSide), AsI64Column(plan.plannedBytes),
      Some(pre.itemType), Some(AsI64(pre.size)), pre.modifiedAt,
      if pre.identity.Some? then Some(pre.identity.value.device) else None,
      if pre.identity.Some? then Some(pre.identity.value.inode) else None,
      pre.sha256)
  }

  function EvidenceFields(evidence: RecoveryEvidence): EvidenceColumns {
    EvidenceColumns(
      Some(evidence.observedAt), evidence.recoveryTarget,
      Some(evidence.sourcePresent), Some(evidence.destinationPresent), Some(evidence.recoveryPresent),
      AsI64Column(evidence.sourceSize), AsI64Column(evidence.destinationSize),
      evidence.sourceSha256, evidence.destinationSha256,
      if evidence.recoveryProof.Some? then Some(AsI64(evidence.recoveryProof.value.size)) else None,
      if evidence.recoveryProof.Some? then evidence.recoveryProof.value.sha256 else None)
  }

  function ProvenanceFields(provenance: Option<RecoveryProvenance>): ProvenanceColumns {
    match provenance
    case None => NO_PROVENANCE
    case Some(p) =>
      ProvenanceColumns(
        Some(p.peer), Some(p.originalRoot), Some(p.relativePath), Some(AsI64(p.runId)), Some(p.removedAt),
        Some(p.itemType),
        if p.identity.Some? then Some(p.identity.value.device) else None,
        if p.identity.Some? then Some(p.identity.value.inode) else None)
  }

  function ProofFields(e: JournalEvent): ProofColumns {
    match e
    case TransferVerified(_, evidence, verified) =>
      ProofColumns(AsI64Column(evidence.destinationSize), evidence.destinationSha256, Some(verified))
    case ProofBoundary(_, _, evidence, verified) =>
      ProofColumns(AsI64Column(evidence.destinationSize), evidence.destinationSha256, Some(verified))
    case _ => NO_PROOF
  }

  function ReasonField(e: JournalEvent): Option<ActionReason> {
    match e
    case Failed(_, reason) => Some(reason)
    case Unresolved(_, reason) => Some(reason)
    case RecoveryReview(_, reason, _) => Some(reason)
    case Deferred(_) => Some(DeferredForReview)
    case _ => None
  }

  function ResolutionField(e: JournalEvent): Option<ResolutionColumn> {
    match e
    case RecoveryResolved(_, ResolvedCompleted(_)) => Some(CompletedText)
    case RecoveryResolved(_, ResolvedUnresolved(reason)) => Some(UnresolvedText(reason))
    case _ => None
  }

  /** The row `append_event` inserts for an event. */
  function RowOf(e: JournalEvent, sequence: nat): Row {
    var evidence := EvidenceOf(e);
    Row(
      ActionOf(e), sequence, PhaseOf(e),
      if e.Planned? then PlanFields(e.plan) else NO_PLAN,
      if e.Progress? then Some(AsI64(e.completedBytes)) else None,
      ReasonField(e),
      ResolutionField(e),
      if evidence.Some? then EvidenceFields(evidence.value) else NO_EVIDENCE,
      ProofFields(e),
      if evidence.Some? then ProvenanceFields(evidence.value.provenance) else NO_PROVENANCE,
      MethodOf(e))
  }

  // ----- Journal entries -----

  datatype ActionOutcome =
    | InProgress
    | CompletedOutcome
    | FailedOutcome(reason: ActionReason)
    | CancelledOutcome
    | InterruptedOutcome
    | DeferredOutcome
    | UnresolvedOutcome(reason: ActionReason)
    | RecoveryReviewOutcome(reason: ActionReason)

  datatype ActionJournalEntry = ActionJournalEntry(
    plan: PlanRecord,
    lastPhase: Phase,
    started: bool,
    progressBytes: seq<U64>,
    outcome: ActionOutcome,
    transferEvidence: Option<RecoveryEvidence>,
    proofBoundary: Option<RecoveryEvidence>,
    removalResult: Option<RemovalResult>,
    recoveryEvidence: Option<RecoveryEvidence>,
    resolutionEvidence: Option<RecoveryEvidence>)

  function NewEntry(plan: PlanRecord): ActionJournalEntry {
    ActionJournalEntry(plan, PlannedPhase, false, [], InProgress, None, None, None, None, None)
  }

  datatype StorageError = InvalidEvent | Sqlite | CorruptEvidence
}
