/** The read side of the journal: `load_journal` and the rules `apply_stored_event` checks again. */
module EvidenceReplay {
  import opened Common
  import opened EvidenceTypes
  import opened EvidenceAppend

  // ----- Reading columns back -----

  predicate UnsignedColumn(n: Option<int>) {
    n.Some? ==> 0 <= n.value < TWO_TO_THE_64
  }

  /** Every column read as an unsigned integer holds a non-negative value. */
  predicate Readable(row: Row) {
    && UnsignedColumn(row.plan.plannedBytes)
    && UnsignedColumn(row.plan.size)
    && UnsignedColumn(row.plan.device)
    && UnsignedColumn(row.plan.inode)
    && UnsignedColumn(row.progressBytes)
    && UnsignedColumn(row.evidence.sourceSize)
    && UnsignedColumn(row.evidence.destinationSize)
    && UnsignedColumn(row.evidence.itemSize)
    && UnsignedColumn(row.proof.destinationSize)
    && UnsignedColumn(row.provenance.device)
    && UnsignedColumn(row.provenance.inode)
  }

  function ReadUnsigned(n: Option<int>): Option<U64>
    requires UnsignedColumn(n)
  {
    match n
    case Some(value) => Some(value)
    case None => None
  }

  function DecodeIdentity(device: Option<int>, inode: Option<int>): Result<Option<FileIdentity>, StorageError>
    requires UnsignedColumn(device) && UnsignedColumn(inode)
  {
    match (device, inode)
    case (Some(d), Some(i)) => Ok(Some(FileIdentity(d, i)))
    case (None, None) => Ok(None)
    case _ => Err(CorruptEvidence)
  }

  function DecodeContent(size: Option<int>, sha256: Option<Digest>): Result<Option<ContentProof>, StorageError>
    requires UnsignedColumn(size)
  {
    match (size, sha256)
    case (Some(s), Some(h)) => Ok(Some(ContentProof(s, h)))
    case (None, None) => Ok(None)
    case _ => Err(CorruptEvidence)
  }

  function DecodeProvenance(row: Row): Result<Option<RecoveryProvenance>, StorageError>
    requires Readable(row)
  {
    var p := row.provenance;
    if p == NO_PROVENANCE then Ok(None)
    else if p.peer.None? || p.root.None? || p.relative.None? || p.runId.None? || p.removedAt.None? || p.itemType.None?
    then Err(CorruptEvidence)
    else
      match DecodeIdentity(p.device, p.inode)
      case Err(error) => Err(error)
      case Ok(identity) =>
        match DecodeContent(row.evidence.sourceSize, row.evidence.sourceSha256)
        case Err(error) => Err(error)
        case Ok(content) =>
          if !(0 <= p.runId.value < TWO_TO_THE_64) then Err(CorruptEvidence)
          else
            Ok(Some(RecoveryProvenance(
              Some(row.actionId), p.peer.value, p.root.value, p.relative.value, p.runId.value, p.removedAt.value,
              if row.deletionMethod.Some? then row.deletionMethod.value else Trash,
              if row.phase == RemovalCompletedPhase then Verified else ReviewRequired,
              p.itemType.value, content, identity, None)))
  }

  function DecodeEvidence(row: Row): Result<RecoveryEvidence, StorageError>
    requires Readable(row)
  {
    var c := row.evidence;
    if c.observedAt.None? || c.sourcePresent.None? || c.destinationPresent.None? || c.recoveryPresent.None?
    then Err(CorruptEvidence)
    else if c.itemSize.None? && c.itemSha256.Some? then Err(CorruptEvidence)
    else
      match DecodeProvenance(row)
      case Err(error) => Err(error)
      case Ok(provenance) =>
        Ok(RecoveryEvidence(
          c.observedAt.value, c.target, c.sourcePresent.value, c.destinationPresent.value, c.recoveryPresent.value,
          ReadUnsigned(c.sourceSize), ReadUnsigned(c.destinationSize), c.sourceSha256, c.destinationSha256,
          if c.itemSize.Some? then Some(RecoveryProof(c.itemSize.value, c.itemSha256)) else None,
          provenance))
  }

  // ----- Rules checked again -----

  predicate TransfersContent(kind: PlanActionKind) {
    kind in {CopyToDestination, OverwriteDestination, RemoveSourceAfterVerification}
  }

  predicate ReplayedTransitionAllowed(entry: ActionJournalEntry, next: Phase) {
    var removesSource := entry.plan.operation == RemoveSourceAfterVerification;
    match next
    case PlannedPhase => false
    case StartedPhase => entry.lastPhase == PlannedPhase
    case ProgressPhase => entry.lastPhase in {StartedPhase, ProgressPhase}
    case TransferVerifiedPhase =>
      && TransfersContent(entry.plan.operation)
      && entry.lastPhase in {StartedPhase, ProgressPhase}
      && entry.transferEvidence.None?
    case ProofBoundaryPhase =>
      && (|| (!removesSource && entry.lastPhase in {StartedPhase, ProgressPhase})
          || (removesSource && entry.lastPhase == TransferVerifiedPhase && entry.transferEvidence.Some?))
      && entry.proofBoundary.None?
    case RemovalStartedPhase => entry.lastPhase == ProofBoundaryPhase && entry.proofBoundary.Some?
    case RemovalCompletedPhase =>
      entry.lastPhase == RemovalStartedPhase && entry.proofBoundary.Some? && entry.removalResult.None?
    case RecoveryReviewPhase =>
      && entry.lastPhase in
           {StartedPhase, ProgressPhase, ProofBoundaryPhase, RemovalStartedPhase, TransferVerifiedPhase}
      && entry.recoveryEvidence.None?
    case RecoveryResolvedPhase =>
      entry.lastPhase == RecoveryReviewPhase && entry.recoveryEvidence.Some? && entry.resolutionEvidence.None?
    case CancelledPhase => entry.lastPhase in {PlannedPhase, StartedPhase, ProgressPhase}
    case InterruptedPhase => entry.lastPhase in {PlannedPhase, StartedPhase, ProgressPhase}
    case _ =>
      entry.lastPhase in {StartedPhase, ProgressPhase, TransferVerifiedPhase, ProofBoundaryPhase, RemovalStartedPhase}
  }

  predicate ReplayedMethodValid(entry: ActionJournalEntry, deletionMethod: DeletionMethod,
                                configured: Option<DeletionMethod>)
  {
    entry.plan.operation == RemoveSourceAfterVerification && configured == Some(deletionMethod)
  }

  predicate ReplayedTransferValid(entry: ActionJournalEntry, evidence: RecoveryEvidence) {
    var regular := entry.plan.preAction.itemType == RegularFile;
    && evidence.sourcePresent
    && evidence.destinationPresent
    && !evidence.recoveryPresent
    && evidence.recoveryTarget.None?
    && evidence.sourceSize == Some(entry.plan.preAction.size)
    && (regular ==> evidence.sourceSha256 == entry.plan.preAction.sha256)
    && evidence.destinationSize.Some?
    && (regular ==> evidence.destinationSha256.Some?)
  }

  predicate ReplayedProofValid(entry: ActionJournalEntry, row: Row, evidence: RecoveryEvidence)
    requires Readable(row)
  {
    var regular := entry.plan.preAction.itemType == RegularFile;
    && row.proof.metadataVerified == Some(true)
    && row.proof.destinationSize.Some?
    && (regular ==> row.proof.destinationSha256.Some?)
    && evidence.sourcePresent
    && evidence.destinationPresent
    && !evidence.recoveryPresent
    && evidence.recoveryTarget.None?
    && evidence.sourceSize.Some?
    && (regular ==> evidence.sourceSha256.Some?)
    && evidence.destinationSize == ReadUnsigned(row.proof.destinationSize)
    && evidence.destinationSha256 == row.proof.destinationSha256
  }

  predicate ReplayedRemovalValid(entry: ActionJournalEntry, deletionMethod: DeletionMethod,
                                 evidence: RecoveryEvidence)
  {
    var regular := entry.plan.preAction.itemType == RegularFile;
    && !evidence.sourcePresent
    && evidence.destinationPresent
    && evidence.destinationSize.Some?
    && (regular ==> evidence.destinationSha256.Some?)
    && (regular && evidence.provenance.Some? ==>
          evidence.recoveryProof.Some? && evidence.recoveryProof.value.sha256.Some?)
    && (evidence.provenance.Some? ==>
          var p := evidence.provenance.value;
          p.actionId == Some(entry.plan.actionId) && p.deletionMethod == deletionMethod && p.verification == Verified)
    && ValidRecovery(deletionMethod, evidence)
    && (entry.proofBoundary.Some? ==>
          && entry.proofBoundary.value.destinationSize == evidence.destinationSize
          && entry.proofBoundary.value.destinationSha256 == evidence.destinationSha256)
  }

  // ----- One row -----

  function ApplyPlanned(row: Row): Result<ActionJournalEntry, StorageError>
    requires Readable(row)
  {
    var c := row.plan;
    if c.relativePath.None? || c.operation.None? || c.affectedSide.None? || c.itemType.None? || c.size.None?
    then Err(CorruptEvidence)
    else
      match DecodeIdentity(c.device, c.inode)
      case Err(error) => Err(error)
      case Ok(identity) =>
        Ok(NewEntry(PlanRecord(
          row.actionId, c.relativePath.value, c.operation.value, c.affectedSide.value, ReadUnsigned(c.plannedBytes),
          PreActionState(c.itemType.value, c.size.value, c.modifiedAt, identity, c.sha256))))
  }

  function ApplyEvidenceRow(entry: ActionJournalEntry, row: Row, configured: Option<DeletionMethod>)
    : Result<ActionJournalEntry, StorageError>
    requires Readable(row)
    requires row.phase in {TransferVerifiedPhase, ProofBoundaryPhase, RemovalCompletedPhase, RecoveryReviewPhase}
  {
    match DecodeEvidence(row)
    case Err(error) => Err(error)
    case Ok(evidence) =>
      match row.phase
      case TransferVerifiedPhase =>
        if !TransfersContent(entry.plan.operation) || row.proof.metadataVerified != Some(true)
           || !ReplayedTransferValid(entry, evidence)
        then Err(CorruptEvidence)
        else Ok(entry.(transferEvidence := Some(evidence), outcome := InProgress))
      case ProofBoundaryPhase =>
        if (entry.plan.operation == RemoveSourceAfterVerification && entry.transferEvidence.None?)
           || row.deletionMethod.None?
           || !ReplayedMethodValid(entry, row.deletionMethod.value, configured)
           || !ReplayedProofValid(entry, row, evidence)
        then Err(CorruptEvidence)
        else Ok(entry.(proofBoundary := Some(evidence), outcome := RecoveryReviewOutcome(InterruptedBoundary)))
      case RemovalCompletedPhase =>
        if row.deletionMethod.None?
           || !ReplayedMethodValid(entry, row.deletionMethod.value, configured)
           || !ReplayedRemovalValid(entry, row.deletionMethod.value, evidence)
        then Err(CorruptEvidence)
        else
          Ok(entry.(removalResult := Some(RemovalResult(row.deletionMethod.value, evidence)),
                    outcome := CompletedOutcome))
      case RecoveryReviewPhase =>
        if row.reason.None? then Err(CorruptEvidence)
        else
          Ok(entry.(recoveryEvidence := Some(evidence), outcome := RecoveryReviewOutcome(row.reason.value)))
  }

  function ApplyResolution(entry: ActionJournalEntry, row: Row): Result<ActionJournalEntry, StorageError>
    requires Readable(row)
  {
    match row.resolution
    case None => Err(CorruptEvidence)
    case Some(UnresolvedText(reason)) => Ok(entry.(outcome := UnresolvedOutcome(reason)))
    case Some(CompletedText) =>
      match DecodeEvidence(row)
      case Err(error) => Err(error)
      case Ok(evidence) =>
        if entry.plan.operation == RemoveSourceAfterVerification
           || (entry.recoveryEvidence.Some? && evidence.observedAt <= entry.recoveryEvidence.value.observedAt)
        then Err(CorruptEvidence)
        else Ok(entry.(resolutionEvidence := Some(evidence), outcome := CompletedOutcome))
  }

  function ApplyPhase(entry: ActionJournalEntry, row: Row, configured: Option<DeletionMethod>)
    : Result<ActionJournalEntry, StorageError>
    requires Readable(row) && row.phase != PlannedPhase
  {
    match row.phase
    case StartedPhase => Ok(entry.(started := true))
    case ProgressPhase =>
      if row.progressBytes.None? then Err(CorruptEvidence)
      else Ok(entry.(progressBytes := entry.progressBytes + [row.progressBytes.value]))
    case RemovalStartedPhase =>
      if row.deletionMethod.None? || !ReplayedMethodValid(entry, row.deletionMethod.value, configured)
      then Err(CorruptEvidence)
      else Ok(entry.(outcome := RecoveryReviewOutcome(InterruptedBoundary)))
    case CompletedPhase =>
      if entry.plan.operation == RemoveSourceAfterVerification then Err(CorruptEvidence)
      else Ok(entry.(outcome := CompletedOutcome))
    case FailedPhase =>
      if row.reason.None? then Err(CorruptEvidence) else Ok(entry.(outcome := FailedOutcome(row.reason.value)))
    case CancelledPhase => Ok(entry.(outcome := CancelledOutcome))
    case InterruptedPhase => Ok(entry.(outcome := InterruptedOutcome))
    case DeferredPhase => Ok(entry.(outcome := DeferredOutcome))
    case UnresolvedPhase =>
      if row.reason.None? then Err(CorruptEvidence) else Ok(entry.(outcome := UnresolvedOutcome(row.reason.value)))
    case RecoveryResolvedPhase => ApplyResolution(entry, row)
    case TransferVerifiedPhase => ApplyEvidenceRow(entry, row, configured)
    case ProofBoundaryPhase => ApplyEvidenceRow(entry, row, configured)
    case RemovalCompletedPhase => ApplyEvidenceRow(entry, row, configured)
    case RecoveryReviewPhase => ApplyEvidenceRow(entry, row, configured)
  }

  /** `apply_stored_event`, seen from the one entry it reads and writes. */
  function ApplyRow(entry: Option<ActionJournalEntry>, row: Row, configured: Option<DeletionMethod>)
    : Result<ActionJournalEntry, StorageError>
    requires Readable(row)
  {
    if row.phase == PlannedPhase then
      match ApplyPlanned(row)
      case Err(error) => Err(error)
      case Ok(planned) => if entry.Some? then Err(CorruptEvidence) else Ok(planned)
    else if entry.None? || !ReplayedTransitionAllowed(entry.value, row.phase) then Err(CorruptEvidence)
    else
      match ApplyPhase(entry.value, row, configured)
      case Err(error) => Err(error)
      case Ok(next) => Ok(next.(lastPhase := row.phase))
  }

  // ----- The whole table -----

  type Entries = map<ActionId, ActionJournalEntry>

  function EntryAt(entries: Entries, a: ActionId): Option<ActionJournalEntry> {
    if a in entries then Some(entries[a]) else None
  }

  function ApplyStoredEvent(entries: Entries, row: Row, configured: Option<DeletionMethod>):
    Result<Entries, StorageError>
    requires Readable(row)
  {
    match ApplyRow(EntryAt(entries, row.actionId), row, configured)
    case Err(error) => Err(error)
    case Ok(entry) => Ok(entries[row.actionId := entry])
  }

  predicate AllReadable(rows: seq<Row>) {
    forall i :: 0 <= i < |rows| ==> Readable(rows[i])
  }

  function ReplayRows(rows: seq<Row>, configured: Option<DeletionMethod>): Result<Entries, StorageError>
    requires AllReadable(rows)
  {
    if rows == [] then Ok(map[])
    else
      match ReplayRows(Init(rows), configured)
      case Err(error) => Err(error)
      case Ok(entries) => ApplyStoredEvent(entries, Last(rows), configured)
  }

  /** Whether a row sorts after another in `ORDER BY action_id, sequence`. */
  predicate Precedes(left: Row, right: Row) {
    left.actionId < right.actionId || (left.actionId == right.actionId && left.sequence <= right.sequence)
  }

  function InsertOrdered(rows: seq<Row>, row: Row): seq<Row> {
    if rows == [] || Precedes(Last(rows), row) then rows + [row]
    else InsertOrdered(Init(rows), row) + [Last(rows)]
  }

  function OrderRows(rows: seq<Row>): seq<Row> {
    if rows == [] then [] else InsertOrdered(OrderRows(Init(rows)), Last(rows))
  }

  /** `load_journal`: read and decode every row in order, then apply them one by one. */
  function Load(rows: seq<Row>, configured: Option<DeletionMethod>): Result<Entries, StorageError> {
    var ordered := OrderRows(rows);
    if !AllReadable(ordered) then Err(Sqlite) else ReplayRows(ordered, configured)
  }
}
