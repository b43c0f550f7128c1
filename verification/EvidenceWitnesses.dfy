/** Accepted journals that surprise: a removal to Trash loses its provenance in storage, its destination need not be
    what was planned, and two journals cannot be loaded. */
module EvidenceWitnesses {
  import opened Common
  import opened EvidenceTypes
  import opened EvidenceAppend
  import opened EvidenceReplay
  import opened EvidenceAgreement
  import opened EvidenceJournal
  import opened EvidenceSurvival
  import opened SafeDelete
  import opened SerialExecution

  // ----- Building the history of one action -----

  predicate OfOneAction(h: History, a: ActionId) {
    forall i :: 0 <= i < |h| ==> ActionOf(h[i]) == a
  }

  lemma {:induction false} EventsOfOneAction(h: History, a: ActionId, b: ActionId)
    requires OfOneAction(h, a)
    ensures EventsOf(h, b) == if a == b then h else []
  {
    if h != [] {
      EventsOfOneAction(Init(h), a, b);
      assert ActionOf(h[|h| - 1]) == a && h == Init(h) + [Last(h)];
    }
  }

  /** What the columns must show for the two checks that read the table. */
  predicate ColumnsShow(entry: ActionJournalEntry, e: JournalEvent) {
    var regular := entry.plan.preAction.itemType == RegularFile;
    && (e.TransferVerified? ==>
          entry.plan.preAction.size < TWO_TO_THE_63 && (regular ==> entry.plan.preAction.sha256.Some?))
    && (e.RemovalCompleted? ==> Fits(e.result.evidence.destinationSize))
  }

  lemma AdmittedFromEntry(configured: Option<DeletionMethod>, rows: seq<Row>, entry: ActionJournalEntry,
                          e: JournalEvent)
    requires Mirrors(rows, Some(entry)) && AdmittedOn(configured, entry, e) && ColumnsShow(entry, e)
    ensures AdmittedAlone(configured, rows, e)
  {
  }

  /** A history of one accepted action, the entry it adds up to, and whether it loads. */
  ghost predicate Built(configured: Option<DeletionMethod>, h: History, a: ActionId, entry: ActionJournalEntry) {
    && h != [] && OfOneAction(h, a)
    && Accepted(configured, h) && AllStorable(h) && Fold(h) == Some(entry)
  }

  lemma BuildPlanned(configured: Option<DeletionMethod>, plan: PlanRecord)
    requires Bindable(Planned(plan)) && Storable(Planned(plan), None)
    ensures Built(configured, [Planned(plan)], plan.actionId, NewEntry(plan))
  {
    var h := [Planned(plan)];
    assert Init(h) == [] && Last(h) == Planned(plan);
    AcceptNext(configured, [], Planned(plan));
    assert [] + h == h;
  }

  lemma NextIsAccepted(configured: Option<DeletionMethod>, h: History, a: ActionId, entry: ActionJournalEntry,
                       e: JournalEvent)
    requires Accepted(configured, h) && h != [] && OfOneAction(h, a) && Fold(h) == Some(entry) && ActionOf(e) == a
    requires AdmittedOn(configured, entry, e) && ColumnsShow(entry, e) && Bindable(e)
    ensures Accepted(configured, h + [e])
  {
    forall b: ActionId { EventsOfOneAction(h, a, b); }
    AcceptedPerAction(configured, h, a);
    EncodeMirrors(configured, a, h);
    AdmittedFromEntry(configured, Encode(h), entry, e);
    AppendMeans(configured, h, e);
    AppendExtendsHistory(configured, h, e);
  }

  lemma NextIsStorable(h: History, a: ActionId, entry: ActionJournalEntry, e: JournalEvent)
    requires AllStorable(h) && OfOneAction(h, a) && Fold(h) == Some(entry) && ActionOf(e) == a
    ensures AllStorable(h + [e]) <==> Storable(e, Some(entry))
  {
    EventsOfOneAction(h, a, a);
    HistoryPush(h, e);
  }

  lemma NextIsFolded(h: History, entry: ActionJournalEntry, e: JournalEvent)
    requires Fold(h) == Some(entry)
    ensures Fold(h + [e]) == Some(RecordOn(entry, e))
  {
    HistoryPush(h, e);
  }

  /** The event passes every check on an action with this entry, and can be loaded. */
  predicate Fine(configured: Option<DeletionMethod>, entry: ActionJournalEntry, e: JournalEvent) {
    && ActionOf(e) == entry.plan.actionId && Bindable(e)
    && AdmittedOn(configured, entry, e) && ColumnsShow(entry, e) && Storable(e, Some(entry))
  }

  lemma Build(configured: Option<DeletionMethod>, h: History, a: ActionId, entry: ActionJournalEntry, e: JournalEvent)
    requires Built(configured, h, a, entry) && a == entry.plan.actionId && Fine(configured, entry, e)
    ensures Built(configured, h + [e], a, RecordOn(entry, e))
  {
    NextIsAccepted(configured, h, a, entry, e);
    NextIsStorable(h, a, entry, e);
    NextIsFolded(h, entry, e);
  }

  lemma StartIsFine(configured: Option<DeletionMethod>, plan: PlanRecord)
    requires Bindable(Planned(plan))
    ensures Fine(configured, NewEntry(plan), Started(plan.actionId))
  {
  }

  function StartedEntry(plan: PlanRecord): ActionJournalEntry {
    RecordOn(NewEntry(plan), Started(plan.actionId))
  }

  lemma BuildStarted(configured: Option<DeletionMethod>, plan: PlanRecord)
    requires Bindable(Planned(plan)) && Storable(Planned(plan), None)
    ensures Built(configured, [Planned(plan)] + [Started(plan.actionId)], plan.actionId, StartedEntry(plan))
  {
    BuildPlanned(configured, plan);
    StartIsFine(configured, plan);
    Build(configured, [Planned(plan)], plan.actionId, NewEntry(plan), Started(plan.actionId));
  }

  // ----- The removal to Trash -----

  /** What the Safe Delete executor knows when it removes a source item to Trash. */
  datatype Removal = Removal(
    plan: PlanRecord, observedAt: I64, destinationSize: U64, destinationSha256: Option<Digest>,
    target: Path, provenance: RecoveryProvenance)
  {
    /** The content of a regular file, or None for a symbolic link. */
    function Digest(): Option<Digest> {
      plan.preAction.sha256
    }

    /** The evidence of the transfer and of the proof boundary: both sides there, nothing removed yet. */
    function Both(): RecoveryEvidence {
      RecoveryEvidence(observedAt, None, true, true, false, Some(plan.preAction.size), Some(destinationSize),
                       Digest(), destinationSha256, None, None)
    }

    /** The evidence of the removal: the source gone, the recovered item with its proof, and where it came from. */
    function Gone(): RecoveryEvidence {
      RecoveryEvidence(observedAt, Some(target), false, true, true, None, Some(destinationSize), None,
                       destinationSha256,
                       if Digest().Some? then Some(RecoveryProof(plan.preAction.size, Digest())) else None,
                       Some(provenance))
    }

    function Transfer(): JournalEvent {
      TransferVerified(plan.actionId, Both(), true)
    }

    function Proof(): JournalEvent {
      ProofBoundary(plan.actionId, Trash, Both(), true)
    }

    function Start(): JournalEvent {
      RemovalStarted(plan.actionId, Trash)
    }

    function Completion(): JournalEvent {
      RemovalCompleted(plan.actionId, RemovalResult(Trash, Gone()))
    }

    function UpToProof(): History {
      [Planned(plan)] + [Started(plan.actionId)] + [Transfer()] + [Proof()]
    }

    /** The events the executor appends, in order. */
    function Journal(): History {
      UpToProof() + [Start()] + [Completion()]
    }

    /** A file with its digest or a symbolic link without one, of sizes and with identifiers that storage holds. Nothing
        is said of the destination but that it has a size and, for a file, a digest. */
    predicate Ordinary() {
      && plan.operation == RemoveSourceAfterVerification && Bindable(Planned(plan)) && Storable(Planned(plan), None)
      && plan.preAction.itemType in {RegularFile, Symlink}
      && (plan.preAction.itemType == RegularFile <==> Digest().Some?)
      && destinationSize < TWO_TO_THE_63 && (plan.preAction.itemType == RegularFile ==> destinationSha256.Some?)
      && provenance.runId < TWO_TO_THE_63 && IdentityBindable(provenance.identity)
    }
  }

  lemma TransferIsFine(r: Removal, entry: ActionJournalEntry)
    requires r.Ordinary() && entry.plan == r.plan && entry.lastPhase == StartedPhase
    ensures Fine(Some(Trash), entry, r.Transfer())
  {
  }

  lemma ProofIsFine(r: Removal, entry: ActionJournalEntry)
    requires r.Ordinary() && entry.plan == r.plan && entry.lastPhase == TransferVerifiedPhase
    ensures Fine(Some(Trash), entry, r.Proof())
  {
  }

  lemma StartOfRemovalIsFine(r: Removal, entry: ActionJournalEntry)
    requires r.Ordinary() && entry.plan == r.plan && entry.lastPhase == ProofBoundaryPhase
    ensures Fine(Some(Trash), entry, r.Start())
  {
  }

  lemma CompletionIsFine(r: Removal, entry: ActionJournalEntry)
    requires r.Ordinary() && entry.plan == r.plan && entry.lastPhase == RemovalStartedPhase
    requires entry.proofBoundary == Some(r.Both())
    ensures Fine(Some(Trash), entry, r.Completion())
  {
  }

  lemma BuildTransfer(r: Removal) returns (entry: ActionJournalEntry)
    requires r.Ordinary()
    ensures Built(Some(Trash), [Planned(r.plan)] + [Started(r.plan.actionId)] + [r.Transfer()], r.plan.actionId, entry)
    ensures entry.plan == r.plan && entry.lastPhase == TransferVerifiedPhase
  {
    BuildStarted(Some(Trash), r.plan);
    var started := StartedEntry(r.plan);
    TransferIsFine(r, started);
    Build(Some(Trash), [Planned(r.plan)] + [Started(r.plan.actionId)], r.plan.actionId, started, r.Transfer());
    entry := RecordOn(started, r.Transfer());
  }

  lemma BuildProof(r: Removal) returns (entry: ActionJournalEntry)
    requires r.Ordinary()
    ensures Built(Some(Trash), r.UpToProof(), r.plan.actionId, entry)
    ensures entry.plan == r.plan && entry.lastPhase == ProofBoundaryPhase && entry.proofBoundary == Some(r.Both())
  {
    var verified := BuildTransfer(r);
    ProofIsFine(r, verified);
    Build(Some(Trash), [Planned(r.plan)] + [Started(r.plan.actionId)] + [r.Transfer()], r.plan.actionId, verified,
    r.Proof());
    entry := RecordOn(verified, r.Proof());
  }

  lemma BuildStart(r: Removal) returns (entry: ActionJournalEntry)
    requires r.Ordinary()
    ensures Built(Some(Trash), r.UpToProof() + [r.Start()], r.plan.actionId, entry)
    ensures entry.plan == r.plan && entry.lastPhase == RemovalStartedPhase && entry.proofBoundary == Some(r.Both())
  {
    var proved := BuildProof(r);
    StartOfRemovalIsFine(r, proved);
    Build(Some(Trash), r.UpToProof(), r.plan.actionId, proved, r.Start());
    entry := RecordOn(proved, r.Start());
  }

  lemma BuildRemoval(r: Removal) returns (entry: ActionJournalEntry)
    requires r.Ordinary()
    ensures Built(Some(Trash), r.Journal(), r.plan.actionId, entry)
  {
    var removing := BuildStart(r);
    CompletionIsFine(r, removing);
    Build(Some(Trash), r.UpToProof() + [r.Start()], r.plan.actionId, removing, r.Completion());
    entry := RecordOn(removing, r.Completion());
  }

  lemma BuiltLoads(configured: Option<DeletionMethod>, h: History, a: ActionId, entry: ActionJournalEntry)
    requires Built(configured, h, a, entry)
    ensures Accepted(configured, h) && Load(Rows(h), configured).Ok?
    ensures EntryAt(Load(Rows(h), configured).value, a) == FoldReread(h)
    ensures FoldReread(Init(h)).Some? == Fold(Init(h)).Some?
    ensures RecordsHistory(Load(Rows(h), configured).value, h) <==> AllSurvive(h)
  {
    WriteReplayAgreement(configured, h);
    LoadedJournalExactly(configured, h);
    EventsOfOneAction(h, a, a);
    FoldsAlike(Init(h));
    assert EntryAt(Load(Rows(h), configured).value, a) == FoldReread(EventsOf(h, a));
  }

  /** What the executor records of a removal does not survive, when it recorded content or a link target. */
  lemma CompletionDoesNotSurvive(r: Removal)
    requires r.provenance.content.Some? || r.provenance.symlinkTarget.Some?
    ensures !Survives(r.Completion()) && !AllSurvive(r.Journal())
  {
    assert r.Journal()[|r.Journal()| - 1] == r.Completion();
  }

  lemma RemovalIsRead(r: Removal)
    requires FoldReread(Init(r.Journal())).Some?
    ensures FoldReread(r.Journal()).Some?
    ensures FoldReread(r.Journal()).value.removalResult ==
            Some(RemovalResult(Trash, Reloaded(r.Gone(), r.Completion())))
  {
    assert Last(r.Journal()) == r.Completion();
  }

  lemma BuiltBefore(r: Removal)
    requires r.Ordinary()
    ensures Fold(Init(r.Journal())).Some?
  {
    var removing := BuildStart(r);
    assert Init(r.Journal()) == r.UpToProof() + [r.Start()];
  }

  /** The ordinary removal to Trash is accepted and loads, and its provenance does not come back: the loaded entry has
      no content and no link target, whatever was recorded. */
  lemma TrashRemovalLosesProvenance(r: Removal)
    requires r.Ordinary() && (r.provenance.content.Some? || r.provenance.symlinkTarget.Some?)
    ensures Accepted(Some(Trash), r.Journal()) && Load(Rows(r.Journal()), Some(Trash)).Ok?
    ensures !RecordsHistory(Load(Rows(r.Journal()), Some(Trash)).value, r.Journal())
    ensures
      var entry := EntryAt(Load(Rows(r.Journal()), Some(Trash)).value, r.plan.actionId);
      && entry.Some? && entry.value.removalResult.Some? && entry.value.removalResult.value.evidence.provenance.Some?
      && entry.value.removalResult.value.evidence.provenance.value.content == None
      && entry.value.removalResult.value.evidence.provenance.value.symlinkTarget == None
  {
    var said := BuildRemoval(r);
    BuiltLoads(Some(Trash), r.Journal(), r.plan.actionId, said);
    BuiltBefore(r);
    CompletionDoesNotSurvive(r);
    RemovalIsRead(r);
  }

  lemma JournalIsChain(r: Removal)
    requires r.Ordinary() && Shaped(Some(Trash), r.Journal())
    ensures Removed(Some(Trash), r.Journal())
    ensures r.Journal()[0] == Planned(r.plan) && r.Journal()[|r.Journal()| - 3] == r.Proof()
  {
    assert Last(r.Journal()) == r.Completion();
  }

  /** Whatever is at the destination, the removal of the source is accepted, loads, and shows Completed; it shows the
      planned content at the destination exactly when that is what is there. */
  lemma RemovalOverAnyContent(r: Removal)
    requires r.Ordinary()
    ensures Accepted(Some(Trash), r.Journal()) && Load(Rows(r.Journal()), Some(Trash)).Ok?
    ensures
      var entry := EntryAt(Load(Rows(r.Journal()), Some(Trash)).value, r.plan.actionId);
      && entry.Some? && entry.value.plan == r.plan && entry.value.outcome == CompletedOutcome
      && entry.value.removalResult.Some? && !entry.value.removalResult.value.evidence.sourcePresent
      && (HasPlannedContent(r.plan, entry.value.removalResult.value.evidence) <==>
          r.destinationSize == r.plan.preAction.size && r.destinationSha256 == r.plan.preAction.sha256)
  {
    var a := r.plan.actionId;
    var said := BuildRemoval(r);
    BuiltLoads(Some(Trash), r.Journal(), a, said);
    EventsOfOneAction(r.Journal(), a, a);
    AcceptedPerAction(Some(Trash), r.Journal(), a);
    AcceptedIsShaped(Some(Trash), a, r.Journal());
    JournalIsChain(r);
    CompletedRemovalIsProven(Some(Trash), a, r.Journal());
    EntryOfEvents(Some(Trash), a, r.Journal());
    RemovedEndsInRemoval(Some(Trash), r.Journal());
    RemovedEntry(Some(Trash), a, r.Journal());
    FoldsAlike(r.Journal());
  }

  // ----- Journals that cannot be loaded -----

  lemma LoadsExactly(configured: Option<DeletionMethod>, h: History, a: ActionId, entry: ActionJournalEntry,
                     e: JournalEvent)
    requires Built(configured, h, a, entry) && ActionOf(e) == a
    requires AdmittedOn(configured, entry, e) && ColumnsShow(entry, e) && Bindable(e)
    ensures Accepted(configured, h + [e])
    ensures Load(Rows(h), configured).Ok?
    ensures Load(Rows(h + [e]), configured).Ok? <==> Storable(e, Some(entry))
  {
    NextIsAccepted(configured, h, a, entry, e);
    NextIsStorable(h, a, entry, e);
    WriteReplayAgreement(configured, h);
    WriteReplayAgreement(configured, h + [e]);
  }

  lemma ReviewIsAdmitted(plan: PlanRecord, e: JournalEvent)
    requires e.RecoveryReview? && e.actionId == plan.actionId
    ensures AdmittedOn(None, StartedEntry(plan), e) && ColumnsShow(StartedEntry(plan), e)
  {
  }

  /** The review can be bound, and cannot be read back. */
  lemma ReviewIsUnreadable(plan: PlanRecord, reason: ActionReason, evidence: RecoveryEvidence)
    requires Bindable(Planned(plan))
    requires evidence.provenance.Some? && IdentityBindable(evidence.provenance.value.identity)
    requires evidence.sourceSize.Some? && evidence.sourceSha256.None?
    ensures
      var e := RecoveryReview(plan.actionId, reason, evidence);
      Bindable(e) && !Storable(e, Some(StartedEntry(plan)))
  {
  }

  /** A recovery review whose evidence has provenance and a source size, but no digest for it, is accepted; the journal
      that loaded before does not load any more. */
  lemma SizeWithoutDigestIsUnreadable(plan: PlanRecord, reason: ActionReason, evidence: RecoveryEvidence)
    requires Bindable(Planned(plan)) && Storable(Planned(plan), None)
    requires evidence.provenance.Some? && IdentityBindable(evidence.provenance.value.identity)
    requires evidence.sourceSize.Some? && evidence.sourceSha256.None?
    ensures
      var h := [Planned(plan)] + [Started(plan.actionId)];
      var after := h + [RecoveryReview(plan.actionId, reason, evidence)];
      && Accepted(None, after)
      && Load(Rows(h), None).Ok? && Load(Rows(after), None).Err?
  {
    var e := RecoveryReview(plan.actionId, reason, evidence);
    BuildStarted(None, plan);
    ReviewIsAdmitted(plan, e);
    ReviewIsUnreadable(plan, reason, evidence);
    LoadsExactly(None, [Planned(plan)] + [Started(plan.actionId)], plan.actionId, StartedEntry(plan), e);
  }
}
