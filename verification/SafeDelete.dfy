/** What a journal guarantees before and after a source item is removed. */
module SafeDelete {
  import opened Common
  import opened EvidenceTypes
  import opened EvidenceAppend
  import opened EvidenceReplay
  import opened EvidenceAgreement
  import opened EvidenceJournal

  /** Planned, started, then any number of progress events. */
  predicate Running(es: History) {
    && |es| >= 2
    && es[0].Planned?
    && es[1].Started?
    && forall i :: 2 <= i < |es| ==> es[i].Progress?
  }

  /** A run whose source was read back as the frozen plan has it, with something of known content at the destination. */
  predicate Verified(es: History) {
    && |es| >= 3
    && Running(Init(es))
    && Last(es).TransferVerified?
    && Last(es).metadataVerified
    && CompleteProof(Last(es).evidence, es[0].plan.preAction.itemType == RegularFile)
    && Last(es).evidence.sourceSize == Some(es[0].plan.preAction.size)
    && Last(es).evidence.sourceSha256 == es[0].plan.preAction.sha256
  }

  /** A verified transfer followed by a second look at both sides. */
  predicate Proved(configured: Option<DeletionMethod>, es: History) {
    && |es| >= 4
    && Verified(Init(es))
    && Last(es).ProofBoundary?
    && Last(es).metadataVerified
    && CompleteProof(Last(es).evidence, es[0].plan.preAction.itemType == RegularFile)
    && es[0].plan.operation == RemoveSourceAfterVerification
    && configured == Some(Last(es).deletionMethod)
  }

  predicate Removing(configured: Option<DeletionMethod>, es: History) {
    && |es| >= 5
    && Proved(configured, Init(es))
    && Last(es).RemovalStarted?
    && configured == Some(Last(es).deletionMethod)
  }

  /** The whole chain: the source is recorded absent and the destination is the one of the proof boundary. */
  predicate Removed(configured: Option<DeletionMethod>, es: History) {
    && |es| >= 6
    && Removing(configured, Init(es))
    && Last(es).RemovalCompleted?
    && configured == Some(Last(es).result.deletionMethod)
    && var proof, evidence := es[|es| - 3].evidence, Last(es).result.evidence;
       && !evidence.sourcePresent
       && evidence.destinationPresent
       && evidence.destinationSize == proof.destinationSize
       && evidence.destinationSha256 == proof.destinationSha256
       && ValidRecovery(Last(es).result.deletionMethod, evidence)
  }

  /** What the events of an action look like, by the last of them. */
  predicate Shaped(configured: Option<DeletionMethod>, es: History)
    requires es != []
  {
    && (Last(es).Planned? <==> |es| == 1)
    && es[0].Planned?
    && (Last(es).Started? || Last(es).Progress? ==> Running(es))
    && (Last(es).TransferVerified? ==> Verified(es))
    && (Last(es).ProofBoundary? ==> Proved(configured, es))
    && (Last(es).RemovalStarted? ==> Removing(configured, es))
    && (Last(es).RemovalCompleted? ==> Removed(configured, es))
  }

  /** The first event plans the action, and no other does. */
  predicate PlannedFirst(es: History) {
    es == [] || (PlannedFirst(Init(es)) && (Last(es).Planned? <==> |es| == 1))
  }

  lemma {:induction false} AcceptedIsPlannedFirst(configured: Option<DeletionMethod>, a: ActionId, es: History)
    requires AcceptedAlone(configured, a, es)
    ensures PlannedFirst(es)
  {
    if es != [] {
      AcceptedIsPlannedFirst(configured, a, Init(es));
      EncodeMirrors(configured, a, Init(es));
      AdmissionSeenOnEntry(configured, Encode(Init(es)), Fold(Init(es)), Last(es));
    }
  }

  lemma {:induction false} EntryOfPlanned(es: History)
    requires PlannedFirst(es) && es != []
    ensures Fold(es).Some? && Fold(es).value.lastPhase == PhaseOf(Last(es))
    ensures es[0].Planned? && Fold(es).value.plan == es[0].plan
    ensures Last(es).ProofBoundary? ==>
      Fold(es).value.proofBoundary == Some(Last(es).evidence)
    ensures Last(es).RemovalStarted? && |es| > 1 && es[|es| - 2].ProofBoundary? ==>
      Fold(es).value.proofBoundary == Some(es[|es| - 2].evidence)
  {
    if |es| > 1 {
      EntryOfPlanned(Init(es));
      assert Last(Init(es)) == es[|es| - 2];
    }
  }

  /** The entry of an action agrees with its events on the plan, the phase and the latest proof. */
  lemma EntryOfEvents(configured: Option<DeletionMethod>, a: ActionId, es: History)
    requires AcceptedAlone(configured, a, es) && es != []
    ensures Fold(es).Some? && Fold(es).value.lastPhase == PhaseOf(Last(es))
    ensures es[0].Planned? && Fold(es).value.plan == es[0].plan
    ensures Last(es).ProofBoundary? ==>
      Fold(es).value.proofBoundary == Some(Last(es).evidence)
    ensures Last(es).RemovalStarted? && |es| > 1 && es[|es| - 2].ProofBoundary? ==>
      Fold(es).value.proofBoundary == Some(es[|es| - 2].evidence)
  {
    AcceptedIsPlannedFirst(configured, a, es);
    EntryOfPlanned(es);
  }

  /** Every event but the first was admitted against the entry of the events before it. */
  lemma LastWasAdmitted(configured: Option<DeletionMethod>, a: ActionId, es: History)
    requires AcceptedAlone(configured, a, es) && |es| > 1
    ensures Fold(Init(es)).Some? && AdmittedOn(configured, Fold(Init(es)).value, Last(es))
    ensures Fold(es) == Some(RecordOn(Fold(Init(es)).value, Last(es)))
    ensures es[0].Planned? && Fold(Init(es)).value.plan == es[0].plan
    ensures Fold(Init(es)).value.lastPhase == PhaseOf(es[|es| - 2])
  {
    var before := Init(es);
    EncodeMirrors(configured, a, before);
    AdmissionSeenOnEntry(configured, Encode(before), Fold(before), Last(es));
    EntryOfEvents(configured, a, before);
    assert Last(before) == es[|es| - 2];
  }

  lemma EarlyEventKeepsShape(configured: Option<DeletionMethod>, entry: ActionJournalEntry, es: History)
    requires |es| > 1 && Shaped(configured, Init(es))
    requires AdmittedOn(configured, entry, Last(es))
    requires entry.plan == es[0].plan && entry.lastPhase == PhaseOf(es[|es| - 2])
    ensures !Last(es).Planned?
    ensures Last(es).Started? || Last(es).Progress? ==> Running(es)
    ensures Last(es).TransferVerified? ==> Verified(es)
  {
    assert Last(Init(es)) == es[|es| - 2] && Init(es)[0] == es[0];
  }

  lemma RemovalEventKeepsShape(configured: Option<DeletionMethod>, entry: ActionJournalEntry, es: History)
    requires |es| > 1 && Shaped(configured, Init(es))
    requires AdmittedOn(configured, entry, Last(es))
    requires entry.plan == es[0].plan && entry.lastPhase == PhaseOf(es[|es| - 2])
    ensures Last(es).ProofBoundary? ==> Proved(configured, es)
    ensures Last(es).RemovalStarted? ==> Removing(configured, es)
    ensures Last(es).RemovalCompleted? && |es| > 2 && es[|es| - 3].ProofBoundary?
            && entry.proofBoundary == Some(es[|es| - 3].evidence) ==>
      Removed(configured, es)
  {
    assert Last(Init(es)) == es[|es| - 2] && Init(es)[0] == es[0];
  }

  lemma EventKeepsShape(configured: Option<DeletionMethod>, entry: ActionJournalEntry, es: History)
    requires |es| > 1 && Shaped(configured, Init(es))
    requires AdmittedOn(configured, entry, Last(es))
    requires entry.plan == es[0].plan && entry.lastPhase == PhaseOf(es[|es| - 2])
    requires |es| > 2 && es[|es| - 2].RemovalStarted? && es[|es| - 3].ProofBoundary? ==>
      entry.proofBoundary == Some(es[|es| - 3].evidence)
    ensures Shaped(configured, es)
  {
    EarlyEventKeepsShape(configured, entry, es);
    if Last(es).RemovalCompleted? {
      RemovalFollowsStart(configured, entry, es);
    }
    RemovalEventKeepsShape(configured, entry, es);
  }

  lemma RemovalFollowsStart(configured: Option<DeletionMethod>, entry: ActionJournalEntry, es: History)
    requires |es| > 1 && Shaped(configured, Init(es)) && Last(es).RemovalCompleted?
    requires AdmittedOn(configured, entry, Last(es)) && entry.lastPhase == PhaseOf(es[|es| - 2])
    ensures |es| > 2 && es[|es| - 2].RemovalStarted? && es[|es| - 3].ProofBoundary?
  {
    AdmittedFollows(configured, entry, Last(es));
    var before := Init(es);
    assert Last(before) == es[|es| - 2];
    assert Removing(configured, before);
    assert Last(Init(before)) == es[|es| - 3];
  }

  lemma {:induction false} AcceptedIsShaped(configured: Option<DeletionMethod>, a: ActionId, es: History)
    requires AcceptedAlone(configured, a, es) && es != []
    ensures Shaped(configured, es)
  {
    if |es| == 1 {
      EntryOfEvents(configured, a, es);
    } else {
      AcceptedIsShaped(configured, a, Init(es));
      LastWasAdmitted(configured, a, es);
      EntryOfEvents(configured, a, Init(es));
      EventKeepsShape(configured, Fold(Init(es)).value, es);
    }
  }

  lemma OutcomeStep(configured: Option<DeletionMethod>, entry: ActionJournalEntry, e: JournalEvent)
    requires AdmittedOn(configured, entry, e)
    requires entry.outcome == CompletedOutcome ==> IsSettledPhase(entry.lastPhase)
    ensures entry.outcome != CompletedOutcome
    ensures RecordOn(entry, e).outcome == CompletedOutcome ==> IsSettledPhase(PhaseOf(e))
  {
    AdmittedFollows(configured, entry, e);
    TransitionFacts(e, entry.lastPhase);
  }

  /** Before its last event an action that removes its source is not completed. */
  lemma {:induction false} OutcomeStaysOpen(configured: Option<DeletionMethod>, a: ActionId, es: History)
    requires AcceptedAlone(configured, a, es) && es != []
    ensures Fold(es).Some?
    ensures Fold(es).value.outcome == CompletedOutcome ==> IsSettledPhase(PhaseOf(Last(es)))
  {
    EntryOfEvents(configured, a, es);
    if |es| > 1 {
      OutcomeStaysOpen(configured, a, Init(es));
      LastWasAdmitted(configured, a, es);
      OutcomeStep(configured, Fold(Init(es)).value, Last(es));
    }
  }

  lemma RemovalOutcome(configured: Option<DeletionMethod>, entry: ActionJournalEntry, es: History)
    requires |es| > 1 && Shaped(configured, es) && AdmittedOn(configured, entry, Last(es))
    requires entry.plan.operation == RemoveSourceAfterVerification && entry.outcome != CompletedOutcome
    ensures RecordOn(entry, Last(es)).outcome == CompletedOutcome <==> Removed(configured, es)
  {
  }

  /** An action that removes its source is completed exactly by the full chain. */
  lemma CompletedRemovalIsProven(configured: Option<DeletionMethod>, a: ActionId, es: History)
    requires AcceptedAlone(configured, a, es) && es != []
    requires es[0].Planned? ==> es[0].plan.operation == RemoveSourceAfterVerification
    ensures Fold(es).Some?
    ensures Fold(es).value.outcome == CompletedOutcome <==> Removed(configured, es)
  {
    EntryOfEvents(configured, a, es);
    AcceptedIsShaped(configured, a, es);
    if |es| > 1 {
      LastWasAdmitted(configured, a, es);
      OutcomeStaysOpen(configured, a, Init(es));
      OutcomeStep(configured, Fold(Init(es)).value, Last(es));
      RemovalOutcome(configured, Fold(Init(es)).value, es);
    }
  }

  lemma {:induction false} PrefixOfAction(configured: Option<DeletionMethod>, a: ActionId, es: History, prefix: History)
    requires AcceptedAlone(configured, a, es) && prefix <= es
    ensures AcceptedAlone(configured, a, prefix)
  {
    if prefix != es {
      PrefixOfInit(es, prefix);
      PrefixOfAction(configured, a, Init(es), prefix);
    }
  }

  lemma PrefixIsShaped(configured: Option<DeletionMethod>, a: ActionId, es: History, prefix: History)
    requires AcceptedAlone(configured, a, es) && prefix <= es && prefix != []
    ensures Shaped(configured, prefix)
  {
    PrefixOfAction(configured, a, es, prefix);
    AcceptedIsShaped(configured, a, prefix);
  }

  lemma ProofComesBefore(configured: Option<DeletionMethod>, upTo: History)
    requires upTo != [] && Shaped(configured, upTo)
    requires Last(upTo).RemovalStarted? || Last(upTo).RemovalCompleted?
    ensures |upTo| >= 5 && upTo[0].Planned? && upTo[0].plan.operation == RemoveSourceAfterVerification
    ensures Last(upTo).RemovalStarted? ==> Proved(configured, upTo[..|upTo| - 1])
    ensures Last(upTo).RemovalCompleted? ==> |upTo| >= 6 && Proved(configured, upTo[..|upTo| - 2])
  {
    if Last(upTo).RemovalCompleted? {
      assert Init(Init(upTo)) == upTo[..|upTo| - 2];
    }
  }

  /** Write-ahead order: when a removal starts or completes, a verified transfer and its proof boundary are recorded. */
  lemma RemovalFollowsProof(configured: Option<DeletionMethod>, a: ActionId, es: History, i: nat)
    requires AcceptedAlone(configured, a, es)
    requires i < |es| && (es[i].RemovalStarted? || es[i].RemovalCompleted?)
    ensures es[0].Planned? && es[0].plan.operation == RemoveSourceAfterVerification
    ensures exists k :: 0 < k <= i && Proved(configured, es[..k])
  {
    PrefixIsShaped(configured, a, es, es[..i + 1]);
    ShapedFollowsProof(configured, es, i);
  }

  lemma ShapedFollowsProof(configured: Option<DeletionMethod>, es: History, i: nat)
    requires i < |es| && (es[i].RemovalStarted? || es[i].RemovalCompleted?) && Shaped(configured, es[..i + 1])
    ensures es[0].Planned? && es[0].plan.operation == RemoveSourceAfterVerification
    ensures exists k :: 0 < k <= i && Proved(configured, es[..k])
  {
    var upTo := es[..i + 1];
    ProofComesBefore(configured, upTo);
    assert upTo[..i] == es[..i] && upTo[..i - 1] == es[..i - 1];
    assert es[i].RemovalStarted? ==> Proved(configured, es[..i]);
    assert es[i].RemovalCompleted? ==> Proved(configured, es[..i - 1]);
  }

  /** A loaded entry is what the events of its action say, but for provenance. */
  lemma LoadedEntry(configured: Option<DeletionMethod>, h: History, a: ActionId)
    requires Accepted(configured, h) && Load(Rows(h), configured).Ok?
    requires a in Load(Rows(h), configured).value
    ensures EventsOf(h, a) != [] && AcceptedAlone(configured, a, EventsOf(h, a))
    ensures AlikeIfAny(Fold(EventsOf(h, a)), Some(Load(Rows(h), configured).value[a]))
  {
    WriteReplayAgreement(configured, h);
    AcceptedPerAction(configured, h, a);
    assert EntryAt(Load(Rows(h), configured).value, a) == FoldReread(EventsOf(h, a));
    FoldsAlike(EventsOf(h, a));
  }

  /** Safe Delete over whole journals: a loaded source removal shows Completed exactly when its events form
      the chain, and no source removal starts before its transfer was verified and proved. */
  lemma SafeDeleteChain(configured: Option<DeletionMethod>, h: History, a: ActionId)
    requires Accepted(configured, h) && Load(Rows(h), configured).Ok?
    requires a in Load(Rows(h), configured).value
    ensures
      var entry, es := Load(Rows(h), configured).value[a], EventsOf(h, a);
      && (entry.plan.operation == RemoveSourceAfterVerification ==>
            (entry.outcome == CompletedOutcome <==> Removed(configured, es)))
      && (forall i :: 0 <= i < |es| && (es[i].RemovalStarted? || es[i].RemovalCompleted?) ==>
            && entry.plan.operation == RemoveSourceAfterVerification
            && exists k :: 0 < k <= i && Proved(configured, es[..k]))
  {
    LoadedEntry(configured, h, a);
    ActionChain(configured, a, EventsOf(h, a), Fold(EventsOf(h, a)).value);
  }

  /** The destination has the size and digest the plan froze for the source. */
  predicate HasPlannedContent(plan: PlanRecord, evidence: RecoveryEvidence) {
    && evidence.destinationSize == Some(plan.preAction.size)
    && evidence.destinationSha256 == plan.preAction.sha256
  }

  /** The destination of the removal is that of the proof boundary, so it has the planned content exactly when the proof
      boundary showed it. */
  predicate ShowsProof(entry: ActionJournalEntry) {
    && entry.removalResult.Some? && entry.proofBoundary.Some?
    && entry.removalResult.value.evidence.destinationSize == entry.proofBoundary.value.destinationSize
    && entry.removalResult.value.evidence.destinationSha256 == entry.proofBoundary.value.destinationSha256
    && (HasPlannedContent(entry.plan, entry.removalResult.value.evidence) <==>
        HasPlannedContent(entry.plan, entry.proofBoundary.value))
  }

  lemma AlikeShowsProof(said: ActionJournalEntry, read: ActionJournalEntry)
    requires Alike(said, read) && ShowsProof(said)
    ensures ShowsProof(read)
  {
  }

  /** The last three events of the chain. */
  predicate EndsInRemoval(es: History) {
    && |es| >= 3
    && es[|es| - 3].ProofBoundary? && es[|es| - 2].RemovalStarted? && Last(es).RemovalCompleted?
    && Last(es).result.evidence.destinationSize == es[|es| - 3].evidence.destinationSize
    && Last(es).result.evidence.destinationSha256 == es[|es| - 3].evidence.destinationSha256
  }

  lemma RemovedEndsInRemoval(configured: Option<DeletionMethod>, es: History)
    requires Removed(configured, es)
    ensures EndsInRemoval(es)
  {
    assert Last(Init(es)) == es[|es| - 2] && Last(Init(Init(es))) == es[|es| - 3];
  }

  lemma RemovalRecorded(entry: ActionJournalEntry, es: History)
    requires EndsInRemoval(es) && entry.proofBoundary == Some(es[|es| - 3].evidence)
    ensures ShowsProof(RecordOn(entry, Last(es)))
    ensures RecordOn(entry, Last(es)).removalResult == Some(Last(es).result)
  {
  }

  lemma RemovedEntry(configured: Option<DeletionMethod>, a: ActionId, es: History)
    requires AcceptedAlone(configured, a, es) && EndsInRemoval(es)
    ensures Fold(es).Some? && ShowsProof(Fold(es).value)
    ensures Fold(es).value.removalResult == Some(Last(es).result)
  {
    LastWasAdmitted(configured, a, es);
    EntryOfEvents(configured, a, Init(es));
    RemovalRecorded(Fold(Init(es)).value, es);
  }

  lemma CompletedShowsProof(configured: Option<DeletionMethod>, a: ActionId, es: History, read: ActionJournalEntry)
    requires AcceptedAlone(configured, a, es) && es != [] && Fold(es).Some? && Alike(Fold(es).value, read)
    requires read.plan.operation == RemoveSourceAfterVerification && read.outcome == CompletedOutcome
    ensures ShowsProof(read)
  {
    EntryOfEvents(configured, a, es);
    CompletedRemovalIsProven(configured, a, es);
    RemovedEndsInRemoval(configured, es);
    RemovedEntry(configured, a, es);
    AlikeShowsProof(Fold(es).value, read);
  }

  /** What a loaded, completed source removal says of the content: the journal compares the destination with the plan
      nowhere, so it holds the planned content exactly when its proof boundary showed that. */
  lemma PlannedContentExactly(configured: Option<DeletionMethod>, h: History, a: ActionId)
    requires Accepted(configured, h) && Load(Rows(h), configured).Ok?
    requires a in Load(Rows(h), configured).value
    requires Load(Rows(h), configured).value[a].plan.operation == RemoveSourceAfterVerification
    requires Load(Rows(h), configured).value[a].outcome == CompletedOutcome
    ensures ShowsProof(Load(Rows(h), configured).value[a])
  {
    LoadedEntry(configured, h, a);
    CompletedShowsProof(configured, a, EventsOf(h, a), Load(Rows(h), configured).value[a]);
  }

  lemma ActionChain(configured: Option<DeletionMethod>, a: ActionId, es: History, entry: ActionJournalEntry)
    requires AcceptedAlone(configured, a, es) && es != [] && Fold(es) == Some(entry)
    ensures entry.plan.operation == RemoveSourceAfterVerification ==>
              (entry.outcome == CompletedOutcome <==> Removed(configured, es))
    ensures forall i :: 0 <= i < |es| && (es[i].RemovalStarted? || es[i].RemovalCompleted?) ==>
              && entry.plan.operation == RemoveSourceAfterVerification
              && exists k :: 0 < k <= i && Proved(configured, es[..k])
  {
    EntryOfEvents(configured, a, es);
    if entry.plan.operation == RemoveSourceAfterVerification {
      CompletedRemovalIsProven(configured, a, es);
    }
    forall i | 0 <= i < |es| && (es[i].RemovalStarted? || es[i].RemovalCompleted?)
      ensures entry.plan.operation == RemoveSourceAfterVerification
      ensures exists k :: 0 < k <= i && Proved(configured, es[..k])
    {
      RemovalFollowsProof(configured, a, es, i);
    }
  }
}
