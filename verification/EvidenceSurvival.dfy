/** Which events read back as they were written: exactly when a loaded journal says what was recorded. */
module EvidenceSurvival {
  import opened Common
  import opened EvidenceTypes
  import opened EvidenceReplay
  import opened EvidenceAgreement
  import opened EvidenceJournal

  /** A check a caller can make before the append: the event carries no provenance, or one that holds nothing but what
      replay rebuilds from the row. */
  predicate Survives(e: JournalEvent) {
    EvidenceOf(e).Some? && EvidenceOf(e).value.provenance.Some? ==>
      var p := EvidenceOf(e).value.provenance.value;
      && p.actionId == Some(ActionOf(e))
      && p.deletionMethod == MethodRead(e)
      && p.verification == VerificationRead(e)
      && p.content == ContentRead(EvidenceOf(e).value)
      && p.symlinkTarget == None
  }

  /** An event survives storage exactly when it meets the check. */
  lemma SurvivesExactly(e: JournalEvent)
    ensures Survives(e) <==> Reread(e) == e
    ensures EvidenceOf(e).Some? ==> (Survives(e) <==> Reloaded(EvidenceOf(e).value, e) == EvidenceOf(e).value)
  {
  }

  predicate AllSurvive(es: History) {
    forall i :: 0 <= i < |es| ==> Survives(es[i])
  }

  // ----- One event -----

  predicate SlotIsFree(entry: ActionJournalEntry, e: JournalEvent) {
    && (e.TransferVerified? ==> entry.transferEvidence.None?)
    && (e.ProofBoundary? ==> entry.proofBoundary.None?)
    && (e.RemovalCompleted? ==> entry.removalResult.None?)
    && (e.RecoveryReview? ==> entry.recoveryEvidence.None?)
    && (e.RecoveryResolved? ==> entry.resolutionEvidence.None?)
  }

  /** Each kind of evidence is recorded once: no admitted event writes over an earlier one. */
  lemma EvidenceIsWrittenOnce(configured: Option<DeletionMethod>, entry: ActionJournalEntry, e: JournalEvent)
    requires Staged(entry) && AdmittedOn(configured, entry, e)
    ensures !e.Planned? && SlotIsFree(entry, e)
  {
    AdmittedFollows(configured, entry, e);
  }

  lemma PlainStep(said: ActionJournalEntry, read: ActionJournalEntry, e: JournalEvent)
    requires Alike(said, read) && !e.Planned? && EvidenceOf(e).None?
    ensures RecordOn(read, e) == RecordOn(said, e) <==> read == said
  {
    if e.Progress? {
      assert said.progressBytes == read.progressBytes;
    }
  }

  lemma TransferStep(said: ActionJournalEntry, read: ActionJournalEntry, e: JournalEvent)
    requires Alike(said, read) && e.TransferVerified? && SlotIsFree(said, e)
    ensures RecordOn(read, Reread(e)) == RecordOn(said, e) <==> read == said && Survives(e)
  {
    SurvivesExactly(e);
  }

  lemma ProofStep(said: ActionJournalEntry, read: ActionJournalEntry, e: JournalEvent)
    requires Alike(said, read) && e.ProofBoundary? && SlotIsFree(said, e)
    ensures RecordOn(read, Reread(e)) == RecordOn(said, e) <==> read == said && Survives(e)
  {
    SurvivesExactly(e);
  }

  lemma RemovalStep(said: ActionJournalEntry, read: ActionJournalEntry, e: JournalEvent)
    requires Alike(said, read) && e.RemovalCompleted? && SlotIsFree(said, e)
    ensures RecordOn(read, Reread(e)) == RecordOn(said, e) <==> read == said && Survives(e)
  {
    SurvivesExactly(e);
  }

  lemma ReviewStep(said: ActionJournalEntry, read: ActionJournalEntry, e: JournalEvent)
    requires Alike(said, read) && e.RecoveryReview? && SlotIsFree(said, e)
    ensures RecordOn(read, Reread(e)) == RecordOn(said, e) <==> read == said && Survives(e)
  {
    SurvivesExactly(e);
  }

  lemma ResolutionStep(said: ActionJournalEntry, read: ActionJournalEntry, e: JournalEvent)
    requires Alike(said, read) && e.RecoveryResolved? && EvidenceOf(e).Some? && SlotIsFree(said, e)
    ensures RecordOn(read, Reread(e)) == RecordOn(said, e) <==> read == said && Survives(e)
  {
    SurvivesExactly(e);
  }

  lemma EventStep(said: ActionJournalEntry, read: ActionJournalEntry, e: JournalEvent)
    requires Alike(said, read) && !e.Planned? && SlotIsFree(said, e)
    ensures RecordOn(read, Reread(e)) == RecordOn(said, e) <==> read == said && Survives(e)
  {
    if EvidenceOf(e).None? {
      PlainStep(said, read, e);
    } else if e.TransferVerified? {
      TransferStep(said, read, e);
    } else if e.ProofBoundary? {
      ProofStep(said, read, e);
    } else if e.RemovalCompleted? {
      RemovalStep(said, read, e);
    } else if e.RecoveryReview? {
      ReviewStep(said, read, e);
    } else {
      ResolutionStep(said, read, e);
    }
  }

  // ----- One action -----

  lemma SurvivePush(es: History)
    requires es != []
    ensures AllSurvive(es) <==> AllSurvive(Init(es)) && Survives(Last(es))
  {
    assert forall i :: 0 <= i < |es| - 1 ==> Init(es)[i] == es[i];
    assert es[|es| - 1] == Last(es);
  }

  lemma LastStep(configured: Option<DeletionMethod>, a: ActionId, es: History)
    requires AcceptedAlone(configured, a, es) && es != []
    ensures FoldReread(es) == Fold(es) <==> FoldReread(Init(es)) == Fold(Init(es)) && Survives(Last(es))
  {
    var before, e := Init(es), Last(es);
    EncodeMirrors(configured, a, before);
    AdmissionSeenOnEntry(configured, Encode(before), Fold(before), e);
    FoldsAlike(before);
    if Fold(before).Some? {
      EvidenceIsWrittenOnce(configured, Fold(before).value, e);
      EventStep(Fold(before).value, FoldReread(before).value, e);
    }
  }

  /** The entry of an accepted action reads back as its events say exactly when all of them survive. */
  lemma {:induction false} ActionSurvivesExactly(configured: Option<DeletionMethod>, a: ActionId, es: History)
    requires AcceptedAlone(configured, a, es)
    ensures FoldReread(es) == Fold(es) <==> AllSurvive(es)
  {
    if es != [] {
      ActionSurvivesExactly(configured, a, Init(es));
      LastStep(configured, a, es);
      SurvivePush(es);
    }
  }

  // ----- The whole journal -----

  lemma {:induction false} EventsOfSurvive(h: History, a: ActionId)
    requires AllSurvive(h)
    ensures AllSurvive(EventsOf(h, a))
  {
    if h != [] {
      SurvivePush(h);
      EventsOfSurvive(Init(h), a);
    }
  }

  lemma {:induction false} EventIsOfItsAction(h: History, i: nat)
    requires i < |h|
    ensures h[i] in EventsOf(h, ActionOf(h[i]))
  {
    if i < |h| - 1 {
      assert Init(h)[i] == h[i];
      EventIsOfItsAction(Init(h), i);
    }
  }

  ghost predicate EveryActionSurvives(h: History) {
    forall a: ActionId :: AllSurvive(EventsOf(h, a))
  }

  lemma SurvivePerAction(h: History)
    ensures AllSurvive(h) <==> EveryActionSurvives(h)
  {
    if AllSurvive(h) {
      forall a: ActionId ensures AllSurvive(EventsOf(h, a)) { EventsOfSurvive(h, a); }
    }
    if EveryActionSurvives(h) {
      forall i | 0 <= i < |h| ensures Survives(h[i]) {
        EventIsOfItsAction(h, i);
        var es := EventsOf(h, ActionOf(h[i]));
        assert AllSurvive(es);
        var k :| 0 <= k < |es| && es[k] == h[i];
      }
    }
  }

  /** A loaded entry is the fold of its action's events, as they were recorded, exactly when all of them survive. */
  lemma LoadedEntryExactly(configured: Option<DeletionMethod>, h: History, a: ActionId)
    requires Accepted(configured, h) && AllStorable(h)
    ensures Load(Rows(h), configured).Ok?
    ensures EntryAt(Load(Rows(h), configured).value, a) == Fold(EventsOf(h, a)) <==> AllSurvive(EventsOf(h, a))
  {
    WriteReplayAgreement(configured, h);
    AcceptedPerAction(configured, h, a);
    ActionSurvivesExactly(configured, a, EventsOf(h, a));
    assert EntryAt(Load(Rows(h), configured).value, a) == FoldReread(EventsOf(h, a));
  }

  lemma EntriesSurvive(entries: Entries, h: History)
    requires forall a: ActionId :: EntryAt(entries, a) == Fold(EventsOf(h, a)) <==> AllSurvive(EventsOf(h, a))
    ensures RecordsHistory(entries, h) <==> EveryActionSurvives(h)
  {
    if RecordsHistory(entries, h) {
      forall a: ActionId ensures AllSurvive(EventsOf(h, a)) {
        assert EntryAt(entries, a) == Fold(EventsOf(h, a));
      }
    }
    if EveryActionSurvives(h) {
      forall a: ActionId ensures EntryAt(entries, a) == Fold(EventsOf(h, a)) {
        assert AllSurvive(EventsOf(h, a));
      }
    }
  }

  /** A loaded journal says what was recorded exactly when every event survives; without provenance every event does. */
  lemma LoadedJournalExactly(configured: Option<DeletionMethod>, h: History)
    requires Accepted(configured, h) && AllStorable(h)
    ensures Load(Rows(h), configured).Ok?
    ensures RecordsHistory(Load(Rows(h), configured).value, h) <==> AllSurvive(h)
  {
    WriteReplayAgreement(configured, h);
    forall a: ActionId
      ensures EntryAt(Load(Rows(h), configured).value, a) == Fold(EventsOf(h, a)) <==> AllSurvive(EventsOf(h, a))
    {
      LoadedEntryExactly(configured, h, a);
    }
    EntriesSurvive(Load(Rows(h), configured).value, h);
    SurvivePerAction(h);
  }
}
