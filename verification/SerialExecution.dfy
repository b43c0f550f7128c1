/** Order between actions: what the journal lets run at the same time. */
module SerialExecution {
  import opened Common
  import opened EvidenceTypes
  import opened EvidenceAppend
  import opened EvidenceAgreement
  import opened EvidenceJournal

  function PhaseIn(h: History, a: ActionId): Option<Phase> {
    var es := EventsOf(h, a);
    if es == [] then None else Some(PhaseOf(Last(es)))
  }

  predicate Settled(h: History, a: ActionId) {
    PhaseIn(h, a).Some? && IsSettledPhase(PhaseIn(h, a).value)
  }

  /** Known to the journal and not settled. */
  predicate Unsettled(h: History, a: ActionId) {
    PhaseIn(h, a).Some? && !IsSettledPhase(PhaseIn(h, a).value)
  }

  /** Past planned and not settled: this action may be touching files. */
  predicate Active(h: History, a: ActionId) {
    Unsettled(h, a) && PhaseIn(h, a) != Some(PlannedPhase)
  }

  lemma PhaseAppended(h: History, e: JournalEvent, a: ActionId)
    ensures PhaseIn(h + [e], a) == if ActionOf(e) == a then Some(PhaseOf(e)) else PhaseIn(h, a)
  {
    assert Init(h + [e]) == h;
  }

  lemma {:induction false} TablePhase(h: History, a: ActionId)
    ensures CurrentPhase(RowsFor(Rows(h), a)) == PhaseIn(h, a)
  {
    TableEncodesHistory(h, a);
    EncodeSequence(EventsOf(h, a));
  }

  lemma {:induction false} GroupComesFromTable(rows: seq<Row>, a: ActionId)
    requires RowsFor(rows, a) != []
    ensures exists i :: 0 <= i < |rows| && rows[i].actionId == a
  {
    if Last(rows).actionId != a {
      GroupComesFromTable(Init(rows), a);
      var i :| 0 <= i < |Init(rows)| && Init(rows)[i].actionId == a;
      assert rows[i].actionId == a;
    }
  }

  /** No action with a smaller id has events without being settled. */
  ghost predicate NoneUnsettledBefore(h: History, a: ActionId) {
    forall b: ActionId :: b < a ==> !Unsettled(h, b)
  }

  /** The order check, read from the history. */
  lemma OrderCheckMeans(h: History, a: ActionId)
    ensures PriorActionsSettled(Rows(h), a) <==> NoneUnsettledBefore(h, a)
  {
    var rows := Rows(h);
    if PriorActionsSettled(rows, a) {
      forall b: ActionId | b < a ensures !Unsettled(h, b) {
        TablePhase(h, b);
        if RowsFor(rows, b) != [] {
          GroupComesFromTable(rows, b);
          var i :| 0 <= i < |rows| && rows[i].actionId == b;
          assert SettledIn(rows, rows[i].actionId);
        }
      }
    }
    if NoneUnsettledBefore(h, a) {
      forall i | 0 <= i < |rows| && rows[i].actionId < a ensures SettledIn(rows, rows[i].actionId) {
        TablePhase(h, rows[i].actionId);
        assert !Unsettled(h, rows[i].actionId);
      }
    }
  }

  lemma AppendChecks(configured: Option<DeletionMethod>, rows: seq<Row>, e: JournalEvent)
    ensures Append(configured, rows, e).Ok? <==>
            && AdmittedAlone(configured, RowsFor(rows, ActionOf(e)), e)
            && Bindable(e)
            && (SkipsOrder(e) || PriorActionsSettled(rows, ActionOf(e)))
  {
  }

  /** Acceptance splits into the event's own action and the order between actions. */
  lemma AppendMeans(configured: Option<DeletionMethod>, h: History, e: JournalEvent)
    requires Accepted(configured, h)
    ensures Append(configured, Rows(h), e).Ok? <==>
            && AdmittedAlone(configured, Encode(EventsOf(h, ActionOf(e))), e)
            && Bindable(e)
            && (SkipsOrder(e) || NoneUnsettledBefore(h, ActionOf(e)))
  {
    AppendChecks(configured, Rows(h), e);
    TableEncodesHistory(h, ActionOf(e));
    OrderCheckMeans(h, ActionOf(e));
  }

  /** Which phases an accepted event can follow. */
  lemma AcceptedFollows(configured: Option<DeletionMethod>, h: History, e: JournalEvent)
    requires Accepted(configured, h) && Append(configured, Rows(h), e).Ok?
    ensures e.Planned? <==> PhaseIn(h, ActionOf(e)).None?
    ensures e.Started? <==> PhaseIn(h, ActionOf(e)) == Some(PlannedPhase) && !e.Cancelled? && !e.Interrupted?
    ensures !Settled(h, ActionOf(e))
  {
    var es := EventsOf(h, ActionOf(e));
    AppendMeans(configured, h, e);
    AcceptedPerAction(configured, h, ActionOf(e));
    EncodeMirrors(configured, ActionOf(e), es);
    AdmissionSeenOnEntry(configured, Encode(es), Fold(es), e);
    if es != [] {
      AdmittedFollows(configured, Fold(es).value, e);
      TransitionFacts(e, PhaseOf(Last(es)));
    }
  }

  /** Settled phases are final, `recovery_resolved` among them: nothing is accepted for the action afterwards. */
  lemma SettledIsFinal(configured: Option<DeletionMethod>, h: History, e: JournalEvent)
    requires Accepted(configured, h) && Settled(h, ActionOf(e))
    ensures Append(configured, Rows(h), e).Err?
  {
    if Append(configured, Rows(h), e).Ok? {
      AcceptedFollows(configured, h, e);
    }
  }

  /** An unsettled action, one in recovery review among them, blocks every later action; only events that
      plan, cancel or interrupt pass it, and those are judged by their own action alone. */
  lemma UnsettledBlocksLater(configured: Option<DeletionMethod>, h: History, a: ActionId, e: JournalEvent)
    requires Accepted(configured, h) && Unsettled(h, a) && a < ActionOf(e)
    ensures Append(configured, Rows(h), e).Ok? ==> e.Planned? || e.Cancelled? || e.Interrupted?
    ensures e.Planned? || e.Cancelled? || e.Interrupted? ==>
      (Append(configured, Rows(h), e).Ok? <==>
       AdmittedAlone(configured, Encode(EventsOf(h, ActionOf(e))), e) && Bindable(e))
  {
    AppendMeans(configured, h, e);
  }

  predicate AtMostOneActive(h: History) {
    forall a: ActionId, b: ActionId :: Active(h, a) && Active(h, b) ==> a == b
  }

  /** Only a start makes an action active. */
  lemma ActiveAfter(configured: Option<DeletionMethod>, h: History, e: JournalEvent, b: ActionId)
    requires Accepted(configured, h) && Append(configured, Rows(h), e).Ok?
    ensures ActionOf(e) != b ==> (Active(h + [e], b) <==> Active(h, b)) && (Unsettled(h + [e], b) <==> Unsettled(h, b))
    ensures Active(h + [e], b) ==> Active(h, b) || (e.Started? && ActionOf(e) == b)
    ensures e.Started? && ActionOf(e) == b ==> Active(h + [e], b) && Unsettled(h, b)
    ensures !e.Planned? && ActionOf(e) == b && Unsettled(h + [e], b) ==> Unsettled(h, b)
  {
    PhaseAppended(h, e, b);
    if ActionOf(e) == b {
      AcceptedFollows(configured, h, e);
    }
  }

  /** Exactly which accepted event makes two actions active at once: starting one below an active one. */
  lemma SerialStepExactly(configured: Option<DeletionMethod>, h: History, e: JournalEvent)
    requires Accepted(configured, h) && Append(configured, Rows(h), e).Ok? && AtMostOneActive(h)
    ensures AtMostOneActive(h + [e]) <==>
            !(e.Started? && exists b: ActionId :: b > ActionOf(e) && Active(h, b))
  {
    var a := ActionOf(e);
    forall b: ActionId { ActiveAfter(configured, h, e, b); }
    if e.Started? {
      AppendMeans(configured, h, e);
      forall b: ActionId | b < a ensures !Active(h + [e], b) { assert !Unsettled(h, b); }
      if exists b: ActionId :: b > a && Active(h, b) {
        var b: ActionId :| b > a && Active(h, b);
        assert Active(h + [e], b) && Active(h + [e], a);
      }
    }
  }

  /** No action is planned while a higher-numbered one is active. */
  predicate PlannedAhead(h: History) {
    h == [] ||
    (PlannedAhead(Init(h))
     && (Last(h).Planned? ==> forall b: ActionId :: b > ActionOf(Last(h)) ==> !Active(Init(h), b)))
  }

  /** Everything below an active action is settled or unknown. */
  predicate ClearBelowActive(h: History) {
    forall a: ActionId, b: ActionId :: a < b && Active(h, b) ==> !Unsettled(h, a)
  }

  lemma ClearBelowActiveStep(configured: Option<DeletionMethod>, h: History, e: JournalEvent)
    requires Accepted(configured, h) && Append(configured, Rows(h), e).Ok? && ClearBelowActive(h)
    requires e.Planned? ==> forall b: ActionId :: b > ActionOf(e) ==> !Active(h, b)
    ensures ClearBelowActive(h + [e])
  {
    AppendMeans(configured, h, e);
    forall a: ActionId, b: ActionId | a < b && Active(h + [e], b) ensures !Unsettled(h + [e], a) {
      ActiveAfter(configured, h, e, a);
      ActiveAfter(configured, h, e, b);
      if Active(h, b) {
        assert !Unsettled(h, a);
      } else {
        assert e.Started? && ActionOf(e) == b;
        assert !Unsettled(h, a);
      }
    }
  }

  /** Serial execution: in every accepted history that plans ahead, at most one action is ever active. */
  lemma {:induction false} SerialExecutionHolds(configured: Option<DeletionMethod>, h: History)
    requires Accepted(configured, h) && PlannedAhead(h)
    ensures ClearBelowActive(h) && AtMostOneActive(h)
  {
    if h != [] {
      SerialExecutionHolds(configured, Init(h));
      ClearBelowActiveStep(configured, Init(h), Last(h));
      assert h == Init(h) + [Last(h)];
    }
    forall a: ActionId, b: ActionId | Active(h, a) && Active(h, b) ensures a == b {
      assert a < b ==> !Unsettled(h, a);
      assert b < a ==> !Unsettled(h, b);
    }
  }

  /** Action ids are planned in increasing order, as the planner numbers them. */
  predicate PlannedInOrder(h: History) {
    forall i, j :: 0 <= i < j < |h| && h[i].Planned? && h[j].Planned? ==> h[i].plan.actionId < h[j].plan.actionId
  }

  ghost predicate PlannedIn(h: History, a: ActionId) {
    exists i :: 0 <= i < |h| && h[i].Planned? && h[i].plan.actionId == a
  }

  lemma PlannedInLonger(h: History, e: JournalEvent, a: ActionId)
    requires PlannedIn(h, a) || (e.Planned? && e.plan.actionId == a)
    ensures PlannedIn(h + [e], a)
  {
    if PlannedIn(h, a) {
      var i :| 0 <= i < |h| && h[i].Planned? && h[i].plan.actionId == a;
      assert (h + [e])[i] == h[i];
    } else {
      assert (h + [e])[|h|] == e;
    }
  }

  /** Actions with events but no plan. */
  ghost function Unplanned(h: History): iset<ActionId> {
    iset a: ActionId | PhaseIn(h, a).Some? && !PlannedIn(h, a)
  }

  lemma KnownStayPlanned(configured: Option<DeletionMethod>, h: History, e: JournalEvent)
    requires Accepted(configured, h) && Append(configured, Rows(h), e).Ok? && Unplanned(h) == iset{}
    ensures Unplanned(h + [e]) == iset{}
  {
    AcceptedFollows(configured, h, e);
    forall a: ActionId | PhaseIn(h + [e], a).Some? ensures PlannedIn(h + [e], a) {
      assert a !in Unplanned(h);
      PhaseAppended(h, e, a);
      PlannedInLonger(h, e, a);
    }
  }

  /** Every action an accepted history knows was planned in it. */
  lemma {:induction false} KnownWerePlanned(configured: Option<DeletionMethod>, h: History)
    requires Accepted(configured, h)
    ensures Unplanned(h) == iset{}
  {
    if h != [] {
      KnownWerePlanned(configured, Init(h));
      KnownStayPlanned(configured, Init(h), Last(h));
      assert h == Init(h) + [Last(h)];
    }
  }

  lemma {:induction false} InOrderPlansAhead(configured: Option<DeletionMethod>, h: History)
    requires Accepted(configured, h) && PlannedInOrder(h)
    ensures PlannedAhead(h)
  {
    if h != [] {
      var before := Init(h);
      assert forall i :: 0 <= i < |before| ==> before[i] == h[i];
      InOrderPlansAhead(configured, before);
      KnownWerePlanned(configured, before);
      if Last(h).Planned? {
        forall b: ActionId | Active(before, b) ensures b < ActionOf(Last(h)) {
          assert b !in Unplanned(before);
          var i :| 0 <= i < |before| && before[i].Planned? && before[i].plan.actionId == b;
          assert h[i] == before[i];
        }
      }
    }
  }

  lemma PlanAdmitted(configured: Option<DeletionMethod>, e: JournalEvent)
    requires e.Planned?
    ensures AdmittedAlone(configured, [], e)
  {
  }

  lemma StartAdmitted(configured: Option<DeletionMethod>, rows: seq<Row>, e: JournalEvent)
    requires e.Started? && CurrentPhase(rows) == Some(PlannedPhase) && LatestWith(rows, PlannedPhase).Some?
    ensures AdmittedAlone(configured, rows, e)
  {
  }

  /** A plan for a new action, or a start right after its plan with nothing unsettled below, is accepted. */
  lemma AcceptNext(configured: Option<DeletionMethod>, h: History, e: JournalEvent)
    requires Accepted(configured, h) && Bindable(e)
    requires e.Planned? || e.Started?
    requires e.Planned? ==> PhaseIn(h, ActionOf(e)).None?
    requires e.Started? ==>
      PhaseIn(h, ActionOf(e)) == Some(PlannedPhase) && forall b: ActionId :: b < ActionOf(e) ==> !Unsettled(h, b)
    ensures Accepted(configured, h + [e])
  {
    var es := EventsOf(h, ActionOf(e));
    AcceptedPerAction(configured, h, ActionOf(e));
    EncodeMirrors(configured, ActionOf(e), es);
    TablePhase(h, ActionOf(e));
    TableEncodesHistory(h, ActionOf(e));
    if e.Planned? {
      PlanAdmitted(configured, e);
    } else {
      StartAdmitted(configured, Encode(es), e);
    }
    AppendMeans(configured, h, e);
    assert Init(h + [e]) == h;
  }

  /** Planning a new action below an active one, with nothing unsettled further below, lets two run at once. */
  lemma LatePlanRunsTwo(configured: Option<DeletionMethod>, h: History, b: ActionId, plan: PlanRecord)
    requires Accepted(configured, h) && Active(h, b)
    requires plan.actionId < b && PhaseIn(h, plan.actionId).None? && Bindable(Planned(plan))
    requires forall c: ActionId :: c < plan.actionId ==> !Unsettled(h, c)
    ensures
      var after := h + [Planned(plan)] + [Started(plan.actionId)];
      Accepted(configured, after) && Active(after, b) && Active(after, plan.actionId) && !AtMostOneActive(after)
  {
    var a := plan.actionId;
    var planned := h + [Planned(plan)];
    AcceptNext(configured, h, Planned(plan));
    forall c: ActionId { PhaseAppended(h, Planned(plan), c); }
    forall c: ActionId | c < a ensures !Unsettled(planned, c) { assert !Unsettled(h, c); }
    AcceptNext(configured, planned, Started(a));
    PhaseAppended(planned, Started(a), a);
    PhaseAppended(planned, Started(a), b);
    var after := planned + [Started(a)];
    assert Active(after, b) && Active(after, a) && a != b;
  }
}
