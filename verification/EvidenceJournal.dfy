/** The journal as a whole: replaying the reordered table against the accepted history. */
module EvidenceJournal {
  import opened Common
  import opened EvidenceTypes
  import opened EvidenceAppend
  import opened EvidenceReplay
  import opened EvidenceAgreement

  // ----- From the table to single actions -----

  lemma {:induction false} EncodeSequence(es: History)
    ensures |Encode(es)| == |es|
    ensures MaxSequence(Encode(es)) == |es| - 1
  {
    if es != [] {
      EncodeSequence(Init(es));
      var rows := Encode(es);
      assert Init(rows) == Encode(Init(es)) && Last(rows) == RowOf(Last(es), |es| - 1);
    }
  }

  lemma RowsForAppended(rows: seq<Row>, row: Row, a: ActionId)
    ensures RowsFor(rows + [row], a) == RowsFor(rows, a) + (if row.actionId == a then [row] else [])
  {
    assert Init(rows + [row]) == rows;
  }

  /** Sequence numbers count the events of each action without gaps. */
  lemma {:induction false} TableEncodesHistory(h: History, a: ActionId)
    ensures RowsFor(Rows(h), a) == Encode(EventsOf(h, a))
  {
    if h != [] {
      var before, e := Init(h), Last(h);
      TableEncodesHistory(before, a);
      TableEncodesHistory(before, ActionOf(e));
      EncodeSequence(EventsOf(before, ActionOf(e)));
      RowsForAppended(Rows(before), Last(Rows(h)), a);
      if ActionOf(e) == a {
        assert Init(EventsOf(h, a)) == EventsOf(before, a);
      } else {
        assert EventsOf(h, a) == EventsOf(before, a);
      }
    }
  }

  lemma {:induction false} AcceptedPerAction(configured: Option<DeletionMethod>, h: History, a: ActionId)
    requires Accepted(configured, h)
    ensures AcceptedAlone(configured, a, EventsOf(h, a))
  {
    if h != [] {
      var before, e := Init(h), Last(h);
      AcceptedPerAction(configured, before, a);
      if ActionOf(e) == a {
        TableEncodesHistory(before, a);
        assert Init(EventsOf(h, a)) == EventsOf(before, a) && Last(EventsOf(h, a)) == e;
        assert AdmittedAlone(configured, Encode(EventsOf(before, a)), e);
      } else {
        assert EventsOf(h, a) == EventsOf(before, a);
      }
    }
  }

  lemma StorableAppended(h: History, a: ActionId)
    requires h != []
    ensures StorableAlone(EventsOf(h, a)) <==>
            && StorableAlone(EventsOf(Init(h), a))
            && (ActionOf(Last(h)) == a ==> Storable(Last(h), Fold(EventsOf(Init(h), a))))
  {
    if ActionOf(Last(h)) == a {
      assert Init(EventsOf(h, a)) == EventsOf(Init(h), a) && Last(EventsOf(h, a)) == Last(h);
    } else {
      assert EventsOf(h, a) == EventsOf(Init(h), a);
    }
  }

  lemma {:induction false} StorablePerAction(h: History)
    ensures AllStorable(h) <==> forall a: ActionId :: StorableAlone(EventsOf(h, a))
  {
    if h != [] {
      StorablePerAction(Init(h));
      forall a: ActionId { StorableAppended(h, a); }
      if AllStorable(h) {
        forall a: ActionId ensures StorableAlone(EventsOf(h, a)) { assert StorableAlone(EventsOf(Init(h), a)); }
      } else if !AllStorable(Init(h)) {
        var a: ActionId :| !StorableAlone(EventsOf(Init(h), a));
        assert !StorableAlone(EventsOf(h, a));
      } else {
        assert !StorableAlone(EventsOf(h, ActionOf(Last(h))));
      }
    }
  }

  // ----- ORDER BY action_id, sequence -----

  predicate Ordered(rows: seq<Row>) {
    forall i, j :: 0 <= i < j < |rows| ==> Precedes(rows[i], rows[j])
  }

  /** Within an action, later rows carry larger sequence numbers. */
  predicate Ascending(rows: seq<Row>) {
    forall i, j :: 0 <= i < j < |rows| && rows[i].actionId == rows[j].actionId ==> rows[i].sequence < rows[j].sequence
  }

  lemma {:induction false} InsertKeepsRows(rows: seq<Row>, row: Row)
    ensures multiset(InsertOrdered(rows, row)) == multiset(rows) + multiset{row}
  {
    if rows != [] && !Precedes(Last(rows), row) {
      InsertKeepsRows(Init(rows), row);
      assert rows == Init(rows) + [Last(rows)];
    }
  }

  lemma {:induction false} InsertKeepsOrder(rows: seq<Row>, row: Row)
    requires Ordered(rows)
    ensures Ordered(InsertOrdered(rows, row))
  {
    if rows != [] {
      var last := Last(rows);
      assert forall i :: 0 <= i < |rows| ==> Precedes(rows[i], last);
      if !Precedes(last, row) {
        var inner := InsertOrdered(Init(rows), row);
        InsertKeepsOrder(Init(rows), row);
        InsertKeepsRows(Init(rows), row);
        forall i | 0 <= i < |inner| ensures Precedes(inner[i], last) {
          assert inner[i] in multiset(inner);
          assert inner[i] in Init(rows) || inner[i] == row;
        }
      }
    }
  }

  /** `OrderRows` is what `ORDER BY` promises: the same rows, in order. */
  lemma {:induction false} OrderRowsOrders(rows: seq<Row>)
    ensures Ordered(OrderRows(rows))
    ensures multiset(OrderRows(rows)) == multiset(rows)
  {
    if rows != [] {
      OrderRowsOrders(Init(rows));
      InsertKeepsOrder(OrderRows(Init(rows)), Last(rows));
      InsertKeepsRows(OrderRows(Init(rows)), Last(rows));
      assert rows == Init(rows) + [Last(rows)];
    }
  }

  lemma {:induction false} InsertKeepsGroups(rows: seq<Row>, row: Row, a: ActionId)
    requires forall other :: other in rows && other.actionId == row.actionId ==> Precedes(other, row)
    ensures RowsFor(InsertOrdered(rows, row), a) == RowsFor(rows, a) + (if row.actionId == a then [row] else [])
  {
    if rows == [] || Precedes(Last(rows), row) {
      RowsForAppended(rows, row, a);
    } else {
      assert Last(rows) in rows;
      InsertKeepsGroups(Init(rows), row, a);
      RowsForAppended(InsertOrdered(Init(rows), row), Last(rows), a);
      assert rows == Init(rows) + [Last(rows)];
    }
  }

  /** Reordering the table keeps the rows of each action in insertion order. */
  lemma {:induction false} OrderKeepsGroups(rows: seq<Row>, a: ActionId)
    requires Ascending(rows)
    ensures RowsFor(OrderRows(rows), a) == RowsFor(rows, a)
  {
    if rows != [] {
      OrderKeepsGroups(Init(rows), a);
      OrderRowsOrders(Init(rows));
      forall other | other in OrderRows(Init(rows)) && other.actionId == Last(rows).actionId
        ensures Precedes(other, Last(rows))
      {
        assert other in multiset(Init(rows));
        assert other in Init(rows);
      }
      InsertKeepsGroups(OrderRows(Init(rows)), Last(rows), a);
    }
  }

  lemma {:induction false} MaxSequenceBounds(rows: seq<Row>, i: nat)
    requires i < |rows|
    ensures rows[i].sequence <= MaxSequence(rows)
  {
    if i < |rows| - 1 {
      assert Init(rows)[i] == rows[i];
      MaxSequenceBounds(Init(rows), i);
    }
  }

  lemma {:induction false} RowIsInItsGroup(rows: seq<Row>, i: nat)
    requires i < |rows|
    ensures rows[i] in RowsFor(rows, rows[i].actionId)
  {
    if i < |rows| - 1 {
      assert Init(rows)[i] == rows[i];
      RowIsInItsGroup(Init(rows), i);
    }
  }

  lemma {:induction false} TableAscends(h: History)
    ensures Ascending(Rows(h))
  {
    if h != [] {
      var before := Rows(Init(h));
      TableAscends(Init(h));
      var row := Last(Rows(h));
      var own := RowsFor(before, row.actionId);
      forall i | 0 <= i < |before| && before[i].actionId == row.actionId
        ensures before[i].sequence < row.sequence
      {
        RowIsInItsGroup(before, i);
        var k :| 0 <= k < |own| && own[k] == before[i];
        MaxSequenceBounds(own, k);
      }
    }
  }

  // ----- Replay, action by action -----

  lemma ReplayRowsAppended(configured: Option<DeletionMethod>, rows: seq<Row>, row: Row)
    requires AllReadable(rows) && Readable(row)
    ensures AllReadable(rows + [row])
    ensures ReplayRows(rows, configured).Err? ==> ReplayRows(rows + [row], configured).Err?
    ensures ReplayRows(rows, configured).Ok? ==>
      ReplayRows(rows + [row], configured) == ApplyStoredEvent(ReplayRows(rows, configured).value, row, configured)
  {
    assert Init(rows + [row]) == rows;
  }

  lemma {:induction false} GroupIsReadable(rows: seq<Row>, a: ActionId)
    requires AllReadable(rows)
    ensures AllReadable(RowsFor(rows, a))
  {
    if rows != [] {
      GroupIsReadable(Init(rows), a);
    }
  }

  lemma GroupReplayAppended(configured: Option<DeletionMethod>, rows: seq<Row>, row: Row, a: ActionId)
    requires AllReadable(rows) && Readable(row)
    ensures AllReadable(RowsFor(rows, a)) && AllReadable(RowsFor(rows + [row], a))
    ensures ReplayOne(RowsFor(rows + [row], a), configured) ==
            if row.actionId == a then ReplayNext(ReplayOne(RowsFor(rows, a), configured), row, configured)
            else ReplayOne(RowsFor(rows, a), configured)
  {
    GroupIsReadable(rows, a);
    RowsForAppended(rows, row, a);
    if row.actionId == a {
      ReplayStep(configured, RowsFor(rows, a), row);
    } else {
      assert RowsFor(rows + [row], a) == RowsFor(rows, a);
    }
  }

  /** Replay of a table, in any order of the actions, is replay of each action on its own. */
  lemma {:induction false} ReplayRegroups(configured: Option<DeletionMethod>, rows: seq<Row>)
    requires AllReadable(rows)
    ensures forall a: ActionId :: AllReadable(RowsFor(rows, a))
    ensures ReplayRows(rows, configured).Ok? ==>
      forall a: ActionId ::
        ReplayOne(RowsFor(rows, a), configured) == Ok(EntryAt(ReplayRows(rows, configured).value, a))
    ensures ReplayRows(rows, configured).Err? ==>
      exists a: ActionId :: ReplayOne(RowsFor(rows, a), configured).Err?
  {
    forall a: ActionId ensures AllReadable(RowsFor(rows, a)) { GroupIsReadable(rows, a); }
    if rows == [] {
      forall a: ActionId ensures RowsFor(rows, a) == [] {}
    } else {
      var before, row := Init(rows), Last(rows);
      ReplayRegroups(configured, before);
      assert rows == before + [row];
      ReplayRowsAppended(configured, before, row);
      forall a: ActionId { GroupReplayAppended(configured, before, row, a); }
      if ReplayRows(before, configured).Ok? {
        var entries := ReplayRows(before, configured).value;
        assert ReplayOne(RowsFor(before, row.actionId), configured) == Ok(EntryAt(entries, row.actionId));
        if ReplayRows(rows, configured).Ok? {
          forall a: ActionId
            ensures ReplayOne(RowsFor(rows, a), configured) == Ok(EntryAt(ReplayRows(rows, configured).value, a))
          {
            assert ReplayOne(RowsFor(before, a), configured) == Ok(EntryAt(entries, a));
          }
        } else {
          assert ReplayOne(RowsFor(rows, row.actionId), configured).Err?;
        }
      } else {
        var a: ActionId :| ReplayOne(RowsFor(before, a), configured).Err?;
        assert ReplayOne(RowsFor(rows, a), configured).Err?;
      }
    }
  }

  lemma ReadableByGroups(rows: seq<Row>)
    requires forall a: ActionId :: AllReadable(RowsFor(rows, a))
    ensures AllReadable(rows)
  {
    forall i | 0 <= i < |rows| ensures Readable(rows[i]) {
      var own := RowsFor(rows, rows[i].actionId);
      RowIsInItsGroup(rows, i);
      var k :| 0 <= k < |own| && own[k] == rows[i];
      assert AllReadable(own);
    }
  }

  /** The entries a history adds up to, action by action. */
  predicate RecordsHistory(entries: Entries, h: History) {
    forall a: ActionId :: EntryAt(entries, a) == Fold(EventsOf(h, a))
  }

  /** The entries a history adds up to as its events read back. */
  predicate RecordsReread(entries: Entries, h: History) {
    forall a: ActionId :: EntryAt(entries, a) == FoldReread(EventsOf(h, a))
  }

  lemma OrderedGroupReplays(configured: Option<DeletionMethod>, h: History, a: ActionId)
    requires Accepted(configured, h)
    ensures
      var own := RowsFor(OrderRows(Rows(h)), a);
      && (AllReadable(own) && ReplayOne(own, configured).Ok? <==> StorableAlone(EventsOf(h, a)))
      && (StorableAlone(EventsOf(h, a)) ==> ReplayOne(own, configured) == Ok(FoldReread(EventsOf(h, a))))
  {
    TableAscends(h);
    OrderKeepsGroups(Rows(h), a);
    TableEncodesHistory(h, a);
    AcceptedPerAction(configured, h, a);
    ActionReplays(configured, a, EventsOf(h, a));
  }

  /** Write/replay agreement. A journal built by accepted appends loads exactly when every event was storable, and what
      it loads is what the events say as they read back: all of it but, where evidence carries one, the provenance. */
  lemma WriteReplayAgreement(configured: Option<DeletionMethod>, h: History)
    requires Accepted(configured, h)
    ensures Load(Rows(h), configured).Ok? <==> AllStorable(h)
    ensures AllStorable(h) ==> RecordsReread(Load(Rows(h), configured).value, h)
  {
    var ordered := OrderRows(Rows(h));
    forall a: ActionId { OrderedGroupReplays(configured, h, a); }
    StorablePerAction(h);
    if AllStorable(h) {
      forall a: ActionId
        ensures AllReadable(RowsFor(ordered, a))
      {
        assert StorableAlone(EventsOf(h, a));
      }
      ReadableByGroups(ordered);
      ReplayRegroups(configured, ordered);
      forall a: ActionId
        ensures ReplayOne(RowsFor(ordered, a), configured) == Ok(FoldReread(EventsOf(h, a)))
      {
        assert StorableAlone(EventsOf(h, a));
      }
    } else if AllReadable(ordered) {
      var a: ActionId :| !StorableAlone(EventsOf(h, a));
      GroupIsReadable(ordered, a);
      ReplayRegroups(configured, ordered);
      assert ReplayOne(RowsFor(ordered, a), configured).Err?;
    }
  }

  lemma HistoryPush(h: History, e: JournalEvent)
    ensures Init(h + [e]) == h && Last(h + [e]) == e
  {
  }

  lemma AppendedRows(configured: Option<DeletionMethod>, rows: seq<Row>, e: JournalEvent)
    requires Append(configured, rows, e).Ok?
    ensures Append(configured, rows, e).value == rows + [RowOf(e, MaxSequence(RowsFor(rows, ActionOf(e))) + 1)]
  {
  }

  lemma RowsPush(h: History, e: JournalEvent)
    ensures Rows(h + [e]) == Rows(h) + [RowOf(e, MaxSequence(RowsFor(Rows(h), ActionOf(e))) + 1)]
  {
    HistoryPush(h, e);
  }

  lemma RowsExtend(configured: Option<DeletionMethod>, h: History, e: JournalEvent)
    requires Append(configured, Rows(h), e).Ok?
    ensures Append(configured, Rows(h), e).value == Rows(h + [e])
  {
    AppendedRows(configured, Rows(h), e);
    RowsPush(h, e);
  }

  lemma AppendExtendsHistory(configured: Option<DeletionMethod>, h: History, e: JournalEvent)
    requires Accepted(configured, h)
    ensures Append(configured, Rows(h), e).Ok? <==> Accepted(configured, h + [e])
    ensures Append(configured, Rows(h), e).Ok? ==> Append(configured, Rows(h), e).value == Rows(h + [e])
  {
    HistoryPush(h, e);
    var accepted := Append(configured, Rows(h), e).Ok?;
    assert Accepted(configured, h + [e]) == accepted;
    if accepted {
      RowsExtend(configured, h, e);
    }
  }

  lemma PrefixOfInit(h: History, prefix: History)
    requires prefix <= h && prefix != h
    ensures h != [] && prefix <= Init(h)
  {
  }

  lemma {:induction false} PrefixAccepted(configured: Option<DeletionMethod>, h: History, prefix: History)
    requires Accepted(configured, h) && prefix <= h
    ensures Accepted(configured, prefix)
  {
    if prefix != h {
      PrefixOfInit(h, prefix);
      PrefixAccepted(configured, Init(h), prefix);
    }
  }

  lemma {:induction false} PrefixStorable(h: History, prefix: History)
    requires AllStorable(h) && prefix <= h
    ensures AllStorable(prefix)
  {
    if prefix != h {
      PrefixOfInit(h, prefix);
      PrefixStorable(Init(h), prefix);
    }
  }

  /** A loadable journal was loadable after every append on the way; an unloadable one never recovers. */
  lemma EveryPrefixReplays(configured: Option<DeletionMethod>, h: History, k: nat)
    requires Accepted(configured, h) && k <= |h|
    requires Load(Rows(h), configured).Ok?
    ensures Load(Rows(h[..k]), configured).Ok?
    ensures RecordsReread(Load(Rows(h[..k]), configured).value, h[..k])
  {
    WriteReplayAgreement(configured, h);
    PrefixAccepted(configured, h, h[..k]);
    PrefixStorable(h, h[..k]);
    WriteReplayAgreement(configured, h[..k]);
  }

  /** The write side lets through what the read side cannot load: one planned size of 2^63 bytes. */
  lemma AcceptedJournalCanBeUnreadable(plan: PlanRecord)
    requires plan.actionId < TWO_TO_THE_63 && plan.preAction.identity.None?
    requires plan.preAction.size == TWO_TO_THE_63
    ensures Accepted(None, [Planned(plan)])
    ensures Load(Rows([Planned(plan)]), None).Err?
  {
    var h := [Planned(plan)];
    assert Init(h) == [] && Last(h) == Planned(plan);
    assert Append(None, [], Planned(plan)).Ok?;
    WriteReplayAgreement(None, h);
    assert EventsOf([], plan.actionId) == [];
    assert !Storable(Planned(plan), None);
  }
}
