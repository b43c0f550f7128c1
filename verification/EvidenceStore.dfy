/** The journal tables as the store updates them, one atomic transaction a call. */
module EvidenceStore {
  import opened Common
  import opened EvidenceTypes
  import opened EvidenceAppend
  import opened EvidenceReplay
  import opened EvidenceAgreement
  import opened EvidenceJournal
  import opened EvidenceSurvival

  type RunId = U64

  /** The rows of a run are those its accepted events left. */
  predicate Kept(configured: Option<DeletionMethod>, rows: seq<Row>, h: History) {
    Accepted(configured, h) && rows == Rows(h)
  }

  /** The runs whose table is not the one their accepted events left. */
  ghost function OutOfStep(snapshots: map<RunId, Option<DeletionMethod>>, tables: map<RunId, seq<Row>>,
                           histories: map<RunId, History>): set<RunId>
    requires tables.Keys == snapshots.Keys == histories.Keys
  {
    set run | run in snapshots && !Kept(snapshots[run], tables[run], histories[run])
  }

  lemma InStep(snapshots: map<RunId, Option<DeletionMethod>>, tables: map<RunId, seq<Row>>,
               histories: map<RunId, History>, run: RunId)
    requires tables.Keys == snapshots.Keys == histories.Keys && run in snapshots
    requires OutOfStep(snapshots, tables, histories) == {}
    ensures Kept(snapshots[run], tables[run], histories[run])
  {
    assert run !in OutOfStep(snapshots, tables, histories);
  }

  /** Putting one run in step leaves the others as they are. */
  lemma StaysInStep(snapshots: map<RunId, Option<DeletionMethod>>, tables: map<RunId, seq<Row>>,
                    histories: map<RunId, History>, run: RunId, configured: Option<DeletionMethod>,
                    rows: seq<Row>, h: History)
    requires tables.Keys == snapshots.Keys == histories.Keys && Kept(configured, rows, h)
    requires OutOfStep(snapshots, tables, histories) == {}
    ensures OutOfStep(snapshots[run := configured], tables[run := rows], histories[run := h]) == {}
  {
    forall other | other in snapshots && other != run ensures Kept(snapshots[other], tables[other], histories[other]) {
      InStep(snapshots, tables, histories, other);
    }
  }

  /** The table of a run after an append, or the reason it was refused. */
  method InsertEvent(snapshots: map<RunId, Option<DeletionMethod>>, tables: map<RunId, seq<Row>>,
                     ghost histories: map<RunId, History>, run: RunId, e: JournalEvent)
    returns (r: Result<seq<Row>, StorageError>)
    requires tables.Keys == snapshots.Keys == histories.Keys && run in snapshots
    requires OutOfStep(snapshots, tables, histories) == {}
    ensures r == Append(snapshots[run], tables[run], e)
    ensures r.Ok? ==> OutOfStep(snapshots, tables[run := r.value], histories[run := histories[run] + [e]]) == {}
  {
    InStep(snapshots, tables, histories, run);
    AppendExtendsHistory(snapshots[run], histories[run], e);
    r := Append(snapshots[run], tables[run], e);
    if r.Ok? {
      StaysInStep(snapshots, tables, histories, run, snapshots[run], r.value, histories[run] + [e]);
      assert snapshots[run := snapshots[run]] == snapshots;
    }
  }

  class RunEvidenceStore {
    /** The deletion method frozen in each run snapshot. */
    var snapshots: map<RunId, Option<DeletionMethod>>
    /** The rows of `action_events`, by run, in insertion order. */
    var actionEvents: map<RunId, seq<Row>>
    /** The events accepted so far, by run. */
    ghost var accepted: map<RunId, History>

    ghost predicate Valid()
      reads this
    {
      && actionEvents.Keys == snapshots.Keys == accepted.Keys
      && OutOfStep(snapshots, actionEvents, accepted) == {}
    }

    constructor ()
      ensures Valid() && snapshots == map[]
    {
      snapshots, actionEvents, accepted := map[], map[], map[];
    }

    method BeginRun(run: RunId, deletionMethod: Option<DeletionMethod>) returns (r: Result<(), StorageError>)
      requires Valid()
      modifies this
      ensures Valid()
      ensures r.Ok? <==> run < TWO_TO_THE_63 && run !in old(snapshots)
      ensures r.Ok? ==> snapshots == old(snapshots)[run := deletionMethod] && accepted == old(accepted)[run := []]
      ensures r.Err? ==> snapshots == old(snapshots) && accepted == old(accepted) && actionEvents == old(actionEvents)
    {
      if run >= TWO_TO_THE_63 || run in snapshots {
        return Err(Sqlite);
      }
      StaysInStep(snapshots, actionEvents, accepted, run, deletionMethod, [], []);
      snapshots := snapshots[run := deletionMethod];
      actionEvents := actionEvents[run := []];
      accepted := accepted[run := []];
      return Ok(());
    }

    /** Admit one event, or refuse it and leave every table as it was. */
    method AppendEvent(run: RunId, e: JournalEvent) returns (r: Result<(), StorageError>)
      requires Valid()
      modifies this
      ensures Valid() && snapshots == old(snapshots)
      ensures r.Ok? <==>
        run < TWO_TO_THE_63 && run in snapshots && Append(snapshots[run], old(actionEvents)[run], e).Ok?
      ensures r.Ok? ==> accepted == old(accepted)[run := old(accepted)[run] + [e]]
      ensures r.Err? ==> actionEvents == old(actionEvents) && accepted == old(accepted)
    {
      if run >= TWO_TO_THE_63 {
        return Err(Sqlite);
      }
      if run !in snapshots {
        return Err(InvalidEvent);
      }
      var outcome := InsertEvent(snapshots, actionEvents, accepted, run, e);
      match outcome
      case Err(error) =>
        return Err(error);
      case Ok(rows) =>
        actionEvents := actionEvents[run := rows];
        accepted := accepted[run := accepted[run] + [e]];
        return Ok(());
    }

    /** Rebuild the entries of a run, in the order of their action ids. Loading succeeds exactly when every accepted
        event was storable; then each action with events has the entry they add up to as they read back, and the entries
        are what was recorded exactly when every event survives. A run without a snapshot has no rows. */
    method LoadJournal(run: RunId) returns (r: Result<seq<ActionJournalEntry>, StorageError>, ghost ids: seq<ActionId>)
      requires Valid()
      ensures run >= TWO_TO_THE_63 ==> r == Err(Sqlite)
      ensures run < TWO_TO_THE_63 && run !in snapshots ==> r == Ok([])
      ensures run < TWO_TO_THE_63 && run in snapshots ==>
        && (r.Ok? <==> AllStorable(accepted[run]))
        && (r.Ok? ==> ListsActions(ids, accepted[run]) && |r.value| == |ids|)
        && (r.Ok? ==> forall i :: 0 <= i < |ids| ==> Some(r.value[i]) == FoldReread(EventsOf(accepted[run], ids[i])))
        && (r.Ok? ==> (AllSurvive(accepted[run]) <==>
              forall i :: 0 <= i < |ids| ==> Some(r.value[i]) == Fold(EventsOf(accepted[run], ids[i]))))
    {
      ids := [];
      if run >= TWO_TO_THE_63 {
        return Err(Sqlite), [];
      }
      var configured := if run in snapshots then snapshots[run] else None;
      var rows := OrderRows(if run in actionEvents then actionEvents[run] else []);
      if run in snapshots {
        InStep(snapshots, actionEvents, accepted, run);
        WriteReplayAgreement(configured, accepted[run]);
      }
      var readable := ColumnsReadable(rows);
      if !readable {
        return Err(Sqlite), [];
      }
      var replayed := ReplayInOrder(rows, configured);
      if replayed.Err? {
        return Err(replayed.error), [];
      }
      var entries, keys := IntoValues(replayed.value);
      if run in snapshots {
        LoadedInOrder(configured, accepted[run], replayed.value, entries, keys);
      } else {
        assert rows == [] && replayed.value == map[];
        ValuesNeedKeys(entries, keys, replayed.value);
      }
      return Ok(entries), keys;
    }
  }

  predicate Increasing(ids: seq<ActionId>) {
    forall i, j :: 0 <= i < j < |ids| ==> ids[i] < ids[j]
  }

  /** The actions of a history, in increasing order. */
  ghost predicate ListsActions(ids: seq<ActionId>, h: History) {
    Increasing(ids) && forall a: ActionId :: a in ids <==> EventsOf(h, a) != []
  }

  /** The values of a map in the order of its keys, as `BTreeMap::into_values` gives them. */
  predicate InKeyOrder(values: seq<ActionJournalEntry>, keys: seq<ActionId>, entries: Entries) {
    && Increasing(keys) && |values| == |keys|
    && (forall a :: a in entries ==> a in keys)
    && (forall i :: 0 <= i < |keys| ==> keys[i] in entries && values[i] == entries[keys[i]])
  }

  lemma ValuesNeedKeys(values: seq<ActionJournalEntry>, keys: seq<ActionId>, entries: Entries)
    requires InKeyOrder(values, keys, entries)
    ensures values != [] ==> entries.Keys != {}
  {
    if values != [] { assert keys[0] in entries; }
  }

  lemma {:induction false} LeastExists(ids: set<ActionId>) returns (least: ActionId)
    requires ids != {}
    ensures least in ids && forall a :: a in ids ==> least <= a
    decreases |ids|
  {
    least :| least in ids;
    if a :| a in ids && a < least {
      var rest := ids - {least};
      assert a in rest;
      var lower := LeastExists(rest);
      forall other | other in ids ensures lower <= other {
        assert other == least || other in rest;
      }
      least := lower;
    }
  }

  method IntoValues(entries: Entries) returns (values: seq<ActionJournalEntry>, ghost keys: seq<ActionId>)
    ensures InKeyOrder(values, keys, entries)
  {
    values, keys := [], [];
    var left := entries.Keys;
    while left != {}
      invariant left <= entries.Keys && Increasing(keys) && |values| == |keys|
      invariant forall a :: a in entries ==> a in keys || a in left
      invariant forall i :: 0 <= i < |keys| ==> keys[i] in entries && values[i] == entries[keys[i]]
      invariant forall i, a :: 0 <= i < |keys| && a in left ==> keys[i] < a
      decreases |left|
    {
      ghost var least := LeastExists(left);
      var next :| next in left && forall a :: a in left ==> next <= a;
      values, keys, left := values + [entries[next]], keys + [next], left - {next};
    }
  }

  lemma EntryIffEvents(h: History, entries: Entries, a: ActionId)
    requires RecordsReread(entries, h)
    ensures a in entries <==> FoldReread(EventsOf(h, a)).Some?
  {
    assert EntryAt(entries, a) == FoldReread(EventsOf(h, a));
  }

  lemma FoldIffEvents(configured: Option<DeletionMethod>, h: History, a: ActionId)
    requires Accepted(configured, h)
    ensures EventsOf(h, a) != [] <==> Fold(EventsOf(h, a)).Some?
    ensures EventsOf(h, a) != [] <==> FoldReread(EventsOf(h, a)).Some?
  {
    AcceptedPerAction(configured, h, a);
    EncodeMirrors(configured, a, EventsOf(h, a));
    FoldsAlike(EventsOf(h, a));
  }

  lemma LoadedInOrder(configured: Option<DeletionMethod>, h: History, entries: Entries,
                      values: seq<ActionJournalEntry>, keys: seq<ActionId>)
    requires Accepted(configured, h) && AllStorable(h)
    requires Load(Rows(h), configured) == Ok(entries) && InKeyOrder(values, keys, entries)
    ensures ListsActions(keys, h)
    ensures forall i :: 0 <= i < |keys| ==> Some(values[i]) == FoldReread(EventsOf(h, keys[i]))
    ensures AllSurvive(h) <==> forall i :: 0 <= i < |keys| ==> Some(values[i]) == Fold(EventsOf(h, keys[i]))
  {
    WriteReplayAgreement(configured, h);
    LoadedJournalExactly(configured, h);
    forall a: ActionId
      ensures a in keys <==> EventsOf(h, a) != []
      ensures a !in keys ==> EntryAt(entries, a) == Fold(EventsOf(h, a))
    {
      EntryIffEvents(h, entries, a);
      FoldIffEvents(configured, h, a);
    }
    InOrderRecords(h, entries, values, keys);
  }

  lemma InOrderRecords(h: History, entries: Entries, values: seq<ActionJournalEntry>, keys: seq<ActionId>)
    requires InKeyOrder(values, keys, entries) && RecordsReread(entries, h)
    requires forall a: ActionId :: a !in keys ==> EntryAt(entries, a) == Fold(EventsOf(h, a))
    ensures forall i :: 0 <= i < |keys| ==> Some(values[i]) == FoldReread(EventsOf(h, keys[i]))
    ensures RecordsHistory(entries, h) <==>
            forall i :: 0 <= i < |keys| ==> Some(values[i]) == Fold(EventsOf(h, keys[i]))
  {
    forall i | 0 <= i < |keys|
      ensures Some(values[i]) == FoldReread(EventsOf(h, keys[i]))
      ensures EntryAt(entries, keys[i]) == Some(values[i])
    {
      assert EntryAt(entries, keys[i]) == FoldReread(EventsOf(h, keys[i]));
    }
    if RecordsHistory(entries, h) {
      forall i | 0 <= i < |keys| ensures Some(values[i]) == Fold(EventsOf(h, keys[i])) {
        assert EntryAt(entries, keys[i]) == Fold(EventsOf(h, keys[i]));
      }
    } else {
      var a: ActionId :| EntryAt(entries, a) != Fold(EventsOf(h, a));
      var i :| 0 <= i < |keys| && keys[i] == a;
      assert Some(values[i]) != Fold(EventsOf(h, keys[i]));
    }
  }

  method ColumnsReadable(rows: seq<Row>) returns (readable: bool)
    ensures readable <==> AllReadable(rows)
  {
    for i := 0 to |rows|
      invariant AllReadable(rows[..i])
    {
      if !Readable(rows[i]) {
        return false;
      }
    }
    assert rows[..|rows|] == rows;
    return true;
  }

  /** Apply the rows one by one to the growing map of entries. */
  method ReplayInOrder(rows: seq<Row>, configured: Option<DeletionMethod>) returns (r: Result<Entries, StorageError>)
    requires AllReadable(rows)
    ensures r.Ok? <==> ReplayRows(rows, configured).Ok?
    ensures r.Ok? ==> r == ReplayRows(rows, configured)
  {
    var entries: Entries := map[];
    for i := 0 to |rows|
      invariant AllReadable(rows[..i]) && ReplayRows(rows[..i], configured) == Ok(entries)
    {
      assert rows[..i + 1] == rows[..i] + [rows[i]];
      ReplayRowsAppended(configured, rows[..i], rows[i]);
      var applied := ApplyStoredEvent(entries, rows[i], configured);
      if applied.Err? {
        ReplayFailureIsFinal(configured, rows, i + 1);
        return applied;
      }
      entries := applied.value;
    }
    assert rows[..|rows|] == rows;
    return Ok(entries);
  }

  lemma {:induction false} ReplayFailureIsFinal(configured: Option<DeletionMethod>, rows: seq<Row>, k: nat)
    requires AllReadable(rows) && k <= |rows| && AllReadable(rows[..k])
    requires ReplayRows(rows[..k], configured).Err?
    ensures ReplayRows(rows, configured).Err?
  {
    if k == |rows| {
      assert rows[..k] == rows;
    } else {
      assert Init(rows)[..k] == rows[..k];
      ReplayFailureIsFinal(configured, Init(rows), k);
    }
  }
}
