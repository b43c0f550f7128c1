/** Missed-schedule notices: at most one pending catch-up choice per profile, and no missed run lost. */
module MissedSchedule {
  import opened Common

  datatype Decision = Pending | RunNow | NotNow

  datatype Notice = Notice(
    profile: U64, run: U64, first: I64, latest: I64, reason: string, decision: Decision, missedCount: nat)

  datatype MissedEvent = MissedEvent(profile: U64, run: U64, noticeId: nat)

  /** `missed_schedule_notices`, where row `i` has identifier `i + 1`, and the missed rows of `scheduler_events`. */
  datatype Tables = Tables(notices: seq<Notice>, events: seq<MissedEvent>)

  datatype MissedError = InvalidEvent | NotFound | AlreadyDecided(decision: Decision) | Sqlite

  datatype Call =
    | RecordMissed(profile: U64, run: U64, scheduledAt: I64, reason: string)
    | Decide(noticeId: U64, decision: Decision)

  predicate IsWhitespace(c: char) {
    var n := c as int;
    || 0x9 <= n <= 0xD || n in {0x20, 0x85, 0xA0, 0x1680, 0x2028, 0x2029, 0x202F, 0x205F, 0x3000}
    || 0x2000 <= n <= 0x200A
  }

  /** `reason.trim().is_empty()`. */
  predicate IsBlank(text: string) {
    forall i :: 0 <= i < |text| ==> IsWhitespace(text[i])
  }

  function FindRun(notices: seq<Notice>, run: U64): Option<nat> {
    if notices == [] then None
    else if Last(notices).run == run then Some(|notices| - 1)
    else FindRun(Init(notices), run)
  }

  function FindPending(notices: seq<Notice>, profile: U64): Option<nat> {
    if notices == [] then None
    else if Last(notices).profile == profile && Last(notices).decision == Pending then Some(|notices| - 1)
    else FindPending(Init(notices), profile)
  }

  lemma {:induction false} FindRunFinds(notices: seq<Notice>, run: U64)
    ensures FindRun(notices, run).Some? ==>
      FindRun(notices, run).value < |notices| && notices[FindRun(notices, run).value].run == run
    ensures FindRun(notices, run).None? ==> forall i :: 0 <= i < |notices| ==> notices[i].run != run
  {
    if notices != [] {
      FindRunFinds(Init(notices), run);
    }
  }

  lemma {:induction false} FindPendingFinds(notices: seq<Notice>, profile: U64)
    ensures FindPending(notices, profile).Some? ==>
      var i := FindPending(notices, profile).value;
      i < |notices| && notices[i].profile == profile && notices[i].decision == Pending
    ensures FindPending(notices, profile).None? ==>
      forall i :: 0 <= i < |notices| && notices[i].decision == Pending ==> notices[i].profile != profile
  {
    if notices != [] {
      FindPendingFinds(Init(notices), profile);
    }
  }

  /** What is checked before the tables are looked at. */
  predicate IsValidRecord(call: Call)
    requires call.RecordMissed?
  {
    call.scheduledAt >= 0 && !IsBlank(call.reason) && call.profile < TWO_TO_THE_63 && call.run < TWO_TO_THE_63
  }

  /** The table's own `length(reason) > 0`: SQLite counts the characters in front of the first NUL. */
  predicate HasLength(reason: string) {
    reason != [] && reason[0] != '\0'
  }

  /** A missed run is recorded when it is valid and its reason can be stored, or need not be stored again. */
  predicate AcceptsRecord(notices: seq<Notice>, call: Call)
    requires call.RecordMissed?
  {
    IsValidRecord(call) && (FindRun(notices, call.run).Some? || HasLength(call.reason))
  }

  function MergedNotice(notice: Notice, call: Call): Notice
    requires call.RecordMissed?
  {
    notice.(latest := if call.scheduledAt > notice.latest then call.scheduledAt else notice.latest,
            reason := call.reason,
            missedCount := notice.missedCount + 1)
  }

  /** The notices after a missed run, and the identifier of the notice that stands for it. */
  function NoticesAfter(notices: seq<Notice>, call: Call): (seq<Notice>, nat)
    requires call.RecordMissed?
  {
    match FindRun(notices, call.run)
    case Some(i) => (notices, i + 1)
    case None =>
      match FindPending(notices, call.profile)
      case Some(i) =>
        (if i < |notices| then notices[i := MergedNotice(notices[i], call)] else notices, i + 1)
      case None =>
        (notices + [Notice(call.profile, call.run, call.scheduledAt, call.scheduledAt, call.reason, Pending, 1)],
         |notices| + 1)
  }

  predicate HasEvent(events: seq<MissedEvent>, run: U64) {
    exists i :: 0 <= i < |events| && events[i].run == run
  }

  function RecordStep(t: Tables, call: Call): Result<Tables, MissedError>
    requires call.RecordMissed?
  {
    if !IsValidRecord(call) then Err(InvalidEvent)
    else if !AcceptsRecord(t.notices, call) then Err(Sqlite)
    else
      var (notices, noticeId) := NoticesAfter(t.notices, call);
      Ok(Tables(
        notices,
        if HasEvent(t.events, call.run) then t.events
        else t.events + [MissedEvent(call.profile, call.run, noticeId)]))
  }

  function DecideStep(t: Tables, call: Call): Result<Tables, MissedError>
    requires call.Decide?
  {
    if call.decision == Pending || call.noticeId >= TWO_TO_THE_63 then Err(InvalidEvent)
    else if !(1 <= call.noticeId <= |t.notices|) then Err(NotFound)
    else
      var i := call.noticeId - 1;
      if t.notices[i].decision == Pending then
        Ok(t.(notices := t.notices[i := t.notices[i].(decision := call.decision)]))
      else if t.notices[i].decision != call.decision then Err(AlreadyDecided(t.notices[i].decision))
      else Ok(t)
  }

  function Step(t: Tables, call: Call): Result<Tables, MissedError> {
    if call.RecordMissed? then RecordStep(t, call) else DecideStep(t, call)
  }

  // ----- Runs -----

  /** The tables after a sequence of calls; a refused call changes nothing. */
  function After(calls: seq<Call>): Tables {
    if calls == [] then Tables([], [])
    else
      match Step(After(Init(calls)), Last(calls))
      case Ok(t) => t
      case Err(_) => After(Init(calls))
  }

  /** The accepted missed runs that had not created a notice when they came. */
  function EffectiveRecords(calls: seq<Call>): nat {
    if calls == [] then 0
    else
      var t, call := After(Init(calls)), Last(calls);
      EffectiveRecords(Init(calls)) +
      if call.RecordMissed? && AcceptsRecord(t.notices, call) && FindRun(t.notices, call.run).None? then 1 else 0
  }

  function TotalMissed(notices: seq<Notice>): nat {
    if notices == [] then 0 else TotalMissed(Init(notices)) + Last(notices).missedCount
  }

  lemma {:induction false} TotalAfterUpdate(notices: seq<Notice>, i: nat, notice: Notice)
    requires i < |notices|
    ensures TotalMissed(notices[i := notice]) == TotalMissed(notices) - notices[i].missedCount + notice.missedCount
  {
    var updated := notices[i := notice];
    if i == |notices| - 1 {
      assert Init(updated) == Init(notices);
    } else {
      TotalAfterUpdate(Init(notices), i, notice);
      assert Init(updated) == Init(notices)[i := notice];
    }
  }

  /** Conservation: the counts add up to the accepted records, leaving out those of a run that has its own notice. A run
      merged into the notice of another has none, so recorded again it is counted again. */
  lemma {:induction false} NoMissedRunIsLost(calls: seq<Call>)
    ensures TotalMissed(After(calls).notices) == EffectiveRecords(calls)
  {
    if calls != [] {
      NoMissedRunIsLost(Init(calls));
      var t, call := After(Init(calls)), Last(calls);
      if call.RecordMissed? {
        FindPendingFinds(t.notices, call.profile);
        if AcceptsRecord(t.notices, call) && FindRun(t.notices, call.run).None? {
          var pending := FindPending(t.notices, call.profile);
          if pending.Some? {
            TotalAfterUpdate(t.notices, pending.value, MergedNotice(t.notices[pending.value], call));
          } else {
            assert Init(After(calls).notices) == t.notices;
          }
        }
      } else if 1 <= call.noticeId <= |t.notices| {
        var i := call.noticeId - 1;
        TotalAfterUpdate(t.notices, i, t.notices[i].(decision := call.decision));
      }
    }
  }

  /** The accepted missed runs that had been recorded before, but merged into the notice of another run. */
  function RepeatedRecords(calls: seq<Call>): nat {
    if calls == [] then 0
    else
      var t, call := After(Init(calls)), Last(calls);
      RepeatedRecords(Init(calls)) +
      if call.RecordMissed? && AcceptsRecord(t.notices, call) && FindRun(t.notices, call.run).None? &&
         HasEvent(t.events, call.run) then 1 else 0
  }

  /** The accepted records of runs without a notice are the runs recorded and the repetitions. */
  lemma {:induction false} RecordsAreEvents(calls: seq<Call>)
    ensures EffectiveRecords(calls) == |After(calls).events| + RepeatedRecords(calls)
  {
    if calls != [] {
      var t, call := After(Init(calls)), Last(calls);
      RecordsAreEvents(Init(calls));
      TablesStayConsistent(Init(calls));
      if call.RecordMissed? {
        FindRunFinds(t.notices, call.run);
      }
    }
  }

  /** The runs some accepted record was about. */
  function RecordedRuns(calls: seq<Call>): set<U64> {
    if calls == [] then {}
    else
      var t, call := After(Init(calls)), Last(calls);
      RecordedRuns(Init(calls)) + if call.RecordMissed? && AcceptsRecord(t.notices, call) then {call.run} else {}
  }

  function EventRuns(events: seq<MissedEvent>): set<U64> {
    if events == [] then {} else EventRuns(Init(events)) + {Last(events).run}
  }

  lemma {:induction false} EventRunsAre(events: seq<MissedEvent>, run: U64)
    ensures run in EventRuns(events) <==> HasEvent(events, run)
  {
    if events != [] {
      EventRunsAre(Init(events), run);
      if i :| 0 <= i < |Init(events)| && Init(events)[i].run == run {
        assert events[i].run == run;
      }
      assert events[|events| - 1] == Last(events);
    }
  }

  lemma EventRunsPush(events: seq<MissedEvent>, event: MissedEvent)
    ensures EventRuns(events + [event]) == EventRuns(events) + {event.run}
  {
    assert Init(events + [event]) == events;
  }

  predicate OnePerRun(events: seq<MissedEvent>, runs: set<U64>) {
    EventRuns(events) == runs && |events| == |runs|
  }

  lemma EventAdded(events: seq<MissedEvent>, runs: set<U64>, event: MissedEvent)
    requires OnePerRun(events, runs)
    ensures OnePerRun(if HasEvent(events, event.run) then events else events + [event], runs + {event.run})
  {
    EventRunsAre(events, event.run);
    if HasEvent(events, event.run) {
      assert runs + {event.run} == runs;
    } else {
      EventRunsPush(events, event);
    }
  }

  lemma EventsOfStep(t: Tables, call: Call, runs: set<U64>)
    requires OnePerRun(t.events, runs) && call.RecordMissed? && AcceptsRecord(t.notices, call)
    ensures OnePerRun(RecordStep(t, call).value.events, runs + {call.run})
  {
    EventAdded(t.events, runs, MissedEvent(call.profile, call.run, NoticesAfter(t.notices, call).1));
  }

  /** Each recorded run has its one missed event. */
  lemma {:induction false} EventPerRun(calls: seq<Call>)
    ensures OnePerRun(After(calls).events, RecordedRuns(calls))
  {
    if calls != [] {
      var t, call := After(Init(calls)), Last(calls);
      EventPerRun(Init(calls));
      if call.RecordMissed? && AcceptsRecord(t.notices, call) {
        EventsOfStep(t, call, RecordedRuns(Init(calls)));
      } else {
        assert RecordedRuns(calls) == RecordedRuns(Init(calls));
      }
    }
  }

  /** The counts are the missed runs, and one more for every time a run that was merged into the notice of another is
      recorded again. */
  lemma TotalCountsRuns(calls: seq<Call>)
    ensures TotalMissed(After(calls).notices) == |RecordedRuns(calls)| + RepeatedRecords(calls)
    ensures |After(calls).events| == |RecordedRuns(calls)|
  {
    NoMissedRunIsLost(calls);
    RecordsAreEvents(calls);
    EventPerRun(calls);
  }

  lemma AfterPush(calls: seq<Call>, call: Call, t: Tables)
    requires After(calls) == t && Step(t, call).Ok?
    ensures After(calls + [call]) == Step(t, call).value
  {
    assert Init(calls + [call]) == calls;
  }

  lemma FirstRecord(call: Call)
    requires call.RecordMissed? && IsValidRecord(call) && HasLength(call.reason)
    ensures
      var notice := Notice(call.profile, call.run, call.scheduledAt, call.scheduledAt, call.reason, Pending, 1);
      Step(Tables([], []), call) == Ok(Tables([notice], [MissedEvent(call.profile, call.run, 1)]))
  {
    var t := Tables([], []);
    assert t.notices == [] && !HasEvent(t.events, call.run);
    assert forall notice: Notice :: t.notices + [notice] == [notice];
    assert forall event: MissedEvent :: t.events + [event] == [event];
  }

  lemma OnePendingNotice(notice: Notice, call: Call)
    requires call.RecordMissed? && notice.run != call.run
    requires notice.profile == call.profile && notice.decision == Pending
    ensures FindRun([notice], call.run) == None
    ensures NoticesAfter([notice], call) == ([MergedNotice(notice, call)], 1)
  {
    assert Init([notice]) == [];
    assert [notice][0 := MergedNotice(notice, call)] == [MergedNotice(notice, call)];
  }

  /** A run without a notice or an event of its own is merged into the one pending notice, and gets its event. */
  lemma MergedRecord(notice: Notice, event: MissedEvent, call: Call)
    requires call.RecordMissed? && IsValidRecord(call) && HasLength(call.reason)
    requires notice.profile == call.profile && notice.decision == Pending
    requires notice.run != call.run && event.run != call.run
    ensures Step(Tables([notice], [event]), call) ==
            Ok(Tables([MergedNotice(notice, call)], [event, MissedEvent(call.profile, call.run, 1)]))
  {
    var t := Tables([notice], [event]);
    OnePendingNotice(notice, call);
    assert !HasEvent(t.events, call.run);
    assert t.events + [MissedEvent(call.profile, call.run, 1)] == [event, MissedEvent(call.profile, call.run, 1)];
  }

  /** Recorded again it is merged again, and its event is there. */
  lemma RepeatedRecord(notice: Notice, events: seq<MissedEvent>, call: Call)
    requires call.RecordMissed? && IsValidRecord(call) && HasLength(call.reason)
    requires notice.profile == call.profile && notice.decision == Pending && notice.run != call.run
    requires HasEvent(events, call.run)
    ensures Step(Tables([notice], events), call) == Ok(Tables([MergedNotice(notice, call)], events))
  {
    OnePendingNotice(notice, call);
  }

  /** Two missed runs of a profile, the second recorded twice while the first one's notice is pending: the notice counts
      three. */
  lemma MergedRunCountsAgain(own: Call, merged: Call)
    requires own.RecordMissed? && IsValidRecord(own) && HasLength(own.reason)
    requires merged.RecordMissed? && IsValidRecord(merged) && HasLength(merged.reason)
    requires own.profile == merged.profile && own.run != merged.run
    ensures
      var t := After([] + [own] + [merged] + [merged]);
      |t.events| == 2 && |t.notices| == 1 && t.notices[0].run == own.run && t.notices[0].missedCount == 3
  {
    var notice := Notice(own.profile, own.run, own.scheduledAt, own.scheduledAt, own.reason, Pending, 1);
    var event, other := MissedEvent(own.profile, own.run, 1), MissedEvent(merged.profile, merged.run, 1);
    FirstRecord(own);
    AfterPush([], own, Tables([], []));
    MergedRecord(notice, event, merged);
    AfterPush([] + [own], merged, Tables([notice], [event]));
    assert [event, other][1].run == merged.run;
    RepeatedRecord(MergedNotice(notice, merged), [event, other], merged);
    AfterPush([] + [own] + [merged], merged, Tables([MergedNotice(notice, merged)], [event, other]));
  }

  /** Ordered times, one notice a run, one pending notice a profile. */
  predicate ConsistentNotices(notices: seq<Notice>) {
    && (forall i :: 0 <= i < |notices| ==> 0 <= notices[i].first <= notices[i].latest && notices[i].missedCount > 0)
    && (forall i, j :: 0 <= i < j < |notices| ==> notices[i].run != notices[j].run)
    && (forall i, j :: 0 <= i < j < |notices| && notices[i].decision == Pending && notices[j].decision == Pending ==>
          notices[i].profile != notices[j].profile)
  }

  /** One missed event a run, each pointing at a notice, and one for every run that made a notice. */
  predicate ConsistentEvents(t: Tables) {
    && (forall i, j :: 0 <= i < j < |t.events| ==> t.events[i].run != t.events[j].run)
    && (forall i :: 0 <= i < |t.events| ==> 1 <= t.events[i].noticeId <= |t.notices|)
    && (forall i :: 0 <= i < |t.notices| ==> HasEvent(t.events, t.notices[i].run))
  }

  predicate Consistent(t: Tables) {
    ConsistentNotices(t.notices) && ConsistentEvents(t)
  }

  lemma NoticesStayConsistent(notices: seq<Notice>, call: Call)
    requires ConsistentNotices(notices) && call.RecordMissed? && IsValidRecord(call)
    ensures
      var (after, noticeId) := NoticesAfter(notices, call);
      && ConsistentNotices(after)
      && |notices| <= |after| <= |notices| + 1
      && 1 <= noticeId <= |after|
      && (forall i :: 0 <= i < |notices| ==> after[i].run == notices[i].run)
      && (|after| > |notices| ==> after[|notices|].run == call.run)
  {
    FindRunFinds(notices, call.run);
    FindPendingFinds(notices, call.profile);
  }

  lemma RecordKeepsConsistent(t: Tables, call: Call)
    requires Consistent(t) && call.RecordMissed? && RecordStep(t, call).Ok?
    ensures Consistent(RecordStep(t, call).value)
    ensures HasEvent(RecordStep(t, call).value.events, call.run)
    ensures 1 <= NoticesAfter(t.notices, call).1 <= |RecordStep(t, call).value.notices|
  {
    NoticesStayConsistent(t.notices, call);
    var next := RecordStep(t, call).value;
    if !HasEvent(t.events, call.run) {
      assert next.events[|t.events|].run == call.run;
      forall i | 0 <= i < |t.events| ensures next.events[i].run != call.run {}
    }
    forall i | 0 <= i < |next.notices| ensures HasEvent(next.events, next.notices[i].run) {
      if i < |t.notices| {
        var k :| 0 <= k < |t.events| && t.events[k].run == t.notices[i].run;
        assert next.events[k].run == next.notices[i].run;
      }
    }
  }

  lemma DecideKeepsConsistent(t: Tables, call: Call)
    requires Consistent(t) && call.Decide? && DecideStep(t, call).Ok?
    ensures Consistent(DecideStep(t, call).value)
  {
  }

  /** In every run: one pending notice per profile, one notice and one missed event per run, ordered times. */
  lemma {:induction false} TablesStayConsistent(calls: seq<Call>)
    ensures Consistent(After(calls))
  {
    if calls != [] {
      TablesStayConsistent(Init(calls));
      var t, call := After(Init(calls)), Last(calls);
      if Step(t, call).Ok? {
        if call.RecordMissed? {
          RecordKeepsConsistent(t, call);
        } else {
          DecideKeepsConsistent(t, call);
        }
      }
    }
  }

  /** A decided notice never changes, and no notice ever disappears or changes its profile, run or first time. */
  lemma {:induction false} DecisionsAreFinal(calls: seq<Call>, k: nat, i: nat)
    requires k <= |calls| && i < |After(calls[..k]).notices|
    ensures i < |After(calls).notices|
    ensures
      var earlier, later := After(calls[..k]).notices[i], After(calls).notices[i];
      && (earlier.decision != Pending ==> later == earlier)
      && later.profile == earlier.profile && later.run == earlier.run && later.first == earlier.first
      && later.latest >= earlier.latest && later.missedCount >= earlier.missedCount
  {
    if k == |calls| {
      assert calls[..k] == calls;
    } else {
      var before, call := Init(calls), Last(calls);
      assert before[..k] == calls[..k];
      DecisionsAreFinal(before, k, i);
      var t := After(before);
      if call.RecordMissed? {
        FindPendingFinds(t.notices, call.profile);
      }
    }
  }

  // ----- The store -----

  class MissedScheduleStore {
    var tables: Tables
    ghost var calls: seq<Call>

    ghost predicate Valid()
      reads this
    {
      tables == After(calls)
    }

    constructor ()
      ensures Valid() && calls == []
    {
      tables, calls := Tables([], []), [];
    }

    /** Record a scheduled run that could not proceed and return its notice. */
    method RecordMissedSchedule(profile: U64, run: U64, scheduledAt: I64, reason: string)
      returns (r: Result<Notice, MissedError>)
      requires Valid()
      modifies this
      ensures Valid() && calls == old(calls) + [RecordMissed(profile, run, scheduledAt, reason)]
      ensures r.Ok? <==>
        && scheduledAt >= 0 && !IsBlank(reason) && profile < TWO_TO_THE_63 && run < TWO_TO_THE_63
        && (HasLength(reason) || exists i :: 0 <= i < |old(tables).notices| && old(tables).notices[i].run == run)
      ensures r.Ok? ==> r.value in tables.notices && HasEvent(tables.events, run)
      ensures r.Err? ==> tables == old(tables)
      ensures r == Err(Sqlite) <==>
        r.Err? && IsValidRecord(RecordMissed(profile, run, scheduledAt, reason))
    {
      var call := RecordMissed(profile, run, scheduledAt, reason);
      assert Init(calls + [call]) == calls;
      TablesStayConsistent(calls);
      calls := calls + [call];
      FindRunFinds(tables.notices, run);
      if !IsValidRecord(call) {
        return Err(InvalidEvent);
      }
      if !AcceptsRecord(tables.notices, call) {
        return Err(Sqlite);
      }
      RecordKeepsConsistent(tables, call);
      var (notices, noticeId) := NoticesAfter(tables.notices, call);
      var events := tables.events;
      if !HasEvent(events, run) {
        events := events + [MissedEvent(profile, run, noticeId)];
      }
      tables := Tables(notices, events);
      return Ok(notices[noticeId - 1]);
    }

    /** Record the user's catch-up choice; deciding twice the same way is harmless, differently is refused. */
    method MarkMissedScheduleDecision(noticeId: U64, decision: Decision) returns (r: Result<Notice, MissedError>)
      requires Valid()
      modifies this
      ensures Valid() && calls == old(calls) + [Decide(noticeId, decision)]
      ensures r.Ok? <==>
        && decision != Pending
        && 1 <= noticeId <= |old(tables).notices|
        && noticeId < TWO_TO_THE_63
        && old(tables).notices[noticeId - 1].decision in {Pending, decision}
      ensures r.Ok? ==>
        tables == old(tables).(notices := old(tables).notices[noticeId - 1 := r.value])
        && r.value == old(tables).notices[noticeId - 1].(decision := decision)
      ensures r.Err? ==> tables == old(tables)
    {
      var call := Decide(noticeId, decision);
      assert Init(calls + [call]) == calls;
      calls := calls + [call];
      var outcome := DecideStep(tables, call);
      if outcome.Err? {
        return Err(outcome.error);
      }
      tables := outcome.value;
      return Ok(tables.notices[noticeId - 1]);
    }
  }
}
