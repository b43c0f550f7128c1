/** Reviewed Mirror deletions: which counterparts may be deleted, and how decisions become deletions. */
module MirrorDeletion {
  import opened Common
  import opened Equality
  import opened Mirror
  import opened Baselines

  datatype Candidate = Candidate(
    path: Path, missing: PeerSide, affected: PeerSide,
    baselineMissing: ItemState, baselineRemaining: ItemState, currentRemaining: ItemState)

  datatype Choice = DeleteCounterpart | PreserveRemaining | Defer

  datatype Decision = Decision(path: Path, choice: Choice)

  datatype Deletion = Deletion(candidate: Candidate, choice: Choice)
  {
    predicate MutatesFiles() {
      choice == DeleteCounterpart
    }
  }

  datatype DeletionError =
    | MissingDecision(path: Path)
    | UnknownCandidate(path: Path)
    | DuplicateDecision(path: Path)
    | FinalConfirmationRequired

  // ----- Candidates -----

  /** The candidate one baseline entry gives, if any. */
  function CandidateOf(m: MetadataRequirements, p: Path, recorded: Pair, currentA: Option<Item>,
                       currentB: Option<Item>):
    Option<Candidate>
  {
    if recorded.a == None || recorded.b == None then None
    else
      var a, b := recorded.a.value, recorded.b.value;
      if !EqualParts(m, a, b) then None
      else if currentA == None && currentB.Some? then
        var item := currentB.value;
        if item.Eligible() && EqualParts(m, b, item.state) then Some(Candidate(p, PeerA, PeerB, a, b, item.state))
        else None
      else if currentA.Some? && currentB == None then
        var item := currentA.value;
        if item.Eligible() && EqualParts(m, a, item.state) then Some(Candidate(p, PeerB, PeerA, b, a, item.state))
        else None
      else None
  }

  function CandidateAt(baseline: Baseline, sides: Mirror.Sides, p: Path): Option<Candidate>
    requires p in baseline.items
  {
    CandidateOf(baseline.metadata, p, baseline.items[p], Lookup(sides.a, p), Lookup(sides.b, p))
  }

  /** The candidates are those the baseline entries give. */
  ghost predicate AreCandidates(candidates: seq<Candidate>, baseline: Baseline, sides: Mirror.Sides) {
    forall c :: c in candidates <==> c.path in baseline.items && CandidateAt(baseline, sides, c.path) == Some(c)
  }

  /** `deletion_candidates`, over the baseline entries in path order. */
  method DeletionCandidates(baseline: Baseline, a: seq<Item>, b: seq<Item>, order: seq<Path>)
    returns (candidates: seq<Candidate>)
    requires Enumerates(order, baseline.items.Keys)
    ensures AreCandidates(candidates, baseline, Mirror.Sides(ByPath(a), ByPath(b)))
    ensures forall i, j :: 0 <= i < j < |candidates| ==> candidates[i].path != candidates[j].path
  {
    var currentA := IndexByPath(a);
    var currentB := IndexByPath(b);
    ghost var sides := Mirror.Sides(currentA, currentB);
    candidates := [];
    for i := 0 to |order|
      invariant forall c :: c in candidates <==> c.path in order[..i] && CandidateAt(baseline, sides, c.path) == Some(c)
      invariant forall i, j :: 0 <= i < j < |candidates| ==> candidates[i].path != candidates[j].path
    {
      var p := order[i];
      assert order[..i + 1] == order[..i] + [p] && p !in order[..i];
      var candidate := CandidateOf(baseline.metadata, p, baseline.items[p], Lookup(currentA, p), Lookup(currentB, p));
      assert candidate == CandidateAt(baseline, sides, p);
      if candidate.Some? {
        assert forall j :: 0 <= j < |candidates| ==> candidates[j] in candidates;
        candidates := candidates + [candidate.value];
      }
    }
    assert order[..|order|] == order;
  }

  function Side(sides: Mirror.Sides, side: PeerSide): map<Path, Item> {
    if side == PeerA then sides.a else sides.b
  }

  function Recorded(pair: Pair, side: PeerSide): Option<ItemState> {
    if side == PeerA then pair.a else pair.b
  }

  /** A path is a candidate for deletion on `affected` exactly when the baseline holds equal states for both peers, the
      item is gone from the other peer altogether, and what remains is included and still equal to the state that was
      recorded for the missing side. */
  lemma CandidateExactly(baseline: Baseline, sides: Mirror.Sides, p: Path, affected: PeerSide)
    requires p in baseline.items
    ensures
      var m, pair, missing := baseline.metadata, baseline.items[p], affected.Opposite();
      (CandidateAt(baseline, sides, p).Some? && CandidateAt(baseline, sides, p).value.affected == affected) <==>
        && pair.a.Some? && pair.b.Some? && EqualParts(m, pair.a.value, pair.b.value)
        && p !in Side(sides, missing) && IncludedAt(Side(sides, affected), p)
        && EqualParts(m, Side(sides, affected)[p].state, Recorded(pair, missing).value)
    ensures CandidateAt(baseline, sides, p).Some? && CandidateAt(baseline, sides, p).value.affected == affected ==>
      CandidateAt(baseline, sides, p).value ==
        Candidate(p, affected.Opposite(), affected, Recorded(baseline.items[p], affected.Opposite()).value,
                  Recorded(baseline.items[p], affected).value, Side(sides, affected)[p].state)
  {
    var m, pair := baseline.metadata, baseline.items[p];
    if pair.a.Some? && pair.b.Some? && IncludedAt(Side(sides, affected), p) {
      var current := Side(sides, affected)[p].state;
      EqualityIsSameView(m, pair.a.value, pair.b.value);
      EqualityIsSameView(m, pair.a.value, current);
      EqualityIsSameView(m, pair.b.value, current);
    }
  }

  function StatusOn(comparison: Comparison, side: PeerSide): Status {
    if side == PeerA then comparison.a else comparison.b
  }

  /** The comparison with the baseline and the candidates agree: a recorded pair that is equal is a candidate exactly
      when one side is Absent, with nothing left under its path, and the other Unchanged. */
  lemma CandidateIsAbsentAndUnchanged(baseline: Baseline, sides: Mirror.Sides, p: Path, affected: PeerSide)
    requires p in baseline.items && baseline.items[p].a.Some? && baseline.items[p].b.Some?
    requires EqualParts(baseline.metadata, baseline.items[p].a.value, baseline.items[p].b.value)
    ensures
      var comparison := CompareAt(baseline, sides, p);
      (CandidateAt(baseline, sides, p).Some? && CandidateAt(baseline, sides, p).value.affected == affected) <==>
        && StatusOn(comparison, affected.Opposite()) == Absent && p !in Side(sides, affected.Opposite())
        && StatusOn(comparison, affected) == Unchanged
  {
  }

  /** A baseline gives no candidate against the inventories it was settled from. */
  lemma SettledGivesNoCandidate(baseline: Baseline, run: Run, p: Path)
    requires Settles(baseline, run) && p in baseline.items
    ensures CandidateAt(baseline, run.Sides(), p) == None
  {
    assert Settled(run, p);
  }

  /** The baselines are the ones these runs settled, run by run. */
  ghost predicate Chain(baselines: seq<Baseline>, runs: seq<Run>) {
    |baselines| == |runs| && forall i :: 0 <= i < |runs| ==> Settles(baselines[i], runs[i])
  }

  /** The latest run, of the same profile and peers, that settled the path. */
  predicate LatestRun(runs: seq<Run>, i: nat, p: Path)
    requires i < |runs|
  {
    && Settled(runs[i], p)
    && (forall j :: i <= j < |runs| ==> runs[j].identity == Last(runs).identity)
    && (forall j :: i < j < |runs| ==> !Settled(runs[j], p))
  }

  lemma LatestBaselineIsLatestRun(baselines: seq<Baseline>, runs: seq<Run>, i: nat, p: Path)
    requires runs != [] && Chain(baselines, runs) && i < |runs| && Latest(baselines, i, p)
    ensures LatestRun(runs, i, p)
  {
    assert Settles(baselines[i], runs[i]) && Settles(baselines[|runs| - 1], runs[|runs| - 1]);
    forall j | i <= j < |runs| ensures runs[j].identity == Last(runs).identity {
      assert Settles(baselines[j], runs[j]) && baselines[j].identity == Last(baselines).identity;
    }
    forall j | i < j < |runs| ensures !Settled(runs[j], p) {
      assert Settles(baselines[j], runs[j]) && p !in baselines[j].items;
    }
  }

  lemma ChainEntry(baselines: seq<Baseline>, runs: seq<Run>, i: nat, p: Path)
    requires Chain(baselines, runs) && i < |runs|
    ensures baselines[i].metadata == runs[i].metadata
    ensures p in baselines[i].items ==>
              && Settled(runs[i], p)
              && baselines[i].items[p] == Pair(Some(runs[i].Sides().a[p].state), Some(runs[i].Sides().b[p].state))
  {
    assert Settles(baselines[i], runs[i]);
  }

  /** What merging a chain of settled baselines holds for a path. */
  lemma MergedComesFromRun(baselines: seq<Baseline>, runs: seq<Run>, p: Path) returns (i: nat)
    requires runs != [] && Chain(baselines, runs) && p in MergeAll(baselines).items
    ensures i < |runs| && LatestRun(runs, i, p)
    ensures MergeAll(baselines).metadata == Last(runs).metadata
    ensures MergeAll(baselines).items[p] == Pair(Some(runs[i].Sides().a[p].state), Some(runs[i].Sides().b[p].state))
  {
    i := LatestHolds(baselines, p);
    LatestBaselineIsLatestRun(baselines, runs, i, p);
    ChainEntry(baselines, runs, i, p);
    ChainEntry(baselines, runs, |runs| - 1, p);
  }

  /** After any chain of merges a candidate goes back to the latest run, of the same profile and peers, that settled its
      path: that run found the item equal on both peers, and what remains is equal to what it found on the missing one.
      */
  lemma CandidateComesFromRun(baselines: seq<Baseline>, runs: seq<Run>, sides: Mirror.Sides, p: Path) returns (i: nat)
    requires runs != [] && Chain(baselines, runs)
    requires p in MergeAll(baselines).items && CandidateAt(MergeAll(baselines), sides, p).Some?
    ensures i < |runs| && LatestRun(runs, i, p)
    ensures
      var c := CandidateAt(MergeAll(baselines), sides, p).value;
      && c.path == p && c.affected == c.missing.Opposite()
      && c.baselineMissing == Side(runs[i].Sides(), c.missing)[p].state
      && c.baselineRemaining == Side(runs[i].Sides(), c.affected)[p].state
      && p !in Side(sides, c.missing)
      && IncludedAt(Side(sides, c.affected), p) && Side(sides, c.affected)[p].state == c.currentRemaining
      && EqualParts(Last(runs).metadata, c.currentRemaining, c.baselineMissing)
  {
    i := MergedComesFromRun(baselines, runs, p);
    var merged := MergeAll(baselines);
    CandidateExactly(merged, sides, p, CandidateAt(merged, sides, p).value.affected);
  }

  // ----- Decisions -----

  function CandidateFor(candidates: seq<Candidate>, p: Path): Option<Candidate> {
    if candidates == [] then None
    else
      var before := CandidateFor(Init(candidates), p);
      if before == None && Last(candidates).path == p then Some(Last(candidates)) else before
  }

  function Expected(candidates: seq<Candidate>): set<Path> {
    set i | 0 <= i < |candidates| :: candidates[i].path
  }

  lemma {:induction false} CandidateForIs(candidates: seq<Candidate>, p: Path)
    ensures CandidateFor(candidates, p).Some? <==> p in Expected(candidates)
    ensures CandidateFor(candidates, p).Some? ==>
              CandidateFor(candidates, p).value in candidates && CandidateFor(candidates, p).value.path == p
  {
    if candidates != [] {
      CandidateForIs(Init(candidates), p);
      assert forall i :: 0 <= i < |candidates| - 1 ==> Init(candidates)[i] == candidates[i];
      if p in Expected(candidates) && p !in Expected(Init(candidates)) {
        var i :| 0 <= i < |candidates| && candidates[i].path == p;
        assert i == |candidates| - 1;
      }
      if p in Expected(Init(candidates)) {
        var i :| 0 <= i < |Init(candidates)| && Init(candidates)[i].path == p;
        assert candidates[i].path == p;
      }
    }
  }

  predicate DecidedOnce(decisions: seq<Decision>) {
    forall i, j :: 0 <= i < j < |decisions| ==> decisions[i].path != decisions[j].path
  }

  function DecidedPaths(decisions: seq<Decision>): set<Path> {
    set i | 0 <= i < |decisions| :: decisions[i].path
  }

  /** `MirrorDeletionReview::resolve`, before its actions are sorted by path: it succeeds exactly when the decisions
      name each candidate once and nothing else. */
  method Resolve(candidates: seq<Candidate>, decisions: seq<Decision>)
    returns (result: Result<seq<Deletion>, DeletionError>)
    ensures result.Ok? <==> DecidedOnce(decisions) && DecidedPaths(decisions) == Expected(candidates)
    ensures result.Ok? ==>
              && |result.value| == |decisions|
              && forall i :: 0 <= i < |decisions| ==>
                   && result.value[i].candidate in candidates
                   && result.value[i].candidate.path == decisions[i].path
                   && result.value[i].choice == decisions[i].choice
    ensures result.Err? ==>
              match result.error
              case UnknownCandidate(p) => p in DecidedPaths(decisions) && p !in Expected(candidates)
              case DuplicateDecision(p) =>
                exists i, j :: 0 <= i < j < |decisions| && decisions[i].path == decisions[j].path == p
              case MissingDecision(p) =>
                DecidedOnce(decisions) && p in Expected(candidates) && p !in DecidedPaths(decisions)
              case FinalConfirmationRequired => false
  {
    var expected := Expected(candidates);
    var seen: set<Path> := {};
    var deletions: seq<Deletion> := [];
    for i := 0 to |decisions|
      invariant seen == DecidedPaths(decisions[..i]) && seen <= expected && DecidedOnce(decisions[..i])
      invariant |deletions| == i
      invariant forall j :: 0 <= j < i ==>
                  && deletions[j].candidate in candidates
                  && deletions[j].candidate.path == decisions[j].path
                  && deletions[j].choice == decisions[j].choice
    {
      var decision := decisions[i];
      DecideOne(decisions, i);
      if decision.path !in expected {
        assert decisions[i].path in DecidedPaths(decisions);
        return Err(UnknownCandidate(decision.path));
      }
      if decision.path in seen {
        return Err(DuplicateDecision(decision.path));
      }
      seen := seen + {decision.path};
      CandidateForIs(candidates, decision.path);
      deletions := deletions + [Deletion(CandidateFor(candidates, decision.path).value, decision.choice)];
    }
    assert decisions[..|decisions|] == decisions;
    if expected - seen != {} {
      var p :| p in expected - seen;
      return Err(MissingDecision(p));
    }
    assert forall p :: p in expected ==> p in seen || p in expected - seen;
    result := Ok(deletions);
  }

  lemma DecideOne(decisions: seq<Decision>, i: nat)
    requires i < |decisions|
    ensures DecidedPaths(decisions[..i + 1]) == DecidedPaths(decisions[..i]) + {decisions[i].path}
    ensures DecidedOnce(decisions[..i]) ==>
              (DecidedOnce(decisions[..i + 1]) <==> decisions[i].path !in DecidedPaths(decisions[..i]))
    ensures decisions[i].path in DecidedPaths(decisions[..i]) ==>
              !DecidedOnce(decisions) && exists j :: 0 <= j < i && decisions[j].path == decisions[i].path
  {
    var now, before := decisions[..i + 1], decisions[..i];
    assert now[i] == decisions[i];
    assert forall j :: 0 <= j < i ==> now[j] == before[j] == decisions[j];
    if decisions[i].path in DecidedPaths(before) {
      var j :| 0 <= j < i && before[j].path == decisions[i].path;
      assert now[j].path == now[i].path;
    }
  }

  /** `confirm`. */
  function Confirm(deletions: seq<Deletion>, finalConfirmation: bool): Result<seq<Deletion>, DeletionError> {
    if !finalConfirmation then Err(FinalConfirmationRequired) else Ok(deletions)
  }

  /** `deletion_actions` of a confirmed plan. */
  function DeletionActions(deletions: seq<Deletion>): seq<Deletion> {
    if deletions == [] then []
    else DeletionActions(Init(deletions)) + if Last(deletions).MutatesFiles() then [Last(deletions)] else []
  }

  lemma {:induction false} DeletionActionsAre(deletions: seq<Deletion>, d: Deletion)
    ensures d in DeletionActions(deletions) <==> d in deletions && d.choice == DeleteCounterpart
  {
    if deletions != [] {
      DeletionActionsAre(Init(deletions), d);
      assert d in deletions <==> d in Init(deletions) || d == Last(deletions);
    }
  }

  /** The deletions are those of the candidates whose decision says to delete the counterpart. */
  ghost predicate AreDecided(deletions: seq<Deletion>, candidates: seq<Candidate>, decisions: seq<Decision>) {
    && (forall c :: c in candidates ==>
          (Deletion(c, DeleteCounterpart) in deletions <==> Decision(c.path, DeleteCounterpart) in decisions))
    && (forall d :: d in deletions ==> d.candidate in candidates && d.choice == DeleteCounterpart)
  }

  /** From a review to its deletions: a candidate is deleted exactly when the final confirmation was given and its one
      decision says to delete the counterpart. */
  method ReviewedDeletions(candidates: seq<Candidate>, decisions: seq<Decision>, finalConfirmation: bool)
    returns (result: Result<seq<Deletion>, DeletionError>)
    requires forall i, j :: 0 <= i < j < |candidates| ==> candidates[i].path != candidates[j].path
    ensures result.Ok? <==>
              finalConfirmation && DecidedOnce(decisions) && DecidedPaths(decisions) == Expected(candidates)
    ensures result.Ok? ==> AreDecided(result.value, candidates, decisions)
  {
    var plan := Resolve(candidates, decisions);
    if plan.Err? {
      return Err(plan.error);
    }
    var confirmed := Confirm(plan.value, finalConfirmation);
    if confirmed.Err? {
      return Err(confirmed.error);
    }
    result := Ok(DeletionActions(confirmed.value));
    forall d ensures d in result.value <==> d in plan.value && d.choice == DeleteCounterpart {
      DeletionActionsAre(plan.value, d);
    }
    forall c | c in candidates
      ensures Deletion(c, DeleteCounterpart) in result.value <==> Decision(c.path, DeleteCounterpart) in decisions
    {
      if Decision(c.path, DeleteCounterpart) in decisions {
        var i :| 0 <= i < |decisions| && decisions[i] == Decision(c.path, DeleteCounterpart);
        assert plan.value[i].candidate == c && plan.value[i] in plan.value;
      }
      if Deletion(c, DeleteCounterpart) in plan.value {
        var i :| 0 <= i < |plan.value| && plan.value[i] == Deletion(c, DeleteCounterpart);
        assert decisions[i] == Decision(c.path, DeleteCounterpart);
      }
    }
  }

  // ----- Deletions and the Mirror plan -----

  /** Every candidate is also a planned copy, from the peer that would be affected: without a deletion the plan brings
      the item back to the peer it is missing from. */
  lemma CandidateIsCopied(baseline: Baseline, sides: Mirror.Sides, p: Path)
    requires p in baseline.items && CandidateAt(baseline, sides, p).Some?
    ensures CopyStep(sides, p).Some? && CopyStep(sides, p).value.path == p
    ensures CopyStep(sides, p).value.side == CandidateAt(baseline, sides, p).value.affected
  {
  }

  /** Carrying out the Mirror plan instead leaves no candidate: a candidate's item is on both peers again. */
  lemma PlanUndoesDeletion(baseline: Baseline, sides: Mirror.Sides, paths: seq<Path>, p: Path)
    requires Enumerates(paths, sides.a.Keys + sides.b.Keys) && p in baseline.items
    ensures CandidateAt(baseline, Mirrored(sides, paths), p) == None
    ensures CandidateAt(baseline, sides, p).Some? ==>
              var affected := CandidateAt(baseline, sides, p).value.affected;
              Lookup(Mirrored(sides, paths).a, p) == Lookup(Mirrored(sides, paths).b, p) ==
                Some(Side(sides, affected)[p])
  {
    MirrorOutcome(sides, paths, p);
    assert p in paths <==> p in sides.a.Keys + sides.b.Keys;
  }

  /** One deletion, on the affected peer. */
  function Delete(d: Deletion, sides: Mirror.Sides): Mirror.Sides {
    if d.candidate.affected == PeerA then sides.(a := sides.a - {d.candidate.path})
    else sides.(b := sides.b - {d.candidate.path})
  }

  function DeleteAll(deletions: seq<Deletion>, sides: Mirror.Sides): Mirror.Sides {
    if deletions == [] then sides else Delete(Last(deletions), DeleteAll(Init(deletions), sides))
  }

  function DeletedPaths(deletions: seq<Deletion>): set<Path> {
    if deletions == [] then {} else DeletedPaths(Init(deletions)) + {Last(deletions).candidate.path}
  }

  /** Deletions of candidates, whatever the baseline was that gave them: each affects the one peer that has the item. */
  predicate AreOneSided(deletions: seq<Deletion>, sides: Mirror.Sides) {
    forall i :: 0 <= i < |deletions| ==>
      deletions[i].candidate.path !in Side(sides, deletions[i].candidate.affected.Opposite())
  }

  /** A deleted path is gone from both peers, and every other path is as it was. */
  lemma {:induction false} DeletionOutcome(deletions: seq<Deletion>, sides: Mirror.Sides, p: Path)
    requires AreOneSided(deletions, sides)
    ensures
      var after := DeleteAll(deletions, sides);
      if p in DeletedPaths(deletions) then p !in after.a && p !in after.b else SameAt(after, sides, p)
  {
    if deletions != [] {
      var before := Init(deletions);
      assert forall i :: 0 <= i < |before| ==> before[i] == deletions[i];
      DeletionOutcome(before, sides, p);
      assert deletions[|deletions| - 1] == Last(deletions);
    }
  }

  lemma {:induction false} DeletedPathsAre(deletions: seq<Deletion>, p: Path)
    ensures p in DeletedPaths(deletions) <==> exists d :: d in deletions && d.candidate.path == p
  {
    if deletions != [] {
      DeletedPathsAre(Init(deletions), p);
      assert forall d :: d in deletions <==> d in Init(deletions) || d == Last(deletions);
    }
  }

  /** The candidate and its decision to delete the counterpart. */
  predicate IsDeleted(baseline: Baseline, sides: Mirror.Sides, decisions: seq<Decision>, p: Path) {
    && p in baseline.items && CandidateAt(baseline, sides, p).Some?
    && Decision(p, DeleteCounterpart) in decisions
  }

  lemma ReviewDeletes(baseline: Baseline, sides: Mirror.Sides, candidates: seq<Candidate>, decisions: seq<Decision>,
                      deletions: seq<Deletion>, p: Path)
    requires AreCandidates(candidates, baseline, sides) && AreDecided(deletions, candidates, decisions)
    ensures AreOneSided(deletions, sides)
    ensures p in DeletedPaths(deletions) <==> IsDeleted(baseline, sides, decisions, p)
  {
    forall i | 0 <= i < |deletions|
      ensures deletions[i].candidate.path !in Side(sides, deletions[i].candidate.affected.Opposite())
    {
      assert deletions[i] in deletions && deletions[i].candidate in candidates;
    }
    DeletedPathsAre(deletions, p);
    if p in DeletedPaths(deletions) {
      var d :| d in deletions && d.candidate.path == p;
      assert d == Deletion(d.candidate, DeleteCounterpart) && d.candidate in candidates;
    }
    if IsDeleted(baseline, sides, decisions, p) {
      var c := CandidateAt(baseline, sides, p).value;
      assert c.path == p && c in candidates;
      assert Deletion(c, DeleteCounterpart) in deletions;
    }
  }

  /** After the confirmed deletions, against the same baseline: a path decided to be deleted is gone from both peers, is
      no candidate and is not copied any more; every other path has the candidate and the planned copy it had. */
  lemma DeletionsExactly(baseline: Baseline, sides: Mirror.Sides, candidates: seq<Candidate>,
                         decisions: seq<Decision>, deletions: seq<Deletion>, p: Path)
    requires AreCandidates(candidates, baseline, sides) && AreDecided(deletions, candidates, decisions)
    ensures
      var after := DeleteAll(deletions, sides);
      if IsDeleted(baseline, sides, decisions, p) then
        p !in after.a && p !in after.b && CopyStep(after, p) == None && CandidateAt(baseline, after, p) == None
      else
        && SameAt(after, sides, p) && CopyStep(after, p) == CopyStep(sides, p)
        && (p in baseline.items ==> CandidateAt(baseline, after, p) == CandidateAt(baseline, sides, p))
  {
    ReviewDeletes(baseline, sides, candidates, decisions, deletions, p);
    DeletionOutcome(deletions, sides, p);
  }

  /** Deleting first and mirroring then: what was deleted stays away from both peers, no candidate is left, and there is
      nothing more to copy. A candidate that was preserved or deferred is on both peers again. */
  lemma DeletionsThenPlan(baseline: Baseline, sides: Mirror.Sides, candidates: seq<Candidate>,
                          decisions: seq<Decision>, deletions: seq<Deletion>, paths: seq<Path>, nextPaths: seq<Path>,
                          p: Path)
    requires AreCandidates(candidates, baseline, sides) && AreDecided(deletions, candidates, decisions)
    requires
      var after := DeleteAll(deletions, sides);
      Enumerates(paths, after.a.Keys + after.b.Keys) &&
      Enumerates(nextPaths, Mirrored(after, paths).a.Keys + Mirrored(after, paths).b.Keys)
    ensures
      var last := Mirrored(DeleteAll(deletions, sides), paths);
      && MirrorSteps(last, nextPaths) == []
      && (IsDeleted(baseline, sides, decisions, p) ==> p !in last.a && p !in last.b)
      && (p in baseline.items ==> CandidateAt(baseline, last, p) == None)
      && (p in baseline.items && CandidateAt(baseline, sides, p).Some? && !IsDeleted(baseline, sides, decisions, p) ==>
            p in last.a && p in last.b && last.a[p] == last.b[p])
  {
    var after := DeleteAll(deletions, sides);
    DeletionsExactly(baseline, sides, candidates, decisions, deletions, p);
    MirrorConverges(after, paths, nextPaths);
    MirrorOutcome(after, paths, p);
    assert p in paths <==> p in after.a.Keys + after.b.Keys;
  }
}
