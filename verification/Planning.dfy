/** The one-way plan: what it holds, what carrying it out does to the two peers, and what the next plan is. */
module Planning {
  import opened Common
  import opened Equality

  datatype Options = Options(
    safeDelete: bool, destinationCleanup: bool, metadata: MetadataRequirements, sourceSide: PeerSide)

  datatype Step = Step(path: Path, kind: PlanActionKind, side: PeerSide, size: Option<U64>)

  datatype Action = Action(id: nat, step: Step)

  datatype Summary = Summary(
    considered: nat, included: nat, excluded: nat,
    copies: nat, copyBytes: nat, overwrites: nat, overwriteBytes: nat,
    destinationRemovals: nat, destinationRemovalBytes: nat, sourceRemovals: nat, sourceRemovalBytes: nat)

  datatype Plan = Plan(actions: seq<Action>, summary: Summary)

  datatype PlanError =
    | ActionOutsideApprovedScope(path: Path)
    | ActionNotAllowed(kind: PlanActionKind)
    | SummaryMismatch

  function DataSize(item: Item): Option<U64> {
    if item.state.itemType == RegularFile then Some(item.state.size) else None
  }

  // ----- The plan as a function of two inventories -----

  function TransferKind(o: Options, item: Item, destinationItem: Option<Item>): Option<PlanActionKind> {
    match destinationItem
    case None => Some(CopyToDestination)
    case Some(existing) =>
      if !existing.Eligible() then None
      else if !EqualItems(o.metadata, item, existing) then Some(OverwriteDestination)
      else None
  }

  function TransferSteps(o: Options, destination: map<Path, Item>, item: Item): seq<Step> {
    match TransferKind(o, item, Lookup(destination, item.path))
    case None => []
    case Some(kind) => [Step(item.path, kind, o.sourceSide, DataSize(item))]
  }

  function SourceRemovalSteps(o: Options, destination: map<Path, Item>, item: Item): seq<Step> {
    if o.safeDelete && Replaceable(destination, item.path) && item.state.itemType in {RegularFile, Symlink} then
      [Step(item.path, RemoveSourceAfterVerification, o.sourceSide, DataSize(item))]
    else []
  }

  function ItemSteps(o: Options, destination: map<Path, Item>, item: Item): seq<Step> {
    if item.Eligible() then TransferSteps(o, destination, item) + SourceRemovalSteps(o, destination, item) else []
  }

  function SourceSteps(o: Options, destination: map<Path, Item>, items: seq<Item>): seq<Step> {
    if items == [] then []
    else SourceSteps(o, destination, Init(items)) + ItemSteps(o, destination, Last(items))
  }

  function CleanupStep(o: Options, source: map<Path, Item>, item: Item): seq<Step> {
    if o.destinationCleanup && item.Eligible() && item.path !in source then
      [Step(item.path, RemoveDestination, o.sourceSide, DataSize(item))]
    else []
  }

  function CleanupSteps(o: Options, source: map<Path, Item>, items: seq<Item>): seq<Step> {
    if items == [] then [] else CleanupSteps(o, source, Init(items)) + CleanupStep(o, source, Last(items))
  }

  function OneWaySteps(o: Options, source: seq<Item>, destination: seq<Item>): seq<Step> {
    SourceSteps(o, ByPath(destination), source) + CleanupSteps(o, ByPath(source), destination)
  }

  /** The actions are these steps with the ids 1 to n. */
  predicate Numbers(actions: seq<Action>, steps: seq<Step>) {
    && |actions| == |steps|
    && forall i :: 0 <= i < |steps| ==> actions[i] == Action(i + 1, steps[i])
  }

  // ----- What belongs in the plan -----

  /** The bytes a step is counted with: those of a regular file, and none for anything else. */
  predicate Sized(step: Step, item: Item) {
    match step.size
    case Some(bytes) => item.state.itemType == RegularFile && bytes == item.state.size
    case None => item.state.itemType != RegularFile
  }

  /** The step is called for by the two states, whatever order the plan is built in. */
  predicate Due(o: Options, source: map<Path, Item>, destination: map<Path, Item>, step: Step) {
    var p := step.path;
    && step.side == o.sourceSide
    && match step.kind
       case CopyToDestination =>
         IncludedAt(source, p) && p !in destination && Sized(step, source[p])
       case OverwriteDestination =>
         && IncludedAt(source, p) && IncludedAt(destination, p)
         && !EqualItems(o.metadata, source[p], destination[p]) && Sized(step, source[p])
       case RemoveDestination =>
         o.destinationCleanup && p !in source && IncludedAt(destination, p) && Sized(step, destination[p])
       case RemoveSourceAfterVerification =>
         Drained(o, source, destination, p) && Sized(step, source[p])
  }

  /** Safe Delete takes the source item at this path away. */
  predicate Drained(o: Options, source: map<Path, Item>, destination: map<Path, Item>, p: Path) {
    && o.safeDelete && IncludedAt(source, p) && Replaceable(destination, p)
    && source[p].state.itemType in {RegularFile, Symlink}
  }

  lemma {:induction false} SourceStepsAre(o: Options, destination: map<Path, Item>, items: seq<Item>, step: Step)
    ensures step in SourceSteps(o, destination, items) <==>
            exists i :: 0 <= i < |items| && step in ItemSteps(o, destination, items[i])
  {
    if items != [] {
      var before := Init(items);
      SourceStepsAre(o, destination, before, step);
      assert step in SourceSteps(o, destination, items) <==>
             step in SourceSteps(o, destination, before) || step in ItemSteps(o, destination, items[|items| - 1]);
      assert forall i :: 0 <= i < |before| ==> before[i] == items[i];
      if i :| 0 <= i < |before| && step in ItemSteps(o, destination, before[i]) {
        assert step in ItemSteps(o, destination, items[i]);
      }
    }
  }

  lemma {:induction false} CleanupStepsAre(o: Options, source: map<Path, Item>, items: seq<Item>, step: Step)
    ensures step in CleanupSteps(o, source, items) <==>
            exists i :: 0 <= i < |items| && step in CleanupStep(o, source, items[i])
  {
    if items != [] {
      var before := Init(items);
      CleanupStepsAre(o, source, before, step);
      assert step in CleanupSteps(o, source, items) <==>
             step in CleanupSteps(o, source, before) || step in CleanupStep(o, source, items[|items| - 1]);
      assert forall i :: 0 <= i < |before| ==> before[i] == items[i];
      if i :| 0 <= i < |before| && step in CleanupStep(o, source, before[i]) {
        assert step in CleanupStep(o, source, items[i]);
      }
    }
  }

  lemma ItemStepsAre(o: Options, source: map<Path, Item>, destination: map<Path, Item>, item: Item, step: Step)
    requires Lookup(source, item.path) == Some(item)
    ensures step in ItemSteps(o, destination, item) <==>
            step.path == item.path && Due(o, source, destination, step) && step.kind != RemoveDestination
  {
    match step.kind
    case CopyToDestination =>
    case OverwriteDestination =>
    case RemoveDestination =>
    case RemoveSourceAfterVerification =>
  }

  lemma CleanupStepIs(o: Options, source: map<Path, Item>, destination: map<Path, Item>, item: Item, step: Step)
    requires Lookup(destination, item.path) == Some(item)
    ensures step in CleanupStep(o, source, item) <==>
            step.path == item.path && Due(o, source, destination, step) && step.kind == RemoveDestination
  {
  }

  /** The plan holds exactly the steps that are due. */
  lemma PlanHoldsWhatIsDue(o: Options, source: seq<Item>, destination: seq<Item>, step: Step)
    requires UniquePaths(source) && UniquePaths(destination)
    ensures step in OneWaySteps(o, source, destination) <==> Due(o, ByPath(source), ByPath(destination), step)
  {
    var s, d := ByPath(source), ByPath(destination);
    assert step in OneWaySteps(o, source, destination) <==>
           step in SourceSteps(o, d, source) || step in CleanupSteps(o, s, destination);
    assert step in SourceSteps(o, d, source) <==> Due(o, s, d, step) && step.kind != RemoveDestination by {
      SourceStepsAre(o, d, source, step);
      ByPathHolds(source);
      forall i | 0 <= i < |source|
        ensures step in ItemSteps(o, d, source[i]) <==>
                step.path == source[i].path && Due(o, s, d, step) && step.kind != RemoveDestination
      {
        ItemStepsAre(o, s, d, source[i], step);
      }
    }
    assert step in CleanupSteps(o, s, destination) <==> Due(o, s, d, step) && step.kind == RemoveDestination by {
      CleanupStepsAre(o, s, destination, step);
      ByPathHolds(destination);
      forall i | 0 <= i < |destination|
        ensures step in CleanupStep(o, s, destination[i]) <==>
                step.path == destination[i].path && Due(o, s, d, step) && step.kind == RemoveDestination
      {
        CleanupStepIs(o, s, d, destination[i], step);
      }
    }
  }

  predicate IsTransfer(kind: PlanActionKind) {
    kind.CopyToDestination? || kind.OverwriteDestination?
  }

  /** Two steps for one path are a transfer and, behind it, the removal of the source. */
  predicate Ordered(steps: seq<Step>) {
    forall i, j :: 0 <= i < j < |steps| && steps[i].path == steps[j].path ==>
      IsTransfer(steps[i].kind) && steps[j].kind == RemoveSourceAfterVerification
  }

  predicate PathsOf(steps: seq<Step>, items: seq<Item>) {
    forall s :: s in steps ==> exists i :: 0 <= i < |items| && items[i].path == s.path
  }

  lemma OrderedTogether(first: seq<Step>, second: seq<Step>)
    requires Ordered(first) && Ordered(second)
    requires forall s, t :: s in first && t in second ==> s.path != t.path
    ensures Ordered(first + second)
  {
    var both := first + second;
    forall i, j | 0 <= i < |first| <= j < |both| ensures both[i].path != both[j].path {
      assert both[i] in first && both[j] == second[j - |first|];
    }
    forall i, j | 0 <= i < j < |both| && both[i].path == both[j].path
      ensures IsTransfer(both[i].kind) && both[j].kind == RemoveSourceAfterVerification
    {
      assert j < |first| || |first| <= i;
      assert j < |first| ==> first[i].path == first[j].path;
      assert |first| <= i ==> second[i - |first|].path == second[j - |first|].path;
    }
  }

  lemma StepsOfItemsOrdered(before: seq<Step>, own: seq<Step>, items: seq<Item>)
    requires items != [] && UniquePaths(items)
    requires Ordered(before) && Ordered(own) && PathsOf(before, Init(items))
    requires forall s :: s in own ==> s.path == Last(items).path
    ensures Ordered(before + own) && PathsOf(before + own, items)
  {
    forall s | s in before ensures s.path != Last(items).path {
      var i :| 0 <= i < |Init(items)| && Init(items)[i].path == s.path;
    }
    OrderedTogether(before, own);
    forall s | s in before + own ensures exists i :: 0 <= i < |items| && items[i].path == s.path {
      if s in before {
        var i :| 0 <= i < |Init(items)| && Init(items)[i].path == s.path;
        assert items[i].path == s.path;
      } else {
        assert items[|items| - 1].path == s.path;
      }
    }
  }

  lemma {:induction false} SourceStepsOrdered(o: Options, destination: map<Path, Item>, items: seq<Item>)
    requires UniquePaths(items)
    ensures Ordered(SourceSteps(o, destination, items)) && PathsOf(SourceSteps(o, destination, items), items)
  {
    if items != [] {
      SourceStepsOrdered(o, destination, Init(items));
      StepsOfItemsOrdered(SourceSteps(o, destination, Init(items)), ItemSteps(o, destination, Last(items)), items);
    }
  }

  lemma {:induction false} CleanupStepsOrdered(o: Options, source: map<Path, Item>, items: seq<Item>)
    requires UniquePaths(items)
    ensures Ordered(CleanupSteps(o, source, items)) && PathsOf(CleanupSteps(o, source, items), items)
    ensures forall s :: s in CleanupSteps(o, source, items) ==> s.path !in source
  {
    if items != [] {
      CleanupStepsOrdered(o, source, Init(items));
      StepsOfItemsOrdered(CleanupSteps(o, source, Init(items)), CleanupStep(o, source, Last(items)), items);
    }
  }

  /** No step is planned twice, and two steps for one path are its transfer and, behind it, the removal of the source.
      */
  lemma PlanIsOrdered(o: Options, source: seq<Item>, destination: seq<Item>)
    requires UniquePaths(source) && UniquePaths(destination)
    ensures Ordered(OneWaySteps(o, source, destination))
  {
    var first, second := SourceSteps(o, ByPath(destination), source), CleanupSteps(o, ByPath(source), destination);
    SourceStepsOrdered(o, ByPath(destination), source);
    CleanupStepsOrdered(o, ByPath(source), destination);
    ByPathHolds(source);
    forall s, t | s in first && t in second ensures s.path != t.path {
      var i :| 0 <= i < |source| && source[i].path == s.path;
      assert source[i].path in ByPath(source);
    }
    OrderedTogether(first, second);
  }

  ghost predicate PlansTransfer(steps: seq<Step>, p: Path) {
    exists step :: step in steps && step.path == p && IsTransfer(step.kind)
  }

  ghost predicate PlansSourceRemoval(steps: seq<Step>, p: Path) {
    exists step :: step in steps && step.path == p && step.kind == RemoveSourceAfterVerification
  }

  lemma PlansTransferExactly(o: Options, source: seq<Item>, destination: seq<Item>, p: Path)
    requires UniquePaths(source) && UniquePaths(destination)
    ensures
      var s, d := ByPath(source), ByPath(destination);
      PlansTransfer(OneWaySteps(o, source, destination), p) <==>
      IncludedAt(s, p) && Replaceable(d, p) && (p in d ==> !EqualItems(o.metadata, s[p], d[p]))
  {
    var s, d, steps := ByPath(source), ByPath(destination), OneWaySteps(o, source, destination);
    if PlansTransfer(steps, p) {
      var step :| step in steps && step.path == p && IsTransfer(step.kind);
      PlanHoldsWhatIsDue(o, source, destination, step);
    }
    if IncludedAt(s, p) && Replaceable(d, p) && (p in d ==> !EqualItems(o.metadata, s[p], d[p])) {
      var kind := if p in d then OverwriteDestination else CopyToDestination;
      var step := Step(p, kind, o.sourceSide, DataSize(s[p]));
      PlanHoldsWhatIsDue(o, source, destination, step);
      assert step in steps && IsTransfer(step.kind);
    }
  }

  lemma PlansSourceRemovalExactly(o: Options, source: seq<Item>, destination: seq<Item>, p: Path)
    requires UniquePaths(source) && UniquePaths(destination)
    ensures PlansSourceRemoval(OneWaySteps(o, source, destination), p) <==>
            Drained(o, ByPath(source), ByPath(destination), p)
  {
    var s, d, steps := ByPath(source), ByPath(destination), OneWaySteps(o, source, destination);
    if PlansSourceRemoval(steps, p) {
      var step :| step in steps && step.path == p && step.kind == RemoveSourceAfterVerification;
      PlanHoldsWhatIsDue(o, source, destination, step);
    }
    if Drained(o, s, d, p) {
      var step := Step(p, RemoveSourceAfterVerification, o.sourceSide, DataSize(s[p]));
      PlanHoldsWhatIsDue(o, source, destination, step);
      assert step in steps;
    }
  }

  /** A source is removed without a transfer in the same plan exactly when Safe Delete drains it and the destination
      already holds its equal. */
  lemma LoneRemovalExactly(o: Options, source: seq<Item>, destination: seq<Item>, p: Path)
    requires UniquePaths(source) && UniquePaths(destination)
    ensures
      var s, d, steps := ByPath(source), ByPath(destination), OneWaySteps(o, source, destination);
      PlansSourceRemoval(steps, p) && !PlansTransfer(steps, p) <==>
      Drained(o, s, d, p) && p in d && EqualItems(o.metadata, s[p], d[p])
  {
    PlansTransferExactly(o, source, destination, p);
    PlansSourceRemovalExactly(o, source, destination, p);
  }

  // ----- Carrying the plan out -----

  datatype Peers = Peers(source: map<Path, Item>, destination: map<Path, Item>)

  datatype Cell = Cell(source: Option<Item>, destination: Option<Item>)

  function At(peers: Peers, p: Path): Cell {
    Cell(Lookup(peers.source, p), Lookup(peers.destination, p))
  }

  /** One step on the flat path maps; a step whose item is gone does nothing. */
  function Apply(step: Step, peers: Peers): Peers {
    var p := step.path;
    match step.kind
    case CopyToDestination | OverwriteDestination =>
      if p in peers.source then peers.(destination := peers.destination[p := peers.source[p]]) else peers
    case RemoveDestination => peers.(destination := peers.destination - {p})
    case RemoveSourceAfterVerification => peers.(source := peers.source - {p})
  }

  function ApplyAll(steps: seq<Step>, peers: Peers): Peers {
    if steps == [] then peers else Apply(Last(steps), ApplyAll(Init(steps), peers))
  }

  lemma {:induction false} ApplyInTwoParts(first: seq<Step>, second: seq<Step>, peers: Peers)
    ensures ApplyAll(first + second, peers) == ApplyAll(second, ApplyAll(first, peers))
  {
    if second == [] {
      assert first + second == first;
    } else {
      ApplyInTwoParts(first, Init(second), peers);
      assert Init(first + second) == first + Init(second) && Last(first + second) == Last(second);
    }
  }

  /** What the plan makes of one path. */
  function ResultAt(o: Options, before: Cell): Cell {
    if before.source.Some? && before.source.value.Eligible() then
      var item := before.source.value;
      if before.destination.Some? && !before.destination.value.Eligible() then before
      else
        Cell(if o.safeDelete && item.state.itemType in {RegularFile, Symlink} then None else before.source,
             if before.destination.Some? && EqualItems(o.metadata, item, before.destination.value)
             then before.destination
             else before.source)
    else if before.source == None && before.destination.Some? && before.destination.value.Eligible() &&
            o.destinationCleanup then Cell(None, None)
    else before
  }

  lemma {:induction false} SourceStepsAt(o: Options, items: seq<Item>, destination: map<Path, Item>, peers: Peers,
                                         p: Path)
    requires UniquePaths(items)
    requires forall i :: 0 <= i < |items| ==> items[i].path in peers.source && peers.source[items[i].path] == items[i]
    requires peers.destination == destination
    ensures
      var after := At(ApplyAll(SourceSteps(o, destination, items), peers), p);
      if IncludedAt(ByPath(items), p) then after == ResultAt(o, At(peers, p)) else after == At(peers, p)
  {
    if items != [] {
      var item := Last(items);
      var own := ItemSteps(o, destination, item);
      var between := ApplyAll(SourceSteps(o, destination, Init(items)), peers);
      SourceStepsAt(o, Init(items), destination, peers, p);
      ApplyInTwoParts(SourceSteps(o, destination, Init(items)), own, peers);
      ByPathHolds(Init(items));
      if item.path == p {
        assert p !in ByPath(Init(items));
        assert At(between, p) == At(peers, p);
      }
      ItemStepsAt(o, item, destination, between, p);
    }
  }

  lemma ApplyAtMostOne(steps: seq<Step>, peers: Peers)
    requires |steps| <= 1
    ensures ApplyAll(steps, peers) == if steps == [] then peers else Apply(steps[0], peers)
  {
    if steps != [] {
      assert Init(steps) == [];
      assert ApplyAll([], peers) == peers;
    }
  }

  lemma ApplyAt(step: Step, peers: Peers, p: Path)
    ensures At(Apply(step, peers), p) ==
            if step.path != p then At(peers, p)
            else match step.kind
                 case CopyToDestination | OverwriteDestination =>
                   if p in peers.source then At(peers, p).(destination := Lookup(peers.source, p)) else At(peers, p)
                 case RemoveDestination => At(peers, p).(destination := None)
                 case RemoveSourceAfterVerification => At(peers, p).(source := None)
  {
  }

  lemma TransferAt(o: Options, item: Item, destination: map<Path, Item>, peers: Peers, p: Path)
    requires item.path == p ==> Lookup(peers.source, p) == Some(item)
    ensures
      var steps := TransferSteps(o, destination, item);
      At(ApplyAll(steps, peers), p) ==
        if item.path == p && steps != [] then At(peers, p).(destination := Some(item)) else At(peers, p)
  {
    var steps := TransferSteps(o, destination, item);
    ApplyAtMostOne(steps, peers);
    if steps != [] { ApplyAt(steps[0], peers, p); }
  }

  lemma SourceRemovalAt(o: Options, item: Item, destination: map<Path, Item>, peers: Peers, p: Path)
    ensures
      var steps := SourceRemovalSteps(o, destination, item);
      At(ApplyAll(steps, peers), p) ==
        if item.path == p && steps != [] then At(peers, p).(source := None) else At(peers, p)
  {
    var steps := SourceRemovalSteps(o, destination, item);
    ApplyAtMostOne(steps, peers);
    if steps != [] { ApplyAt(steps[0], peers, p); }
  }

  lemma ItemStepsAt(o: Options, item: Item, destination: map<Path, Item>, peers: Peers, p: Path)
    requires item.path == p ==>
               Lookup(peers.source, p) == Some(item) && Lookup(peers.destination, p) == Lookup(destination, p)
    ensures
      var after := At(ApplyAll(ItemSteps(o, destination, item), peers), p);
      if item.path == p && item.Eligible() then after == ResultAt(o, At(peers, p)) else after == At(peers, p)
  {
    if item.Eligible() {
      var transfer, removal := TransferSteps(o, destination, item), SourceRemovalSteps(o, destination, item);
      var between := ApplyAll(transfer, peers);
      ApplyInTwoParts(transfer, removal, peers);
      TransferAt(o, item, destination, peers, p);
      SourceRemovalAt(o, item, destination, between, p);
    }
  }

  lemma CleanupStepAt(o: Options, source: map<Path, Item>, item: Item, peers: Peers, p: Path)
    ensures
      var steps := CleanupStep(o, source, item);
      At(ApplyAll(steps, peers), p) ==
        if item.path == p && steps != [] then At(peers, p).(destination := None) else At(peers, p)
  {
    var steps := CleanupStep(o, source, item);
    ApplyAtMostOne(steps, peers);
    if steps != [] { ApplyAt(steps[0], peers, p); }
  }

  lemma {:induction false} CleanupStepsAt(o: Options, source: map<Path, Item>, items: seq<Item>, peers: Peers, p: Path)
    requires UniquePaths(items)
    ensures
      var after := At(ApplyAll(CleanupSteps(o, source, items), peers), p);
      if o.destinationCleanup && p !in source && IncludedAt(ByPath(items), p)
      then after == At(peers, p).(destination := None)
      else after == At(peers, p)
  {
    if items != [] {
      var between := ApplyAll(CleanupSteps(o, source, Init(items)), peers);
      CleanupStepsAt(o, source, Init(items), peers, p);
      ByPathHolds(Init(items));
      ApplyInTwoParts(CleanupSteps(o, source, Init(items)), CleanupStep(o, source, Last(items)), peers);
      CleanupStepAt(o, source, Last(items), between, p);
    }
  }

  function CarriedOut(o: Options, source: seq<Item>, destination: seq<Item>): Peers {
    ApplyAll(OneWaySteps(o, source, destination), Peers(ByPath(source), ByPath(destination)))
  }

  /** Carrying the plan out gives every path its own result, independent of all others. */
  lemma PlanOutcome(o: Options, source: seq<Item>, destination: seq<Item>, p: Path)
    requires UniquePaths(source) && UniquePaths(destination)
    ensures At(CarriedOut(o, source, destination), p) == ResultAt(o, At(Peers(ByPath(source), ByPath(destination)), p))
  {
    var before := Peers(ByPath(source), ByPath(destination));
    ByPathHolds(source);
    SourceStepsAt(o, source, before.destination, before, p);
    var between := ApplyAll(SourceSteps(o, before.destination, source), before);
    CleanupStepsAt(o, before.source, destination, between, p);
    ApplyInTwoParts(SourceSteps(o, before.destination, source), CleanupSteps(o, before.source, destination), before);
  }

  /** Whatever the options, no version of a source item is lost: it stays, or the destination holds it or its equal.
      Paths the analysis did not include on the destination are not touched. */
  lemma NothingIsLost(o: Options, source: seq<Item>, destination: seq<Item>, p: Path)
    requires UniquePaths(source) && UniquePaths(destination)
    ensures
      var before, after := At(Peers(ByPath(source), ByPath(destination)), p), At(CarriedOut(o, source, destination), p);
      && (before.source.Some? && after.source != before.source ==>
            && after.source == None && after.destination.Some?
            && (after.destination == before.source
                || EqualItems(o.metadata, before.source.value, after.destination.value)))
      && (before.destination.Some? && !before.destination.value.Eligible() ==> after == before)
  {
    PlanOutcome(o, source, destination, p);
  }

  predicate Settles(o: Options, source: map<Path, Item>, destination: map<Path, Item>, p: Path) {
    IncludedAt(source, p) && Replaceable(destination, p) ==>
      if Drained(o, source, destination, p) then !o.destinationCleanup else Comparable(o.metadata, source[p].state)
  }

  /** Nothing is due at this path. */
  ghost predicate Quiet(o: Options, peers: Peers, p: Path) {
    forall step: Step :: step.path == p ==> !Due(o, peers.source, peers.destination, step)
  }

  lemma EmptyIsQuiet(o: Options, source: seq<Item>, destination: seq<Item>, p: Path)
    requires UniquePaths(source) && UniquePaths(destination) && OneWaySteps(o, source, destination) == []
    ensures Quiet(o, Peers(ByPath(source), ByPath(destination)), p)
  {
    forall step: Step ensures !Due(o, ByPath(source), ByPath(destination), step) {
      PlanHoldsWhatIsDue(o, source, destination, step);
    }
  }

  lemma SomePathIsDue(o: Options, source: seq<Item>, destination: seq<Item>) returns (p: Path)
    requires UniquePaths(source) && UniquePaths(destination) && OneWaySteps(o, source, destination) != []
    ensures !Quiet(o, Peers(ByPath(source), ByPath(destination)), p)
  {
    var step := OneWaySteps(o, source, destination)[0];
    PlanHoldsWhatIsDue(o, source, destination, step);
    p := step.path;
  }

  lemma QuietExactly(o: Options, peers: Peers, p: Path)
    ensures Quiet(o, peers, p) <==>
            && (IncludedAt(peers.source, p) ==> p in peers.destination)
            && (IncludedAt(peers.source, p) && IncludedAt(peers.destination, p) ==>
                  EqualItems(o.metadata, peers.source[p], peers.destination[p]))
            && (o.destinationCleanup && IncludedAt(peers.destination, p) ==> p in peers.source)
            && !Drained(o, peers.source, peers.destination, p)
  {
    var s, d := peers.source, peers.destination;
    if IncludedAt(s, p) {
      var size := DataSize(s[p]);
      var copy := Step(p, CopyToDestination, o.sourceSide, size);
      var overwrite := Step(p, OverwriteDestination, o.sourceSide, size);
      var drain := Step(p, RemoveSourceAfterVerification, o.sourceSide, size);
      assert p !in d ==> Due(o, s, d, copy);
      assert IncludedAt(d, p) && !EqualItems(o.metadata, s[p], d[p]) ==> Due(o, s, d, overwrite);
      assert Drained(o, s, d, p) ==> Due(o, s, d, drain);
    } else if p !in s && IncludedAt(d, p) {
      assert o.destinationCleanup ==> Due(o, s, d, Step(p, RemoveDestination, o.sourceSide, DataSize(d[p])));
    }
  }

  lemma SettlesExactly(o: Options, before: Peers, after: Peers, p: Path)
    requires At(after, p) == ResultAt(o, At(before, p))
    ensures Quiet(o, after, p) <==> Settles(o, before.source, before.destination, p)
  {
    QuietExactly(o, after, p);
    if IncludedAt(before.source, p) && Replaceable(before.destination, p) {
      var item := before.source[p].state;
      EqualityIsSameView(o.metadata, item, item);
      if p in before.destination {
        EqualityIsSameView(o.metadata, item, before.destination[p].state);
      }
    }
  }

  /** Every transferable source item can be compared with itself, or is drained without Destination Cleanup. */
  ghost predicate AllSettle(o: Options, source: map<Path, Item>, destination: map<Path, Item>) {
    forall p :: Settles(o, source, destination, p)
  }

  ghost predicate IsResult(o: Options, before: Peers, after: Peers) {
    forall p :: At(after, p) == ResultAt(o, At(before, p))
  }

  lemma PlanGivesResult(o: Options, source: seq<Item>, destination: seq<Item>)
    requires UniquePaths(source) && UniquePaths(destination)
    ensures IsResult(o, Peers(ByPath(source), ByPath(destination)), CarriedOut(o, source, destination))
  {
    forall p
      ensures At(CarriedOut(o, source, destination), p) ==
              ResultAt(o, At(Peers(ByPath(source), ByPath(destination)), p))
    {
      PlanOutcome(o, source, destination, p);
    }
  }

  lemma NextPlanSettles(o: Options, before: Peers, nextSource: seq<Item>, nextDestination: seq<Item>)
    requires UniquePaths(nextSource) && UniquePaths(nextDestination)
    requires IsResult(o, before, Peers(ByPath(nextSource), ByPath(nextDestination)))
    ensures OneWaySteps(o, nextSource, nextDestination) == [] <==>
            AllSettle(o, before.source, before.destination)
  {
    var after := Peers(ByPath(nextSource), ByPath(nextDestination));
    if OneWaySteps(o, nextSource, nextDestination) == [] {
      forall p ensures Settles(o, before.source, before.destination, p) {
        EmptyIsQuiet(o, nextSource, nextDestination, p);
        SettlesExactly(o, before, after, p);
      }
    } else {
      var p := SomePathIsDue(o, nextSource, nextDestination);
      SettlesExactly(o, before, after, p);
      assert !Settles(o, before.source, before.destination, p);
    }
  }

  /** The plan of the state the first plan leaves behind is empty exactly when every transferable source item can be
      compared with itself and, with Destination Cleanup, Safe Delete drained nothing. */
  lemma NextPlanEmptyExactly(o: Options, source: seq<Item>, destination: seq<Item>,
                             nextSource: seq<Item>, nextDestination: seq<Item>)
    requires UniquePaths(source) && UniquePaths(destination)
    requires Lists(nextSource, CarriedOut(o, source, destination).source)
    requires Lists(nextDestination, CarriedOut(o, source, destination).destination)
    ensures OneWaySteps(o, nextSource, nextDestination) == [] <==>
            AllSettle(o, ByPath(source), ByPath(destination))
  {
    PlanGivesResult(o, source, destination);
    NextPlanSettles(o, Peers(ByPath(source), ByPath(destination)), nextSource, nextDestination);
  }

  /** With Safe Delete off the next plan is empty exactly when every transferable source item equals itself. */
  lemma OneWayConverges(o: Options, source: seq<Item>, destination: seq<Item>,
                        nextSource: seq<Item>, nextDestination: seq<Item>)
    requires UniquePaths(source) && UniquePaths(destination) && !o.safeDelete
    requires Lists(nextSource, CarriedOut(o, source, destination).source)
    requires Lists(nextDestination, CarriedOut(o, source, destination).destination)
    ensures OneWaySteps(o, nextSource, nextDestination) == [] <==>
            forall p :: IncludedAt(ByPath(source), p) && Replaceable(ByPath(destination), p) ==>
              EqualItems(o.metadata, ByPath(source)[p], ByPath(source)[p])
  {
    var s, d := ByPath(source), ByPath(destination);
    NextPlanEmptyExactly(o, source, destination, nextSource, nextDestination);
    forall p
      ensures Settles(o, s, d, p) <==>
              (IncludedAt(s, p) && Replaceable(d, p) ==> EqualItems(o.metadata, s[p], s[p]))
    {
      if IncludedAt(s, p) { EqualityIsSameView(o.metadata, s[p].state, s[p].state); }
    }
  }

  // ----- Run after run -----

  datatype Inventories = Inventories(source: seq<Item>, destination: seq<Item>)
  {
    predicate Valid() {
      UniquePaths(source) && UniquePaths(destination)
    }

    function Held(): Peers {
      Peers(ByPath(source), ByPath(destination))
    }
  }

  /** Each run finds what the run before it left, and nothing else happens between them. */
  ghost predicate Successive(o: Options, runs: seq<Inventories>) {
    && (forall i :: 0 <= i < |runs| ==> runs[i].Valid())
    && (forall i :: 0 < i < |runs| ==> runs[i].Held() == CarriedOut(o, runs[i - 1].source, runs[i - 1].destination))
  }

  lemma NextRunAt(o: Options, runs: seq<Inventories>, i: nat, p: Path)
    requires Successive(o, runs) && 0 < i < |runs|
    ensures At(runs[i].Held(), p) == ResultAt(o, At(runs[i - 1].Held(), p))
  {
    PlanOutcome(o, runs[i - 1].source, runs[i - 1].destination, p);
  }

  lemma ThirdResultIsSecond(o: Options, cell: Cell)
    ensures ResultAt(o, ResultAt(o, ResultAt(o, cell))) == ResultAt(o, ResultAt(o, cell))
  {
  }

  /** From the second run on nothing changes any more, whatever the options. */
  lemma {:induction false} RunsSettle(o: Options, runs: seq<Inventories>, n: nat, p: Path)
    requires Successive(o, runs) && 2 <= n < |runs|
    ensures At(runs[n].Held(), p) == ResultAt(o, ResultAt(o, At(runs[0].Held(), p)))
  {
    NextRunAt(o, runs, n, p);
    if n == 2 {
      NextRunAt(o, runs, 1, p);
    } else {
      RunsSettle(o, runs, n - 1, p);
      ThirdResultIsSecond(o, At(runs[0].Held(), p));
    }
  }

  lemma SecondResult(o: Options, before: Peers, p: Path)
    requires IncludedAt(before.source, p)
    ensures ResultAt(o, ResultAt(o, At(before, p))) == Cell(None, None) <==>
            Drained(o, before.source, before.destination, p) && o.destinationCleanup
  {
  }

  /** Over two or more runs an included source item is gone from both peers exactly when Safe Delete drained it in the
      first and Destination Cleanup is on: the second run then removes the only copy. */
  lemma ItemIsGoneExactly(o: Options, runs: seq<Inventories>, n: nat, p: Path)
    requires Successive(o, runs) && 2 <= n < |runs| && IncludedAt(ByPath(runs[0].source), p)
    ensures At(runs[n].Held(), p) == Cell(None, None) <==>
            Drained(o, ByPath(runs[0].source), ByPath(runs[0].destination), p) && o.destinationCleanup
  {
    RunsSettle(o, runs, n, p);
    SecondResult(o, runs[0].Held(), p);
  }

  // ----- Building the plan -----

  function Count(actions: seq<Action>, kind: PlanActionKind): nat {
    if actions == [] then 0 else Count(Init(actions), kind) + if Last(actions).step.kind == kind then 1 else 0
  }

  function SizeOrZero(size: Option<U64>): nat {
    if size.Some? then size.value else 0
  }

  function Bytes(actions: seq<Action>, kind: PlanActionKind): nat {
    if actions == [] then 0
    else Bytes(Init(actions), kind) + if Last(actions).step.kind == kind then SizeOrZero(Last(actions).step.size) else 0
  }

  function OutcomeCount(items: seq<Item>, outcome: AnalysisOutcome): nat {
    if items == [] then 0 else OutcomeCount(Init(items), outcome) + if Last(items).outcome == outcome then 1 else 0
  }

  function SummaryOf(actions: seq<Action>, source: seq<Item>): Summary {
    Summary(
      |source|, OutcomeCount(source, Included), OutcomeCount(source, Excluded),
      Count(actions, CopyToDestination), Bytes(actions, CopyToDestination),
      Count(actions, OverwriteDestination), Bytes(actions, OverwriteDestination),
      Count(actions, RemoveDestination), Bytes(actions, RemoveDestination),
      Count(actions, RemoveSourceAfterVerification), Bytes(actions, RemoveSourceAfterVerification))
  }

  function AllBytes(actions: seq<Action>): nat {
    if actions == [] then 0 else AllBytes(Init(actions)) + SizeOrZero(Last(actions).step.size)
  }

  /** The counters of a summary account for every action, and their bytes for every byte. */
  lemma {:induction false} SummaryConserves(actions: seq<Action>, source: seq<Item>)
    ensures
      var s := SummaryOf(actions, source);
      && s.copies + s.overwrites + s.destinationRemovals + s.sourceRemovals == |actions|
      && s.copyBytes + s.overwriteBytes + s.destinationRemovalBytes + s.sourceRemovalBytes == AllBytes(actions)
  {
    if actions != [] {
      SummaryConserves(Init(actions), source);
    }
  }

  method SummaryFor(actions: seq<Action>, source: seq<Item>) returns (s: Summary)
    ensures s == SummaryOf(actions, source)
  {
    s := Summary(|source|, OutcomeCount(source, Included), OutcomeCount(source, Excluded), 0, 0, 0, 0, 0, 0, 0, 0);
    for i := 0 to |actions|
      invariant s == SummaryOf(actions[..i], source)
    {
      assert Init(actions[..i + 1]) == actions[..i];
      var size := SizeOrZero(actions[i].step.size);
      match actions[i].step.kind
      case CopyToDestination => s := s.(copies := s.copies + 1, copyBytes := s.copyBytes + size);
      case OverwriteDestination => s := s.(overwrites := s.overwrites + 1, overwriteBytes := s.overwriteBytes + size);
      case RemoveDestination =>
        s := s.(destinationRemovals := s.destinationRemovals + 1,
                destinationRemovalBytes := s.destinationRemovalBytes + size);
      case RemoveSourceAfterVerification =>
        s := s.(sourceRemovals := s.sourceRemovals + 1, sourceRemovalBytes := s.sourceRemovalBytes + size);
    }
    assert actions[..|actions|] == actions;
  }

  /** Why an action is refused. */
  function ActionError(o: Options, source: seq<Item>, step: Step): Option<PlanError> {
    var item := Find(source, step.path);
    if item.Some? && !item.value.Eligible() then Some(ActionOutsideApprovedScope(step.path))
    else if step.kind == RemoveDestination && !o.destinationCleanup then Some(ActionNotAllowed(step.kind))
    else if step.kind == RemoveSourceAfterVerification && !o.safeDelete then Some(ActionNotAllowed(step.kind))
    else None
  }

  /** `OneWayPlan::validate` for a one-way plan: the first refused action, then the summary. */
  method Validate(o: Options, source: seq<Item>, plan: Plan) returns (result: Result<(), PlanError>)
    ensures result.Ok? <==>
            && (forall i :: 0 <= i < |plan.actions| ==> ActionError(o, source, plan.actions[i].step) == None)
            && plan.summary == SummaryOf(plan.actions, source)
    ensures result == Err(SummaryMismatch) <==>
            && (forall i :: 0 <= i < |plan.actions| ==> ActionError(o, source, plan.actions[i].step) == None)
            && plan.summary != SummaryOf(plan.actions, source)
    ensures result.Err? && result.error != SummaryMismatch ==>
            exists i :: 0 <= i < |plan.actions| && ActionError(o, source, plan.actions[i].step) == Some(result.error) &&
                        forall j :: 0 <= j < i ==> ActionError(o, source, plan.actions[j].step) == None
  {
    for i := 0 to |plan.actions|
      invariant forall j :: 0 <= j < i ==> ActionError(o, source, plan.actions[j].step) == None
    {
      var error := ActionError(o, source, plan.actions[i].step);
      if error.Some? {
        return Err(error.value);
      }
    }
    var expected := SummaryFor(plan.actions, source);
    return if expected != plan.summary then Err(SummaryMismatch) else Ok(());
  }

  lemma DueIsAllowed(o: Options, source: seq<Item>, destination: map<Path, Item>, step: Step)
    requires UniquePaths(source) && Due(o, ByPath(source), destination, step)
    ensures ActionError(o, source, step) == None
  {
    FindIsByPath(source, step.path);
  }

  lemma SourceStepsPush(o: Options, destination: map<Path, Item>, items: seq<Item>, i: nat)
    requires i < |items|
    ensures SourceSteps(o, destination, items[..i + 1]) ==
            SourceSteps(o, destination, items[..i]) + ItemSteps(o, destination, items[i])
  {
    assert Init(items[..i + 1]) == items[..i] && Last(items[..i + 1]) == items[i];
  }

  lemma CleanupStepsPush(o: Options, source: map<Path, Item>, items: seq<Item>, i: nat)
    requires i < |items|
    ensures CleanupSteps(o, source, items[..i + 1]) ==
            CleanupSteps(o, source, items[..i]) + CleanupStep(o, source, items[i])
  {
    assert Init(items[..i + 1]) == items[..i] && Last(items[..i + 1]) == items[i];
  }

  method Push(actions: seq<Action>, ghost steps: seq<Step>, step: Step) returns (pushed: seq<Action>)
    requires Numbers(actions, steps)
    ensures Numbers(pushed, steps + [step])
  {
    pushed := actions + [Action(|actions| + 1, step)];
  }

  /** One included source item: its transfer, and the removal behind it. */
  method PlanItem(o: Options, destinationByPath: map<Path, Item>, item: Item, actions: seq<Action>,
                  ghost steps: seq<Step>)
    returns (planned: seq<Action>)
    requires item.Eligible() && Numbers(actions, steps)
    ensures Numbers(planned, steps + ItemSteps(o, destinationByPath, item))
  {
    planned := actions;
    var destinationItem := Lookup(destinationByPath, item.path);
    var kind := TransferKind(o, item, destinationItem);
    ghost var transfer := TransferSteps(o, destinationByPath, item);
    if kind.Some? {
      planned := Push(planned, steps, Step(item.path, kind.value, o.sourceSide, DataSize(item)));
    }
    assert Numbers(planned, steps + transfer);
    if o.safeDelete && (destinationItem.Some? ==> destinationItem.value.Eligible()) &&
       item.state.itemType in {RegularFile, Symlink}
    {
      var step := Step(item.path, RemoveSourceAfterVerification, o.sourceSide, DataSize(item));
      planned := Push(planned, steps + transfer, step);
      assert steps + transfer + [step] == steps + (transfer + [step]);
    }
  }

  /** The loop over the source. */
  method PlanSource(o: Options, source: seq<Item>, destinationByPath: map<Path, Item>) returns (actions: seq<Action>)
    ensures Numbers(actions, SourceSteps(o, destinationByPath, source))
  {
    actions := [];
    for i := 0 to |source|
      invariant Numbers(actions, SourceSteps(o, destinationByPath, source[..i]))
    {
      SourceStepsPush(o, destinationByPath, source, i);
      if source[i].Eligible() {
        actions := PlanItem(o, destinationByPath, source[i], actions, SourceSteps(o, destinationByPath, source[..i]));
      }
    }
    assert source[..|source|] == source;
  }

  /** The loop over the destination: Destination Cleanup. */
  method PlanCleanup(o: Options, sourceByPath: map<Path, Item>, destination: seq<Item>,
                     transfers: seq<Action>, ghost steps: seq<Step>)
    returns (actions: seq<Action>)
    requires o.destinationCleanup && Numbers(transfers, steps)
    ensures Numbers(actions, steps + CleanupSteps(o, sourceByPath, destination))
  {
    actions := transfers;
    for i := 0 to |destination|
      invariant Numbers(actions, steps + CleanupSteps(o, sourceByPath, destination[..i]))
    {
      CleanupStepsPush(o, sourceByPath, destination, i);
      var item := destination[i];
      ghost var before := CleanupSteps(o, sourceByPath, destination[..i]);
      if item.Eligible() && item.path !in sourceByPath {
        var step := Step(item.path, RemoveDestination, o.sourceSide, DataSize(item));
        actions := Push(actions, steps + before, step);
        assert steps + before + [step] == steps + (before + [step]);
      }
    }
    assert destination[..|destination|] == destination;
  }

  /** `build_plan` for a one-way specification: it always passes its own validation. */
  method BuildOneWayPlan(o: Options, source: seq<Item>, destination: seq<Item>)
    returns (result: Result<Plan, PlanError>)
    requires UniquePaths(source) && UniquePaths(destination)
    ensures result.Ok? && Numbers(result.value.actions, OneWaySteps(o, source, destination))
    ensures result.value.summary == SummaryOf(result.value.actions, source)
  {
    var sourceByPath := IndexByPath(source);
    var destinationByPath := IndexByPath(destination);
    var actions := PlanSource(o, source, destinationByPath);
    if o.destinationCleanup {
      actions := PlanCleanup(o, sourceByPath, destination, actions, SourceSteps(o, destinationByPath, source));
    } else {
      NoCleanup(o, sourceByPath, destination);
    }
    assert Numbers(actions, OneWaySteps(o, source, destination));
    var summary := SummaryFor(actions, source);
    PlannedIsAllowed(o, source, destination);
    var valid := Validate(o, source, Plan(actions, summary));
    match valid
    case Ok(_) => return Ok(Plan(actions, summary));
    case Err(error) => return Err(error);
  }

  lemma PlannedIsAllowed(o: Options, source: seq<Item>, destination: seq<Item>)
    requires UniquePaths(source) && UniquePaths(destination)
    ensures
      var steps := OneWaySteps(o, source, destination);
      forall i :: 0 <= i < |steps| ==> ActionError(o, source, steps[i]) == None
  {
    var steps := OneWaySteps(o, source, destination);
    forall i | 0 <= i < |steps| ensures ActionError(o, source, steps[i]) == None {
      PlanHoldsWhatIsDue(o, source, destination, steps[i]);
      DueIsAllowed(o, source, ByPath(destination), steps[i]);
    }
  }

  lemma {:induction false} NoCleanup(o: Options, source: map<Path, Item>, items: seq<Item>)
    requires !o.destinationCleanup
    ensures CleanupSteps(o, source, items) == []
  {
    if items != [] { NoCleanup(o, source, Init(items)); }
  }
}
