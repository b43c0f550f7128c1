/** The Mirror plan and the same-path conflicts: what each path is, and what carrying the plan out changes. */
module Mirror {
  import opened Common
  import opened Equality
  import opened Planning

  datatype Sides = Sides(a: map<Path, Item>, b: map<Path, Item>)

  /** The paths of this set, each once, in the order a walk over the sorted set meets them. */
  predicate Enumerates(paths: seq<Path>, all: set<Path>) {
    && (forall i, j :: 0 <= i < j < |paths| ==> paths[i] != paths[j])
    && (forall i :: 0 <= i < |paths| ==> paths[i] in all)
    && (forall p :: p in all ==> p in paths)
  }

  // ----- The plan -----

  /** The copy a path calls for: its item is included on one peer and absent from the other. */
  function CopyFor(p: Path, a: Option<Item>, b: Option<Item>): Option<Step> {
    if a.Some? && a.value.Eligible() && b.None? then Some(Step(p, CopyToDestination, PeerA, DataSize(a.value)))
    else if b.Some? && b.value.Eligible() && a.None? then Some(Step(p, CopyToDestination, PeerB, DataSize(b.value)))
    else None
  }

  function CopyStep(sides: Sides, p: Path): Option<Step> {
    CopyFor(p, Lookup(sides.a, p), Lookup(sides.b, p))
  }

  function MirrorSteps(sides: Sides, paths: seq<Path>): seq<Step> {
    if paths == [] then []
    else
      MirrorSteps(sides, Init(paths)) +
      match CopyStep(sides, Last(paths))
      case None => []
      case Some(step) => [step]
  }

  /** The item is included on one peer and absent from the other. */
  predicate IsOneSided(sides: Sides, p: Path) {
    (IncludedAt(sides.a, p) && p !in sides.b) || (IncludedAt(sides.b, p) && p !in sides.a)
  }

  /** The step copies the item of its path from the peer that has it, with the size of a regular file only. */
  predicate CopiesFromHolder(sides: Sides, step: Step) {
    && (step.path in sides.a || step.path in sides.b)
    && step.kind == CopyToDestination
    && step.side == (if step.path in sides.a then PeerA else PeerB)
    && Sized(step, if step.path in sides.a then sides.a[step.path] else sides.b[step.path])
  }

  lemma StepIsOneSided(sides: Sides, p: Path)
    ensures CopyStep(sides, p).Some? <==> IsOneSided(sides, p)
    ensures CopyStep(sides, p).Some? ==>
              CopyStep(sides, p).value.path == p && CopiesFromHolder(sides, CopyStep(sides, p).value)
  {
  }

  ghost predicate Copies(steps: seq<Step>, p: Path) {
    exists i :: 0 <= i < |steps| && steps[i].path == p
  }

  lemma {:induction false} StepsAreCopies(sides: Sides, paths: seq<Path>)
    requires forall i, j :: 0 <= i < j < |paths| ==> paths[i] != paths[j]
    ensures
      var steps := MirrorSteps(sides, paths);
      && (forall i :: 0 <= i < |steps| ==> steps[i].path in paths && CopyStep(sides, steps[i].path) == Some(steps[i]))
      && (forall i, j :: 0 <= i < j < |steps| ==> steps[i].path != steps[j].path)
      && (forall p :: p in paths && CopyStep(sides, p).Some? ==> CopyStep(sides, p).value in steps)
  {
    if paths != [] {
      var before := MirrorSteps(sides, Init(paths));
      StepsAreCopies(sides, Init(paths));
      assert forall p :: p in paths ==> p in Init(paths) || p == Last(paths);
      forall i | 0 <= i < |before| ensures before[i].path != Last(paths) && before[i].path in paths {
        assert before[i].path in Init(paths);
      }
    }
  }

  /** The plan copies exactly the items included on one peer and absent from the other, each once, from the peer that
      has it. */
  lemma MirrorPlanExactly(sides: Sides, paths: seq<Path>)
    requires forall i, j :: 0 <= i < j < |paths| ==> paths[i] != paths[j]
    ensures
      var steps := MirrorSteps(sides, paths);
      && (forall p :: Copies(steps, p) <==> p in paths && IsOneSided(sides, p))
      && (forall i :: 0 <= i < |steps| ==> CopiesFromHolder(sides, steps[i]))
      && (forall i, j :: 0 <= i < j < |steps| ==> steps[i].path != steps[j].path)
  {
    StepsAreCopies(sides, paths);
    var steps := MirrorSteps(sides, paths);
    forall i | 0 <= i < |steps|
      ensures steps[i].path in paths && IsOneSided(sides, steps[i].path) && CopiesFromHolder(sides, steps[i])
    {
      assert steps[i].path in paths && CopyStep(sides, steps[i].path) == Some(steps[i]);
      StepIsOneSided(sides, steps[i].path);
    }
    forall p | p in paths && IsOneSided(sides, p) ensures Copies(steps, p) {
      StepIsOneSided(sides, p);
      assert CopyStep(sides, p).value in steps && CopyStep(sides, p).value.path == p;
    }
  }

  /** The included and excluded paths of a Mirror review: included on either peer, or excluded and included on none. */
  function PathsWith(items: seq<Item>, outcome: AnalysisOutcome): set<Path> {
    set i | 0 <= i < |items| && items[i].outcome == outcome :: items[i].path
  }

  function AllPaths(items: seq<Item>): set<Path> {
    set i | 0 <= i < |items| :: items[i].path
  }

  function MirrorSummaryOf(actions: seq<Action>, a: seq<Item>, b: seq<Item>): Summary {
    var included := PathsWith(a, Included) + PathsWith(b, Included);
    var excluded := PathsWith(a, Excluded) + PathsWith(b, Excluded) - included;
    SummaryOf(actions, []).(considered := |AllPaths(a) + AllPaths(b)|, included := |included|, excluded := |excluded|)
  }

  method MirrorSummaryFor(actions: seq<Action>, a: seq<Item>, b: seq<Item>) returns (s: Summary)
    ensures s == MirrorSummaryOf(actions, a, b)
  {
    s := SummaryFor(actions, []);
    var included, excluded, considered := {}, {}, {};
    var items := a + b;
    for i := 0 to |items|
      invariant included == PathsWith(items[..i], Included)
      invariant excluded == PathsWith(items[..i], Excluded)
      invariant considered == AllPaths(items[..i])
    {
      PathsPush(items, i);
      considered := considered + {items[i].path};
      match items[i].outcome
      case Included => included := included + {items[i].path};
      case Excluded => excluded := excluded + {items[i].path};
      case NotSupported =>
    }
    PathsJoin(a, b);
    assert items[..|items|] == items;
    excluded := excluded - included;
    s := s.(considered := |considered|, included := |included|, excluded := |excluded|);
  }

  lemma PathsPush(items: seq<Item>, i: nat)
    requires i < |items|
    ensures forall outcome :: PathsWith(items[..i + 1], outcome) ==
              PathsWith(items[..i], outcome) + if items[i].outcome == outcome then {items[i].path} else {}
    ensures AllPaths(items[..i + 1]) == AllPaths(items[..i]) + {items[i].path}
  {
    var now, before := items[..i + 1], items[..i];
    assert forall j :: 0 <= j < i ==> now[j] == before[j];
    assert now[i] == items[i];
    forall outcome
      ensures PathsWith(now, outcome) ==
              PathsWith(before, outcome) + if items[i].outcome == outcome then {items[i].path} else {}
    {
    }
  }

  lemma PathsJoin(a: seq<Item>, b: seq<Item>)
    ensures forall outcome :: PathsWith(a + b, outcome) == PathsWith(a, outcome) + PathsWith(b, outcome)
    ensures AllPaths(a + b) == AllPaths(a) + AllPaths(b)
  {
    assert forall i :: 0 <= i < |a| ==> (a + b)[i] == a[i];
    assert forall i :: 0 <= i < |b| ==> (a + b)[|a| + i] == b[i];
    forall outcome ensures PathsWith(a + b, outcome) == PathsWith(a, outcome) + PathsWith(b, outcome) {
    }
  }

  /** `OneWayPlan::validate` for a Mirror plan: each action is checked against the peer it copies from. */
  method ValidateMirror(o: Options, a: seq<Item>, b: seq<Item>, plan: Plan) returns (result: Result<(), PlanError>)
    ensures result.Ok? <==>
            && (forall i :: 0 <= i < |plan.actions| ==> MirrorActionError(o, a, b, plan.actions[i].step) == None)
            && plan.summary == MirrorSummaryOf(plan.actions, a, b)
  {
    for i := 0 to |plan.actions|
      invariant forall j :: 0 <= j < i ==> MirrorActionError(o, a, b, plan.actions[j].step) == None
    {
      var error := MirrorActionError(o, a, b, plan.actions[i].step);
      if error.Some? {
        return Err(error.value);
      }
    }
    var expected := MirrorSummaryFor(plan.actions, a, b);
    return if expected != plan.summary then Err(SummaryMismatch) else Ok(());
  }

  function MirrorActionError(o: Options, a: seq<Item>, b: seq<Item>, step: Step): Option<PlanError> {
    ActionError(o, if step.side == PeerA then a else b, step)
  }

  lemma CopyIsAllowed(o: Options, a: seq<Item>, b: seq<Item>, p: Path)
    requires UniquePaths(a) && UniquePaths(b) && CopyStep(Sides(ByPath(a), ByPath(b)), p).Some?
    ensures MirrorActionError(o, a, b, CopyStep(Sides(ByPath(a), ByPath(b)), p).value) == None
  {
    FindIsByPath(a, p);
    FindIsByPath(b, p);
  }

  lemma CopiesAreAllowed(o: Options, a: seq<Item>, b: seq<Item>, paths: seq<Path>, actions: seq<Action>)
    requires UniquePaths(a) && UniquePaths(b)
    requires forall i, j :: 0 <= i < j < |paths| ==> paths[i] != paths[j]
    requires Numbers(actions, MirrorSteps(Sides(ByPath(a), ByPath(b)), paths))
    ensures forall i :: 0 <= i < |actions| ==> MirrorActionError(o, a, b, actions[i].step) == None
  {
    var sides := Sides(ByPath(a), ByPath(b));
    var steps := MirrorSteps(sides, paths);
    StepsAreCopies(sides, paths);
    forall i | 0 <= i < |actions| ensures MirrorActionError(o, a, b, actions[i].step) == None {
      assert actions[i].step == steps[i] && CopyStep(sides, steps[i].path) == Some(steps[i]);
      CopyIsAllowed(o, a, b, steps[i].path);
    }
  }

  lemma MirrorStepsPush(sides: Sides, paths: seq<Path>, i: nat)
    requires i < |paths|
    ensures MirrorSteps(sides, paths[..i + 1]) ==
            match CopyStep(sides, paths[i])
            case None => MirrorSteps(sides, paths[..i])
            case Some(step) => MirrorSteps(sides, paths[..i]) + [step]
  {
    assert Init(paths[..i + 1]) == paths[..i] && Last(paths[..i + 1]) == paths[i];
    assert MirrorSteps(sides, paths[..i]) + [] == MirrorSteps(sides, paths[..i]);
  }

  /** The loop over the paths of both peers. */
  method PlanMirror(aByPath: map<Path, Item>, bByPath: map<Path, Item>, allPaths: seq<Path>)
    returns (actions: seq<Action>)
    ensures Numbers(actions, MirrorSteps(Sides(aByPath, bByPath), allPaths))
  {
    actions := [];
    ghost var sides := Sides(aByPath, bByPath);
    for i := 0 to |allPaths|
      invariant Numbers(actions, MirrorSteps(sides, allPaths[..i]))
    {
      var p := allPaths[i];
      MirrorStepsPush(sides, allPaths, i);
      var copy := CopyFor(p, Lookup(aByPath, p), Lookup(bByPath, p));
      if copy.Some? {
        actions := Push(actions, MirrorSteps(sides, allPaths[..i]), copy.value);
      }
    }
    assert allPaths[..|allPaths|] == allPaths;
  }

  /** `build_plan` for a Mirror specification. */
  method BuildMirrorPlan(o: Options, a: seq<Item>, b: seq<Item>, allPaths: seq<Path>)
    returns (result: Result<Plan, PlanError>)
    requires UniquePaths(a) && UniquePaths(b) && Enumerates(allPaths, ByPath(a).Keys + ByPath(b).Keys)
    ensures result.Ok? && Numbers(result.value.actions, MirrorSteps(Sides(ByPath(a), ByPath(b)), allPaths))
    ensures result.value.summary == MirrorSummaryOf(result.value.actions, a, b)
  {
    var aByPath := IndexByPath(a);
    var bByPath := IndexByPath(b);
    var actions := PlanMirror(aByPath, bByPath, allPaths);
    var summary := MirrorSummaryFor(actions, a, b);
    CopiesAreAllowed(o, a, b, allPaths, actions);
    var valid := ValidateMirror(o, a, b, Plan(actions, summary));
    match valid
    case Ok(_) => return Ok(Plan(actions, summary));
    case Err(error) => return Err(error);
  }

  // ----- Conflicts -----

  predicate IncludedSomewhere(sides: Sides, p: Path) {
    IncludedAt(sides.a, p) || IncludedAt(sides.b, p)
  }

  function IncludedPaths(sides: Sides): set<Path> {
    set p | p in sides.a.Keys + sides.b.Keys && IncludedSomewhere(sides, p)
  }

  predicate SamePathConflict(m: MetadataRequirements, sides: Sides, p: Path) {
    && IncludedSomewhere(sides, p)
    && p in sides.a && p in sides.b && !ReviewEqual(m, sides.a[p], sides.b[p])
  }

  predicate Agreed(m: MetadataRequirements, sides: Sides, p: Path) {
    p in sides.a && p in sides.b && ReviewEqual(m, sides.a[p], sides.b[p])
  }

  /** The same-path loop of the conflict review. */
  method SamePathConflicts(m: MetadataRequirements, a: seq<Item>, b: seq<Item>, includedPaths: seq<Path>)
    returns (conflicts: seq<Path>)
    requires UniquePaths(a) && UniquePaths(b)
    requires Enumerates(includedPaths, IncludedPaths(Sides(ByPath(a), ByPath(b))))
    ensures forall p :: p in conflicts <==> SamePathConflict(m, Sides(ByPath(a), ByPath(b)), p)
    ensures forall i, j :: 0 <= i < j < |conflicts| ==> conflicts[i] != conflicts[j]
  {
    ghost var sides := Sides(ByPath(a), ByPath(b));
    conflicts := [];
    for i := 0 to |includedPaths|
      invariant forall p :: p in conflicts <==> p in includedPaths[..i] && SamePathConflict(m, sides, p)
      invariant forall i, j :: 0 <= i < j < |conflicts| ==> conflicts[i] != conflicts[j]
    {
      var p := includedPaths[i];
      assert includedPaths[..i + 1] == includedPaths[..i] + [p];
      assert p !in includedPaths[..i];
      FindIsByPath(a, p);
      FindIsByPath(b, p);
      var left, right := Find(a, p), Find(b, p);
      if left == None || right == None {
        continue;
      }
      if ReviewEqual(m, left.value, right.value) {
        continue;
      }
      conflicts := conflicts + [p];
    }
    assert includedPaths[..|includedPaths|] == includedPaths;
    forall p | SamePathConflict(m, sides, p) ensures p in includedPaths {
      assert p in IncludedPaths(sides);
    }
  }

  function Holds(b: bool): nat {
    if b then 1 else 0
  }

  /** Every path included on some peer is exactly one of a planned copy, a conflict, or agreed. */
  lemma MirrorPartition(m: MetadataRequirements, sides: Sides, p: Path)
    requires IncludedSomewhere(sides, p)
    ensures Holds(CopyStep(sides, p).Some?) + Holds(SamePathConflict(m, sides, p)) + Holds(Agreed(m, sides, p)) == 1
  {
  }

  // ----- Carrying the plan out -----

  function Copy(step: Step, sides: Sides): Sides {
    var p := step.path;
    if step.side == PeerA then
      if p in sides.a then sides.(b := sides.b[p := sides.a[p]]) else sides
    else
      if p in sides.b then sides.(a := sides.a[p := sides.b[p]]) else sides
  }

  function CopyAll(steps: seq<Step>, sides: Sides): Sides {
    if steps == [] then sides else Copy(Last(steps), CopyAll(Init(steps), sides))
  }

  function Mirrored(sides: Sides, paths: seq<Path>): Sides {
    CopyAll(MirrorSteps(sides, paths), sides)
  }

  predicate SameAt(left: Sides, right: Sides, p: Path) {
    Lookup(left.a, p) == Lookup(right.a, p) && Lookup(left.b, p) == Lookup(right.b, p)
  }

  /** What the plan makes of a path it has come to. */
  predicate CopiedAt(sides: Sides, after: Sides, p: Path) {
    if IncludedAt(sides.a, p) && p !in sides.b then Lookup(after.a, p) == Lookup(after.b, p) == Lookup(sides.a, p)
    else if IncludedAt(sides.b, p) && p !in sides.a then Lookup(after.a, p) == Lookup(after.b, p) == Lookup(sides.b, p)
    else SameAt(after, sides, p)
  }

  lemma CopyAt(sides: Sides, between: Sides, last: Path, p: Path)
    requires SameAt(between, sides, last) && CopyStep(sides, last).Some?
    ensures CopiedAt(sides, Copy(CopyStep(sides, last).value, between), last)
    ensures p != last ==> SameAt(Copy(CopyStep(sides, last).value, between), between, p)
  {
  }

  /** After the plan a copied path holds the one item on both peers, and every other path is as it was. */
  lemma {:induction false} MirrorOutcome(sides: Sides, paths: seq<Path>, p: Path)
    requires forall i, j :: 0 <= i < j < |paths| ==> paths[i] != paths[j]
    ensures if p in paths then CopiedAt(sides, Mirrored(sides, paths), p) else SameAt(Mirrored(sides, paths), sides, p)
  {
    if paths != [] {
      var last := Last(paths);
      var before := MirrorSteps(sides, Init(paths));
      MirrorOutcome(sides, Init(paths), p);
      MirrorOutcome(sides, Init(paths), last);
      assert p in paths <==> p in Init(paths) || p == last;
      assert last !in Init(paths);
      match CopyStep(sides, last)
      case None => assert before + [] == before;
      case Some(step) =>
        assert Init(before + [step]) == before;
        CopyAt(sides, Mirrored(sides, Init(paths)), last, p);
    }
  }

  /** The plan changes no item that is there, on either peer. */
  lemma MirrorPreserves(sides: Sides, paths: seq<Path>)
    requires forall i, j :: 0 <= i < j < |paths| ==> paths[i] != paths[j]
    ensures forall p :: p in sides.a ==> p in Mirrored(sides, paths).a && Mirrored(sides, paths).a[p] == sides.a[p]
    ensures forall p :: p in sides.b ==> p in Mirrored(sides, paths).b && Mirrored(sides, paths).b[p] == sides.b[p]
  {
    forall p ensures
      && (p in sides.a ==> p in Mirrored(sides, paths).a && Mirrored(sides, paths).a[p] == sides.a[p])
      && (p in sides.b ==> p in Mirrored(sides, paths).b && Mirrored(sides, paths).b[p] == sides.b[p])
    {
      MirrorOutcome(sides, paths, p);
    }
  }

  /** The next Mirror plan is empty. */
  lemma MirrorConverges(sides: Sides, paths: seq<Path>, nextPaths: seq<Path>)
    requires Enumerates(paths, sides.a.Keys + sides.b.Keys)
    requires Enumerates(nextPaths, Mirrored(sides, paths).a.Keys + Mirrored(sides, paths).b.Keys)
    ensures MirrorSteps(Mirrored(sides, paths), nextPaths) == []
  {
    var after := Mirrored(sides, paths);
    forall p ensures CopyStep(after, p) == None {
      MirrorOutcome(sides, paths, p);
      assert p in paths <==> p in sides.a.Keys + sides.b.Keys;
    }
    NothingToCopy(after, nextPaths);
  }

  lemma {:induction false} NothingToCopy(sides: Sides, paths: seq<Path>)
    requires forall p :: CopyStep(sides, p) == None
    ensures MirrorSteps(sides, paths) == []
  {
    if paths != [] { NothingToCopy(sides, Init(paths)); }
  }

  /** The next review has the conflicts of this one, and the copied items that cannot be compared with themselves. */
  lemma NextConflictsExactly(m: MetadataRequirements, sides: Sides, paths: seq<Path>, p: Path)
    requires Enumerates(paths, sides.a.Keys + sides.b.Keys)
    ensures SamePathConflict(m, Mirrored(sides, paths), p) <==>
            || SamePathConflict(m, sides, p)
            || (IncludedAt(sides.a, p) && p !in sides.b && !Comparable(m, sides.a[p].state))
            || (IncludedAt(sides.b, p) && p !in sides.a && !Comparable(m, sides.b[p].state))
  {
    MirrorOutcome(sides, paths, p);
    assert p in paths <==> p in sides.a.Keys + sides.b.Keys;
  }
}
