/** Sync baselines: what was settled on both peers, how inventories compare with it, and how runs are merged. */
module Baselines {
  import opened Common
  import opened Equality
  import opened Mirror

  datatype Identity = Identity(profile: string, aName: string, aRoot: string, bName: string, bRoot: string)

  /** The states recorded for one path. */
  datatype Pair = Pair(a: Option<ItemState>, b: Option<ItemState>)

  datatype Baseline = Baseline(identity: Identity, metadata: MetadataRequirements, items: map<Path, Pair>)

  datatype JournalEntry = JournalEntry(path: Path, completed: bool)

  datatype Status = Unchanged | New | Changed | Absent

  // ----- Building a baseline -----

  function IncludedState(items: map<Path, Item>, p: Path): Option<ItemState> {
    if IncludedAt(items, p) then Some(items[p].state) else None
  }

  function OrDefault(items: map<Path, Pair>, p: Path): Pair {
    if p in items then items[p] else Pair(None, None)
  }

  /** The included states of two inventories, path by path. */
  ghost predicate Records(items: map<Path, Pair>, a: map<Path, Item>, b: map<Path, Item>) {
    && (forall p :: p in items <==> IncludedAt(a, p) || IncludedAt(b, p))
    && (forall p :: p in items ==> items[p] == Pair(IncludedState(a, p), IncludedState(b, p)))
  }

  lemma ByPathPush(items: seq<Item>, i: nat)
    requires i < |items|
    ensures ByPath(items[..i + 1]) == ByPath(items[..i])[items[i].path := items[i]]
  {
    assert Init(items[..i + 1]) == items[..i];
  }

  lemma UniquePrefix(items: seq<Item>, i: nat)
    requires UniquePaths(items) && i < |items|
    ensures items[i].path !in ByPath(items[..i])
  {
    ByPathHolds(items[..i]);
  }

  function RecordA(items: map<Path, Pair>, item: Item): map<Path, Pair> {
    if item.Eligible() then items[item.path := OrDefault(items, item.path).(a := Some(item.state))] else items
  }

  function RecordB(items: map<Path, Pair>, item: Item): map<Path, Pair> {
    if item.Eligible() then items[item.path := OrDefault(items, item.path).(b := Some(item.state))] else items
  }

  lemma RecordKeeps(items: map<Path, Pair>, a: map<Path, Item>, b: map<Path, Item>, item: Item)
    requires Records(items, a, b)
    ensures item.path !in a ==> Records(RecordA(items, item), a[item.path := item], b)
    ensures item.path !in b ==> Records(RecordB(items, item), a, b[item.path := item])
  {
    var p := item.path;
    if p !in a {
      var next := RecordA(items, item);
      forall q | q in next ensures next[q] == Pair(IncludedState(a[p := item], q), IncludedState(b, q)) {
      }
    }
    if p !in b {
      var next := RecordB(items, item);
      forall q | q in next ensures next[q] == Pair(IncludedState(a, q), IncludedState(b[p := item], q)) {
      }
    }
  }

  method FromInventories(identity: Identity, a: seq<Item>, b: seq<Item>, metadata: MetadataRequirements)
    returns (baseline: Baseline)
    requires UniquePaths(a) && UniquePaths(b)
    ensures baseline.identity == identity && baseline.metadata == metadata
    ensures Records(baseline.items, ByPath(a), ByPath(b))
  {
    var byPath: map<Path, Pair> := map[];
    for i := 0 to |a|
      invariant Records(byPath, ByPath(a[..i]), map[])
    {
      ByPathPush(a, i);
      UniquePrefix(a, i);
      RecordKeeps(byPath, ByPath(a[..i]), map[], a[i]);
      byPath := RecordA(byPath, a[i]);
    }
    assert a[..|a|] == a;
    for i := 0 to |b|
      invariant Records(byPath, ByPath(a), ByPath(b[..i]))
    {
      ByPathPush(b, i);
      UniquePrefix(b, i);
      RecordKeeps(byPath, ByPath(a), ByPath(b[..i]), b[i]);
      byPath := RecordB(byPath, b[i]);
    }
    assert b[..|b|] == b;
    baseline := Baseline(identity, metadata, byPath);
  }

  predicate JournalBlocked(journal: seq<JournalEntry>, p: Path) {
    exists i :: 0 <= i < |journal| && journal[i].path == p && !journal[i].completed
  }

  /** One completed run: what was found on the peers afterwards, and what is still open. */
  datatype Run = Run(identity: Identity, metadata: MetadataRequirements, a: seq<Item>, b: seq<Item>,
                     journal: seq<JournalEntry>, findings: seq<Path>)
  {
    predicate Valid() {
      UniquePaths(a) && UniquePaths(b)
    }

    function Sides(): Mirror.Sides {
      Mirror.Sides(ByPath(a), ByPath(b))
    }
  }

  /** A path is settled when nothing blocks it and both peers hold it equal. */
  predicate Settled(run: Run, p: Path) {
    var sides := run.Sides();
    && p !in run.findings && !JournalBlocked(run.journal, p)
    && p in sides.a && p in sides.b && EqualItems(run.metadata, sides.a[p], sides.b[p])
  }

  /** The baseline holds exactly the settled paths of the run, with what both peers held. */
  ghost predicate Settles(baseline: Baseline, run: Run) {
    && baseline.identity == run.identity && baseline.metadata == run.metadata
    && (forall p :: p in baseline.items <==> Settled(run, p))
    && (forall p :: p in baseline.items ==>
          baseline.items[p] == Pair(Some(run.Sides().a[p].state), Some(run.Sides().b[p].state)))
  }

  /** A list that holds, for the settled paths met so far, what one peer holds. */
  predicate Gathered(settled: seq<Item>, side: map<Path, Item>, met: seq<Path>, run: Run) {
    && UniquePaths(settled)
    && (forall i :: 0 <= i < |settled| ==>
          settled[i].path in met && Settled(run, settled[i].path) && Lookup(side, settled[i].path) == Some(settled[i]))
    && (forall p :: p in met && Settled(run, p) ==> exists i :: 0 <= i < |settled| && settled[i].path == p)
  }

  lemma GatherOne(settled: seq<Item>, side: map<Path, Item>, met: seq<Path>, run: Run, p: Path)
    requires Gathered(settled, side, met, run) && p !in met
    ensures Settled(run, p) && p in side && side[p].path == p ==> Gathered(settled + [side[p]], side, met + [p], run)
    ensures !Settled(run, p) ==> Gathered(settled, side, met + [p], run)
  {
    if Settled(run, p) && p in side && side[p].path == p {
      var more := settled + [side[p]];
      forall q | q in met + [p] && Settled(run, q) ensures exists i :: 0 <= i < |more| && more[i].path == q {
        if q == p {
          assert more[|settled|].path == q;
        } else {
          var i :| 0 <= i < |settled| && settled[i].path == q;
          assert more[i].path == q;
        }
      }
    }
  }

  lemma GatheredIsRecorded(settled: seq<Item>, side: map<Path, Item>, met: seq<Path>, run: Run, p: Path)
    requires Gathered(settled, side, met, run)
    ensures p in ByPath(settled) <==> p in met && Settled(run, p)
    ensures p in ByPath(settled) ==> p in side && ByPath(settled)[p] == side[p]
  {
    ByPathHolds(settled);
  }

  lemma SettledByLookup(run: Run, p: Path)
    requires run.Valid()
    ensures
      var left, right := Find(run.a, p), Find(run.b, p);
      && left == Lookup(run.Sides().a, p) && right == Lookup(run.Sides().b, p)
      && (left.Some? ==> left.value.path == p) && (right.Some? ==> right.value.path == p)
      && (Settled(run, p) <==>
            && p !in run.findings && !JournalBlocked(run.journal, p)
            && left.Some? && right.Some? && EqualItems(run.metadata, left.value, right.value))
  {
    FindIsByPath(run.a, p);
    FindIsByPath(run.b, p);
    ByPathHolds(run.a);
    ByPathHolds(run.b);
  }

  /** The loop of `from_reconciled_inventories` over the paths of both peers. */
  method GatherSettled(run: Run, order: seq<Path>) returns (settledA: seq<Item>, settledB: seq<Item>)
    requires run.Valid() && forall i, j :: 0 <= i < j < |order| ==> order[i] != order[j]
    ensures Gathered(settledA, run.Sides().a, order, run) && Gathered(settledB, run.Sides().b, order, run)
  {
    settledA, settledB := [], [];
    ghost var sides := run.Sides();
    for i := 0 to |order|
      invariant Gathered(settledA, sides.a, order[..i], run) && Gathered(settledB, sides.b, order[..i], run)
    {
      var p := order[i];
      assert order[..i + 1] == order[..i] + [p] && p !in order[..i];
      SettledByLookup(run, p);
      GatherOne(settledA, sides.a, order[..i], run, p);
      GatherOne(settledB, sides.b, order[..i], run, p);
      if p in run.findings || JournalBlocked(run.journal, p) {
        continue;
      }
      var left, right := Find(run.a, p), Find(run.b, p);
      if left == None || right == None {
        continue;
      }
      if !EqualItems(run.metadata, left.value, right.value) {
        continue;
      }
      settledA, settledB := settledA + [left.value], settledB + [right.value];
    }
    assert order[..|order|] == order;
  }

  lemma GatheredSettles(run: Run, order: seq<Path>, settledA: seq<Item>, settledB: seq<Item>, baseline: Baseline)
    requires run.Valid() && Enumerates(order, run.Sides().a.Keys + run.Sides().b.Keys)
    requires Gathered(settledA, run.Sides().a, order, run) && Gathered(settledB, run.Sides().b, order, run)
    requires baseline.identity == run.identity && baseline.metadata == run.metadata
    requires Records(baseline.items, ByPath(settledA), ByPath(settledB))
    ensures Settles(baseline, run)
  {
    forall p
      ensures p in baseline.items <==> Settled(run, p)
      ensures p in baseline.items ==>
                baseline.items[p] == Pair(Some(run.Sides().a[p].state), Some(run.Sides().b[p].state))
    {
      GatheredIsRecorded(settledA, run.Sides().a, order, run, p);
      GatheredIsRecorded(settledB, run.Sides().b, order, run, p);
    }
  }

  /** `from_reconciled_inventories`: settled paths are exactly those unblocked and equal on both peers. */
  method FromReconciledInventories(run: Run, order: seq<Path>) returns (baseline: Baseline)
    requires run.Valid() && Enumerates(order, run.Sides().a.Keys + run.Sides().b.Keys)
    ensures Settles(baseline, run)
  {
    var settledA, settledB := GatherSettled(run, order);
    baseline := FromInventories(run.identity, settledA, settledB, run.metadata);
    GatheredSettles(run, order, settledA, settledB, baseline);
  }

  // ----- Comparing -----

  /** `compare_side`. */
  function CompareSide(m: MetadataRequirements, recorded: Option<ItemState>, current: Option<ItemState>): Status {
    match (recorded, current)
    case (None, None) => Unchanged
    case (None, Some(_)) => New
    case (Some(_), None) => Absent
    case (Some(was), Some(now)) => if EqualParts(m, was, now) then Unchanged else Changed
  }

  datatype Comparison = Comparison(path: Path, a: Status, b: Status)

  function CompareAt(baseline: Baseline, sides: Mirror.Sides, p: Path): Comparison {
    var recorded := OrDefault(baseline.items, p);
    Comparison(p, CompareSide(baseline.metadata, recorded.a, IncludedState(sides.a, p)),
               CompareSide(baseline.metadata, recorded.b, IncludedState(sides.b, p)))
  }

  /** `SyncBaseline::compare`, over the recorded and the included paths. */
  method Compare(baseline: Baseline, a: seq<Item>, b: seq<Item>, order: seq<Path>)
    returns (comparisons: seq<Comparison>)
    requires UniquePaths(a) && UniquePaths(b)
    requires Enumerates(order, baseline.items.Keys + IncludedPaths(Mirror.Sides(ByPath(a), ByPath(b))))
    ensures |comparisons| == |order|
    ensures forall i :: 0 <= i < |order| ==>
              comparisons[i] == CompareAt(baseline, Mirror.Sides(ByPath(a), ByPath(b)), order[i])
  {
    var currentA := IndexByPath(a);
    var currentB := IndexByPath(b);
    comparisons := [];
    for i := 0 to |order|
      invariant |comparisons| == i
      invariant forall j :: 0 <= j < i ==>
                  comparisons[j] == CompareAt(baseline, Mirror.Sides(currentA, currentB), order[j])
    {
      comparisons := comparisons + [CompareAt(baseline, Mirror.Sides(currentA, currentB), order[i])];
    }
  }

  /** A baseline is stable against the inventories it was taken from: settled paths are unchanged on both sides,
      every other included item is new, and nothing is changed or absent. */
  lemma SettledIsStable(baseline: Baseline, run: Run, p: Path)
    requires run.Valid() && Settles(baseline, run)
    ensures
      var c := CompareAt(baseline, run.Sides(), p);
      && c.a == (if IncludedAt(run.Sides().a, p) && !Settled(run, p) then New else Unchanged)
      && c.b == (if IncludedAt(run.Sides().b, p) && !Settled(run, p) then New else Unchanged)
  {
    if Settled(run, p) {
      var a, b := run.Sides().a[p].state, run.Sides().b[p].state;
      EqualityIsSameView(run.metadata, a, b);
      EqualityIsSameView(run.metadata, a, a);
      EqualityIsSameView(run.metadata, b, b);
    }
  }

  // ----- Merging -----

  /** `merge_settled`: the updates win path by path; another profile or other peers replace everything. */
  function Merge(kept: Baseline, updates: Baseline): Baseline {
    if kept.identity != updates.identity then updates
    else Baseline(kept.identity, updates.metadata, kept.items + updates.items)
  }

  /** The updates of these paths have been put over the kept items. */
  ghost predicate MergedSoFar(items: map<Path, Pair>, kept: map<Path, Pair>, updates: map<Path, Pair>,
                              done: seq<Path>)
  {
    && (forall p :: p in items <==> p in kept || p in done)
    && (forall p :: p in done ==> p in updates && p in items && items[p] == updates[p])
    && (forall p :: p in items && p !in done ==> items[p] == kept[p])
  }

  lemma MergeOne(items: map<Path, Pair>, kept: map<Path, Pair>, updates: map<Path, Pair>, done: seq<Path>, p: Path)
    requires MergedSoFar(items, kept, updates, done) && p in updates
    ensures MergedSoFar(items[p := updates[p]], kept, updates, done + [p])
  {
  }

  method MergeSettled(kept: Baseline, updates: Baseline, order: seq<Path>) returns (merged: Baseline)
    requires Enumerates(order, updates.items.Keys)
    ensures merged == Merge(kept, updates)
  {
    if kept.identity != updates.identity {
      return updates;
    }
    var items := kept.items;
    for i := 0 to |order|
      invariant MergedSoFar(items, kept.items, updates.items, order[..i])
    {
      assert order[..i + 1] == order[..i] + [order[i]];
      MergeOne(items, kept.items, updates.items, order[..i], order[i]);
      items := items[order[i] := updates.items[order[i]]];
    }
    assert order[..|order|] == order;
    assert items == kept.items + updates.items;
    merged := Baseline(kept.identity, updates.metadata, items);
  }

  /** Merging is associative exactly when it does not skip over another identity and come back with something lost. */
  lemma MergeAssociatesExactly(x: Baseline, y: Baseline, z: Baseline)
    ensures Merge(Merge(x, y), z) == Merge(x, Merge(y, z)) <==>
            (x.identity == z.identity && x.identity != y.identity ==> x.items.Keys <= z.items.Keys)
  {
    if x.identity == y.identity == z.identity {
      assert x.items + y.items + z.items == x.items + (y.items + z.items);
    } else if x.identity == z.identity {
      assert Merge(Merge(x, y), z) == z;
      assert (x.items + z.items).Keys == x.items.Keys + z.items.Keys;
      if x.items.Keys <= z.items.Keys {
        assert x.items + z.items == z.items;
      }
    }
  }

  function MergeAll(baselines: seq<Baseline>): Baseline
    requires baselines != []
  {
    if |baselines| == 1 then baselines[0] else Merge(MergeAll(Init(baselines)), Last(baselines))
  }

  /** From here to the end the chain keeps to the last baseline's identity. */
  predicate SameRun(baselines: seq<Baseline>, i: nat)
    requires i < |baselines|
  {
    forall j :: i <= j < |baselines| ==> baselines[j].identity == Last(baselines).identity
  }

  /** This baseline is the latest of the chain that still counts for the path. */
  predicate Latest(baselines: seq<Baseline>, i: nat, p: Path)
    requires i < |baselines|
  {
    SameRun(baselines, i) && p in baselines[i].items && forall j :: i < j < |baselines| ==> p !in baselines[j].items
  }

  /** A chain of merges holds for each path what the latest counting baseline holds for it. */
  lemma {:induction false} MergeChainIsLatest(baselines: seq<Baseline>, p: Path)
    requires baselines != []
    ensures MergeAll(baselines).identity == Last(baselines).identity
    ensures MergeAll(baselines).metadata == Last(baselines).metadata
    ensures p in MergeAll(baselines).items <==> exists i :: 0 <= i < |baselines| && Latest(baselines, i, p)
    ensures forall i :: 0 <= i < |baselines| && Latest(baselines, i, p) ==>
              p in MergeAll(baselines).items && MergeAll(baselines).items[p] == baselines[i].items[p]
  {
    var n := |baselines| - 1;
    if n == 0 {
      assert Latest(baselines, 0, p) <==> p in baselines[0].items;
    } else {
      var before, last := Init(baselines), Last(baselines);
      MergeChainIsLatest(before, p);
      assert Latest(baselines, n, p) <==> p in last.items;
      if Last(before).identity == last.identity && p !in last.items {
        forall i | 0 <= i < n ensures Latest(baselines, i, p) <==> Latest(before, i, p) {
          LatestExtends(baselines, i, p);
        }
      } else {
        assert baselines[n - 1] == Last(before) && baselines[n] == last;
        assert forall i :: 0 <= i < n ==> !Latest(baselines, i, p);
      }
    }
  }

  lemma LatestExtends(baselines: seq<Baseline>, i: nat, p: Path)
    requires i < |baselines| - 1
    requires Last(Init(baselines)).identity == Last(baselines).identity && p !in Last(baselines).items
    ensures Latest(baselines, i, p) <==> Latest(Init(baselines), i, p)
  {
    var before := Init(baselines);
    assert forall j :: 0 <= j < |before| ==> before[j] == baselines[j];
    assert baselines[|before|] == Last(baselines);
  }

  lemma LatestHolds(baselines: seq<Baseline>, p: Path) returns (i: nat)
    requires baselines != [] && p in MergeAll(baselines).items
    ensures i < |baselines| && Latest(baselines, i, p) && MergeAll(baselines).items[p] == baselines[i].items[p]
    ensures MergeAll(baselines).metadata == Last(baselines).metadata
  {
    MergeChainIsLatest(baselines, p);
    i :| 0 <= i < |baselines| && Latest(baselines, i, p);
  }
}
