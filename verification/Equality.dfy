/** Items of an inventory and the two comparisons that decide whether two peers agree on a path. */
module Equality {
  import opened Common

  datatype Specialist = Specialist(ownership: bool, accessControlLists: bool, extendedAttributes: bool)
  {
    predicate Any() {
      ownership || accessControlLists || extendedAttributes
    }
  }

  datatype MetadataRequirements = MetadataRequirements(
    executablePermissions: bool, symlinkTargets: bool, timestamps: bool, specialist: Specialist)

  /** What is recorded about an item; `modified` is already in nanoseconds, None where they leave the i64 range. */
  datatype ItemState = ItemState(
    itemType: ItemType, size: U64, modified: Option<I64>, readonly: bool,
    executable: Option<nat>, symlinkTarget: Option<Path>, content: Option<Digest>)

  datatype Item = Item(path: Path, state: ItemState, outcome: AnalysisOutcome)
  {
    predicate Eligible() {
      outcome == Included
    }
  }

  /** `MirrorEquality::equal_parts`. */
  predicate EqualParts(m: MetadataRequirements, l: ItemState, r: ItemState) {
    if l.itemType != r.itemType then false
    else if m.specialist.Any() then false
    else if l.itemType == RegularFile && (l.size != r.size || l.content == None || l.content != r.content) then false
    else if m.executablePermissions && l.executable != r.executable then false
    else if m.symlinkTargets && l.symlinkTarget != r.symlinkTarget then false
    else if m.timestamps && l.modified != r.modified then false
    else true
  }

  /** `MirrorEquality::equal` and `equal_inventory`: only included items can be equal. */
  predicate EqualItems(m: MetadataRequirements, l: Item, r: Item) {
    l.Eligible() && r.Eligible() && EqualParts(m, l.state, r.state)
  }

  /** `MirrorReviewEquality::equal`, which does not look at the outcomes. */
  predicate ReviewEqual(m: MetadataRequirements, l: Item, r: Item) {
    if l.state.itemType != r.state.itemType then false
    else if m.specialist.Any() then false
    else if l.state.itemType == RegularFile &&
            (l.state.size != r.state.size || l.state.content == None || l.state.content != r.state.content) then false
    else if m.executablePermissions && l.state.executable != r.state.executable then false
    else if m.symlinkTargets && l.state.symlinkTarget != r.state.symlinkTarget then false
    else m.timestamps ==> l.state.modified == r.state.modified
  }

  /** An item can be compared at all: nothing unverifiable is required, and a file has a content fingerprint. */
  predicate Comparable(m: MetadataRequirements, s: ItemState) {
    !m.specialist.Any() && (s.itemType == RegularFile ==> s.content != None)
  }

  /** What the comparison can see of an item. */
  function View(m: MetadataRequirements, s: ItemState): ItemState {
    ItemState(
      s.itemType,
      if s.itemType == RegularFile then s.size else 0,
      if m.timestamps then s.modified else None,
      false,
      if m.executablePermissions then s.executable else None,
      if m.symlinkTargets then s.symlinkTarget else None,
      if s.itemType == RegularFile then s.content else None)
  }

  /** Equality is having the same visible part, on comparable items only: a partial equivalence, reflexive exactly
      on the comparable items. */
  lemma EqualityIsSameView(m: MetadataRequirements, l: ItemState, r: ItemState)
    ensures EqualParts(m, l, r) <==> Comparable(m, l) && Comparable(m, r) && View(m, l) == View(m, r)
    ensures EqualParts(m, l, r) <==> EqualParts(m, r, l)
    ensures EqualParts(m, l, l) <==> Comparable(m, l)
  {
  }

  lemma EqualityIsTransitive(m: MetadataRequirements, a: ItemState, b: ItemState, c: ItemState)
    requires EqualParts(m, a, b) && EqualParts(m, b, c)
    ensures EqualParts(m, a, c)
  {
  }

  /** The two comparisons, written separately, agree on included items. */
  lemma ReviewEqualityAgrees(m: MetadataRequirements, l: Item, r: Item)
    ensures ReviewEqual(m, l, r) <==> EqualParts(m, l.state, r.state)
    ensures EqualItems(m, l, r) <==> l.Eligible() && r.Eligible() && ReviewEqual(m, l, r)
  {
  }

  // ----- Inventories -----

  predicate UniquePaths(items: seq<Item>) {
    forall i, j :: 0 <= i < j < |items| ==> items[i].path != items[j].path
  }

  /** The items by path, as the code collects them into a map. */
  function ByPath(items: seq<Item>): map<Path, Item> {
    if items == [] then map[] else ByPath(Init(items))[Last(items).path := Last(items)]
  }

  /** With unique paths the map holds exactly the items. */
  lemma {:induction false} ByPathHolds(items: seq<Item>)
    requires UniquePaths(items)
    ensures forall p :: p in ByPath(items) ==> ByPath(items)[p].path == p && ByPath(items)[p] in items
    ensures forall i :: 0 <= i < |items| ==> items[i].path in ByPath(items) && ByPath(items)[items[i].path] == items[i]
  {
    if items != [] {
      ByPathHolds(Init(items));
    }
  }

  method IndexByPath(items: seq<Item>) returns (index: map<Path, Item>)
    ensures index == ByPath(items)
  {
    index := map[];
    for i := 0 to |items|
      invariant index == ByPath(items[..i])
    {
      assert Init(items[..i + 1]) == items[..i];
      index := index[items[i].path := items[i]];
    }
    assert items[..|items|] == items;
  }

  /** `SourceInventory::item`: the first item with this path. */
  function Find(items: seq<Item>, p: Path): Option<Item> {
    if items == [] then None
    else
      var before := Find(Init(items), p);
      if before == None && Last(items).path == p then Some(Last(items)) else before
  }

  lemma {:induction false} FindIsByPath(items: seq<Item>, p: Path)
    requires UniquePaths(items)
    ensures Find(items, p) == if p in ByPath(items) then Some(ByPath(items)[p]) else None
  {
    if items != [] {
      FindIsByPath(Init(items), p);
      ByPathHolds(Init(items));
    }
  }

  /** The inventory lists exactly this state. */
  predicate Lists(items: seq<Item>, state: map<Path, Item>) {
    UniquePaths(items) && ByPath(items) == state
  }

  function Lookup(state: map<Path, Item>, p: Path): Option<Item> {
    if p in state then Some(state[p]) else None
  }

  predicate IncludedAt(state: map<Path, Item>, p: Path) {
    p in state && state[p].Eligible()
  }

  /** A path that is free, or held by an included item. */
  predicate Replaceable(state: map<Path, Item>, p: Path) {
    p in state ==> state[p].Eligible()
  }
}
