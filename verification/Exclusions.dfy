/** Exclusion patterns over a directory tree: the analysis walk against the precheck collection. */
module Exclusions {
  import opened Common
  import opened Paths
  import opened Wildcards

  // ----- Trees -----

  datatype Node = Leaf(leafType: ItemType) | Folder(children: seq<Entry>)

  datatype Entry = Entry(name: string, node: Node)

  function TypeOf(node: Node): ItemType {
    match node
    case Leaf(leafType) => if leafType == Directory then Unsupported else leafType
    case Folder(_) => Directory
  }

  predicate ValidTree(children: seq<Entry>) {
    children == [] ||
    (&& ValidTree(Init(children))
     && ValidName(Last(children).name)
     && (Last(children).node.Folder? ==> ValidTree(Last(children).node.children)))
  }

  // ----- Patterns -----

  predicate EndsWithSlash(pattern: string) {
    pattern != [] && Last(pattern) == '/'
  }

  function TrimEnd(pattern: string): string {
    if EndsWithSlash(pattern) then TrimEnd(Init(pattern)) else pattern
  }

  predicate StartsWithDotSlash(pattern: string) {
    |pattern| >= 2 && pattern[0] == '.' && pattern[1] == '/'
  }

  function TrimStart(pattern: string): string {
    if StartsWithDotSlash(pattern) then TrimStart(pattern[2..]) else pattern
  }

  /** `matches_exclusion` of the analysis. */
  predicate MatchesExclusion(path: Components, itemType: ItemType, pattern: string) {
    var trimmed := TrimEnd(pattern);
    if trimmed == "" then false
    else if EndsWithSlash(pattern) && itemType != Directory then false
    else if '/' in trimmed then Greedy(trimmed, Join(path))
    else if EndsWithSlash(pattern) then exists i :: 0 <= i < |path| && Greedy(trimmed, path[i])
    else path != [] && Greedy(trimmed, Last(path))
  }

  /** One pattern of `is_excluded` in the precheck. */
  predicate PatternExcludes(text: string, isDirectory: bool, pattern: string) {
    var trimmed := TrimEnd(TrimStart(pattern));
    && (EndsWithSlash(pattern) ==> isDirectory)
    && (Matches(trimmed, text, false) || exists i :: 0 <= i < |Split(text)| && Matches(trimmed, Split(text)[i], false))
  }

  predicate ExcludedByAnalysis(path: Components, itemType: ItemType, exclusions: seq<string>) {
    exists i :: 0 <= i < |exclusions| && MatchesExclusion(path, itemType, exclusions[i])
  }

  predicate ExcludedByPrecheck(path: Components, isDirectory: bool, exclusions: seq<string>) {
    exists i :: 0 <= i < |exclusions| && PatternExcludes(Join(path), isDirectory, exclusions[i])
  }

  lemma {:induction false} TrimEndKeeps(pattern: string)
    ensures TrimEnd(pattern) <= pattern
    ensures QuestionFree(pattern) ==> QuestionFree(TrimEnd(pattern))
    ensures StartsWithDotSlash(pattern) && TrimEnd(pattern) != "" && TrimEnd(pattern) != "." ==>
      StartsWithDotSlash(TrimEnd(pattern))
  {
    if EndsWithSlash(pattern) {
      TrimEndKeeps(Init(pattern));
      if StartsWithDotSlash(pattern) && !StartsWithDotSlash(Init(pattern)) {
        assert Init(pattern) == ".";
      }
    }
  }

  lemma {:induction false} JoinStart(path: Components)
    requires ValidPath(path)
    ensures !StartsWithDotSlash(Join(path))
  {
    var name := path[0];
    if |path| > 1 && |name| == 1 {
      assert Join(path)[0] == name[0];
      assert name != ".";
    } else if |path| > 1 {
      assert Join(path)[1] == name[1];
    }
  }

  lemma LiteralStart(pattern: string, text: string)
    ensures StartsWithDotSlash(pattern) && Greedy(pattern, text) ==> StartsWithDotSlash(text)
    ensures pattern == "." && Greedy(pattern, text) ==> text == "."
  {
    if Greedy(pattern, text) {
      GreedyIsSound(pattern, text);
      if StartsWithDotSlash(pattern) {
        assert Matches(pattern[1..], text[1..], true) && pattern[1..][0] == '/';
      } else if pattern == "." {
        assert pattern[1..] == [];
      }
    }
  }

  /** A pattern that starts with `./` never excludes anything in the analysis. */
  lemma DotSlashMatchesNothing(path: Components, itemType: ItemType, pattern: string)
    requires ValidPath(path) && StartsWithDotSlash(pattern)
    ensures !MatchesExclusion(path, itemType, pattern)
  {
    var trimmed := TrimEnd(pattern);
    TrimEndKeeps(pattern);
    JoinStart(path);
    LiteralStart(trimmed, Join(path));
    forall i | 0 <= i < |path| ensures trimmed == "." ==> !Greedy(trimmed, path[i]) {
      LiteralStart(trimmed, path[i]);
      assert ValidName(path[i]);
    }
    assert StartsWithDotSlash(trimmed) ==> trimmed[1] == '/' && '/' in trimmed;
  }

  /** The precheck reads such a pattern as what follows the `./`. */
  lemma DotSlashIsIgnored(text: string, isDirectory: bool, pattern: string)
    requires pattern != ""
    ensures PatternExcludes(text, isDirectory, "./" + pattern) <==> PatternExcludes(text, isDirectory, pattern)
  {
    var dotted := "./" + pattern;
    assert dotted[2..] == pattern && StartsWithDotSlash(dotted);
    assert Last(dotted) == Last(pattern);
  }

  /** Whatever a pattern without `?` excludes in the analysis it excludes in the precheck. */
  lemma ExclusionContained(path: Components, itemType: ItemType, pattern: string)
    requires ValidPath(path) && QuestionFree(pattern)
    requires MatchesExclusion(path, itemType, pattern)
    ensures PatternExcludes(Join(path), itemType == Directory, pattern)
  {
    if !StartsWithDotSlash(pattern) {
      var trimmed := TrimEnd(pattern);
      TrimEndKeeps(pattern);
      SplitUndoesJoin(path);
      EnginesContainedExactly(trimmed);
      if '/' !in trimmed && !EndsWithSlash(pattern) {
        assert path[|path| - 1] == Last(path);
      }
    } else {
      DotSlashMatchesNothing(path, itemType, pattern);
    }
  }

  // ----- The two walks -----

  datatype InventoryItem = InventoryItem(path: Components, itemType: ItemType, outcome: AnalysisOutcome)

  predicate HasPrefix(text: string, prefix: string) {
    prefix <= text
  }

  predicate InternalArtifact(name: string) {
    || HasPrefix(name, ".syncplus-partial-")
    || HasPrefix(name, ".syncplus-temporary-")
    || HasPrefix(name, ".syncplus-previous-")
  }

  function OutcomeFor(excluded: bool, itemType: ItemType): AnalysisOutcome {
    if excluded then Excluded else if itemType == Unsupported then NotSupported else Included
  }

  /** The items `walk_directory` lists for a directory, whose entries come in the order it visits them. */
  function Walk(children: seq<Entry>, directory: Components, inherited: bool,
                exclusions: seq<string>): seq<InventoryItem>
    decreases children
  {
    if children == [] then []
    else
      Walk(Init(children), directory, inherited, exclusions) +
      WalkEntry(Last(children), directory, inherited, exclusions)
  }

  function WalkEntry(entry: Entry, directory: Components, inherited: bool, exclusions: seq<string>): seq<InventoryItem>
    decreases entry
  {
    if InternalArtifact(entry.name) then []
    else
      var path, itemType := directory + [entry.name], TypeOf(entry.node);
      var excluded := inherited || ExcludedByAnalysis(path, itemType, exclusions);
      [InventoryItem(path, itemType, OutcomeFor(excluded, itemType))] +
      if entry.node.Folder? then Walk(entry.node.children, path, excluded, exclusions) else []
  }

  /** The paths `collect_entries` keeps: excluded entries are pruned with everything below them. */
  function Collect(children: seq<Entry>, directory: Components, exclusions: seq<string>): seq<Components>
    decreases children
  {
    if children == [] then []
    else Collect(Init(children), directory, exclusions) + CollectEntry(Last(children), directory, exclusions)
  }

  function CollectEntry(entry: Entry, directory: Components, exclusions: seq<string>): seq<Components>
    decreases entry
  {
    var path := directory + [entry.name];
    if ExcludedByPrecheck(path, entry.node.Folder?, exclusions) then []
    else [path] + if entry.node.Folder? then Collect(entry.node.children, path, exclusions) else []
  }

  lemma WalkPush(children: seq<Entry>, i: nat, directory: Components, inherited: bool, exclusions: seq<string>)
    requires i < |children|
    ensures Walk(children[..i + 1], directory, inherited, exclusions) ==
            Walk(children[..i], directory, inherited, exclusions) +
            WalkEntry(children[i], directory, inherited, exclusions)
  {
    assert Init(children[..i + 1]) == children[..i] && Last(children[..i + 1]) == children[i];
  }

  method WalkDirectory(children: seq<Entry>, directory: Components, inherited: bool, exclusions: seq<string>)
    returns (items: seq<InventoryItem>)
    ensures items == Walk(children, directory, inherited, exclusions)
    decreases children
  {
    items := [];
    for i := 0 to |children|
      invariant items == Walk(children[..i], directory, inherited, exclusions)
    {
      WalkPush(children, i, directory, inherited, exclusions);
      var entry := children[i];
      if InternalArtifact(entry.name) {
        assert WalkEntry(entry, directory, inherited, exclusions) == [];
        continue;
      }
      var path, itemType := directory + [entry.name], TypeOf(entry.node);
      var excluded := inherited || ExcludedByAnalysis(path, itemType, exclusions);
      items := items + [InventoryItem(path, itemType, OutcomeFor(excluded, itemType))];
      if entry.node.Folder? {
        var below := WalkDirectory(entry.node.children, path, excluded, exclusions);
        items := items + below;
      }
    }
    assert children[..|children|] == children;
  }

  method CollectEntries(children: seq<Entry>, directory: Components, exclusions: seq<string>)
    returns (entries: seq<Components>)
    ensures entries == Collect(children, directory, exclusions)
    decreases children
  {
    entries := [];
    for i := 0 to |children|
      invariant entries == Collect(children[..i], directory, exclusions)
    {
      assert Init(children[..i + 1]) == children[..i];
      var entry := children[i];
      var path := directory + [entry.name];
      if ExcludedByPrecheck(path, entry.node.Folder?, exclusions) {
        assert CollectEntry(entry, directory, exclusions) == [];
        continue;
      }
      entries := entries + [path];
      if entry.node.Folder? {
        var below := CollectEntries(entry.node.children, path, exclusions);
        entries := entries + below;
      }
    }
    assert children[..|children|] == children;
  }

  // ----- What the walks list -----

  /** The tree holds an entry of this type at the path. */
  predicate Holds(children: seq<Entry>, path: Components, itemType: ItemType)
    decreases |path|, 1
  {
    path != [] && exists i :: 0 <= i < |children| && HoldsEntry(children[i], path, itemType)
  }

  predicate HoldsEntry(entry: Entry, path: Components, itemType: ItemType)
    requires path != []
    decreases |path|, 0
  {
    && entry.name == path[0]
    && if |path| == 1 then TypeOf(entry.node) == itemType
       else entry.node.Folder? && Holds(entry.node.children, path[1..], itemType)
  }

  predicate Under(directory: Components, path: Components) {
    directory <= path && |directory| < |path|
  }

  predicate ThroughArtifact(path: Components, from: nat) {
    exists i :: from <= i < |path| && InternalArtifact(path[i])
  }

  /** Some part of the path, up to its first `k` components, matches an exclusion; parts above the item are
      directories. */
  predicate ExcludedAt(path: Components, itemType: ItemType, k: nat, exclusions: seq<string>)
    requires k <= |path|
  {
    ExcludedByAnalysis(path[..k], if k < |path| then Directory else itemType, exclusions)
  }

  predicate ExcludedBetween(item: InventoryItem, from: nat, exclusions: seq<string>) {
    exists k :: from < k <= |item.path| && ExcludedAt(item.path, item.itemType, k, exclusions)
  }

  /** What an item of the inventory says of itself is right. */
  predicate MarkedRight(item: InventoryItem, from: nat, inherited: bool, exclusions: seq<string>) {
    && !ThroughArtifact(item.path, from)
    && item.outcome == OutcomeFor(inherited || ExcludedBetween(item, from, exclusions), item.itemType)
  }

  /** Some entry of the directory lists the item. */
  ghost predicate Among(item: InventoryItem, children: seq<Entry>, directory: Components, inherited: bool,
                        exclusions: seq<string>) {
    exists i :: 0 <= i < |children| && item in WalkEntry(children[i], directory, inherited, exclusions)
  }

  lemma AmongPush(item: InventoryItem, children: seq<Entry>, directory: Components, inherited: bool,
                  exclusions: seq<string>)
    requires children != []
    ensures Among(item, children, directory, inherited, exclusions) <==>
            || Among(item, Init(children), directory, inherited, exclusions)
            || item in WalkEntry(Last(children), directory, inherited, exclusions)
  {
    if i :| 0 <= i < |children| - 1 && item in WalkEntry(Init(children)[i], directory, inherited, exclusions) {
      assert item in WalkEntry(children[i], directory, inherited, exclusions);
    }
    assert Last(children) == children[|children| - 1];
  }

  lemma {:induction false} WalkIsByEntry(children: seq<Entry>, directory: Components, inherited: bool,
                                         exclusions: seq<string>, item: InventoryItem)
    ensures item in Walk(children, directory, inherited, exclusions) <==>
            Among(item, children, directory, inherited, exclusions)
    decreases |children|
  {
    if children != [] {
      var n := |children| - 1;
      WalkIsByEntry(Init(children), directory, inherited, exclusions, item);
      WalkPush(children, n, directory, inherited, exclusions);
      assert children[..n] == Init(children) && children[..n + 1] == children;
      AmongPush(item, children, directory, inherited, exclusions);
    }
  }

  lemma OneStepDown(item: InventoryItem, directory: Components, name: string, exclusions: seq<string>)
    requires Under(directory, item.path) && item.path[|directory|] == name && |item.path| > |directory| + 1
    ensures item.path[..|directory| + 1] == directory + [name]
    ensures ThroughArtifact(item.path, |directory|) <==>
            InternalArtifact(name) || ThroughArtifact(item.path, |directory| + 1)
    ensures ExcludedBetween(item, |directory|, exclusions) <==>
            || ExcludedByAnalysis(directory + [name], Directory, exclusions)
            || ExcludedBetween(item, |directory| + 1, exclusions)
  {
    var n := |directory| + 1;
    assert item.path[..n] == directory + [name];
    assert ExcludedAt(item.path, item.itemType, n, exclusions) <==>
           ExcludedByAnalysis(directory + [name], Directory, exclusions);
    if k :| |directory| < k <= |item.path| && ExcludedAt(item.path, item.itemType, k, exclusions) && k != n {
      assert ExcludedBetween(item, n, exclusions);
    }
  }

  lemma LastStep(item: InventoryItem, directory: Components, name: string, exclusions: seq<string>)
    requires item.path == directory + [name]
    ensures ThroughArtifact(item.path, |directory|) <==> InternalArtifact(name)
    ensures ExcludedBetween(item, |directory|, exclusions) <==> ExcludedByAnalysis(item.path, item.itemType, exclusions)
  {
    var n := |item.path|;
    assert item.path[..n] == item.path;
    assert ExcludedAt(item.path, item.itemType, n, exclusions) <==>
           ExcludedByAnalysis(item.path, item.itemType, exclusions);
    assert item.path[|directory|] == name;
  }

  /** The inventory lists exactly the entries of the tree that are not behind one of SyncPlus's own temporary names,
      each marked Excluded exactly when it, or a directory above it, matches an exclusion. */
  lemma {:induction false} WalkListsExactly(children: seq<Entry>, directory: Components, inherited: bool,
                                            exclusions: seq<string>, item: InventoryItem)
    ensures item in Walk(children, directory, inherited, exclusions) <==>
            && Under(directory, item.path)
            && Holds(children, item.path[|directory|..], item.itemType)
            && MarkedRight(item, |directory|, inherited, exclusions)
    decreases children
  {
    WalkIsByEntry(children, directory, inherited, exclusions, item);
    forall i | 0 <= i < |children|
      ensures item in WalkEntry(children[i], directory, inherited, exclusions) <==>
              && Under(directory, item.path)
              && HoldsEntry(children[i], item.path[|directory|..], item.itemType)
              && MarkedRight(item, |directory|, inherited, exclusions)
    {
      WalkEntryListsExactly(children[i], directory, inherited, exclusions, item);
    }
  }

  lemma {:induction false} WalkEntryListsExactly(entry: Entry, directory: Components, inherited: bool,
                                                 exclusions: seq<string>, item: InventoryItem)
    ensures item in WalkEntry(entry, directory, inherited, exclusions) <==>
            && Under(directory, item.path)
            && HoldsEntry(entry, item.path[|directory|..], item.itemType)
            && MarkedRight(item, |directory|, inherited, exclusions)
    decreases entry
  {
    var path, itemType := directory + [entry.name], TypeOf(entry.node);
    var excluded := inherited || ExcludedByAnalysis(path, itemType, exclusions);
    if entry.node.Folder? {
      WalkListsExactly(entry.node.children, path, excluded, exclusions, item);
    }
    if Under(directory, item.path) && item.path[|directory|] == entry.name {
      if |item.path| == |path| {
        assert item.path == path;
        LastStep(item, directory, entry.name, exclusions);
      } else {
        OneStepDown(item, directory, entry.name, exclusions);
        assert item.path[|directory|..][1..] == item.path[|path|..];
      }
    } else {
      assert !(path <= item.path);
    }
  }

  /** The Excluded part of an inventory is closed under descendants. */
  lemma ExcludedIsClosed(children: seq<Entry>, exclusions: seq<string>, upper: InventoryItem, lower: InventoryItem)
    requires upper in Walk(children, [], false, exclusions) && lower in Walk(children, [], false, exclusions)
    requires upper.itemType == Directory && upper.path < lower.path
    requires upper.outcome == Excluded
    ensures lower.outcome == Excluded
  {
    WalkListsExactly(children, [], false, exclusions, upper);
    WalkListsExactly(children, [], false, exclusions, lower);
    var k :| 0 < k <= |upper.path| && ExcludedAt(upper.path, upper.itemType, k, exclusions);
    assert upper.path[..k] == lower.path[..k];
    assert ExcludedAt(lower.path, lower.itemType, k, exclusions);
  }

  // ----- What the precheck keeps -----

  /** Neither the entry nor a directory above it is excluded by the precheck. */
  predicate ClearOfPrecheck(path: Components, itemType: ItemType, from: nat, exclusions: seq<string>) {
    forall k :: from < k <= |path| ==> !PrunedAt(path, itemType, k, exclusions)
  }

  predicate PrunedAt(path: Components, itemType: ItemType, k: nat, exclusions: seq<string>)
    requires k <= |path|
  {
    ExcludedByPrecheck(path[..k], k < |path| || itemType == Directory, exclusions)
  }

  predicate Kept(children: seq<Entry>, directory: Components, exclusions: seq<string>, path: Components,
                 itemType: ItemType)
  {
    && Under(directory, path) && Holds(children, path[|directory|..], itemType)
    && ClearOfPrecheck(path, itemType, |directory|, exclusions)
  }

  predicate KeptEntry(entry: Entry, directory: Components, exclusions: seq<string>, path: Components,
                      itemType: ItemType)
  {
    && Under(directory, path) && HoldsEntry(entry, path[|directory|..], itemType)
    && ClearOfPrecheck(path, itemType, |directory|, exclusions)
  }

  lemma {:induction false} CollectIsByEntry(children: seq<Entry>, directory: Components, exclusions: seq<string>,
                                            path: Components)
    ensures path in Collect(children, directory, exclusions) <==>
            exists i :: 0 <= i < |children| && path in CollectEntry(children[i], directory, exclusions)
    decreases |children|
  {
    if children != [] {
      CollectIsByEntry(Init(children), directory, exclusions, path);
      if i :| 0 <= i < |children| - 1 && path in CollectEntry(Init(children)[i], directory, exclusions) {
        assert path in CollectEntry(children[i], directory, exclusions);
      }
      assert Last(children) == children[|children| - 1];
    }
  }

  /** The precheck keeps exactly the entries of the tree that neither it nor a directory above it excludes. */
  lemma {:induction false} CollectKeepsExactly(children: seq<Entry>, directory: Components, exclusions: seq<string>,
                                               path: Components)
    ensures path in Collect(children, directory, exclusions) <==>
            exists itemType :: Kept(children, directory, exclusions, path, itemType)
    decreases children
  {
    CollectIsByEntry(children, directory, exclusions, path);
    forall i | 0 <= i < |children|
      ensures path in CollectEntry(children[i], directory, exclusions) <==>
              exists itemType :: KeptEntry(children[i], directory, exclusions, path, itemType)
    {
      CollectEntryKeepsExactly(children[i], directory, exclusions, path);
    }
    if path in Collect(children, directory, exclusions) {
      var i :| 0 <= i < |children| && path in CollectEntry(children[i], directory, exclusions);
      var itemType :| KeptEntry(children[i], directory, exclusions, path, itemType);
      assert Kept(children, directory, exclusions, path, itemType);
    }
    if itemType :| Kept(children, directory, exclusions, path, itemType) {
      var i :| 0 <= i < |children| && HoldsEntry(children[i], path[|directory|..], itemType);
      assert KeptEntry(children[i], directory, exclusions, path, itemType);
    }
  }

  lemma ClearOneStepDown(path: Components, itemType: ItemType, directory: Components, name: string,
                         exclusions: seq<string>)
    requires Under(directory, path) && path[|directory|] == name
    ensures ClearOfPrecheck(path, itemType, |directory|, exclusions) <==>
            && !ExcludedByPrecheck(directory + [name], |path| > |directory| + 1 || itemType == Directory, exclusions)
            && ClearOfPrecheck(path, itemType, |directory| + 1, exclusions)
  {
    var n := |directory| + 1;
    assert path[..n] == directory + [name];
    assert PrunedAt(path, itemType, n, exclusions) <==>
           ExcludedByPrecheck(directory + [name], |path| > n || itemType == Directory, exclusions);
  }

  lemma {:induction false} CollectEntryKeepsExactly(entry: Entry, directory: Components, exclusions: seq<string>,
                                                    path: Components)
    ensures path in CollectEntry(entry, directory, exclusions) <==>
            exists itemType :: KeptEntry(entry, directory, exclusions, path, itemType)
    decreases entry
  {
    var own := directory + [entry.name];
    if entry.node.Folder? {
      CollectKeepsExactly(entry.node.children, own, exclusions, path);
    }
    forall itemType
      ensures KeptEntry(entry, directory, exclusions, path, itemType) <==>
              && !ExcludedByPrecheck(own, entry.node.Folder?, exclusions)
              && (|| (path == own && itemType == TypeOf(entry.node))
                  || (entry.node.Folder? && Kept(entry.node.children, own, exclusions, path, itemType)))
    {
      KeptEntryStep(entry, directory, exclusions, path, itemType);
    }
    if path == own && !ExcludedByPrecheck(own, entry.node.Folder?, exclusions) {
      assert KeptEntry(entry, directory, exclusions, path, TypeOf(entry.node));
    }
  }

  lemma KeptEntryStep(entry: Entry, directory: Components, exclusions: seq<string>, path: Components,
                      itemType: ItemType)
    ensures KeptEntry(entry, directory, exclusions, path, itemType) <==>
            && !ExcludedByPrecheck(directory + [entry.name], entry.node.Folder?, exclusions)
            && (|| (path == directory + [entry.name] && itemType == TypeOf(entry.node))
                || (entry.node.Folder? &&
                    Kept(entry.node.children, directory + [entry.name], exclusions, path, itemType)))
  {
    var own := directory + [entry.name];
    if Under(directory, path) && path[|directory|] == entry.name {
      ClearOneStepDown(path, itemType, directory, entry.name, exclusions);
      if |path| == |own| {
        assert path == own;
      } else {
        assert path[|directory|..][1..] == path[|own|..];
        assert own <= path;
      }
    } else {
      assert !(own <= path);
    }
  }

  // ----- Containment -----

  lemma {:induction false} ValidTreeEntry(children: seq<Entry>, i: nat)
    requires ValidTree(children) && i < |children|
    ensures ValidName(children[i].name)
    ensures children[i].node.Folder? ==> ValidTree(children[i].node.children)
    decreases |children|
  {
    if i < |children| - 1 {
      ValidTreeEntry(Init(children), i);
    }
  }

  lemma {:induction false} HeldPathIsValid(children: seq<Entry>, path: Components, itemType: ItemType)
    requires ValidTree(children) && Holds(children, path, itemType)
    ensures ValidPath(path)
    decreases |path|
  {
    var i :| 0 <= i < |children| && HoldsEntry(children[i], path, itemType);
    ValidTreeEntry(children, i);
    if |path| > 1 {
      HeldPathIsValid(children[i].node.children, path[1..], itemType);
      assert path == [path[0]] + path[1..];
    }
  }

  /** Where the precheck does not prune, the analysis does not exclude. */
  lemma ClearIsNotExcluded(item: InventoryItem, exclusions: seq<string>)
    requires ValidPath(item.path) && forall i :: 0 <= i < |exclusions| ==> QuestionFree(exclusions[i])
    requires ClearOfPrecheck(item.path, item.itemType, 0, exclusions)
    ensures !ExcludedBetween(item, 0, exclusions)
  {
    forall k | 0 < k <= |item.path| ensures !ExcludedAt(item.path, item.itemType, k, exclusions) {
      var part, partType := item.path[..k], if k < |item.path| then Directory else item.itemType;
      assert !PrunedAt(item.path, item.itemType, k, exclusions);
      forall i | 0 <= i < |exclusions| ensures !MatchesExclusion(part, partType, exclusions[i]) {
        assert !PatternExcludes(Join(part), partType == Directory, exclusions[i]);
        if MatchesExclusion(part, partType, exclusions[i]) {
          ExclusionContained(part, partType, exclusions[i]);
        }
      }
    }
  }

  lemma KeptIsWalked(children: seq<Entry>, exclusions: seq<string>, path: Components)
    requires ValidTree(children) && forall i :: 0 <= i < |exclusions| ==> QuestionFree(exclusions[i])
    requires path in Collect(children, [], exclusions) && !ThroughArtifact(path, 0)
    ensures exists item ::
              item in Walk(children, [], false, exclusions) && item.path == path && item.outcome != Excluded
  {
    CollectKeepsExactly(children, [], exclusions, path);
    var itemType :| Kept(children, [], exclusions, path, itemType);
    assert path[0..] == path;
    HeldPathIsValid(children, path, itemType);
    var item := InventoryItem(path, itemType, OutcomeFor(false, itemType));
    ClearIsNotExcluded(item, exclusions);
    WalkListsExactly(children, [], false, exclusions, item);
  }

  /** Containment over trees: what the precheck keeps, the analysis lists and does not exclude, unless the path
      runs through one of SyncPlus's own temporary names, which the analysis skips. */
  lemma PrecheckKeepsOnlyAnalysed(children: seq<Entry>, exclusions: seq<string>)
    requires ValidTree(children)
    requires forall i :: 0 <= i < |exclusions| ==> QuestionFree(exclusions[i])
    ensures forall path :: path in Collect(children, [], exclusions) ==>
              || ThroughArtifact(path, 0)
              || exists item ::
                   item in Walk(children, [], false, exclusions) && item.path == path && item.outcome != Excluded
  {
    forall path | path in Collect(children, [], exclusions) && !ThroughArtifact(path, 0)
      ensures exists item ::
              item in Walk(children, [], false, exclusions) && item.path == path && item.outcome != Excluded
    {
      KeptIsWalked(children, exclusions, path);
    }
  }
}
