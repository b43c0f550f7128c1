/** Names for preserved conflict copies: allocated so that no two ever collide on a peer. */
module PreservedCopy {
  import opened Common
  import opened Paths

  const U32_MAX: nat := 0xFFFF_FFFF

  datatype NamingRule =
    PathTooLong | ComponentTooLong | InvalidCharacter | TrailingDotOrSpace | ReservedName

  /** A destination naming policy: how it folds one name, and the rule a path breaks. */
  datatype Policy = Policy(keyComponent: string -> string, validate: Components -> Option<NamingRule>)
  {
    /** `collision_key`: the folded components, joined. */
    function Key(path: Components): string {
      Join(seq(|path|, i requires 0 <= i < |path| => keyComponent(path[i])))
    }
  }

  datatype ResolvedConflict = ResolvedConflict(path: Path, resolution: ConflictResolution)

  datatype Copy = Copy(
    original: Path, generated: Components, source: PeerSide, target: PeerSide, resolution: ConflictResolution)

  datatype CopyError =
    | UnsafeRelativePath(path: Path)
    | InvalidGeneratedPath(generated: Components, rule: NamingRule)
    | NoAvailableName(path: Path, source: PeerSide)

  // ----- Relative paths -----

  /** `Path::components` of a text that does not start with `/`: empty parts and inner `.` parts fall away. */
  function Pieces(parts: Components): Components {
    if parts == [] then []
    else Pieces(Init(parts)) + if Last(parts) == "" || (Last(parts) == "." && |parts| > 1) then [] else [Last(parts)]
  }

  /** `validate_relative_path`: relative, not empty, and neither `.` at the start nor `..` anywhere. */
  predicate SafeRelative(path: Path) {
    && path != "" && path[0] != '/'
    && forall i :: 0 <= i < |Pieces(Split(path))| ==> Pieces(Split(path))[i] !in {".", ".."}
  }

  lemma {:induction false} PiecesKeepFirst(parts: Components)
    requires parts != [] && parts[0] != ""
    ensures Pieces(parts) != []
  {
    if |parts| > 1 {
      PiecesKeepFirst(Init(parts));
    }
  }

  /** The components of a safe path. */
  function ComponentsOf(path: Path): (components: Components)
    requires SafeRelative(path)
    ensures components != []
  {
    PiecesKeepFirst(Split(path));
    Pieces(Split(path))
  }

  // ----- Generated names -----

  function LastDot(name: string): (i: int)
    ensures -1 <= i < |name|
  {
    if name == "" then -1 else if Last(name) == '.' then |name| - 1 else LastDot(Init(name))
  }

  /** `Path::file_stem`: a name that starts with its only dot has no extension. */
  function Stem(name: string): string {
    if LastDot(name) > 0 then name[..LastDot(name)] else name
  }

  function Extension(name: string): Option<string> {
    if LastDot(name) > 0 then Some(name[LastDot(name) + 1..]) else None
  }

  /** `suffix_plus_one`, saturating. */
  function Number(suffix: nat): nat {
    if suffix < U32_MAX then suffix + 1 else U32_MAX
  }

  function PeerLabel(peer: PeerSide): string {
    if peer == PeerA then "Peer A" else "Peer B"
  }

  function Ordinal(suffix: nat): string {
    if suffix == 0 then "" else " (" + Decimal(Number(suffix)) + ")"
  }

  function Ending(extension: Option<string>): string {
    if extension.Some? then "." + extension.value else ""
  }

  /** What is put between stem and extension: whose copy it is, and which. */
  function Decoration(source: PeerSide, suffix: nat): string {
    " (" + PeerLabel(source) + ")" + Ordinal(suffix)
  }

  function GeneratedName(name: string, source: PeerSide, suffix: nat): string {
    Stem(name) + Decoration(source, suffix) + Ending(Extension(name))
  }

  function GeneratedPath(original: Components, source: PeerSide, suffix: nat): Components
    requires original != []
  {
    Init(original) + [GeneratedName(Last(original), source, suffix)]
  }

  lemma {:induction false} DecimalIsInjective(m: nat, n: nat)
    requires Decimal(m) == Decimal(n)
    ensures m == n
    decreases m
  {
    if m >= 10 && n >= 10 {
      assert Init(Decimal(m)) == Decimal(m / 10) && Init(Decimal(n)) == Decimal(n / 10);
      DecimalIsInjective(m / 10, n / 10);
      assert Last(Decimal(m)) == Digit(m % 10) && Last(Decimal(n)) == Digit(n % 10);
    } else {
      assert |Decimal(m)| == |Decimal(n)|;
    }
  }

  lemma OrdinalsDistinct(s: nat, t: nat)
    requires s < t <= U32_MAX
    ensures Ordinal(s) == Ordinal(t) <==> s == U32_MAX - 1
  {
    if s > 0 && Ordinal(s) == Ordinal(t) {
      assert Ordinal(s)[2..|Ordinal(s)| - 1] == Decimal(Number(s));
      assert Ordinal(t)[2..|Ordinal(t)| - 1] == Decimal(Number(t));
      DecimalIsInjective(Number(s), Number(t));
    }
  }

  lemma MiddleDecides(before: string, x: string, y: string, after: string)
    ensures before + x + after == before + y + after <==> x == y
  {
    var left, right := before + x + after, before + y + after;
    if left == right {
      assert left[|before|..|left| - |after|] == x;
      assert right[|before|..|right| - |after|] == y;
    }
  }

  /** Generated names differ for different suffixes, but for the last two, which the saturating number makes the same.
      */
  lemma NamesDistinctExactly(name: string, source: PeerSide, s: nat, t: nat)
    requires s < t <= U32_MAX
    ensures GeneratedName(name, source, s) == GeneratedName(name, source, t) <==> s == U32_MAX - 1
  {
    OrdinalsDistinct(s, t);
    MiddleDecides(" (" + PeerLabel(source) + ")", Ordinal(s), Ordinal(t), "");
    assert Decoration(source, s) + "" == Decoration(source, s) && Decoration(source, t) + "" == Decoration(source, t);
    MiddleDecides(Stem(name), Decoration(source, s), Decoration(source, t), Ending(Extension(name)));
  }

  /** The copies of the two peers never share a name. */
  lemma PeersNeverShareName(name: string, s: nat, t: nat)
    ensures GeneratedName(name, PeerA, s) != GeneratedName(name, PeerB, t)
  {
    var k := |Stem(name)| + 7;
    assert GeneratedName(name, PeerA, s)[k] == 'A';
    assert GeneratedName(name, PeerB, t)[k] == 'B';
  }

  lemma DecorationHasNoDot(source: PeerSide, suffix: nat)
    ensures '.' !in Decoration(source, suffix)
  {
  }

  lemma {:induction false} DotBehind(front: string, extension: string)
    requires '.' !in extension
    ensures LastDot(front + "." + extension) == |front|
  {
    var name := front + "." + extension;
    if extension == "" {
      assert Last(name) == '.';
    } else {
      DotBehind(front, Init(extension));
      assert Init(name) == front + "." + Init(extension) && Last(name) == Last(extension);
    }
  }

  lemma {:induction false} DotInFront(name: string, decoration: string)
    requires '.' !in decoration
    ensures LastDot(name + decoration) == LastDot(name)
  {
    if decoration == "" {
      assert name + decoration == name;
    } else {
      DotInFront(name, Init(decoration));
      assert Init(name + decoration) == name + Init(decoration) && Last(name + decoration) == Last(decoration);
    }
  }

  lemma {:induction false} ExtensionHasNoDot(name: string)
    requires LastDot(name) > 0
    ensures '.' !in Extension(name).value
  {
    if Last(name) != '.' {
      ExtensionHasNoDot(Init(name));
      assert name[LastDot(name) + 1..] == Init(name)[LastDot(name) + 1..] + [Last(name)];
    }
  }

  lemma ExtensionBehind(front: string, extension: string)
    requires front != "" && '.' !in extension
    ensures Extension(front + ("." + extension)) == Some(extension)
  {
    DotBehind(front, extension);
    assert front + ("." + extension) == front + "." + extension;
    assert (front + "." + extension)[|front| + 1..] == extension;
  }

  /** A generated name keeps the stem in front and the extension behind. */
  lemma ExtensionIsKept(name: string, source: PeerSide, suffix: nat)
    ensures Extension(GeneratedName(name, source, suffix)) == Extension(name)
    ensures Stem(name) <= GeneratedName(name, source, suffix)
  {
    var decoration := Decoration(source, suffix);
    DecorationHasNoDot(source, suffix);
    if LastDot(name) > 0 {
      ExtensionHasNoDot(name);
      ExtensionBehind(Stem(name) + decoration, Extension(name).value);
    } else {
      DotInFront(name, decoration);
      assert name + decoration + "" == name + decoration;
    }
  }

  lemma {:induction false} JoinBehind(path: Components, name: string)
    ensures Join(path + [name]) == if path == [] then name else Join(path) + "/" + name
  {
    if path != [] {
      JoinBehind(path[1..], name);
      assert (path + [name])[1..] == path[1..] + [name];
      if |path| > 1 {
        assert Join(path + [name]) == path[0] + "/" + (Join(path[1..]) + "/" + name);
        assert path[0] + "/" + (Join(path[1..]) + "/" + name) == (path[0] + "/" + Join(path[1..])) + "/" + name;
      }
    }
  }

  /** Two names in one directory share a key exactly when the policy folds them to one name. */
  lemma KeysDecidedByName(policy: Policy, parent: Components, m: string, n: string)
    ensures policy.Key(parent + [m]) == policy.Key(parent + [n]) <==> policy.keyComponent(m) == policy.keyComponent(n)
  {
    var folded := seq(|parent|, i requires 0 <= i < |parent| => policy.keyComponent(parent[i]));
    var x, y := policy.keyComponent(m), policy.keyComponent(n);
    assert policy.Key(parent + [m]) == Join(folded + [x]) by { FoldBehind(policy, parent, m, folded); }
    assert policy.Key(parent + [n]) == Join(folded + [y]) by { FoldBehind(policy, parent, n, folded); }
    JoinBehind(folded, x);
    JoinBehind(folded, y);
    MiddleDecides(Join(folded) + "/", x, y, "");
    assert forall s: string :: s + "" == s;
  }

  lemma FoldBehind(policy: Policy, parent: Components, name: string, folded: Components)
    requires folded == seq(|parent|, i requires 0 <= i < |parent| => policy.keyComponent(parent[i]))
    ensures policy.Key(parent + [name]) == Join(folded + [policy.keyComponent(name)])
  {
    var path := parent + [name];
    assert seq(|path|, i requires 0 <= i < |path| => policy.keyComponent(path[i])) ==
           folded + [policy.keyComponent(name)];
  }

  // ----- The search for a name -----

  /** The names to try, by suffix: the key each would occupy, and the rule it would break. */
  datatype Candidates = Candidates(key: nat -> string, rule: nat -> Option<NamingRule>)

  /** The name is allowed and its key is occupied. */
  predicate Taken(keys: set<string>, c: Candidates, suffix: nat) {
    c.rule(suffix) == None && c.key(suffix) in keys
  }

  /** The first suffix that ends the search. */
  function Search(keys: set<string>, c: Candidates, suffix: nat): nat
    requires suffix <= U32_MAX
    decreases U32_MAX - suffix
  {
    if suffix == U32_MAX || !Taken(keys, c, suffix) then suffix else Search(keys, c, suffix + 1)
  }

  /** The search passes over taken names only: it ends at the least suffix that is not taken. */
  lemma {:induction false} SearchIsLeast(keys: set<string>, c: Candidates, suffix: nat)
    requires suffix <= U32_MAX
    ensures
      var s := Search(keys, c, suffix);
      && suffix <= s <= U32_MAX
      && (forall t :: suffix <= t < s ==> Taken(keys, c, t))
      && (s < U32_MAX ==> !Taken(keys, c, s))
    decreases U32_MAX - suffix
  {
    if suffix < U32_MAX && Taken(keys, c, suffix) {
      SearchIsLeast(keys, c, suffix + 1);
    }
  }

  /** The names occupy different keys, but for the last two, which are the same name. */
  ghost predicate ToldApart(c: Candidates) {
    forall s: nat, t: nat :: s < t < U32_MAX ==> c.key(s) != c.key(t)
  }

  function KeysBelow(c: Candidates, n: nat): set<string> {
    set s: nat | s < n :: c.key(s)
  }

  lemma {:induction false} KeysBelowCount(c: Candidates, n: nat)
    requires ToldApart(c) && n <= U32_MAX
    ensures |KeysBelow(c, n)| == n
  {
    if n > 0 {
      KeysBelowCount(c, n - 1);
      assert KeysBelow(c, n) == KeysBelow(c, n - 1) + {c.key(n - 1)};
    }
  }

  lemma SubsetIsSmaller(small: set<string>, large: set<string>)
    requires small <= large
    ensures |small| <= |large|
  {
    assert large == small + (large - small);
  }

  /** The search ends within one try more than there are occupied keys. */
  lemma SearchWithinOccupied(keys: set<string>, c: Candidates)
    requires ToldApart(c)
    ensures Search(keys, c, 0) <= |keys|
  {
    var s := Search(keys, c, 0);
    SearchIsLeast(keys, c, 0);
    KeysBelowCount(c, s);
    forall key | key in KeysBelow(c, s) ensures key in keys {
      var t: nat :| t < s && key == c.key(t);
      assert Taken(keys, c, t);
    }
    SubsetIsSmaller(KeysBelow(c, s), keys);
  }

  /** The names `allocate_copy` tries for a path. */
  function CandidatesOf(policy: Policy, original: Components, source: PeerSide): Candidates
    requires original != []
  {
    Candidates((suffix: nat) => policy.Key(GeneratedPath(original, source, suffix)),
               (suffix: nat) => policy.validate(GeneratedPath(original, source, suffix)))
  }

  /** The candidates of a path are told apart exactly when the policy does not fold two of the names into one. */
  lemma ToldApartExactly(policy: Policy, original: Components, source: PeerSide)
    requires original != []
    ensures ToldApart(CandidatesOf(policy, original, source)) <==>
            forall s: nat, t: nat :: s < t < U32_MAX ==>
              policy.keyComponent(GeneratedName(Last(original), source, s)) !=
              policy.keyComponent(GeneratedName(Last(original), source, t))
  {
    var c := CandidatesOf(policy, original, source);
    forall s: nat, t: nat
      ensures c.key(s) == c.key(t) <==>
              policy.keyComponent(GeneratedName(Last(original), source, s)) ==
              policy.keyComponent(GeneratedName(Last(original), source, t))
    {
      KeysDecidedByName(policy, Init(original), GeneratedName(Last(original), source, s),
                        GeneratedName(Last(original), source, t));
    }
  }

  /** A policy that folds nothing tells every path's candidates apart. */
  lemma PlainPolicyTellsApart(policy: Policy, original: Components, source: PeerSide)
    requires original != [] && forall name :: policy.keyComponent(name) == name
    ensures ToldApart(CandidatesOf(policy, original, source))
  {
    ToldApartExactly(policy, original, source);
    forall s: nat, t: nat | s < t < U32_MAX
      ensures policy.keyComponent(GeneratedName(Last(original), source, s)) !=
              policy.keyComponent(GeneratedName(Last(original), source, t))
    {
      NamesDistinctExactly(Last(original), source, s, t);
    }
  }

  /** What the search for a copy of `path`, with these components, ends with at a suffix. */
  function Found(keys: set<string>, policy: Policy, original: Components, path: Path, source: PeerSide, suffix: nat):
    Result<Components, CopyError>
    requires original != []
  {
    var generated := GeneratedPath(original, source, suffix);
    var rule := policy.validate(generated);
    if rule.Some? then Err(InvalidGeneratedPath(generated, rule.value))
    else if policy.Key(generated) !in keys then Ok(generated)
    else Err(NoAvailableName(path, source))
  }

  function Allocate(keys: set<string>, policy: Policy, original: Components, path: Path, source: PeerSide):
    Result<Components, CopyError>
    requires original != []
  {
    Found(keys, policy, original, path, source, Search(keys, CandidatesOf(policy, original, source), 0))
  }

  /** The allocated name is the one with the least free suffix, and no name but taken ones comes before it; names only
      run out when all of them are taken. */
  lemma AllocatesLeastFree(keys: set<string>, policy: Policy, original: Components, path: Path, source: PeerSide)
    returns (s: nat)
    requires original != []
    ensures s <= U32_MAX
    ensures forall t: nat :: t < s ==>
              var other := GeneratedPath(original, source, t);
              policy.validate(other) == None && policy.Key(other) in keys
    ensures
      var result, generated := Allocate(keys, policy, original, path, source), GeneratedPath(original, source, s);
      && (result.Ok? <==> policy.validate(generated) == None && policy.Key(generated) !in keys)
      && (result.Ok? ==> result.value == generated)
      && (result.Err? && result.error.InvalidGeneratedPath? <==> policy.validate(generated).Some?)
      && (result == Err(NoAvailableName(path, source)) ==> s == U32_MAX)
    ensures ToldApart(CandidatesOf(policy, original, source)) ==> s <= |keys|
  {
    var c := CandidatesOf(policy, original, source);
    s := Search(keys, c, 0);
    SearchIsLeast(keys, c, 0);
    forall t: nat | t < s
      ensures
        var other := GeneratedPath(original, source, t);
        policy.validate(other) == None && policy.Key(other) in keys
    {
      assert Taken(keys, c, t);
    }
    if ToldApart(c) {
      SearchWithinOccupied(keys, c);
    }
  }

  // ----- Planning one conflict -----

  datatype Policies = Policies(a: Policy, b: Policy)
  {
    function Of(peer: PeerSide): Policy {
      if peer == PeerA then a else b
    }
  }

  datatype Reserved = Reserved(a: set<string>, b: set<string>)
  {
    function Of(peer: PeerSide): set<string> {
      if peer == PeerA then a else b
    }

    function With(peer: PeerSide, key: string): Reserved {
      if peer == PeerA then Reserved(a + {key}, b) else Reserved(a, b + {key})
    }
  }

  datatype Outcome = Outcome(reserved: Reserved, result: Result<Option<seq<Copy>>, CopyError>)

  /** One copy from `source` to the other peer, over what is reserved there. */
  function AllocateCopyOf(policies: Policies, reserved: Reserved, action: ResolvedConflict, source: PeerSide):
    Result<(Reserved, Copy), CopyError>
    requires SafeRelative(action.path)
  {
    var target := source.Opposite();
    match Allocate(reserved.Of(target), policies.Of(target), ComponentsOf(action.path), action.path, source)
    case Err(error) => Err(error)
    case Ok(generated) =>
      Ok((reserved.With(target, policies.Of(target).Key(generated)),
          Copy(action.path, generated, source, target, action.resolution)))
  }

  function WithOriginal(policies: Policies, reserved: Reserved, path: Path): Reserved
    requires SafeRelative(path)
  {
    reserved.With(PeerA, policies.a.Key(ComponentsOf(path))).With(PeerB, policies.b.Key(ComponentsOf(path)))
  }

  predicate Preserves(resolution: ConflictResolution) {
    resolution == PreserveBoth || resolution == RenamePreserveForReview
  }

  function PlanOf(policies: Policies, reserved: Reserved, action: ResolvedConflict): Outcome {
    if !Preserves(action.resolution) then Outcome(reserved, Ok(None))
    else if !SafeRelative(action.path) then Outcome(reserved, Err(UnsafeRelativePath(action.path)))
    else
      match AllocateCopyOf(policies, WithOriginal(policies, reserved, action.path), action, PeerA)
      case Err(error) => Outcome(reserved, Err(error))
      case Ok((between, first)) =>
        match AllocateCopyOf(policies, between, action, PeerB)
        case Err(error) => Outcome(reserved, Err(error))
        case Ok((after, second)) => Outcome(after, Ok(Some([first, second])))
  }

  // ----- The planner -----

  class PreservedPathInventory {
    const policies: Policies
    var peerA: set<string>
    var peerB: set<string>

    ghost function State(): Reserved
      reads this
    {
      Reserved(peerA, peerB)
    }

    constructor (policies: Policies, pathsA: seq<Components>, pathsB: seq<Components>)
      ensures this.policies == policies
      ensures peerA == set i | 0 <= i < |pathsA| :: policies.a.Key(pathsA[i])
      ensures peerB == set i | 0 <= i < |pathsB| :: policies.b.Key(pathsB[i])
    {
      this.policies := policies;
      peerA := set i | 0 <= i < |pathsA| :: policies.a.Key(pathsA[i]);
      peerB := set i | 0 <= i < |pathsB| :: policies.b.Key(pathsB[i]);
    }

    constructor Clone(other: PreservedPathInventory)
      ensures policies == other.policies && State() == other.State()
    {
      policies, peerA, peerB := other.policies, other.peerA, other.peerB;
    }

    predicate Contains(peer: PeerSide, path: Components)
      reads this
    {
      policies.Of(peer).Key(path) in (if peer == PeerA then peerA else peerB)
    }

    method Reserve(peer: PeerSide, path: Components)
      modifies this
      ensures State() == old(State()).With(peer, policies.Of(peer).Key(path))
    {
      var key := policies.Of(peer).Key(path);
      match peer
      case PeerA => peerA := peerA + {key};
      case PeerB => peerB := peerB + {key};
    }
  }

  /** What the search from this suffix on ends with. */
  ghost function FoundFrom(keys: set<string>, policy: Policy, original: Components, path: Path, source: PeerSide,
                           suffix: nat): Result<Components, CopyError>
    requires original != [] && suffix <= U32_MAX
  {
    Found(keys, policy, original, path, source, Search(keys, CandidatesOf(policy, original, source), suffix))
  }

  /** What one try decides: the search ends with a refused name, a free one or the last, or it goes on. */
  lemma TryDecides(keys: set<string>, policy: Policy, original: Components, path: Path, source: PeerSide, suffix: nat)
    requires original != [] && suffix <= U32_MAX
    ensures
      var generated, found := GeneratedPath(original, source, suffix),
                              FoundFrom(keys, policy, original, path, source, suffix);
      if policy.validate(generated).Some?
      then found == Err(InvalidGeneratedPath(generated, policy.validate(generated).value))
      else if policy.Key(generated) !in keys then found == Ok(generated)
      else if suffix == U32_MAX then found == Err(NoAvailableName(path, source))
      else found == FoundFrom(keys, policy, original, path, source, suffix + 1)
  {
  }

  /** The loop of `allocate_copy`. */
  method FindName(inventory: PreservedPathInventory, original: Components, path: Path, source: PeerSide)
    returns (result: Result<Components, CopyError>)
    requires original != []
    ensures result == Allocate(inventory.State().Of(source.Opposite()), inventory.policies.Of(source.Opposite()),
                               original, path, source)
  {
    var target := source.Opposite();
    var policy := inventory.policies.Of(target);
    ghost var keys := inventory.State().Of(target);
    var suffix: nat := 0;
    while true
      invariant suffix <= U32_MAX
      invariant FoundFrom(keys, policy, original, path, source, suffix) ==
                Allocate(keys, policy, original, path, source)
      decreases U32_MAX - suffix
    {
      TryDecides(keys, policy, original, path, source, suffix);
      var generated := GeneratedPath(original, source, suffix);
      var rule := policy.validate(generated);
      if rule.Some? {
        return Err(InvalidGeneratedPath(generated, rule.value));
      }
      if !inventory.Contains(target, generated) {
        return Ok(generated);
      }
      if suffix == U32_MAX {
        return Err(NoAvailableName(path, source));
      }
      suffix := suffix + 1;
    }
  }

  /** `allocate_copy`: the name found is reserved on the target. */
  method AllocateCopy(inventory: PreservedPathInventory, action: ResolvedConflict, source: PeerSide)
    returns (result: Result<Copy, CopyError>)
    requires SafeRelative(action.path)
    modifies inventory
    ensures
      match AllocateCopyOf(inventory.policies, old(inventory.State()), action, source)
      case Err(error) => result == Err(error) && inventory.State() == old(inventory.State())
      case Ok((after, copy)) => result == Ok(copy) && inventory.State() == after
  {
    var name := FindName(inventory, ComponentsOf(action.path), action.path, source);
    if name.Err? {
      return Err(name.error);
    }
    inventory.Reserve(source.Opposite(), name.value);
    result := Ok(Copy(action.path, name.value, source, source.Opposite(), action.resolution));
  }

  class PreservedCopyPlanner {
    var occupied: PreservedPathInventory

    constructor (occupied: PreservedPathInventory)
      ensures this.occupied == occupied
    {
      this.occupied := occupied;
    }

    /** Both copies of a conflict, or no change at all: the names are reserved on a clone that replaces the inventory
        only when both are found. */
    method Plan(action: ResolvedConflict) returns (result: Result<Option<seq<Copy>>, CopyError>)
      modifies this
      ensures
        var planned := PlanOf(occupied.policies, old(occupied.State()), action);
        result == planned.result && occupied.State() == planned.reserved
      ensures occupied.policies == old(occupied.policies)
      ensures result.Err? ==> occupied == old(occupied)
    {
      if !Preserves(action.resolution) {
        return Ok(None);
      }
      if !SafeRelative(action.path) {
        return Err(UnsafeRelativePath(action.path));
      }
      var planned := new PreservedPathInventory.Clone(occupied);
      planned.Reserve(PeerA, ComponentsOf(action.path));
      planned.Reserve(PeerB, ComponentsOf(action.path));
      var first := AllocateCopy(planned, action, PeerA);
      if first.Err? {
        return Err(first.error);
      }
      var second := AllocateCopy(planned, action, PeerB);
      if second.Err? {
        return Err(second.error);
      }
      occupied := planned;
      result := Ok(Some([first.value, second.value]));
    }
  }

  // ----- Any sequence of calls -----

  function ReservedAfter(policies: Policies, initial: Reserved, actions: seq<ResolvedConflict>): Reserved {
    if actions == [] then initial
    else PlanOf(policies, ReservedAfter(policies, initial, Init(actions)), Last(actions)).reserved
  }

  /** The keys one call adds on a peer: its original and its copy, when it allocates its copies. */
  function Adds(policies: Policies, reserved: Reserved, action: ResolvedConflict, peer: PeerSide):
    Option<(string, string)>
  {
    var result := PlanOf(policies, reserved, action).result;
    if result.Ok? && result.value.Some? then
      PlanShape(policies, reserved, action);
      Some((policies.Of(peer).Key(ComponentsOf(action.path)),
            policies.Of(peer).Key(result.value.value[if peer == PeerB then 0 else 1].generated)))
    else None
  }

  lemma AllocatedIsFresh(policies: Policies, reserved: Reserved, action: ResolvedConflict, source: PeerSide)
    requires SafeRelative(action.path)
    ensures
      var found := AllocateCopyOf(policies, reserved, action, source);
      found.Ok? ==>
        var target, key := source.Opposite(), policies.Of(source.Opposite()).Key(found.value.1.generated);
        && key !in reserved.Of(target)
        && found.value.1.source == source && found.value.1.target == target
        && found.value.0.Of(target) == reserved.Of(target) + {key}
        && found.value.0.Of(source) == reserved.Of(source)
  {
  }

  lemma PlanShape(policies: Policies, reserved: Reserved, action: ResolvedConflict)
    ensures
      var planned := PlanOf(policies, reserved, action);
      if planned.result.Ok? && planned.result.value.Some? then
        && Preserves(action.resolution) && SafeRelative(action.path) && |planned.result.value.value| == 2
      else planned.reserved == reserved
  {
  }

  /** What one call reserves: nothing, or the original and one fresh key on each peer, one copy in each direction. */
  lemma PlanReserves(policies: Policies, reserved: Reserved, action: ResolvedConflict, peer: PeerSide)
    ensures
      var planned, adds := PlanOf(policies, reserved, action), Adds(policies, reserved, action, peer);
      match adds
      case None => planned.reserved == reserved
      case Some((original, copy)) =>
        && copy !in reserved.Of(peer) && copy != original
        && planned.reserved.Of(peer) == reserved.Of(peer) + {original, copy}
        && planned.result.value.value[if peer == PeerB then 0 else 1].target == peer
  {
    PlanShape(policies, reserved, action);
    if Preserves(action.resolution) && SafeRelative(action.path) {
      var start := WithOriginal(policies, reserved, action.path);
      AllocatedIsFresh(policies, start, action, PeerA);
      var first := AllocateCopyOf(policies, start, action, PeerA);
      if first.Ok? {
        AllocatedIsFresh(policies, first.value.0, action, PeerB);
      }
    }
  }

  /** Call by call, the keys added on a peer. */
  function Log(policies: Policies, initial: Reserved, actions: seq<ResolvedConflict>, peer: PeerSide):
    (log: seq<Option<(string, string)>>)
    ensures |log| == |actions|
  {
    if actions == [] then []
    else
      Log(policies, initial, Init(actions), peer) +
      [Adds(policies, ReservedAfter(policies, initial, Init(actions)), Last(actions), peer)]
  }

  predicate Adding(entry: Option<(string, string)>, key: string) {
    entry.Some? && (key == entry.value.0 || key == entry.value.1)
  }

  predicate AnyAdding(log: seq<Option<(string, string)>>, key: string) {
    exists i :: 0 <= i < |log| && Adding(log[i], key)
  }

  lemma AnyAddingPush(log: seq<Option<(string, string)>>, entry: Option<(string, string)>, key: string)
    ensures AnyAdding(log + [entry], key) <==> AnyAdding(log, key) || Adding(entry, key)
  {
    var pushed := log + [entry];
    if AnyAdding(log, key) {
      var i :| 0 <= i < |log| && Adding(log[i], key);
      assert pushed[i] == log[i];
    }
    assert pushed[|log|] == entry;
  }

  lemma ReservedStep(policies: Policies, before: Reserved, action: ResolvedConflict, peer: PeerSide, key: string)
    ensures key in PlanOf(policies, before, action).reserved.Of(peer) <==>
            key in before.Of(peer) || Adding(Adds(policies, before, action, peer), key)
  {
    PlanReserves(policies, before, action, peer);
  }

  /** After any calls the reserved keys of a peer are the initial ones and, for each call that allocated, its original
      and its copy; calls that failed or had nothing to preserve left nothing behind. */
  lemma {:induction false} ReservedExactly(policies: Policies, initial: Reserved, actions: seq<ResolvedConflict>,
                                           peer: PeerSide, key: string)
    ensures key in ReservedAfter(policies, initial, actions).Of(peer) <==>
            key in initial.Of(peer) || AnyAdding(Log(policies, initial, actions, peer), key)
  {
    if actions != [] {
      var before := ReservedAfter(policies, initial, Init(actions));
      ReservedExactly(policies, initial, Init(actions), peer, key);
      ReservedStep(policies, before, Last(actions), peer, key);
      AnyAddingPush(Log(policies, initial, Init(actions), peer), Adds(policies, before, Last(actions), peer), key);
    }
  }

  /** Over any sequence of calls a copy's key is new: it is not in the initial inventory, not the key of an original
      planned so far, its own included, and not the key of an earlier copy. */
  lemma {:induction false} CopiesNeverCollide(policies: Policies, initial: Reserved, actions: seq<ResolvedConflict>,
                                              peer: PeerSide, j: nat)
    requires j < |actions| && Log(policies, initial, actions, peer)[j].Some?
    ensures
      var log := Log(policies, initial, actions, peer);
      var (original, copy) := log[j].value;
      copy !in initial.Of(peer) && copy != original && forall i :: 0 <= i < j ==> !Adding(log[i], copy)
  {
    var before := Init(actions);
    if j == |before| {
      var copy := Log(policies, initial, actions, peer)[j].value.1;
      PlanReserves(policies, ReservedAfter(policies, initial, before), Last(actions), peer);
      ReservedExactly(policies, initial, before, peer, copy);
      assert forall i :: 0 <= i < j ==>
               Log(policies, initial, actions, peer)[i] == Log(policies, initial, before, peer)[i];
    } else {
      CopiesNeverCollide(policies, initial, before, peer, j);
    }
  }
}
