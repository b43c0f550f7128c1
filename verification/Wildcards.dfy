/** Two wildcard engines against one relation: the greedy matcher of the analysis and the table of the precheck. */
module Wildcards {
  import opened Common

  /** `*` stands for any text; `?` for any one character when `question` is set, for itself otherwise. */
  predicate Matches(p: string, v: string, question: bool)
    decreases |p|, |v|
  {
    if p == [] then v == []
    else if p[0] == '*' then Matches(p[1..], v, question) || (v != [] && Matches(p, v[1..], question))
    else v != [] && ((question && p[0] == '?') || p[0] == v[0]) && Matches(p[1..], v[1..], question)
  }

  predicate AllStars(p: string) {
    forall i :: 0 <= i < |p| ==> p[i] == '*'
  }

  // ----- The greedy matcher -----

  /** Matching goes on at `pi` and `vi`; the last `*` seen, at `star`, has swallowed the value up to `starValue`. */
  datatype Cursor = Cursor(pi: nat, vi: nat, star: Option<nat>, starValue: nat)

  predicate ValidCursor(p: string, v: string, c: Cursor) {
    && c.pi <= |p| && c.vi <= |v| && c.starValue <= c.vi
    && (c.star.Some? ==> c.star.value < c.pi && p[c.star.value] == '*')
  }

  /** One turn of the matching loop; None when no `*` is left to fall back to. */
  function Advance(p: string, v: string, c: Cursor): Option<Cursor>
    requires ValidCursor(p, v, c) && c.vi < |v|
  {
    if c.pi < |p| && (p[c.pi] == '?' || p[c.pi] == v[c.vi]) then Some(c.(pi := c.pi + 1, vi := c.vi + 1))
    else if c.pi < |p| && p[c.pi] == '*' then Some(Cursor(c.pi + 1, c.vi, Some(c.pi), c.vi))
    else if c.star.Some? then Some(Cursor(c.star.value + 1, c.starValue + 1, c.star, c.starValue + 1))
    else None
  }

  function GreedyFrom(p: string, v: string, c: Cursor): bool
    requires ValidCursor(p, v, c)
    decreases |v| - c.starValue, |v| - c.vi, |p| - c.pi
  {
    if c.vi == |v| then AllStars(p[c.pi..])
    else
      match Advance(p, v, c)
      case None => false
      case Some(next) => GreedyFrom(p, v, next)
  }

  const START := Cursor(0, 0, None, 0)

  predicate Greedy(p: string, v: string) {
    GreedyFrom(p, v, START)
  }

  /** What the greedy matcher is looking for: a match here, or one that starts later behind the last `*`. */
  predicate Reachable(p: string, v: string, c: Cursor)
    requires ValidCursor(p, v, c)
  {
    || Matches(p[c.pi..], v[c.vi..], true)
    || (c.star.Some? && c.starValue < |v| && Matches(p[c.star.value..], v[c.starValue + 1..], true))
  }

  lemma {:induction false} OnlyStarsMatchNothing(p: string, question: bool)
    ensures Matches(p, [], question) <==> AllStars(p)
  {
    if p != [] {
      OnlyStarsMatchNothing(p[1..], question);
      assert p == [p[0]] + p[1..];
    }
  }

  lemma UnfoldStar(p: string, v: string, i: nat, j: nat, question: bool)
    requires i < |p| && p[i] == '*' && j <= |v|
    ensures Matches(p[i..], v[j..], question) <==>
            Matches(p[i + 1..], v[j..], question) || (j < |v| && Matches(p[i..], v[j + 1..], question))
  {
    assert p[i..][1..] == p[i + 1..];
    if j < |v| { assert v[j..][1..] == v[j + 1..]; }
  }

  lemma UnfoldCharacter(p: string, v: string, i: nat, j: nat, question: bool)
    requires i < |p| && p[i] != '*' && j < |v|
    ensures Matches(p[i..], v[j..], question) <==>
            ((question && p[i] == '?') || p[i] == v[j]) && Matches(p[i + 1..], v[j + 1..], question)
  {
    assert p[i..][1..] == p[i + 1..] && v[j..][1..] == v[j + 1..];
  }

  /** Whatever one turn leaves reachable was reachable before it. */
  lemma AdvanceIsSound(p: string, v: string, c: Cursor)
    requires ValidCursor(p, v, c) && c.vi < |v| && Advance(p, v, c).Some?
    requires Reachable(p, v, Advance(p, v, c).value)
    ensures Reachable(p, v, c)
  {
    if c.pi < |p| && (p[c.pi] == '?' || p[c.pi] == v[c.vi]) {
      if p[c.pi] == '*' {
        UnfoldStar(p, v, c.pi, c.vi, true);
        UnfoldStar(p, v, c.pi, c.vi + 1, true);
      } else {
        UnfoldCharacter(p, v, c.pi, c.vi, true);
      }
    } else if c.pi < |p| && p[c.pi] == '*' {
      UnfoldStar(p, v, c.pi, c.vi, true);
    } else {
      UnfoldStar(p, v, c.star.value, c.starValue + 1, true);
    }
  }

  lemma {:induction false} GreedyFromIsSound(p: string, v: string, c: Cursor)
    requires ValidCursor(p, v, c) && GreedyFrom(p, v, c)
    ensures Reachable(p, v, c)
    decreases |v| - c.starValue, |v| - c.vi, |p| - c.pi
  {
    if c.vi == |v| {
      OnlyStarsMatchNothing(p[c.pi..], true);
      assert v[c.vi..] == [];
    } else {
      GreedyFromIsSound(p, v, Advance(p, v, c).value);
      AdvanceIsSound(p, v, c);
    }
  }

  /** Soundness for every pattern and value. */
  lemma GreedyIsSound(p: string, v: string)
    requires Greedy(p, v)
    ensures Matches(p, v, true)
  {
    GreedyFromIsSound(p, v, START);
    assert p[0..] == p && v[0..] == v;
  }

  predicate StarFree(s: string) {
    forall i :: 0 <= i < |s| ==> s[i] != '*'
  }

  /** Between the last `*` and the cursor, pattern and value have advanced in step over no other `*`. */
  predicate InStep(p: string, c: Cursor)
    requires c.pi <= |p|
  {
    c.star.Some? ==>
      && c.starValue <= c.vi && c.star.value < c.pi
      && c.vi - c.starValue == c.pi - (c.star.value + 1)
      && forall i :: c.star.value < i < c.pi ==> p[i] != '*'
  }

  /** A `*` at `to` swallows any delay: matching from a later value position implies matching from an earlier one. */
  lemma {:induction false} StarAbsorbs(p: string, v: string, i: nat, j: nat, k: nat)
    requires i < |p| && p[i] == '*' && j <= k <= |v|
    requires Matches(p[i..], v[k..], true)
    ensures Matches(p[i..], v[j..], true)
    decreases |v| - j
  {
    if j < k {
      StarAbsorbs(p, v, i, j + 1, k);
      UnfoldStar(p, v, i, j, true);
    }
  }

  /** A match of star-free characters followed by a `*` leaves a match of the rest. */
  lemma {:induction false} CharactersThenRest(p: string, v: string, i: nat, to: nat, j: nat)
    requires i <= to < |p| && j <= |v| && p[to] == '*'
    requires forall k :: i <= k < to ==> p[k] != '*'
    requires Matches(p[i..], v[j..], true)
    ensures j + (to - i) <= |v| && Matches(p[to..], v[j + (to - i)..], true)
    decreases |p| - i
  {
    if i < to {
      assert p[i..][0] == p[i] && v[j..] != [];
      UnfoldCharacter(p, v, i, j, true);
      CharactersThenRest(p, v, i + 1, to, j + 1);
    }
  }

  /** Meeting a second `*` loses nothing of what the first one could still do. */
  lemma {:induction false} LaterStarSuffices(p: string, v: string, star: nat, to: nat, j: nat)
    requires star < to < |p| && p[star] == '*' && p[to] == '*' && j <= |v|
    requires forall k :: star < k < to ==> p[k] != '*'
    requires Matches(p[star..], v[j..], true)
    ensures j + (to - star - 1) <= |v| && Matches(p[to..], v[j + (to - star - 1)..], true)
    decreases |v| - j
  {
    UnfoldStar(p, v, star, j, true);
    if Matches(p[star + 1..], v[j..], true) {
      CharactersThenRest(p, v, star + 1, to, j);
    } else {
      LaterStarSuffices(p, v, star, to, j + 1);
      StarAbsorbs(p, v, to, j + (to - star - 1), j + 1 + (to - star - 1));
    }
  }

  predicate Same(p: string, v: string, c: Cursor)
    requires c.pi <= |p| && c.vi < |v|
  {
    c.pi < |p| && (p[c.pi] == '?' || p[c.pi] == v[c.vi])
  }

  lemma CharacterStep(p: string, v: string, c: Cursor)
    requires ValidCursor(p, v, c) && c.vi < |v| && StarFree(v) && InStep(p, c) && Reachable(p, v, c)
    requires Same(p, v, c)
    ensures Reachable(p, v, Advance(p, v, c).value) && InStep(p, Advance(p, v, c).value)
  {
    UnfoldCharacter(p, v, c.pi, c.vi, true);
  }

  lemma StarStep(p: string, v: string, c: Cursor)
    requires ValidCursor(p, v, c) && c.vi < |v| && StarFree(v) && InStep(p, c) && Reachable(p, v, c)
    requires !Same(p, v, c) && c.pi < |p| && p[c.pi] == '*'
    ensures Reachable(p, v, Advance(p, v, c).value) && InStep(p, Advance(p, v, c).value)
  {
    UnfoldStar(p, v, c.pi, c.vi, true);
    if !Matches(p[c.pi..], v[c.vi..], true) {
      LaterStarSuffices(p, v, c.star.value, c.pi, c.starValue + 1);
    }
  }

  lemma FallBackStep(p: string, v: string, c: Cursor)
    requires ValidCursor(p, v, c) && c.vi < |v| && StarFree(v) && InStep(p, c) && Reachable(p, v, c)
    requires !Same(p, v, c) && (c.pi < |p| ==> p[c.pi] != '*')
    ensures Advance(p, v, c).Some?
    ensures Reachable(p, v, Advance(p, v, c).value) && InStep(p, Advance(p, v, c).value)
  {
    if c.pi < |p| {
      UnfoldCharacter(p, v, c.pi, c.vi, true);
    } else {
      assert p[c.pi..] == [] && v[c.vi..] != [];
    }
    UnfoldStar(p, v, c.star.value, c.starValue + 1, true);
  }

  /** On star-free values a turn loses no match. */
  lemma AdvanceIsComplete(p: string, v: string, c: Cursor)
    requires ValidCursor(p, v, c) && c.vi < |v| && StarFree(v) && InStep(p, c) && Reachable(p, v, c)
    ensures Advance(p, v, c).Some?
    ensures Reachable(p, v, Advance(p, v, c).value) && InStep(p, Advance(p, v, c).value)
  {
    if Same(p, v, c) {
      CharacterStep(p, v, c);
    } else if c.pi < |p| && p[c.pi] == '*' {
      StarStep(p, v, c);
    } else {
      FallBackStep(p, v, c);
    }
  }

  lemma {:induction false} GreedyFromIsComplete(p: string, v: string, c: Cursor)
    requires ValidCursor(p, v, c) && StarFree(v) && InStep(p, c) && Reachable(p, v, c)
    ensures GreedyFrom(p, v, c)
    decreases |v| - c.starValue, |v| - c.vi, |p| - c.pi
  {
    if c.vi == |v| {
      if c.star.Some? && c.starValue < |v| {
        RestTooShort(p, v, c.star.value, c.pi, c.starValue + 1);
      }
      assert v[c.vi..] == [];
      OnlyStarsMatchNothing(p[c.pi..], true);
    } else {
      AdvanceIsComplete(p, v, c);
      GreedyFromIsComplete(p, v, Advance(p, v, c).value);
    }
  }

  /** A `*` and the characters behind it cannot match a value with fewer characters left. */
  lemma {:induction false} RestTooShort(p: string, v: string, star: nat, to: nat, j: nat)
    requires star < to <= |p| && p[star] == '*' && j <= |v|
    requires forall k :: star < k < to ==> p[k] != '*'
    requires |v| - j < to - (star + 1)
    ensures !Matches(p[star..], v[j..], true)
    decreases |v| - j
  {
    UnfoldStar(p, v, star, j, true);
    CharactersNeedRoom(p, v, star + 1, to, j);
    if j < |v| {
      RestTooShort(p, v, star, to, j + 1);
    }
  }

  lemma {:induction false} CharactersNeedRoom(p: string, v: string, i: nat, to: nat, j: nat)
    requires i <= to <= |p| && j <= |v|
    requires forall k :: i <= k < to ==> p[k] != '*'
    requires |v| - j < to - i
    ensures !Matches(p[i..], v[j..], true)
    decreases |p| - i
  {
    if j < |v| {
      UnfoldCharacter(p, v, i, j, true);
      CharactersNeedRoom(p, v, i + 1, to, j + 1);
    } else {
      assert p[i..][0] == p[i] && v[j..] == [];
    }
  }

  /** On values without `*` the greedy matcher decides the relation. */
  lemma GreedyDecides(p: string, v: string)
    requires StarFree(v)
    ensures Greedy(p, v) <==> Matches(p, v, true)
  {
    assert p[0..] == p && v[0..] == v;
    if Matches(p, v, true) {
      GreedyFromIsComplete(p, v, START);
    }
    if Greedy(p, v) {
      GreedyIsSound(p, v);
    }
  }

  /** The matcher of `analysis.rs`, with its two loops. */
  method WildcardMatch(pattern: string, value: string) returns (matched: bool)
    ensures matched <==> Greedy(pattern, value)
    ensures matched ==> Matches(pattern, value, true)
    ensures StarFree(value) ==> (matched <==> Matches(pattern, value, true))
  {
    if Greedy(pattern, value) { GreedyIsSound(pattern, value); }
    if StarFree(value) { GreedyDecides(pattern, value); }
    var patternIndex: nat, valueIndex: nat := 0, 0;
    var starIndex: Option<nat> := None;
    var starValueIndex: nat := 0;
    while valueIndex < |value|
      invariant ValidCursor(pattern, value, Cursor(patternIndex, valueIndex, starIndex, starValueIndex))
      invariant Greedy(pattern, value) <==>
                GreedyFrom(pattern, value, Cursor(patternIndex, valueIndex, starIndex, starValueIndex))
      decreases |value| - starValueIndex, |value| - valueIndex, |pattern| - patternIndex
    {
      if patternIndex < |pattern| && (pattern[patternIndex] == '?' || pattern[patternIndex] == value[valueIndex]) {
        patternIndex := patternIndex + 1;
        valueIndex := valueIndex + 1;
      } else if patternIndex < |pattern| && pattern[patternIndex] == '*' {
        starIndex := Some(patternIndex);
        starValueIndex := valueIndex;
        patternIndex := patternIndex + 1;
      } else if starIndex.Some? {
        patternIndex := starIndex.value + 1;
        starValueIndex := starValueIndex + 1;
        valueIndex := starValueIndex;
      } else {
        return false;
      }
    }
    while patternIndex < |pattern| && pattern[patternIndex] == '*'
      invariant patternIndex <= |pattern|
      invariant Greedy(pattern, value) <==> AllStars(pattern[patternIndex..])
    {
      assert pattern[patternIndex..] == ['*'] + pattern[patternIndex + 1..];
      patternIndex := patternIndex + 1;
    }
    return patternIndex == |pattern|;
  }

  /** `?` this many times. */
  function Questions(n: nat): string {
    if n == 0 then [] else ['?'] + Questions(n - 1)
  }

  /** The greedy matcher decides the relation for every pattern exactly on the values without `*`. A value with a `*` at
      `k` defeats it with `k` times `?`, a `*`, and a `?` for each character from `k` on: the matcher takes the two
      stars for the same character, and one `?` is left over. */
  lemma GreedyExactValues(v: string)
    ensures (forall p :: Greedy(p, v) <==> Matches(p, v, true)) <==> StarFree(v)
  {
    if StarFree(v) {
      forall p ensures Greedy(p, v) <==> Matches(p, v, true) { GreedyDecides(p, v); }
    } else {
      var k :| 0 <= k < |v| && v[k] == '*';
      var p := Questions(k) + "*" + Questions(|v| - k);
      QuestionsMatch(v, k);
      QuestionsDefeatGreedy(v, k, 0);
      assert Matches(p, v, true) && !Greedy(p, v);
    }
  }

  lemma {:induction false} QuestionsAre(n: nat)
    ensures |Questions(n)| == n && forall i :: 0 <= i < n ==> Questions(n)[i] == '?'
  {
    if n > 0 { QuestionsAre(n - 1); }
  }

  lemma {:induction false} QuestionsMatchAnything(v: string)
    ensures Matches(Questions(|v|), v, true)
  {
    if v != [] { QuestionsMatchAnything(v[1..]); }
  }

  lemma {:induction false} QuestionsMatch(v: string, k: nat)
    requires k <= |v|
    ensures Matches(Questions(k) + "*" + Questions(|v| - k), v, true)
  {
    var p := Questions(k) + "*" + Questions(|v| - k);
    if k == 0 {
      QuestionsMatchAnything(v);
      assert p[1..] == Questions(|v|);
    } else {
      QuestionsMatch(v[1..], k - 1);
      assert p[1..] == Questions(k - 1) + "*" + Questions(|v| - k);
    }
  }

  /** A literal `*` in the value uses up the `*` of the pattern, and one `?` is left over. */
  lemma {:induction false} QuestionsDefeatGreedy(v: string, k: nat, i: nat)
    requires k < |v| && v[k] == '*' && i <= |v|
    ensures
      var p := Questions(k) + "*" + Questions(|v| - k);
      |p| == |v| + 1 && !GreedyFrom(p, v, Cursor(i, i, None, 0))
    decreases |v| - i
  {
    var p := Questions(k) + "*" + Questions(|v| - k);
    QuestionsAre(k);
    QuestionsAre(|v| - k);
    if i == |v| {
      assert p[i..][0] == '?';
    } else {
      QuestionsDefeatGreedy(v, k, i + 1);
    }
  }

  /** A text, read as a pattern, matches itself. */
  lemma {:induction false} TextMatchesItself(s: string)
    ensures Matches(s, s, true)
  {
    if s != [] {
      TextMatchesItself(s[1..]);
    }
  }

  /** The pattern as a value, with one more character behind position `k`. */
  function Inserted(p: string, k: nat): string
    requires k < |p|
  {
    p[..k + 1] + "x" + p[k + 1..]
  }

  predicate IsLastStar(p: string, k: nat) {
    k < |p| && p[k] == '*' && forall i :: k < i < |p| ==> p[i] != '*'
  }

  lemma LastStarOf(p: string) returns (k: nat)
    requires !StarFree(p)
    ensures IsLastStar(p, k)
  {
    k := |p| - 1;
    while p[k] != '*'
      invariant k < |p| && forall i :: k < i < |p| ==> p[i] != '*'
      decreases k
    {
      assert exists i :: 0 <= i < |p| && p[i] == '*';
      k := k - 1;
    }
  }

  lemma {:induction false} InsertedMatches(p: string, k: nat, i: nat)
    requires IsLastStar(p, k) && i <= k
    ensures Matches(p[i..], Inserted(p, k)[i..], true)
    decreases k - i
  {
    var v := Inserted(p, k);
    if i == k {
      TextMatchesItself(p[k + 1..]);
      assert v[k + 2..] == p[k + 1..];
      UnfoldStar(p, v, k, k + 2, true);
      StarAbsorbs(p, v, k, k, k + 2);
    } else {
      InsertedMatches(p, k, i + 1);
      if p[i] == '*' {
        UnfoldStar(p, v, i, i + 1, true);
        UnfoldStar(p, v, i, i, true);
      } else {
        UnfoldCharacter(p, v, i, i, true);
      }
    }
  }

  /** The stars of the pattern are used up by those of the value, and no star is left to skip the inserted character. */
  lemma {:induction false} InsertedDefeatsGreedy(p: string, k: nat, i: nat)
    requires IsLastStar(p, k) && i <= |p|
    ensures |Inserted(p, k)| == |p| + 1 && !GreedyFrom(p, Inserted(p, k), Cursor(i, i, None, 0))
    decreases |p| - i
  {
    var v := Inserted(p, k);
    if i < |p| {
      assert i <= k ==> v[i] == p[i];
      InsertedDefeatsGreedy(p, k, i + 1);
    }
  }

  /** Without a star the greedy matcher goes through pattern and value side by side, and never turns back. */
  lemma {:induction false} StarFreePatternDecides(p: string, v: string, pi: nat, vi: nat)
    requires StarFree(p) && pi <= |p| && vi <= |v|
    ensures GreedyFrom(p, v, Cursor(pi, vi, None, 0)) <==> Matches(p[pi..], v[vi..], true)
    decreases |v| - vi
  {
    if vi == |v| {
      OnlyStarsMatchNothing(p[pi..], true);
      assert v[vi..] == [];
    } else if pi == |p| {
      assert p[pi..] == [] && v[vi..] != [];
    } else {
      UnfoldCharacter(p, v, pi, vi, true);
      StarFreePatternDecides(p, v, pi + 1, vi + 1);
    }
  }

  /** The greedy matcher decides the relation for every value exactly on the patterns without `*`. A pattern with a `*`
      is defeated by itself, with one character inserted behind its last `*`. */
  lemma GreedyExactPatterns(p: string)
    ensures (forall v :: Greedy(p, v) <==> Matches(p, v, true)) <==> StarFree(p)
  {
    if StarFree(p) {
      forall v ensures Greedy(p, v) <==> Matches(p, v, true) {
        StarFreePatternDecides(p, v, 0, 0);
        assert p[0..] == p && v[0..] == v;
      }
    } else {
      var k := LastStarOf(p);
      var v := Inserted(p, k);
      InsertedMatches(p, k, 0);
      InsertedDefeatsGreedy(p, k, 0);
      assert p[0..] == p && v[0..] == v;
      assert Matches(p, v, true) && !Greedy(p, v);
    }
  }

  // ----- The table matcher -----

  lemma {:induction false} SplitLast(p: string, c: char, v: string, question: bool)
    ensures Matches(p + [c], v, question) <==>
            if c == '*' then
              Matches(p, v, question) || (v != [] && Matches(p + [c], Init(v), question))
            else
              v != [] && ((question && c == '?') || c == Last(v)) && Matches(p, Init(v), question)
    decreases |p|, |v|
  {
    if p == [] {
      assert p + [c] == [c] && [c][1..] == [];
      if c == '*' {
        LoneStar(v, question);
        if v != [] { LoneStar(Init(v), question); }
      } else if v != [] {
        assert |v| == 1 ==> Init(v) == [] && v[1..] == [];
      }
    } else {
      assert (p + [c])[1..] == p[1..] + [c] && (p + [c])[0] == p[0];
      SplitLast(p[1..], c, v, question);
      if v != [] {
        SplitLast(p, c, v[1..], question);
        SplitLast(p[1..], c, v[1..], question);
        if |v| > 1 {
          assert Init(v)[1..] == Init(v[1..]) && Last(v[1..]) == Last(v) && Init(v)[0] == v[0];
        } else {
          assert v[1..] == [] && Init(v) == [];
        }
      }
    }
  }

  lemma {:induction false} LoneStar(v: string, question: bool)
    ensures Matches("*", v, question)
  {
    if v != [] { LoneStar(v[1..], question); }
  }

  lemma TableStep(p: string, v: string, i: nat, j: nat)
    requires i < |p| && j < |v|
    ensures Matches(p[..i + 1], v[..j + 1], false) <==>
            if p[i] == '*' then Matches(p[..i], v[..j + 1], false) || Matches(p[..i + 1], v[..j], false)
            else p[i] == v[j] && Matches(p[..i], v[..j], false)
  {
    assert p[..i + 1] == p[..i] + [p[i]];
    assert Init(v[..j + 1]) == v[..j] && Last(v[..j + 1]) == v[j];
    SplitLast(p[..i], p[i], v[..j + 1], false);
  }

  lemma TableEdge(p: string, i: nat)
    requires i < |p|
    ensures Matches(p[..i + 1], [], false) <==> p[i] == '*' && Matches(p[..i], [], false)
  {
    assert p[..i + 1] == p[..i] + [p[i]];
    SplitLast(p[..i], p[i], [], false);
  }

  /** The matcher of `precheck.rs`: a table over prefixes, deciding the relation in which only `*` is special. */
  method WildcardMatches(pattern: string, value: string) returns (matched: bool)
    ensures matched <==> Matches(pattern, value, false)
  {
    var table := new bool[|pattern| + 1, |value| + 1]((i: nat, j: nat) => false);
    table[0, 0] := true;
    for i := 0 to |pattern|
      invariant forall a, b :: 0 <= a <= i && 0 <= b <= |value| ==>
                  (table[a, b] <==> Matches(pattern[..a], value[..b], false))
      invariant forall a, b :: i < a <= |pattern| && 0 <= b <= |value| ==> !table[a, b]
    {
      TableEdge(pattern, i);
      assert value[..0] == [];
      if pattern[i] == '*' {
        table[i + 1, 0] := table[i, 0];
      }
      for j := 0 to |value|
        invariant forall a, b :: 0 <= a <= i && 0 <= b <= |value| ==>
                    (table[a, b] <==> Matches(pattern[..a], value[..b], false))
        invariant forall b :: 0 <= b <= j ==> (table[i + 1, b] <==> Matches(pattern[..i + 1], value[..b], false))
        invariant forall a, b :: i + 1 < a <= |pattern| && 0 <= b <= |value| ==> !table[a, b]
      {
        TableStep(pattern, value, i, j);
        table[i + 1, j + 1] :=
          if pattern[i] == '*' then table[i, j + 1] || table[i + 1, j]
          else table[i, j] && pattern[i] == value[j];
      }
    }
    assert pattern[..|pattern|] == pattern && value[..|value|] == value;
    return table[|pattern|, |value|];
  }

  // ----- The two engines compared -----

  predicate QuestionFree(p: string) {
    forall i :: 0 <= i < |p| ==> p[i] != '?'
  }

  lemma {:induction false} QuestionFreeAgrees(p: string, v: string)
    requires QuestionFree(p)
    ensures Matches(p, v, true) <==> Matches(p, v, false)
    decreases |p|, |v|
  {
    if p != [] {
      QuestionFreeAgrees(p[1..], v);
      if v != [] {
        QuestionFreeAgrees(p, v[1..]);
        QuestionFreeAgrees(p[1..], v[1..]);
      }
    }
  }

  /** Without `?` in the pattern and `*` in the value the two engines give the same answer. */
  lemma EnginesAgree(p: string, v: string)
    requires QuestionFree(p) && StarFree(v)
    ensures Greedy(p, v) <==> Matches(p, v, false)
  {
    GreedyDecides(p, v);
    QuestionFreeAgrees(p, v);
  }

  /** A value a pattern matches in the analysis but not in the precheck: `?` filled in, `*` dropped. */
  function Filled(p: string): string {
    if p == [] then []
    else (if p[0] == '*' then [] else if p[0] == '?' then "a" else [p[0]]) + Filled(p[1..])
  }

  lemma {:induction false} FilledMatches(p: string)
    ensures Matches(p, Filled(p), true) && StarFree(Filled(p)) && QuestionFree(Filled(p))
  {
    if p != [] {
      FilledMatches(p[1..]);
      if p[0] != '*' {
        assert Filled(p)[1..] == Filled(p[1..]);
      } else {
        assert Filled(p) == Filled(p[1..]);
      }
    }
  }

  lemma {:induction false} QuestionNeedsQuestion(p: string, v: string)
    requires Matches(p, v, false) && QuestionFree(v)
    ensures QuestionFree(p)
    decreases |p|, |v|
  {
    if p != [] {
      if p[0] == '*' && !Matches(p[1..], v, false) {
        QuestionNeedsQuestion(p, v[1..]);
      } else if p[0] == '*' {
        QuestionNeedsQuestion(p[1..], v);
        assert p == [p[0]] + p[1..];
      } else {
        QuestionNeedsQuestion(p[1..], v[1..]);
        assert p == [p[0]] + p[1..];
      }
    }
  }

  /** The precheck engine covers the analysis engine on a pattern exactly when the pattern has no `?`. */
  lemma EnginesContainedExactly(p: string)
    ensures (forall v :: Greedy(p, v) ==> Matches(p, v, false)) <==> QuestionFree(p)
  {
    if QuestionFree(p) {
      forall v | Greedy(p, v) ensures Matches(p, v, false) {
        GreedyIsSound(p, v);
        QuestionFreeAgrees(p, v);
      }
    } else {
      FilledMatches(p);
      GreedyDecides(p, Filled(p));
      if Matches(p, Filled(p), false) {
        QuestionNeedsQuestion(p, Filled(p));
      }
    }
  }
}
