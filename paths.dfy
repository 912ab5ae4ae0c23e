/** The path corpus (actions/paths.py). A `GamePath` records, tick by tick,
    the keys pressed, the score reached, a hash of the inputs so far and
    whether Mario was dead; `GamePaths` is the corpus of such paths that the
    autonomous player grows, trims, sorts and draws from. */
module Paths {
  import opened Wrappers
  import opened Game

  /** The tail of a non-empty list, Python's `s[-1]`. */
  function Last<T>(s: seq<T>): T
    requires |s| > 0
  {
    s[|s| - 1]
  }

  /** Where Python's `s[:stop]` ends on a list of length n. */
  function SliceEnd(n: nat, stop: int): (e: nat)
    ensures e <= n
    ensures stop >= 0 ==> e == (if stop <= n then stop else n)
    ensures stop < 0 ==> e == (if n + stop >= 0 then n + stop else 0)
  {
    if stop < 0 then (if n + stop < 0 then 0 else n + stop)
    else if stop > n then n
    else stop
  }

  /** Python's `s[:stop]`, negative stops counting from the end. */
  function Upto<T>(s: seq<T>, stop: int): seq<T>
  {
    s[..SliceEnd(|s|, stop)]
  }

  // ---------------------------------------------------------------------
  // GamePath
  // ---------------------------------------------------------------------

  /** The value of a `GamePath`: its four lists. Two paths are equal when
      their lists are, as for the struct's `==`. */
  datatype PathData = PathData(inputs: seq<PressedKeys>, scores: seq<int>, hashes: seq<int>, deaths: seq<bool>)
  {
    /** No list is empty; `__post_init__` guarantees it. */
    predicate WellFormed()
    {
      |inputs| > 0 && |scores| > 0 && |hashes| > 0 && |deaths| > 0
    }

    /** Inputs, scores and hashes are recorded tick by tick together. */
    predicate Aligned()
    {
      |scores| == |inputs| && |hashes| == |inputs|
    }

    /** Every hash after the initial entry is the hash of the inputs up to
        and including its tick. */
    predicate HashesConsistent(hash: seq<PressedKeys> -> int)
    {
      Aligned() && forall i :: 1 <= i < |hashes| ==> hashes[i] == hash(inputs[..i + 1])
    }
  }

  /** The all-zero keys `__post_init__` puts into an empty input list. */
  const Sentinel: PressedKeys := PressedKeys(left := 0, right := 0, down := 0, jump := 0, action := 0, enter := 0)

  /** `__post_init__`: every empty list gets its one-entry default. */
  function PostInit(inputs: seq<PressedKeys>, scores: seq<int>, hashes: seq<int>, deaths: seq<bool>): (d: PathData)
    ensures d.WellFormed()
    ensures d.inputs == (if inputs == [] then [Sentinel] else inputs)
    ensures d.scores == (if scores == [] then [0] else scores)
    ensures d.hashes == (if hashes == [] then [0] else hashes)
    ensures d.deaths == (if deaths == [] then [false] else deaths)
  {
    PathData(
      if inputs == [] then [Sentinel] else inputs,
      if scores == [] then [0] else scores,
      if hashes == [] then [0] else hashes,
      if deaths == [] then [false] else deaths)
  }

  /** `GamePath()`: one sentinel entry per list. */
  const Fresh: PathData := PostInit([], [], [], [])

  /** A fresh path holds exactly the all-zero keys, score 0, hash 0 and
      "alive", and satisfies every path invariant. */
  lemma FreshPath(hash: seq<PressedKeys> -> int)
    ensures Fresh == PathData([NoKeys], [0], [0], [false])
    ensures Fresh.WellFormed() && Fresh.HashesConsistent(hash)
  {
  }

  /** The level `_score` weighs: `level_num`, or 1 when it is missing. */
  function LevelOf(state: BehaviorState): int
  {
    if state.levelNum.Some? then state.levelNum.value else 1
  }

  /** `_score`: 0 without a player, otherwise 100000 per level plus the
      player's x position. */
  function Score(state: BehaviorState): int
  {
    if state.player.None? then 0
    else LevelOf(state) * 100000 + state.player.value.xPos
  }

  /** `_death`: false without a player, otherwise the player's flag. */
  function Death(state: BehaviorState): (dead: bool)
    ensures dead <==> state.player.Some? && state.player.value.dead
  {
    if state.player.None? then false else state.player.value.dead
  }

  /** With x positions in [0, 100000) and a non-negative level the score
      encodes both: the level is the quotient and the position the remainder
      by 100000. A missing level counts as level 1, but a level of 0 is
      kept. */
  lemma ScoreEncodesProgress(state: BehaviorState)
    requires state.player.Some? && 0 <= state.player.value.xPos < 100000
    requires LevelOf(state) >= 0
    ensures Score(state) / 100000 == LevelOf(state)
    ensures Score(state) % 100000 == state.player.value.xPos
    ensures state.levelNum.None? ==> Score(state) == 100000 + state.player.value.xPos
    ensures state.levelNum == Some(0) ==> Score(state) == state.player.value.xPos
  {
  }

  /** Level progress dominates position: with x positions in [0, 100000) a
      higher level always scores more, and on the same level the score
      orders by position. */
  lemma ScoreOrdersProgress(s1: BehaviorState, s2: BehaviorState)
    requires s1.player.Some? && s2.player.Some?
    requires 0 <= s1.player.value.xPos < 100000 && 0 <= s2.player.value.xPos < 100000
    ensures LevelOf(s1) < LevelOf(s2) ==> Score(s1) < Score(s2)
    ensures LevelOf(s1) == LevelOf(s2) ==> (Score(s1) < Score(s2) <==> s1.player.value.xPos < s2.player.value.xPos)
  {
    if LevelOf(s1) < LevelOf(s2) {
      assert LevelOf(s1) * 100000 + 100000 <= LevelOf(s2) * 100000;
    }
  }

  /** A `GamePath` object: four lists that `append` grows in place. */
  class GamePath {
    var inputs: seq<PressedKeys>
    var scores: seq<int>
    var hashes: seq<int>
    var deaths: seq<bool>

    function Data(): PathData
      reads this
    {
      PathData(inputs, scores, hashes, deaths)
    }

    /** Every object the program builds has non-empty lists. */
    predicate Valid()
      reads this
    {
      Data().WellFormed()
    }

    /** `GamePath(...)`, `__post_init__` included. */
    constructor (inputs: seq<PressedKeys>, scores: seq<int>, hashes: seq<int>, deaths: seq<bool>)
      ensures Data() == PostInit(inputs, scores, hashes, deaths)
      ensures Valid()
    {
      var d := PostInit(inputs, scores, hashes, deaths);
      this.inputs := d.inputs;
      this.scores := d.scores;
      this.hashes := d.hashes;
      this.deaths := d.deaths;
    }

    /** `append`: one more tick on all four lists; the hash covers the input
        list including the new input. Earlier entries are untouched, so the
        invariants of a recorded path are kept. */
    method Append(input: PressedKeys, state: BehaviorState, hash: seq<PressedKeys> -> int)
      modifies this
      ensures inputs == old(inputs) + [input]
      ensures scores == old(scores) + [Score(state)]
      ensures hashes == old(hashes) + [hash(old(inputs) + [input])]
      ensures deaths == old(deaths) + [Death(state)]
      ensures old(Valid()) ==> Valid()
      ensures old(Data().HashesConsistent(hash)) ==> Data().HashesConsistent(hash)
      ensures old(|deaths| == |inputs|) ==> |deaths| == |inputs|
    {
      ghost var before := Data();
      inputs := inputs + [input];
      scores := scores + [Score(state)];
      hashes := hashes + [hash(inputs)];
      deaths := deaths + [Death(state)];
      if before.HashesConsistent(hash) {
        forall i | 1 <= i < |hashes| ensures hashes[i] == hash(inputs[..i + 1]) {
          if i < |hashes| - 1 {
            assert inputs[..i + 1] == before.inputs[..i + 1];
          } else {
            assert inputs[..i + 1] == inputs;
          }
        }
      }
    }
  }

  // ---------------------------------------------------------------------
  // backtrack_path, split_path
  // ---------------------------------------------------------------------

  /** `backtrack_path`: None when the path has fewer than twice `frames`
      inputs; otherwise a new path of the three lists without their last
      `frames` entries (Python slices), whose death list starts afresh. */
  function BacktrackPath(p: PathData, frames: int): (r: Option<PathData>)
    ensures r.None? <==> |p.inputs| < frames * 2
    ensures r.Some? ==> r.value.WellFormed() && r.value.deaths == [false]
  {
    if |p.inputs| < frames * 2 then None
    else Some(PostInit(Upto(p.inputs, -frames), Upto(p.scores, -frames), Upto(p.hashes, -frames), []))
  }

  /** On an aligned path and a positive frame count, backtracking keeps
      exactly the first n - frames ticks (at least `frames` of them), so the
      hashes stay consistent; the death list alone is reset, so the lists no
      longer have equal lengths. A frame count of 0 cuts everything
      (Python's `s[:-0]` is empty), leaving a fresh path. */
  lemma BacktrackKeepsPrefix(p: PathData, frames: int, hash: seq<PressedKeys> -> int)
    requires p.Aligned() && BacktrackPath(p, frames).Some?
    ensures var bt, n := BacktrackPath(p, frames).value, |p.inputs|;
      && (frames > 0 ==>
            && n - frames >= frames
            && bt.inputs == p.inputs[..n - frames]
            && bt.scores == p.scores[..n - frames]
            && bt.hashes == p.hashes[..n - frames]
            && bt.Aligned()
            && (p.HashesConsistent(hash) ==> bt.HashesConsistent(hash))
            && (n - frames > 1 ==> |bt.deaths| != |bt.inputs|))
      && (frames == 0 ==> bt == Fresh)
  {
    var bt, n := BacktrackPath(p, frames).value, |p.inputs|;
    if frames > 0 && p.HashesConsistent(hash) {
      forall i | 1 <= i < |bt.hashes| ensures bt.hashes[i] == hash(bt.inputs[..i + 1]) {
        assert bt.inputs[..i + 1] == p.inputs[..i + 1];
      }
    }
  }

  /** The largest element of a non-empty list. */
  function MaxOf(s: seq<int>): (m: int)
    requires |s| > 0
    ensures m in s
    ensures forall x :: x in s ==> x <= m
  {
    if |s| == 1 then s[0]
    else
      var rest := MaxOf(s[1..]);
      assert forall x :: x in s ==> x == s[0] || x in s[1..];
      if s[0] >= rest then s[0] else rest
  }

  /** `list.index`: the first position of a value. */
  function IndexOf<T(==)>(s: seq<T>, x: T): (i: nat)
    requires x in s
    ensures i < |s| && s[i] == x
    ensures forall j :: 0 <= j < i ==> s[j] != x
  {
    if s[0] == x then 0 else 1 + IndexOf(s[1..], x)
  }

  /** `split_path`: nothing on an empty corpus or when backtracking fails;
      otherwise, when the backtracked scores peak above their last value,
      the part of the backtracked path strictly before the first peak,
      unless that peak is the last input. */
  function SplitPath(corpus: seq<PathData>, p: PathData, frames: int): (r: Option<PathData>)
    ensures r.Some? ==> r.value.WellFormed() && r.value.deaths == [false]
  {
    if corpus == [] then None
    else match BacktrackPath(p, frames)
      case None => None
      case Some(bt) =>
        var top := MaxOf(bt.scores);
        if top > Last(bt.scores) then
          var splitIndex := IndexOf(bt.scores, top);
          if splitIndex != |bt.inputs| - 1 then
            Some(PostInit(Upto(bt.inputs, splitIndex), Upto(bt.scores, splitIndex), Upto(bt.hashes, splitIndex), []))
          else None
        else None
  }

  /** When a split exists, the corpus is not empty, backtracking succeeded
      and its scores peak strictly above their last value; the split keeps
      the scores before the first peak, every one of them below the peak, or
      is a fresh path when the peak comes first. */
  lemma SplitPathMeaning(corpus: seq<PathData>, p: PathData, frames: int)
    requires SplitPath(corpus, p, frames).Some?
    ensures corpus != [] && BacktrackPath(p, frames).Some?
    ensures var bt := BacktrackPath(p, frames).value;
      var top := MaxOf(bt.scores);
      var k := IndexOf(bt.scores, top);
      var split := SplitPath(corpus, p, frames).value;
      && top > Last(bt.scores)
      && (k > 0 ==> split.scores == bt.scores[..k] && forall i :: 0 <= i < |split.scores| ==> split.scores[i] < top)
      && (k == 0 ==> split == Fresh)
  {
    var bt := BacktrackPath(p, frames).value;
    var top := MaxOf(bt.scores);
    var k := IndexOf(bt.scores, top);
    var split := SplitPath(corpus, p, frames).value;
    assert split == PostInit(Upto(bt.inputs, k), Upto(bt.scores, k), Upto(bt.hashes, k), []);
    assert Upto(bt.scores, k) == bt.scores[..k];
    BelowFirstPeak(bt.scores, top, k);
  }

  /** Every score before the first peak is strictly below it. */
  lemma BelowFirstPeak(s: seq<int>, top: int, k: nat)
    requires |s| > 0 && top == MaxOf(s) && top in s && k == IndexOf(s, top)
    ensures forall i :: 0 <= i < k ==> s[i] < top
  {
    forall i | 0 <= i < k ensures s[i] < top {
      assert s[i] in s;
    }
  }

  /** On an aligned path with a positive frame count the split is shorter
      than the path itself, so it never equals it. */
  lemma SplitPathShorter(corpus: seq<PathData>, p: PathData, frames: int)
    requires SplitPath(corpus, p, frames).Some?
    requires p.Aligned() && frames > 0
    ensures |SplitPath(corpus, p, frames).value.inputs| < |p.inputs|
    ensures SplitPath(corpus, p, frames).value != p
  {
    var bt := BacktrackPath(p, frames).value;
    BacktrackKeepsPrefix(p, frames, s => 0);
    var top := MaxOf(bt.scores);
    var k := IndexOf(bt.scores, top);
    var split := SplitPath(corpus, p, frames).value;
    assert split == PostInit(Upto(bt.inputs, k), Upto(bt.scores, k), Upto(bt.hashes, k), []);
    assert |Upto(bt.inputs, k)| == k;
  }

  /** On an aligned path with a positive frame count, a split exists
      exactly when the corpus is not empty, backtracking succeeds and the
      backtracked scores peak above their last value. A split after a first
      peak at k > 0 keeps the first k entries of the path's inputs, scores
      and hashes alike, and keeps the hashes consistent. */
  lemma SplitPathPrefix(corpus: seq<PathData>, p: PathData, frames: int, hash: seq<PressedKeys> -> int)
    requires p.Aligned() && frames > 0
    ensures SplitPath(corpus, p, frames).Some? <==>
      && corpus != [] && BacktrackPath(p, frames).Some?
      && MaxOf(BacktrackPath(p, frames).value.scores) > Last(BacktrackPath(p, frames).value.scores)
    ensures SplitPath(corpus, p, frames).Some? ==>
      var bt := BacktrackPath(p, frames).value;
      var k := IndexOf(bt.scores, MaxOf(bt.scores));
      var split := SplitPath(corpus, p, frames).value;
      k > 0 ==>
        && split.inputs == p.inputs[..k] && split.scores == p.scores[..k] && split.hashes == p.hashes[..k]
        && split.Aligned()
        && (p.HashesConsistent(hash) ==> split.HashesConsistent(hash))
  {
    if corpus != [] && BacktrackPath(p, frames).Some? {
      var bt := BacktrackPath(p, frames).value;
      BacktrackKeepsPrefix(p, frames, hash);
      var top := MaxOf(bt.scores);
      var k := IndexOf(bt.scores, top);
      if top > Last(bt.scores) {
        assert k < |bt.inputs| - 1;
        var split := SplitPath(corpus, p, frames).value;
        assert split == PostInit(Upto(bt.inputs, k), Upto(bt.scores, k), Upto(bt.hashes, k), []);
        if k > 0 {
          SplitKeepsPrefix(p, bt, |p.inputs| - frames, k, split, hash);
        }
      }
    }
  }

  /** Cutting the backtracked prefix of length m at k cuts the path itself
      at k, in all three lists. */
  lemma SplitKeepsPrefix(p: PathData, bt: PathData, m: nat, k: nat, split: PathData, hash: seq<PressedKeys> -> int)
    requires p.Aligned() && 0 < k < m <= |p.inputs|
    requires bt.inputs == p.inputs[..m] && bt.scores == p.scores[..m] && bt.hashes == p.hashes[..m]
    requires split == PostInit(Upto(bt.inputs, k), Upto(bt.scores, k), Upto(bt.hashes, k), [])
    ensures split.inputs == p.inputs[..k] && split.scores == p.scores[..k] && split.hashes == p.hashes[..k]
    ensures split.Aligned()
    ensures p.HashesConsistent(hash) ==> split.HashesConsistent(hash)
  {
    PrefixOfPrefix(p.inputs, m, k);
    PrefixOfPrefix(p.scores, m, k);
    PrefixOfPrefix(p.hashes, m, k);
    if p.HashesConsistent(hash) {
      forall i | 1 <= i < k ensures split.hashes[i] == hash(split.inputs[..i + 1]) {
        assert split.inputs[..i + 1] == p.inputs[..i + 1];
      }
    }
  }

  /** A prefix of a prefix is a prefix. */
  lemma PrefixOfPrefix<T>(s: seq<T>, m: nat, k: nat)
    requires k <= m <= |s|
    ensures s[..m][..k] == s[..k]
  {
  }

  /** The split is decided by the corpus only through its emptiness. */
  lemma SplitIgnoresCorpusContents(c1: seq<PathData>, c2: seq<PathData>, p: PathData, frames: int)
    requires (c1 == []) == (c2 == [])
    ensures SplitPath(c1, p, frames) == SplitPath(c2, p, frames)
  {
  }

  // ---------------------------------------------------------------------
  // GamePaths: add, sort, delete, select
  // ---------------------------------------------------------------------

  /** What `add` appends to the corpus: nothing for a path already present;
      otherwise its 120-frame split when there is one that is not present
      yet, then the path itself unless it ends dead. */
  function Added(corpus: seq<PathData>, p: PathData): seq<PathData>
    requires p.WellFormed()
  {
    if p in corpus then []
    else
      var split := SplitPath(corpus, p, 120);
      (if split.Some? && split.value !in corpus then [split.value] else [])
      + (if !Last(p.deaths) then [p] else [])
  }

  /** `add` appends at most two well-formed paths, none of them ending dead,
      and adds the path itself exactly when it is new and ends alive. */
  lemma AddedBounds(corpus: seq<PathData>, p: PathData)
    requires p.WellFormed()
    ensures |Added(corpus, p)| <= 2
    ensures forall q :: q in Added(corpus, p) ==> q.WellFormed() && !Last(q.deaths)
    ensures p in corpus ==> Added(corpus, p) == []
    ensures p !in corpus && !Last(p.deaths) ==> Last(Added(corpus, p)) == p
    ensures p in Added(corpus, p) ==> p !in corpus
  {
    if p !in corpus {
      var split := SplitPath(corpus, p, 120);
      var a := if split.Some? && split.value !in corpus then [split.value] else [];
      var b := if !Last(p.deaths) then [p] else [];
      if split.Some? {
        assert Last(split.value.deaths) == false;
      }
      assert Added(corpus, p) == a + b;
      AddedParts(a, b, Added(corpus, p), p);
    }
  }

  /** At most one split and at most the path itself, all of them alive. */
  lemma AddedParts(a: seq<PathData>, b: seq<PathData>, r: seq<PathData>, p: PathData)
    requires r == a + b && |a| <= 1 && (b == [] || b == [p])
    requires a != [] ==> a[0].WellFormed() && !Last(a[0].deaths)
    requires b != [] ==> p.WellFormed() && !Last(p.deaths)
    ensures |r| <= 2
    ensures forall q :: q in r ==> q.WellFormed() && !Last(q.deaths)
    ensures b == [p] ==> Last(r) == p
  {
  }

  /** No entry appears twice. */
  predicate Distinct(s: seq<PathData>)
  {
    forall i, j :: 0 <= i < j < |s| ==> s[i] != s[j]
  }

  /** `add` keeps a corpus free of duplicates, for aligned paths. */
  lemma AddKeepsDistinct(corpus: seq<PathData>, p: PathData)
    requires p.WellFormed() && p.Aligned() && Distinct(corpus)
    ensures Distinct(corpus + Added(corpus, p))
  {
    if p !in corpus {
      var split := SplitPath(corpus, p, 120);
      var a := if split.Some? && split.value !in corpus then [split.value] else [];
      var b := if !Last(p.deaths) then [p] else [];
      if split.Some? {
        SplitPathShorter(corpus, p, 120);
      }
      assert Added(corpus, p) == a + b;
      DistinctAppend(corpus, a, b, corpus + Added(corpus, p));
    } else {
      assert corpus + Added(corpus, p) == corpus;
    }
  }

  /** Appending at most two different entries, neither already present, to
      a corpus without duplicates. */
  lemma DistinctAppend(corpus: seq<PathData>, a: seq<PathData>, b: seq<PathData>, r: seq<PathData>)
    requires Distinct(corpus) && r == corpus + (a + b)
    requires |a| <= 1 && |b| <= 1
    requires a != [] ==> a[0] !in corpus
    requires b != [] ==> b[0] !in corpus
    requires a != [] && b != [] ==> a[0] != b[0]
    ensures Distinct(r)
  {
    forall i, j | 0 <= i < j < |r| ensures r[i] != r[j] {
      if j >= |corpus| {
        assert r[j] in a + b;
        if i < |corpus| {
          assert r[i] in corpus;
        }
      }
    }
  }

  /** Adding the same path twice changes nothing the second time. */
  lemma AddIdempotent(corpus: seq<PathData>, p: PathData)
    requires p.WellFormed()
    ensures Added(corpus + Added(corpus, p), p) == []
  {
    var once := corpus + Added(corpus, p);
    if p !in corpus && p !in once {
      assert Last(p.deaths);
      if corpus == [] {
        assert once == corpus;
      } else {
        SplitIgnoresCorpusContents(corpus, once, p, 120);
      }
    }
  }

  /** The sort key: the last score. */
  function Key(d: PathData): int
    requires |d.scores| > 0
  {
    Last(d.scores)
  }

  predicate Scored(s: seq<PathData>)
  {
    forall i :: 0 <= i < |s| ==> |s[i].scores| > 0
  }

  /** Best last score first. */
  predicate SortedByScore(s: seq<PathData>)
    requires Scored(s)
  {
    forall i, j :: 0 <= i < j < |s| ==> Key(s[i]) >= Key(s[j])
  }

  /** The entries whose last score is v, in their order. */
  function WithKey(s: seq<PathData>, v: int): seq<PathData>
    requires Scored(s)
  {
    if s == [] then []
    else (if Key(s[0]) == v then [s[0]] else []) + WithKey(s[1..], v)
  }

  /** Insert x after every leading entry whose key is at least x's. */
  function Insert(x: PathData, s: seq<PathData>): (r: seq<PathData>)
    requires |x.scores| > 0 && Scored(s)
    ensures Scored(r) && |r| == |s| + 1
    ensures multiset(r) == multiset(s) + multiset{x}
  {
    if s == [] then [x]
    else
      assert s == [s[0]] + s[1..];
      if Key(s[0]) >= Key(x) then [s[0]] + Insert(x, s[1..]) else [x] + s
  }

  /** `list.sort(key=last score, reverse=True)`: a stable sort, best first. */
  function SortByScore(s: seq<PathData>): (r: seq<PathData>)
    requires Scored(s)
    ensures Scored(r) && |r| == |s|
    ensures multiset(r) == multiset(s)
  {
    if s == [] then []
    else
      var init := s[..|s| - 1];
      assert s == init + [Last(s)];
      Insert(Last(s), SortByScore(init))
  }

  lemma {:induction false} InsertSorted(x: PathData, s: seq<PathData>)
    requires |x.scores| > 0 && Scored(s) && SortedByScore(s)
    ensures SortedByScore(Insert(x, s))
  {
    if s != [] && Key(s[0]) >= Key(x) {
      InsertSorted(x, s[1..]);
      var rest := Insert(x, s[1..]);
      forall i | 0 <= i < |rest| ensures Key(rest[i]) <= Key(s[0]) {
        assert rest[i] in multiset(rest);
        if rest[i] != x {
          assert rest[i] in multiset(s[1..]);
          var k :| 0 <= k < |s[1..]| && s[1..][k] == rest[i];
          assert s[k + 1] == rest[i];
        }
      }
      ConsSorted(s[0], rest, Insert(x, s));
    }
  }

  /** An entry with a key at least every key of a sorted sequence can go in
      front of it. */
  lemma ConsSorted(y: PathData, rest: seq<PathData>, r: seq<PathData>)
    requires |y.scores| > 0 && Scored(rest) && SortedByScore(rest)
    requires forall i :: 0 <= i < |rest| ==> Key(rest[i]) <= Key(y)
    requires r == [y] + rest
    ensures Scored(r) && SortedByScore(r)
  {
    forall i, j | 0 <= i < j < |r| ensures Key(r[i]) >= Key(r[j]) {
      assert r[j] == rest[j - 1];
      if i > 0 {
        assert r[i] == rest[i - 1];
      }
    }
  }

  lemma {:induction false} WithKeyAppend(a: seq<PathData>, b: seq<PathData>, v: int)
    requires Scored(a) && Scored(b)
    ensures Scored(a + b) && WithKey(a + b, v) == WithKey(a, v) + WithKey(b, v)
  {
    if a == [] {
      assert a + b == b;
    } else {
      WithKeyAppend(a[1..], b, v);
      assert a + b == [a[0]] + (a[1..] + b);
      WithKeyCons(a[0], a[1..] + b, v);
      assert [a[0]] + a[1..] == a;
      WithKeyCons(a[0], a[1..], v);
      AppendAssoc(if Key(a[0]) == v then [a[0]] else [], WithKey(a[1..], v), WithKey(b, v));
    }
  }

  lemma AppendAssoc<T>(a: seq<T>, b: seq<T>, c: seq<T>)
    ensures a + (b + c) == (a + b) + c
  {
  }

  /** One step of WithKey on a sequence with a known first entry. */
  lemma WithKeyCons(y: PathData, s: seq<PathData>, v: int)
    requires |y.scores| > 0 && Scored(s)
    ensures Scored([y] + s)
    ensures WithKey([y] + s, v) == (if Key(y) == v then [y] else []) + WithKey(s, v)
  {
    assert ([y] + s)[0] == y && ([y] + s)[1..] == s;
  }

  /** In a sorted sequence no entry has a key above the first one's. */
  lemma SortedBelowHead(s: seq<PathData>, v: int)
    requires Scored(s) && SortedByScore(s) && s != [] && Key(s[0]) < v
    ensures forall i :: 0 <= i < |s| ==> Key(s[i]) < v
  {
    forall i | 0 <= i < |s| ensures Key(s[i]) < v {
      if i > 0 { assert Key(s[0]) >= Key(s[i]); }
    }
  }

  /** Inserting x adds it after the entries of its own key already there. */
  lemma {:induction false} InsertWithKey(x: PathData, s: seq<PathData>, v: int)
    requires |x.scores| > 0 && Scored(s) && SortedByScore(s)
    ensures WithKey(Insert(x, s), v) == WithKey(s, v) + (if Key(x) == v then [x] else [])
  {
    if s == [] {
      WithKeyCons(x, [], v);
      assert Insert(x, s) == [x] + [];
    } else if Key(s[0]) >= Key(x) {
      assert SortedByScore(s[1..]);
      InsertWithKey(x, s[1..], v);
      InsertWithKeyBehind(x, s, v);
    } else {
      InsertWithKeyInFront(x, s, v);
    }
  }

  /** The step of InsertWithKey where x goes behind the first entry. */
  lemma InsertWithKeyBehind(x: PathData, s: seq<PathData>, v: int)
    requires |x.scores| > 0 && Scored(s) && s != [] && Key(s[0]) >= Key(x)
    requires WithKey(Insert(x, s[1..]), v) == WithKey(s[1..], v) + (if Key(x) == v then [x] else [])
    ensures WithKey(Insert(x, s), v) == WithKey(s, v) + (if Key(x) == v then [x] else [])
  {
    var rest := Insert(x, s[1..]);
    assert Insert(x, s) == [s[0]] + rest;
    WithKeyCons(s[0], rest, v);
    WithKeyCons(s[0], s[1..], v);
    assert [s[0]] + s[1..] == s;
    AppendAssoc(if Key(s[0]) == v then [s[0]] else [], WithKey(s[1..], v), if Key(x) == v then [x] else []);
  }

  /** The step of InsertWithKey where x goes in front of everything. */
  lemma InsertWithKeyInFront(x: PathData, s: seq<PathData>, v: int)
    requires |x.scores| > 0 && Scored(s) && SortedByScore(s) && s != [] && Key(s[0]) < Key(x)
    ensures WithKey(Insert(x, s), v) == WithKey(s, v) + (if Key(x) == v then [x] else [])
  {
    assert Insert(x, s) == [x] + s;
    WithKeyCons(x, s, v);
    if Key(x) == v {
      SortedBelowHead(s, v);
      NoneWithKey(s, v);
    }
  }

  lemma {:induction false} NoneWithKey(s: seq<PathData>, v: int)
    requires Scored(s) && forall i :: 0 <= i < |s| ==> Key(s[i]) < v
    ensures WithKey(s, v) == []
  {
    if s != [] {
      NoneWithKey(s[1..], v);
    }
  }

  /** The sort puts the best last score first, loses and adds nothing, and
      keeps paths with equal last scores in their original order. */
  lemma {:induction false} SortByScoreCorrect(s: seq<PathData>)
    requires Scored(s)
    ensures SortedByScore(SortByScore(s))
    ensures multiset(SortByScore(s)) == multiset(s)
    ensures forall v :: WithKey(SortByScore(s), v) == WithKey(s, v)
  {
    if s != [] {
      var init, x := s[..|s| - 1], Last(s);
      assert s == init + [x];
      SortByScoreCorrect(init);
      var sorted := SortByScore(init);
      InsertSorted(x, sorted);
      forall v ensures WithKey(SortByScore(s), v) == WithKey(s, v) {
        SortStepWithKey(x, init, sorted, s, SortByScore(s), v);
      }
    }
  }

  /** One insertion step of the sort keeps the entries of every key in
      their original order. */
  lemma SortStepWithKey(x: PathData, init: seq<PathData>, sorted: seq<PathData>,
                        s: seq<PathData>, r: seq<PathData>, v: int)
    requires |x.scores| > 0 && Scored(init) && Scored(sorted) && SortedByScore(sorted)
    requires s == init + [x] && r == Insert(x, sorted)
    requires WithKey(sorted, v) == WithKey(init, v)
    ensures Scored(s) && WithKey(r, v) == WithKey(s, v)
  {
    InsertWithKey(x, sorted, v);
    WithKeyAppend(init, [x], v);
    WithKeyCons(x, [], v);
    assert [x] + [] == [x];
  }

  /** `list.remove`: drop the first entry equal to x. */
  function RemoveFirst<T(==)>(s: seq<T>, x: T): seq<T>
  {
    if s == [] then []
    else if s[0] == x then s[1..]
    else [s[0]] + RemoveFirst(s[1..], x)
  }

  lemma {:induction false} RemoveFirstAbsent<T>(s: seq<T>, x: T)
    requires x !in s
    ensures RemoveFirst(s, x) == s
  {
    if s != [] {
      RemoveFirstAbsent(s[1..], x);
      assert s == [s[0]] + s[1..];
    }
  }

  lemma {:induction false} RemoveFirstAt<T>(s: seq<T>, x: T)
    requires x in s
    ensures RemoveFirst(s, x) == s[..IndexOf(s, x)] + s[IndexOf(s, x) + 1..]
  {
    var i := IndexOf(s, x);
    if s[0] == x {
      assert i == 0 && s[..0] == [];
    } else {
      var t := s[1..];
      assert t[i - 1] == x;
      var j := IndexOf(t, x);
      assert i == j + 1;
      RemoveFirstAt(t, x);
      assert RemoveFirst(s, x) == [s[0]] + RemoveFirst(t, x);
      assert s[..i] == [s[0]] + t[..j];
      assert s[i + 1..] == t[j + 1..];
    }
  }

  /** Cutting out entry i removes one copy of it from the multiset. */
  lemma MultisetCut<T>(s: seq<T>, i: nat, x: T, r: seq<T>)
    requires i < |s| && s[i] == x && r == s[..i] + s[i + 1..]
    ensures multiset(r) == multiset(s) - multiset{x}
    ensures |r| == |s| - 1
  {
    var a, b := s[..i], s[i + 1..];
    assert s == a + [x] + b;
  }

  /** Removing x takes out exactly its first occurrence and keeps the rest
      in order; without x nothing changes. */
  lemma RemoveFirstCorrect<T>(s: seq<T>, x: T)
    ensures x !in s ==> RemoveFirst(s, x) == s
    ensures x in s ==> var i := IndexOf(s, x);
      RemoveFirst(s, x) == s[..i] + s[i + 1..]
      && multiset(RemoveFirst(s, x)) == multiset(s) - multiset{x}
      && |RemoveFirst(s, x)| == |s| - 1
  {
    if x !in s {
      RemoveFirstAbsent(s, x);
    } else {
      RemoveFirstAt(s, x);
      MultisetCut(s, IndexOf(s, x), x, RemoveFirst(s, x));
    }
  }

  /** Ties in the exponential weighting: the largest and the smallest
      score agree exactly when all scores are equal, and then every path is
      weighted alike. */
  lemma UniformWeights(scores: seq<int>)
    requires |scores| > 0
    ensures MaxOf(scores) == MinOf(scores) <==> forall i :: 0 <= i < |scores| ==> scores[i] == scores[0]
  {
    if MaxOf(scores) == MinOf(scores) {
      forall i | 0 <= i < |scores| ensures scores[i] == scores[0] {
        assert scores[i] in scores && scores[0] in scores;
      }
    } else {
      var hi :| 0 <= hi < |scores| && scores[hi] == MaxOf(scores);
      var lo :| 0 <= lo < |scores| && scores[lo] == MinOf(scores);
    }
  }

  /** The end scores `select` weighs: each path's last score, in corpus order. */
  function EndScores(s: seq<PathData>): (r: seq<int>)
    requires Scored(s)
    ensures |r| == |s| && forall i :: 0 <= i < |s| ==> r[i] == Key(s[i])
  {
    seq(|s|, i requires 0 <= i < |s| => Key(s[i]))
  }

  /** The scores `select` computes after sorting: the first is the best
      (the largest), the last the smallest, and the weighting is uniform
      exactly when the first and the last agree, that is when every path
      ends on the same score. */
  lemma SelectWeights(s: seq<PathData>)
    requires Scored(s) && s != []
    ensures var sc := EndScores(SortByScore(s));
      && sc[0] == MaxOf(sc)
      && sc[|sc| - 1] == MinOf(sc)
      && (MaxOf(sc) == MinOf(sc) <==> sc[0] == sc[|sc| - 1])
      && (MaxOf(sc) == MinOf(sc) <==> forall i :: 0 <= i < |sc| ==> sc[i] == sc[0])
  {
    SortByScoreCorrect(s);
    var sc := EndScores(SortByScore(s));
    DescendingEnds(sc);
    UniformWeights(sc);
  }

  /** In a list sorted best first, the first entry is the largest and the
      last the smallest. */
  lemma DescendingEnds(sc: seq<int>)
    requires |sc| > 0 && forall i, j :: 0 <= i < j < |sc| ==> sc[i] >= sc[j]
    ensures sc[0] == MaxOf(sc) && sc[|sc| - 1] == MinOf(sc)
  {
    assert sc[0] in sc && sc[|sc| - 1] in sc;
    forall x | x in sc ensures sc[|sc| - 1] <= x <= sc[0] {
      var k :| 0 <= k < |sc| && sc[k] == x;
    }
  }

  function MinOf(s: seq<int>): (m: int)
    requires |s| > 0
    ensures m in s
    ensures forall x :: x in s ==> m <= x
  {
    if |s| == 1 then s[0]
    else
      var rest := MinOf(s[1..]);
      assert forall x :: x in s ==> x == s[0] || x in s[1..];
      if s[0] <= rest then s[0] else rest
  }

  /** Appending well-formed paths to a corpus of well-formed paths. */
  lemma WellFormedAppend(a: seq<PathData>, b: seq<PathData>, c: seq<PathData>)
    requires c == a + b && forall q :: q in b ==> q.WellFormed()
    ensures (forall i :: 0 <= i < |a| ==> a[i].WellFormed()) ==> forall i :: 0 <= i < |c| ==> c[i].WellFormed()
  {
    if forall i :: 0 <= i < |a| ==> a[i].WellFormed() {
      forall i | 0 <= i < |c| ensures c[i].WellFormed() {
        if i >= |a| {
          assert c[i] == b[i - |a|];
        }
      }
    }
  }

  /** The corpus: `GamePaths.paths`. */
  class GamePaths {
    var paths: seq<PathData>

    constructor ()
      ensures paths == []
    {
      paths := [];
    }

    /** Every stored path has non-empty lists. */
    predicate Valid()
      reads this
    {
      forall i :: 0 <= i < |paths| ==> paths[i].WellFormed()
    }

    /** `add`: the corpus grows by `Added`; nothing already stored moves. */
    method Add(path: GamePath)
      modifies this
      requires path.Valid()
      ensures paths == old(paths) + Added(old(paths), path.Data())
      ensures old(Valid()) ==> Valid()
    {
      var p := path.Data();
      if p in paths {
        return;
      }
      var split := SplitPath(paths, p, 120);
      if split.Some? {
        if split.value !in paths {
          paths := paths + [split.value];
        }
      }
      if !Last(path.deaths) {
        paths := paths + [p];
      }
      AddedBounds(old(paths), p);
      WellFormedAppend(old(paths), Added(old(paths), p), paths);
    }

    /** `sort`: best last score first, ties in their stored order. */
    method Sort()
      modifies this
      requires Valid()
      ensures Scored(old(paths)) && paths == SortByScore(old(paths))
      ensures Valid()
    {
      paths := SortByScore(paths);
      assert forall i :: 0 <= i < |paths| ==> paths[i] in multiset(old(paths));
    }

    /** `delete`: remove the first stored path equal to the given one, if
        any. */
    method Delete(path: GamePath)
      modifies this
      ensures paths == RemoveFirst(old(paths), path.Data())
      ensures old(Valid()) ==> Valid()
    {
      var p := path.Data();
      RemoveFirstCorrect(paths, p);
      if p in paths {
        paths := RemoveFirst(paths, p);
        assert forall i :: 0 <= i < |paths| ==> paths[i] in multiset(old(paths));
      }
    }

    /** `select`: sort the corpus, then return the path at the index the
        weighted draw picked; an empty corpus raises IndexError when the best
        score is read, which is None here. */
    method Select(draw: nat) returns (r: Option<PathData>)
      modifies this
      requires Valid()
      requires paths == [] || draw < |paths|
      ensures Scored(old(paths)) && paths == SortByScore(old(paths))
      ensures r.None? <==> old(paths) == []
      ensures r.Some? ==> draw < |paths| && r.value == paths[draw] && r.value in old(paths)
    {
      Sort();
      var ps := paths;
      var scores := seq(|ps|, i requires 0 <= i < |ps| => Last(ps[i].scores));
      if |scores| == 0 {
        return None;
      }
      var bestScore := scores[0];
      assert paths[draw] in multiset(old(paths));
      r := Some(paths[draw]);
    }
  }
}
