/** Input generators (actions/moves.py): the random bit-flip walk `fuzzy`,
    the scripted moves that hold one key combination for a number of ticks,
    and the `move` registry. The random draws of `fuzzy` are a parameter: for
    every tick, the set of fields whose draw fell below the flip
    probability. */
module Moves {
  import opened Wrappers
  import opened Game

  /** Python's `range(length)` size: negative lengths give nothing. */
  function Count(length: int): nat
  {
    if length < 0 then 0 else length
  }

  /** A field value after a flip: falsy becomes 1, truthy becomes 0. */
  function Toggle(v: int): (r: int)
    ensures r == 0 || r == 1
    ensures r != 0 <==> v == 0
  {
    if v != 0 then 0 else 1
  }

  /** One tick of `fuzzy`: the flipped fields are toggled, the others copied. */
  function Step(k: PressedKeys, flipped: set<Field>): (n: PressedKeys)
    ensures forall f :: Get(n, f) == if f in flipped then Toggle(Get(k, f)) else Get(k, f)
  {
    Make(f => if f in flipped then Toggle(Get(k, f)) else Get(k, f))
  }

  /** The keys after t ticks of the walk from `start`. */
  function KeysAt(start: PressedKeys, draws: nat -> set<Field>, t: nat): PressedKeys
  {
    if t == 0 then start else Step(KeysAt(start, draws, t - 1), draws(t - 1))
  }

  /** The walk's starting keys: the given struct, or, when none is given,
      the game's held keys read as `get_pressed_keys` reads them (enter
      through keypad Enter). */
  function StartKeys(startingKeys: Option<PressedKeys>, gameKeys: map<int, bool>): (k: PressedKeys)
    ensures startingKeys.None? ==> forall f :: Get(k, f) == if NameCode(f) in gameKeys then 1 else 0
  {
    if startingKeys.None? then GetPressedKeysAsWritten(gameKeys) else startingKeys.value
  }

  /** `fuzzy`: `length` structs, each derived from the one before by the
      tick's flips, the first from the starting keys. */
  method Fuzzy(startingKeys: Option<PressedKeys>, gameKeys: map<int, bool>, draws: nat -> set<Field>, length: int)
    returns (inputs: seq<PressedKeys>)
    ensures |inputs| == Count(length)
    ensures forall i :: 0 <= i < |inputs| ==> inputs[i] == KeysAt(StartKeys(startingKeys, gameKeys), draws, i + 1)
  {
    inputs := [];
    var currentKeys := StartKeys(startingKeys, gameKeys);
    for t := 0 to Count(length)
      invariant |inputs| == t
      invariant currentKeys == KeysAt(StartKeys(startingKeys, gameKeys), draws, t)
      invariant forall i :: 0 <= i < t ==> inputs[i] == KeysAt(StartKeys(startingKeys, gameKeys), draws, i + 1)
    {
      currentKeys := Step(currentKeys, draws(t));
      inputs := inputs + [currentKeys];
    }
  }

  /** Two structs with the same fields are equal. */
  lemma FieldsDetermineKeys(a: PressedKeys, b: PressedKeys)
    requires forall f :: Get(a, f) == Get(b, f)
    ensures a == b
  {
    assert Get(a, Right) == Get(b, Right) && Get(a, Left) == Get(b, Left);
    assert Get(a, Jump) == Get(b, Jump) && Get(a, Action) == Get(b, Action);
    assert Get(a, Game.Down) == Get(b, Game.Down) && Get(a, Enter) == Get(b, Enter);
  }

  /** A field that no draw flipped during the first t ticks keeps its
      starting value. */
  lemma {:induction false} UnflippedFieldKept(start: PressedKeys, draws: nat -> set<Field>, t: nat, f: Field)
    requires forall s :: 0 <= s < t ==> f !in draws(s)
    ensures Get(KeysAt(start, draws, t), f) == Get(start, f)
  {
    if t > 0 {
      UnflippedFieldKept(start, draws, t - 1, f);
    }
  }

  /** Without any flip (a flip probability of 0) every output of `fuzzy`
      equals the starting keys. */
  lemma NoFlipsNoChange(start: PressedKeys, draws: nat -> set<Field>, t: nat)
    requires forall s :: 0 <= s < t ==> draws(s) == {}
    ensures KeysAt(start, draws, t) == start
  {
    forall f ensures Get(KeysAt(start, draws, t), f) == Get(start, f) {
      UnflippedFieldKept(start, draws, t, f);
    }
    FieldsDetermineKeys(KeysAt(start, draws, t), start);
  }

  /** Every field 0 or 1. */
  predicate Binary(k: PressedKeys)
  {
    forall f :: Get(k, f) == 0 || Get(k, f) == 1
  }

  /** Starting from 0/1 fields the walk only ever produces 0/1 fields. */
  lemma {:induction false} BinaryPreserved(start: PressedKeys, draws: nat -> set<Field>, t: nat)
    requires Binary(start)
    ensures Binary(KeysAt(start, draws, t))
  {
    if t > 0 {
      BinaryPreserved(start, draws, t - 1);
    }
  }

  /** On 0/1 fields a flip negates the field, and two flips of the same
      fields in a row restore the keys. */
  lemma FlipTwiceRestores(k: PressedKeys, flipped: set<Field>)
    requires Binary(k)
    ensures forall f :: f in flipped ==> Get(Step(k, flipped), f) == 1 - Get(k, f)
    ensures Step(Step(k, flipped), flipped) == k
  {
    FieldsDetermineKeys(Step(Step(k, flipped), flipped), k);
  }

  /** `[k] * length`. */
  function Repeat(k: PressedKeys, length: int): (r: seq<PressedKeys>)
    ensures |r| == Count(length)
    ensures forall i :: 0 <= i < |r| ==> r[i] == k
  {
    if length <= 0 then [] else Repeat(k, length - 1) + [k]
  }

  /** The fields a struct holds down. */
  function HeldFields(k: PressedKeys): set<Field>
  {
    set f | f in Fields && Get(k, f) != 0
  }

  function StayStillLong(length: int := 30): seq<PressedKeys>
  {
    Repeat(NoKeys.(right := 0, left := 0, jump := 0, action := 0, enter := 0), length)
  }

  function StayStillShort(length: int := 5): seq<PressedKeys>
  {
    Repeat(NoKeys.(right := 0, left := 0, jump := 0, action := 0, enter := 0), length)
  }

  function WalkRightLong(length: int := 30): seq<PressedKeys>
  {
    Repeat(NoKeys.(right := 1), length)
  }

  function WalkLeftLong(length: int := 30): seq<PressedKeys>
  {
    Repeat(NoKeys.(left := 1), length)
  }

  function RunRightLong(length: int := 30): seq<PressedKeys>
  {
    Repeat(NoKeys.(right := 1, action := 1), length)
  }

  function RunLeftLong(length: int := 30): seq<PressedKeys>
  {
    Repeat(NoKeys.(left := 1, action := 1), length)
  }

  function JumpUpHigh(length: int := 60): seq<PressedKeys>
  {
    Repeat(NoKeys.(jump := 1), length)
  }

  function JumpUpRightHigh(length: int := 60): seq<PressedKeys>
  {
    Repeat(NoKeys.(jump := 1, right := 1), length)
  }

  function JumpUpLeftHigh(length: int := 60): seq<PressedKeys>
  {
    Repeat(NoKeys.(jump := 1, left := 1), length)
  }

  function JumpUpRightHighAction(length: int := 60): seq<PressedKeys>
  {
    Repeat(NoKeys.(jump := 1, right := 1, action := 1), length)
  }

  function JumpUpLeftHighAction(length: int := 60): seq<PressedKeys>
  {
    Repeat(NoKeys.(jump := 1, left := 1, action := 1), length)
  }

  function Down(length: int := 5): seq<PressedKeys>
  {
    Repeat(NoKeys.(down := 1), length)
  }

  /** Which keys every tick of each scripted move holds: nothing for the two
      stay-still moves (`down` and every other field default to 0), and
      exactly the named keys for the others. */
  lemma ScriptedMoveKeys(n: int)
    ensures forall k :: k in StayStillLong(n) ==> k == NoKeys && HeldFields(k) == {}
    ensures forall k :: k in StayStillShort(n) ==> k == NoKeys && HeldFields(k) == {}
    ensures forall k :: k in WalkRightLong(n) ==> HeldFields(k) == {Right}
    ensures forall k :: k in WalkLeftLong(n) ==> HeldFields(k) == {Left}
    ensures forall k :: k in RunRightLong(n) ==> HeldFields(k) == {Right, Action}
    ensures forall k :: k in RunLeftLong(n) ==> HeldFields(k) == {Left, Action}
    ensures forall k :: k in JumpUpHigh(n) ==> HeldFields(k) == {Jump}
    ensures forall k :: k in JumpUpRightHigh(n) ==> HeldFields(k) == {Jump, Right}
    ensures forall k :: k in JumpUpLeftHigh(n) ==> HeldFields(k) == {Jump, Left}
    ensures forall k :: k in JumpUpRightHighAction(n) ==> HeldFields(k) == {Jump, Right, Action}
    ensures forall k :: k in JumpUpLeftHighAction(n) ==> HeldFields(k) == {Jump, Left, Action}
    ensures forall k :: k in Down(n) ==> HeldFields(k) == {Game.Down}
  {
    GroundMoveKeys(n);
    JumpMoveKeys(n);
    RepeatHolds(NoKeys.(down := 1), n, {Game.Down});
  }

  /** Every tick of `[k] * length` holds the keys k holds. */
  lemma RepeatHolds(k: PressedKeys, length: int, held: set<Field>)
    requires forall f :: f in held <==> Get(k, f) != 0
    ensures forall x :: x in Repeat(k, length) ==> HeldFields(x) == held
  {
    assert HeldFields(k) == held;
  }

  lemma GroundMoveKeys(n: int)
    ensures forall k :: k in StayStillLong(n) ==> k == NoKeys && HeldFields(k) == {}
    ensures forall k :: k in StayStillShort(n) ==> k == NoKeys && HeldFields(k) == {}
    ensures forall k :: k in WalkRightLong(n) ==> HeldFields(k) == {Right}
    ensures forall k :: k in WalkLeftLong(n) ==> HeldFields(k) == {Left}
    ensures forall k :: k in RunRightLong(n) ==> HeldFields(k) == {Right, Action}
    ensures forall k :: k in RunLeftLong(n) ==> HeldFields(k) == {Left, Action}
  {
    assert NoKeys.(right := 0, left := 0, jump := 0, action := 0, enter := 0) == NoKeys;
    RepeatHolds(NoKeys, n, {});
    RepeatHolds(NoKeys.(right := 1), n, {Right});
    RepeatHolds(NoKeys.(left := 1), n, {Left});
    RepeatHolds(NoKeys.(right := 1, action := 1), n, {Right, Action});
    RepeatHolds(NoKeys.(left := 1, action := 1), n, {Left, Action});
  }

  lemma JumpMoveKeys(n: int)
    ensures forall k :: k in JumpUpHigh(n) ==> HeldFields(k) == {Jump}
    ensures forall k :: k in JumpUpRightHigh(n) ==> HeldFields(k) == {Jump, Right}
    ensures forall k :: k in JumpUpLeftHigh(n) ==> HeldFields(k) == {Jump, Left}
    ensures forall k :: k in JumpUpRightHighAction(n) ==> HeldFields(k) == {Jump, Right, Action}
    ensures forall k :: k in JumpUpLeftHighAction(n) ==> HeldFields(k) == {Jump, Left, Action}
  {
    RepeatHolds(NoKeys.(jump := 1), n, {Jump});
    RepeatHolds(NoKeys.(jump := 1, right := 1), n, {Jump, Right});
    RepeatHolds(NoKeys.(jump := 1, left := 1), n, {Jump, Left});
    RepeatHolds(NoKeys.(jump := 1, right := 1, action := 1), n, {Jump, Right, Action});
    RepeatHolds(NoKeys.(jump := 1, left := 1, action := 1), n, {Jump, Left, Action});
  }

  /** With their default lengths the moves last 30, 5, 30, 30, 30, 30, 60,
      60, 60, 60, 60 and 5 ticks. */
  lemma ScriptedMoveLengths()
    ensures |StayStillLong()| == 30 && |StayStillShort()| == 5
    ensures |WalkRightLong()| == 30 && |WalkLeftLong()| == 30
    ensures |RunRightLong()| == 30 && |RunLeftLong()| == 30
    ensures |JumpUpHigh()| == 60 && |JumpUpRightHigh()| == 60 && |JumpUpLeftHigh()| == 60
    ensures |JumpUpRightHighAction()| == 60 && |JumpUpLeftHighAction()| == 60
    ensures |Down()| == 5
  {
  }

  /** The registered moves, by name. */
  datatype Move =
    | FuzzyMove | StayStillLongMove | StayStillShortMove | WalkRightLongMove | WalkLeftLongMove
    | RunRightLongMove | RunLeftLongMove | JumpUpHighMove | JumpUpRightHighMove | JumpUpLeftHighMove
    | JumpUpRightHighActionMove | JumpUpLeftHighActionMove | DownMove

  /** The module's definitions, in the order they appear. */
  const DefinitionOrder: seq<Move> := [
    FuzzyMove, StayStillLongMove, StayStillShortMove, WalkRightLongMove, WalkLeftLongMove,
    RunRightLongMove, RunLeftLongMove, JumpUpHighMove, JumpUpRightHighMove, JumpUpLeftHighMove,
    JumpUpRightHighActionMove, JumpUpLeftHighActionMove, DownMove]

  /** The module-level `all_moves` list. */
  class Registry {
    var allMoves: seq<Move>

    constructor ()
      ensures allMoves == []
    {
      allMoves := [];
    }

    /** The `move` decorator: record the function and hand it back as is. */
    method Register(m: Move) returns (same: Move)
      modifies this
      ensures allMoves == old(allMoves) + [m]
      ensures same == m
    {
      allMoves := allMoves + [m];
      same := m;
    }

    /** Loading the module applies the decorator to each definition in turn. */
    method RegisterAll()
      modifies this
      ensures allMoves == old(allMoves) + DefinitionOrder
    {
      for i := 0 to |DefinitionOrder|
        invariant allMoves == old(allMoves) + DefinitionOrder[..i]
      {
        var _ := Register(DefinitionOrder[i]);
        assert DefinitionOrder[..i + 1] == DefinitionOrder[..i] + [DefinitionOrder[i]];
      }
    }
  }

  /** After loading, `all_moves` lists 13 distinct moves, `fuzzy` first and
      every scripted move after it. */
  lemma RegistryContents()
    ensures |DefinitionOrder| == 13 && DefinitionOrder[0] == FuzzyMove
    ensures forall i, j :: 0 <= i < j < |DefinitionOrder| ==> DefinitionOrder[i] != DefinitionOrder[j]
  {
  }
}
