/** Mario's horizontal-movement model (models/mario.py): per-frame position
    predicates, the movement and speed assertions, the backward counting loops
    that measure a standing delay and a held inertia speed, and `expect_move`,
    which combines them. Each assertion is modelled as a boolean that is true
    exactly when the assertion does not fail. */
module Mario {
  import opened Game
  import opened Base

  /** One recorded frame as this model reads it: Mario's box position and the
      held key codes. */
  datatype Frame = Frame(x: int, y: int, keys: map<int, bool>)

  function DirName(d: Dir): string
  {
    match d
    case RightDir => "right"
    case LeftDir => "left"
  }

  function Opposite(d: Dir): Dir
  {
    match d
    case RightDir => LeftDir
    case LeftDir => RightDir
  }

  /** `is_key_pressed(state, direction)`: the arrow key of the direction is held. */
  predicate KeyPressed(s: Frame, d: Dir)
  {
    Held(s.keys, if d == RightDir then Right else Left)
  }

  /** `is_standing`: x did not change. */
  predicate IsStanding(s: Frame, previous: Frame)
  {
    s.x == previous.x
  }

  /** `is_moving`: x increased for "right", decreased for "left"; any other
      direction name is never moving. */
  predicate IsMoving(s: Frame, previous: Frame, direction: string)
  {
    if direction == "right" then s.x > previous.x
    else if direction == "left" then s.x < previous.x
    else false
  }

  /** `is_jumping`: y decreased. */
  predicate IsJumping(s: Frame, previous: Frame)
  {
    s.y < previous.y
  }

  /** Between two frames Mario is exactly one of: standing, moving right,
      moving left. */
  lemma StandingOrMoving(s: Frame, previous: Frame)
    ensures IsStanding(s, previous) || IsMoving(s, previous, "right") || IsMoving(s, previous, "left")
    ensures !(IsStanding(s, previous) && IsMoving(s, previous, "right"))
    ensures !(IsStanding(s, previous) && IsMoving(s, previous, "left"))
    ensures !(IsMoving(s, previous, "right") && IsMoving(s, previous, "left"))
  {
  }

  /** Movement from `earlier` to `later` measured in direction d. */
  function Movement(later: Frame, earlier: Frame, d: Dir): int
  {
    if d == RightDir then later.x - earlier.x else earlier.x - later.x
  }

  /** `assert_no_unintended_movement`: for "right" Mario did not move right,
      for "left" he did not move left; other names check nothing. */
  predicate AssertNoUnintendedMovement(now: Frame, before: Frame, direction: string)
  {
    if direction == "right" then now.x <= before.x
    else if direction == "left" then now.x >= before.x
    else true
  }

  /** `assert_jump`: y decreased. */
  predicate AssertJump(now: Frame, before: Frame)
  {
    IsJumping(now, before)
  }

  /** `assert_max_speed`: the movement in the direction is at most maxSpeed. */
  predicate AssertMaxSpeed(now: Frame, before: Frame, maxSpeed: int, d: Dir)
  {
    Movement(now, before, d) <= maxSpeed
  }

  /** `assert_movement`: strict progress in the direction, then the speed
      bound. */
  predicate AssertMovement(now: Frame, before: Frame, maxSpeed: int, d: Dir)
  {
    IsMoving(now, before, DirName(d)) && AssertMaxSpeed(now, before, maxSpeed, d)
  }

  /** A passing movement assertion bounds the step on both sides: Mario moved
      between 1 and maxSpeed pixels the right way; a passing speed assertion
      alone only bounds it from above. */
  lemma MovementBounds(now: Frame, before: Frame, maxSpeed: int, d: Dir)
    ensures AssertMovement(now, before, maxSpeed, d) <==> 0 < Movement(now, before, d) <= maxSpeed
    ensures AssertMovement(now, before, maxSpeed, d) ==>
      (if d == RightDir then before.x < now.x <= before.x + maxSpeed
       else before.x - maxSpeed <= now.x < before.x)
    ensures AssertMaxSpeed(now, before, maxSpeed, d) <==>
      (if d == RightDir then now.x <= before.x + maxSpeed else now.x >= before.x - maxSpeed)
  {
  }

  /** Number of frame pairs, walking back from frame k, over which x stayed
      the same while the direction key was held in the later frame of the
      pair. */
  function StandingChain(b: seq<Frame>, k: nat, d: Dir): (n: nat)
    requires k < |b|
    ensures n <= k
  {
    if k == 0 then 0
    else if b[k - 1].x == b[k].x && KeyPressed(b[k], d) then 1 + StandingChain(b, k - 1, d)
    else 0
  }

  /** The standing chain is exactly the maximal run back from frame k of
      frames at frame k's x with the key held in each later frame. */
  lemma {:induction false} StandingChainMeaning(b: seq<Frame>, k: nat, d: Dir)
    requires k < |b|
    ensures var n := StandingChain(b, k, d);
      && (forall j :: k - n <= j <= k ==> b[j].x == b[k].x)
      && (forall j :: k - n < j <= k ==> KeyPressed(b[j], d))
      && (n < k ==> !(b[k - n - 1].x == b[k - n].x && KeyPressed(b[k - n], d)))
  {
    if k > 0 && b[k - 1].x == b[k].x && KeyPressed(b[k], d) {
      StandingChainMeaning(b, k - 1, d);
    }
  }

  /** `has_started_moving_after_standing`: count from 1 and walk back from
      the third-last frame while Mario stood still with the key held; the
      result says whether the count reached the threshold. */
  method HasStartedMovingAfterStanding(b: seq<Frame>, threshold: int, d: Dir) returns (started: bool)
    requires |b| >= 3
    ensures started == (1 + StandingChain(b, |b| - 3, d) >= threshold)
  {
    var count := 1;
    var i := |b| - 3;
    while i > 0
      invariant 0 <= i <= |b| - 3
      invariant count + StandingChain(b, i, d) == 1 + StandingChain(b, |b| - 3, d)
    {
      if b[i - 1].x != b[i].x {
        break;
      }
      if !KeyPressed(b[i], d) {
        break;
      }
      count := count + 1;
      i := i - 1;
    }
    started := count >= threshold;
  }

  /** Number of frame pairs, walking back from frame k, over which the
      direction key was not held in the later frame and the step in the
      direction equalled `movement`. */
  function InertiaChain(b: seq<Frame>, k: nat, movement: int, d: Dir): (n: nat)
    requires k < |b|
    ensures n <= k
  {
    if k == 0 then 0
    else if !KeyPressed(b[k], d) && Movement(b[k], b[k - 1], d) == movement
    then 1 + InertiaChain(b, k - 1, movement, d)
    else 0
  }

  /** The inertia chain is exactly the maximal run back from frame k of
      key-released steps of the same size. */
  lemma {:induction false} InertiaChainMeaning(b: seq<Frame>, k: nat, movement: int, d: Dir)
    requires k < |b|
    ensures var n := InertiaChain(b, k, movement, d);
      && (forall j :: k - n < j <= k ==> !KeyPressed(b[j], d) && Movement(b[j], b[j - 1], d) == movement)
      && (n < k ==> !(!KeyPressed(b[k - n], d) && Movement(b[k - n], b[k - n - 1], d) == movement))
  {
    if k > 0 && !KeyPressed(b[k], d) && Movement(b[k], b[k - 1], d) == movement {
      InertiaChainMeaning(b, k - 1, movement, d);
    }
  }

  /** `has_maintained_inertia`: count from 1 and walk back from the
      third-last frame while the key stayed released and each step equalled
      `previousMovement`; the result says whether the count reached the
      threshold. */
  method HasMaintainedInertia(b: seq<Frame>, previousMovement: int, thresholdFrames: int, d: Dir)
    returns (maintained: bool)
    requires |b| >= 3
    ensures maintained == (1 + InertiaChain(b, |b| - 3, previousMovement, d) >= thresholdFrames)
  {
    var count := 1;
    var i := |b| - 3;
    while i > 0
      invariant 0 <= i <= |b| - 3
      invariant count + InertiaChain(b, i, previousMovement, d) == 1 + InertiaChain(b, |b| - 3, previousMovement, d)
    {
      if KeyPressed(b[i], d) {
        break;
      }
      if Movement(b[i], b[i - 1], d) != previousMovement {
        break;
      }
      count := count + 1;
      i := i - 1;
    }
    maintained := count >= thresholdFrames;
  }

  /** What `assert_inertia_movement` accepts: nothing is checked with fewer
      than three frames; otherwise Mario must not reverse, must not speed up,
      and must slow down once the same speed was held for `threshold` frames. */
  predicate InertiaOk(b: seq<Frame>, threshold: int, d: Dir)
  {
    |b| < 3 ||
    var current := Movement(b[|b| - 1], b[|b| - 2], d);
    var previous := Movement(b[|b| - 2], b[|b| - 3], d);
    && current >= 0
    && current <= previous
    && (1 + InertiaChain(b, |b| - 3, previous, d) >= threshold ==> current < previous)
  }

  /** `assert_inertia_movement`. */
  method AssertInertiaMovement(b: seq<Frame>, threshold: int, d: Dir) returns (ok: bool)
    ensures ok == InertiaOk(b, threshold, d)
  {
    if |b| < 3 {
      return true;
    }
    var now, before, rightBefore := b[|b| - 1], b[|b| - 2], b[|b| - 3];
    var currentMovement := Movement(now, before, d);
    var previousMovement := Movement(before, rightBefore, d);
    var stillMoving := if d == RightDir then now.x >= before.x else now.x <= before.x;
    if !stillMoving {
      return false;
    }
    if !(currentMovement <= previousMovement) {
      return false;
    }
    var maintained := HasMaintainedInertia(b, previousMovement, threshold, d);
    if maintained && !(currentMovement < previousMovement) {
      return false;
    }
    return true;
  }

  /** Inertia without the key: once the same speed has been held for the
      threshold, an accepted frame is strictly slower than the one before,
      and an accepted frame after a standstill is a standstill. */
  lemma InertiaSlowsDown(b: seq<Frame>, threshold: int, d: Dir)
    requires |b| >= 3 && InertiaOk(b, threshold, d)
    ensures var current := Movement(b[|b| - 1], b[|b| - 2], d);
      var previous := Movement(b[|b| - 2], b[|b| - 3], d);
      && 0 <= current <= previous
      && (threshold <= 1 ==> current < previous)
      && (previous == 0 ==> current == 0)
  {
  }

  /** What `expect_move` accepts for one direction, branch by branch. */
  predicate ExpectMoveOk(b: seq<Frame>, d: Dir)
  {
    if |b| < 3 then true
    else
      var now, before, rightBefore := b[|b| - 1], b[|b| - 2], b[|b| - 3];
      if !KeyPressed(before, d) then
        if IsMoving(before, rightBefore, DirName(d)) then InertiaOk(b, 7, d)
        else AssertNoUnintendedMovement(now, before, DirName(d))
      else if IsMoving(before, rightBefore, DirName(d)) then AssertMovement(now, before, 6, d)
      else if IsStanding(before, rightBefore) then
        1 + StandingChain(b, |b| - 3, d) >= 4 ==> AssertMovement(now, before, 6, d)
      else if IsMoving(before, rightBefore, DirName(Opposite(d))) then InertiaOk(b, 7, Opposite(d))
      else AssertMovement(now, before, 6, d)
  }

  /** `expect_move`: with the key released, either inertia or staying put is
      expected; with the key held, continued movement at most 6 pixels per
      frame, a start after a standing delay of at least 4 frames, or inertia
      in the opposite direction before turning. */
  method ExpectMove(b: seq<Frame>, d: Dir) returns (ok: bool)
    ensures ok == ExpectMoveOk(b, d)
  {
    if |b| < 3 {
      return true;
    }
    var now, before, rightBefore := b[|b| - 1], b[|b| - 2], b[|b| - 3];
    if !KeyPressed(before, d) {
      if IsMoving(before, rightBefore, DirName(d)) {
        ok := AssertInertiaMovement(b, 7, d);
      } else {
        ok := AssertNoUnintendedMovement(now, before, DirName(d));
      }
      return;
    }
    if IsMoving(before, rightBefore, DirName(d)) {
      ok := AssertMovement(now, before, 6, d);
    } else if IsStanding(before, rightBefore) {
      var started := HasStartedMovingAfterStanding(b, 4, d);
      if !started {
        return true;
      }
      ok := AssertMovement(now, before, 6, d);
    } else if IsMoving(before, rightBefore, DirName(Opposite(d))) {
      ok := AssertInertiaMovement(b, 7, Opposite(d));
    } else {
      ok := AssertMovement(now, before, 6, d);
    }
  }

  /** Consequences of `expect_move` passing with at least three frames:
      with the key held while already moving that way, Mario advanced 1 to 6
      pixels; with the key released while not moving that way, he did not move
      that way; with the key held after standing for fewer than 4 frames,
      nothing is required. The last branch of `expect_move` is unreachable,
      because between two frames Mario stands or moves one way or the other. */
  lemma ExpectMoveConsequences(b: seq<Frame>, d: Dir)
    requires |b| >= 3
    ensures var now, before, rightBefore := b[|b| - 1], b[|b| - 2], b[|b| - 3];
      && (KeyPressed(before, d) && Movement(before, rightBefore, d) > 0 ==>
            (ExpectMoveOk(b, d) <==> 0 < Movement(now, before, d) <= 6))
      && (!KeyPressed(before, d) && Movement(before, rightBefore, d) <= 0 ==>
            (ExpectMoveOk(b, d) <==> Movement(now, before, d) <= 0))
      && ((KeyPressed(before, d) && Movement(before, rightBefore, d) == 0
             && StandingChain(b, |b| - 3, d) < 3) ==> ExpectMoveOk(b, d))
      && (IsMoving(before, rightBefore, DirName(d)) || IsStanding(before, rightBefore)
            || IsMoving(before, rightBefore, DirName(Opposite(d))))
  {
    var now, before, rightBefore := b[|b| - 1], b[|b| - 2], b[|b| - 3];
    MovementBounds(now, before, 6, d);
    StandingOrMoving(before, rightBefore);
  }
}
