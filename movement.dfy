/** Mario's movement oracle (models/mario/movement.py): the motion extracted
    from the last three frames, the atomic propositions, the causal, liveness
    and safety checks, and `Movement.expect`, which runs them in order. Every
    check yields a Verdict: the first check that does not pass decides the
    outcome, as the first failing assertion does in the harness. */
module Movement {
  import opened Wrappers
  import opened Vision
  import opened Game
  import opened Base

  const MaxTinyVelocity: int := 2
  const MaxStayedStill: int := 45
  const MaxWalkVelocity: int := 6
  const MaxRunVelocity: int := 12
  const MaxVerticalVelocity: int := 11
  const MaxRecentlyRun: int := 45
  const MaxWasInTransition: int := 55

  /** Python's `history[-size:]`: the last `size` frames, or all of them. */
  function Window(history: seq<BehaviorState>, size: nat): (w: seq<BehaviorState>)
    ensures |w| == Min(|history|, size)
    ensures w == history[|history| - |w|..]
  {
    if |history| <= size then history else history[|history| - size..]
  }

  // ---------------------------------------------------------------------
  // Behavior.init
  // ---------------------------------------------------------------------

  /** What `Behavior.init` extracts from the last three frames. */
  datatype Motion = Motion(
    rightBefore: BehaviorState, before: BehaviorState, now: BehaviorState,
    marioRightBefore: Element, marioBefore: Element, marioNow: Element,
    posRightBefore: int, posBefore: int, posNow: int,
    velocity: int, velocityNow: int, actualMovement: int,
    posYRightBefore: int, posYBefore: int, posYNow: int,
    verticalVelocity: int, verticalVelocityNow: int, actualVerticalMovement: int,
    keys: KeyFlags)

  /** A frame `init` accepts: a live player with a "player" box. */
  predicate Usable(s: BehaviorState)
  {
    s.player.Some? && !s.player.value.dead && GetElement("player", s).Some?
  }

  /** `Behavior.init`: None (the harness's False) with fewer than three frames
      or when one of the last three lacks a player, has a dead player or has
      no "player" box; otherwise the positions, velocities and keys. */
  function Init(history: seq<BehaviorState>): (r: Option<Motion>)
    ensures r.None? <==>
      |history| < 3 || !Usable(history[|history| - 3]) || !Usable(history[|history| - 2])
      || !Usable(history[|history| - 1])
    ensures r.Some? ==> var m := r.value;
      && m.rightBefore == history[|history| - 3] && m.before == history[|history| - 2]
      && m.now == history[|history| - 1]
      && GetElement("player", m.now) == Some(m.marioNow)
      && GetElement("player", m.before) == Some(m.marioBefore)
      && GetElement("player", m.rightBefore) == Some(m.marioRightBefore)
      && GetPosition(m.rightBefore, X) == Some(m.posRightBefore)
      && GetPosition(m.before, X) == Some(m.posBefore)
      && GetPosition(m.now, X) == Some(m.posNow)
      && GetPosition(m.rightBefore, Y) == Some(m.posYRightBefore)
      && GetPosition(m.before, Y) == Some(m.posYBefore)
      && GetPosition(m.now, Y) == Some(m.posYNow)
      && m.velocity == m.posBefore - m.posRightBefore
      && m.velocityNow == m.actualMovement == m.posNow - m.posBefore
      && m.verticalVelocity == m.posYBefore - m.posYRightBefore
      && m.verticalVelocityNow == m.actualVerticalMovement == m.posYNow - m.posYBefore
      && m.keys == Base.GetPressedKeys(m.now)
  {
    if |history| < 3 then None
    else
      var rightBefore, before, now := history[|history| - 3], history[|history| - 2], history[|history| - 1];
      if rightBefore.player.None? || before.player.None? || now.player.None? then None
      else if rightBefore.player.value.dead || before.player.value.dead || now.player.value.dead then None
      else
        var marioNow, marioBefore, marioRightBefore :=
          GetElement("player", now), GetElement("player", before), GetElement("player", rightBefore);
        if marioNow.None? || marioBefore.None? || marioRightBefore.None? then None
        else
          var posRightBefore, posBefore, posNow :=
            marioRightBefore.value.box.x, marioBefore.value.box.x, marioNow.value.box.x;
          var posYRightBefore, posYBefore, posYNow :=
            marioRightBefore.value.box.y, marioBefore.value.box.y, marioNow.value.box.y;
          Some(Motion(
            rightBefore, before, now,
            marioRightBefore.value, marioBefore.value, marioNow.value,
            posRightBefore, posBefore, posNow,
            posBefore - posRightBefore, posNow - posBefore, posNow - posBefore,
            posYRightBefore, posYBefore, posYNow,
            posYBefore - posYRightBefore, posYNow - posYBefore, posYNow - posYBefore,
            Base.GetPressedKeys(now)))
  }

  // ---------------------------------------------------------------------
  // Propositions
  // ---------------------------------------------------------------------

  /** A frame `was_in_transition` flags: no player, or a player state other
      than standing, walk, jump, fall and fly. */
  predicate Transitional(s: BehaviorState)
  {
    s.player.None? || s.player.value.state !in ["standing", "walk", "jump", "fall", "fly"]
  }

  /** The frames `was_in_transition` inspects hold a transitional one. */
  predicate InTransition(history: seq<BehaviorState>)
  {
    var w := Window(history, MaxWasInTransition);
    exists i :: 0 <= i < |w| && Transitional(w[i])
  }

  /** `was_in_transition`: scan the last 55 frames, oldest first. */
  method WasInTransition(history: seq<BehaviorState>) returns (r: bool)
    ensures r <==> InTransition(history)
  {
    var w := Window(history, MaxWasInTransition);
    for i := 0 to |w|
      invariant forall j :: 0 <= j < i ==> !Transitional(w[j])
    {
      if w[i].player.None? {
        return true;
      }
      if w[i].player.value.state !in ["standing", "walk", "jump", "fall", "fly"] {
        return true;
      }
    }
    return false;
  }

  /** `is_big`, `is_fire`, `is_dead`: the current frame's player flags, false
      without a player. */
  predicate IsBig(m: Motion)
  {
    m.now.player.Some? && m.now.player.value.big
  }

  predicate IsFire(m: Motion)
  {
    m.now.player.Some? && m.now.player.value.fire
  }

  predicate IsDead(m: Motion)
  {
    m.now.player.Some? && m.now.player.value.dead
  }

  /** A motion `init` accepted is never about a dead Mario. */
  lemma InitMarioAlive(history: seq<BehaviorState>)
    requires Init(history).Some?
    ensures !IsDead(Init(history).value)
    ensures forall k :: |history| - 3 <= k < |history| ==> Usable(history[k])
  {
  }

  predicate DirectionPressed(keys: KeyFlags)
  {
    keys.left || keys.right
  }

  /** `running_pressed`: action together with a direction. */
  predicate RunningPressed(keys: KeyFlags)
  {
    keys.action && DirectionPressed(keys)
  }

  /** Some frame among the last 45 had running pressed. */
  predicate RunningRecently(history: seq<BehaviorState>)
  {
    var w := Window(history, MaxRecentlyRun);
    exists i :: 0 <= i < |w| && RunningPressed(Base.GetPressedKeys(w[i]))
  }

  /** `running_pressed_recently`: scan the last 45 frames, newest first. */
  method RunningPressedRecently(history: seq<BehaviorState>) returns (r: bool)
    ensures r <==> RunningRecently(history)
  {
    var w := Window(history, MaxRecentlyRun);
    var i := |w|;
    while i > 0
      invariant 0 <= i <= |w|
      invariant forall j :: i <= j < |w| ==> !RunningPressed(Base.GetPressedKeys(w[j]))
    {
      i := i - 1;
      var keys := Base.GetPressedKeys(w[i]);
      if RunningPressed(keys) {
        return true;
      }
    }
    return false;
  }

  predicate NoKeys(rightPressed: bool, leftPressed: bool)
  {
    !rightPressed && !leftPressed
  }

  predicate TinyVelocity(velocity: int)
  {
    Abs(velocity) < MaxTinyVelocity
  }

  predicate BothKeysTinyVelocity(velocity: int, rightPressed: bool, leftPressed: bool)
  {
    leftPressed && rightPressed && Abs(velocity) < MaxTinyVelocity
  }

  /** `on_the_ground`: bottom contact with a solid element. */
  predicate OnTheGround(mario: Element, state: BehaviorState)
  {
    HasBottomTouch(mario, state, SolidObjects)
  }

  /** `stomped_enemy`: bottom contact with a stompable enemy. */
  predicate StompedEnemy(mario: Element, state: BehaviorState)
  {
    HasBottomTouch(mario, state, StompableEnemyObjects)
  }

  predicate InTheAir(mario: Element, state: BehaviorState)
  {
    !OnTheGround(mario, state)
  }

  /** `left_touch` and `right_touch`, with Mario standing in for the
      "before" element that the base queries expect (see the as-written
      variant below). */
  predicate LeftTouch(mario: Element, state: BehaviorState)
  {
    HasLeftTouch(mario, mario, state, SolidObjects)
  }

  predicate RightTouch(mario: Element, state: BehaviorState)
  {
    HasRightTouch(mario, mario, state, SolidObjects)
  }

  /** `left_touching`: a left contact now or in the frame before. */
  predicate LeftTouching(marioNow: Element, now: BehaviorState, marioBefore: Element, before: BehaviorState)
  {
    LeftTouch(marioNow, now) || LeftTouch(marioBefore, before)
  }

  predicate RightTouching(marioNow: Element, now: BehaviorState, marioBefore: Element, before: BehaviorState)
  {
    RightTouch(marioNow, now) || RightTouch(marioBefore, before)
  }

  predicate HasRightMovementCause(velocity: int, rightPressed: bool)
  {
    velocity > 1 || rightPressed
  }

  predicate HasLeftMovementCause(velocity: int, leftPressed: bool)
  {
    velocity < -1 || leftPressed
  }

  predicate VelocityLeft(velocity: int) { velocity < -1 }
  predicate VelocityRight(velocity: int) { velocity > 1 }
  predicate MovedRight(actualMovement: int) { actualMovement > 1 }
  predicate MovedLeft(actualMovement: int) { actualMovement < -1 }
  predicate Moved(actualMovement: int) { Abs(actualMovement) > 1 }
  predicate StayedInPlace(actualMovement: int) { Abs(actualMovement) == 0 }
  predicate MovedDown(actualVerticalMovement: int) { actualVerticalMovement > 1 }
  predicate MovedUp(actualVerticalMovement: int) { actualVerticalMovement < -1 }
  predicate StayedInTheAir(actualVerticalMovement: int) { Abs(actualVerticalMovement) == 0 }
  predicate StayedInTheAirOrBounced(actualVerticalMovement: int) { actualVerticalMovement <= 0 }
  predicate VelocityUp(velocity: int) { velocity < -1 }
  predicate VelocityDown(velocity: int) { velocity > 1 }

  /** The movement propositions partition the step: moving right and left
      exclude each other, `moved` is one of them, staying in place excludes
      both, and a one-pixel step is none of the three. */
  lemma MovementPropositions(a: int)
    ensures !(MovedRight(a) && MovedLeft(a))
    ensures Moved(a) <==> MovedRight(a) || MovedLeft(a)
    ensures StayedInPlace(a) ==> !Moved(a)
    ensures StayedInPlace(a) <==> a == 0
    ensures (a == 1 || a == -1) ==> !Moved(a) && !StayedInPlace(a)
  {
  }

  /** `path_is_clear`: no contact on the side of the direction, now or in the
      frame before, and not at that side's level boundary. */
  predicate PathIsClear(marioNow: Element, now: BehaviorState, marioBefore: Element, before: BehaviorState, direction: Dir)
  {
    if direction == RightDir then
      !RightTouching(marioNow, now, marioBefore, before) && !IsAtRightBoundary(marioNow, now)
    else
      !LeftTouching(marioNow, now, marioBefore, before) && !IsAtLeftBoundary(marioNow, now)
  }

  predicate HasRightDirection(mario: Element, state: BehaviorState)
  {
    Direction(state, InTheAir(mario, state)) == Some(RightDir)
  }

  predicate HasLeftDirection(mario: Element, state: BehaviorState)
  {
    Direction(state, InTheAir(mario, state)) == Some(LeftDir)
  }

  predicate StayedStillTooLong(stayedStill: int)
  {
    stayedStill > MaxStayedStill
  }

  predicate ExceedsMaxWalkVelocity(velocity: int, tolerance: int)
  {
    Abs(velocity) > MaxWalkVelocity + tolerance
  }

  predicate ExceedsMaxRunVelocity(velocity: int, tolerance: int)
  {
    Abs(velocity) > MaxRunVelocity + tolerance
  }

  predicate ExceedsMaxVerticalVelocity(velocity: int, tolerance: int)
  {
    Abs(velocity) > MaxVerticalVelocity + tolerance
  }

  /** With the default tolerance of one pixel the speed limits are 7 when
      walking, 13 when running and 12 vertically; anything within the walking
      limit is within the running limit. */
  lemma SpeedLimits(v: int)
    ensures ExceedsMaxWalkVelocity(v, 1) <==> v > 7 || v < -7
    ensures ExceedsMaxRunVelocity(v, 1) <==> v > 13 || v < -13
    ensures ExceedsMaxVerticalVelocity(v, 1) <==> v > 12 || v < -12
    ensures ExceedsMaxRunVelocity(v, 1) ==> ExceedsMaxWalkVelocity(v, 1)
  {
  }

  // ---------------------------------------------------------------------
  // Causal properties
  // ---------------------------------------------------------------------

  /** `check_right_movement`: a move right of more than one pixel needs a
      rightward velocity or the right key. */
  function CheckRightMovement(m: Motion): (v: Verdict)
    ensures v != Pass <==> MovedRight(m.actualMovement) && m.velocity <= 1 && !m.keys.right
    ensures !v.Crash?
  {
    if MovedRight(m.actualMovement) then
      AssertWithSuccess(HasRightMovementCause(m.velocity, m.keys.right), "moved right")
    else Pass
  }

  /** `check_left_movement`: the mirror image. */
  function CheckLeftMovement(m: Motion): (v: Verdict)
    ensures v != Pass <==> MovedLeft(m.actualMovement) && m.velocity >= -1 && !m.keys.left
    ensures !v.Crash?
  {
    if MovedLeft(m.actualMovement) then
      AssertWithSuccess(HasLeftMovementCause(m.velocity, m.keys.left), "moved left")
    else Pass
  }

  /** The accepted reasons for staying in place. */
  predicate StayedInPlaceCause(m: Motion)
  {
    var right, left := m.keys.right, m.keys.left;
    NoKeys(right, left)
    || TinyVelocity(m.velocity)
    || BothKeysTinyVelocity(m.velocity, right, left)
    || (VelocityLeft(m.velocity) && LeftTouching(m.marioNow, m.now, m.marioBefore, m.before))
    || (VelocityRight(m.velocity) && RightTouching(m.marioNow, m.now, m.marioBefore, m.before))
    || (VelocityLeft(m.velocity) && IsAtLeftBoundary(m.marioNow, m.now))
    || (VelocityRight(m.velocity) && IsAtRightBoundary(m.marioNow, m.now))
  }

  /** `check_stayed_in_place`, with the touch queries given Mario as their
      "before" element: standing still while a direction key is held and
      Mario had a speed of two or more is only accepted against a wall or at a
      level boundary on the side of that speed. */
  function CheckStayedInPlace(m: Motion): (v: Verdict)
    ensures v == Pass || v == Fail("stayed in place")
    ensures v != Pass <==>
      && m.actualMovement == 0 && (m.keys.right || m.keys.left) && Abs(m.velocity) >= 2
      && !(m.velocity < -1 && (LeftTouching(m.marioNow, m.now, m.marioBefore, m.before)
                               || IsAtLeftBoundary(m.marioNow, m.now)))
      && !(m.velocity > 1 && (RightTouching(m.marioNow, m.now, m.marioBefore, m.before)
                              || IsAtRightBoundary(m.marioNow, m.now)))
  {
    if StayedInPlace(m.actualMovement) then
      AssertWithSuccess(StayedInPlaceCause(m), "stayed in place")
    else Pass
  }

  /** `check_stayed_in_place` exactly as written: the touch propositions call
      the three-argument base queries with two arguments, which raises a
      TypeError as soon as a touch is evaluated. Because a speed that is not
      tiny is always left or right, the evaluation reaches a touch whenever no
      earlier reason applies, and the boundary reasons are never consulted. */
  function StayedInPlaceAsWritten(m: Motion): (v: Verdict)
    ensures v.Crash? <==> (StayedInPlace(m.actualMovement)
      && !NoKeys(m.keys.right, m.keys.left) && !TinyVelocity(m.velocity))
    ensures !v.Fail?
  {
    var right, left := m.keys.right, m.keys.left;
    if !StayedInPlace(m.actualMovement) then Pass
    else if NoKeys(right, left) || TinyVelocity(m.velocity) || BothKeysTinyVelocity(m.velocity, right, left) then Pass
    else if VelocityLeft(m.velocity) || VelocityRight(m.velocity) then
      Crash("has_touch() missing argument 'state'")
    else
      AssertWithSuccess(false, "stayed in place")
  }

  /** Witness of the TypeError: Mario is held at the right level boundary
      (the case the check means to accept) with the right key pressed after a
      step of 3 pixels. The as-written check raises; the corrected one
      passes. */
  lemma StayedInPlaceCrashesAtBoundary(m: Motion)
    requires m.actualMovement == 0 && m.velocity == 3 && m.keys.right
    requires IsAtRightBoundary(m.marioNow, m.now)
    ensures StayedInPlaceAsWritten(m).Crash?
    ensures CheckStayedInPlace(m) == Pass
  {
  }

  /** The two versions differ only where the as-written one raises. */
  lemma StayedInPlaceVersionsAgree(m: Motion)
    ensures !StayedInPlaceAsWritten(m).Crash? ==> StayedInPlaceAsWritten(m) == CheckStayedInPlace(m)
  {
  }

  /** `check_fall`: a fall of more than one pixel needs no ground under Mario
      in the frame before. */
  function CheckFall(m: Motion): (v: Verdict)
    ensures v != Pass <==> MovedDown(m.actualVerticalMovement) && OnTheGround(m.marioBefore, m.before)
    ensures !v.Crash?
  {
    if MovedDown(m.actualVerticalMovement) then
      AssertWithSuccess(!OnTheGround(m.marioBefore, m.before), "fell")
    else Pass
  }

  /** `check_stop_fall`: stopping after a downward speed needs ground now or
      an enemy stomped in the frame before. */
  function CheckStopFall(m: Motion): (v: Verdict)
    ensures v != Pass <==>
      m.verticalVelocity > 1 && m.actualVerticalMovement <= 0
      && !OnTheGround(m.marioNow, m.now) && !StompedEnemy(m.marioBefore, m.before)
    ensures !v.Crash?
  {
    var wasFalling := VelocityDown(m.verticalVelocity);
    if wasFalling && StayedInTheAirOrBounced(m.actualVerticalMovement) then
      AssertWithSuccess(OnTheGround(m.marioNow, m.now) || StompedEnemy(m.marioBefore, m.before), "stopped falling")
    else Pass
  }

  /** `check_jump`: a rise of more than one pixel needs the jump key on the
      ground, a stomp, or an upward speed. */
  function CheckJump(m: Motion): (v: Verdict)
    ensures v != Pass <==>
      MovedUp(m.actualVerticalMovement)
      && !(m.keys.jump && OnTheGround(m.marioBefore, m.before))
      && !StompedEnemy(m.marioBefore, m.before) && m.verticalVelocity >= -1
    ensures !v.Crash?
  {
    if MovedUp(m.actualVerticalMovement) then
      AssertWithSuccess(
        (m.keys.jump && OnTheGround(m.marioBefore, m.before))
        || StompedEnemy(m.marioBefore, m.before) || VelocityUp(m.verticalVelocity),
        "jumped")
    else Pass
  }

  // ---------------------------------------------------------------------
  // Liveness: check_starts_moving
  // ---------------------------------------------------------------------

  /** The pair (before, now) continues a still run in `direction`: Mario did
      not move, the direction is unchanged and the path is clear. */
  predicate StillStep(now: BehaviorState, before: BehaviorState, posNow: int, posBefore: int, direction: Dir)
    requires GetElement("player", now).Some? && GetElement("player", before).Some?
  {
    var marioNow, marioBefore := GetElement("player", now).value, GetElement("player", before).value;
    && !Moved(posNow - posBefore)
    && Direction(now, InTheAir(marioNow, now)) == Some(direction)
    && PathIsClear(marioNow, now, marioBefore, before, direction)
  }

  /** The pair of frames k - 2 and k - 1 of w: None when either lacks a
      player box, otherwise whether it is a still step. */
  function PairStill(w: seq<BehaviorState>, k: nat, direction: Dir): Option<bool>
    requires 2 <= k <= |w|
  {
    var posNow, posBefore := GetPosition(w[k - 1], X), GetPosition(w[k - 2], X);
    if posNow.None? || posBefore.None? then None
    else Some(StillStep(w[k - 1], w[k - 2], posNow.value, posBefore.value, direction))
  }

  /** p holds the statuses of the pairs of w, oldest first: entry k - 2 is
      the pair of frames k - 2 and k - 1. */
  ghost predicate StatusesOf(w: seq<BehaviorState>, direction: Dir, p: seq<Option<bool>>)
  {
    && |p| == (if |w| < 2 then 0 else |w| - 1)
    && forall k :: 2 <= k <= |w| ==> p[k - 2] == PairStill(w, k, direction)
  }

  function PairStatuses(w: seq<BehaviorState>, direction: Dir): (p: seq<Option<bool>>)
  {
    if |w| < 2 then []
    else seq(|w| - 1, i requires 0 <= i < |w| - 1 => PairStill(w, i + 2, direction))
  }

  lemma PairStatusesAre(w: seq<BehaviorState>, direction: Dir)
    ensures StatusesOf(w, direction, PairStatuses(w, direction))
  {
    var p := PairStatuses(w, direction);
    forall k | 2 <= k <= |w| ensures p[k - 2] == PairStill(w, k, direction) {
      assert 0 <= k - 2 < |w| - 1;
    }
  }

  /** The consecutive still pairs counted back from entry n - 1 of p, up to
      the first pair that is not still; None when a pair lacking a player
      box is reached first (the harness then subtracts None and raises). */
  function RunBack(p: seq<Option<bool>>, n: nat): (r: Option<nat>)
    requires n <= |p|
    ensures r.Some? ==> r.value <= n
    ensures r == Some(n) ==> forall i :: 0 <= i < n ==> p[i] == Some(true)
  {
    if n == 0 then Some(0)
    else
      match p[n - 1]
      case None => None
      case Some(still) =>
        if !still then Some(0)
        else
          match RunBack(p, n - 1)
          case None => None
          case Some(c) => Some(c + 1)
  }

  /** The still run counted from the newest pair of w. */
  function StillRun(w: seq<BehaviorState>, direction: Dir): Option<nat>
  {
    var p := PairStatuses(w, direction);
    RunBack(p, |p|)
  }

  /** `count` more pairs on top of a run; None stays None. */
  function Plus(count: nat, r: Option<nat>): (s: Option<nat>)
    ensures s.None? <==> r.None?
    ensures s.Some? ==> s.value == count + r.value
  {
    match r
    case None => None
    case Some(c) => Some(count + c)
  }

  lemma PlusZero(r: Option<nat>)
    ensures Plus(0, r) == r
  {
  }

  /** One step of the run, on top of `count` pairs already counted: a pair
      lacking a player ends it with None, a pair that is not still ends it
      with `count`, and a still pair is counted. */
  lemma RunBackUnfold(p: seq<Option<bool>>, n: nat, count: nat)
    requires 1 <= n <= |p|
    ensures p[n - 1].None? ==> Plus(count, RunBack(p, n)) == None
    ensures p[n - 1] == Some(false) ==> Plus(count, RunBack(p, n)) == Some(count)
    ensures p[n - 1] == Some(true) ==> Plus(count, RunBack(p, n)) == Plus(count + 1, RunBack(p, n - 1))
  {
  }

  /** One pass of the loop body of `check_starts_moving` on frames n - 1
      and n: None where the subtraction of positions would raise, false
      where the loop breaks, true where it counts the pair. */
  method PairStatus(w: seq<BehaviorState>, n: nat, direction: Dir, ghost p: seq<Option<bool>>) returns (st: Option<bool>)
    requires 1 <= n < |w| && StatusesOf(w, direction, p)
    ensures st == p[n - 1]
  {
    assert p[n - 1] == PairStill(w, n + 1, direction);
    var now, before := w[n], w[n - 1];
    var posNow, posBefore := GetPosition(now, X), GetPosition(before, X);
    if posNow.None? || posBefore.None? {
      return None;
    }
    var marioNow, marioBefore := GetElement("player", now).value, GetElement("player", before).value;
    var moved := Moved(posNow.value - posBefore.value);
    if moved {
      return Some(false);
    }
    var sameDirection := Direction(now, InTheAir(marioNow, now)) == Some(direction);
    if !sameDirection {
      return Some(false);
    }
    var clear := PathIsClear(marioNow, now, marioBefore, before, direction);
    return Some(clear);
  }

  /** The counting loop of `check_starts_moving`, walking the window from
      the newest pair to the oldest; p is the statuses of its pairs. */
  method CountRun(w: seq<BehaviorState>, direction: Dir, ghost p: seq<Option<bool>>) returns (r: Option<nat>)
    requires StatusesOf(w, direction, p)
    ensures r == RunBack(p, |p|)
  {
    var count: nat := 0;
    var n := if |w| < 2 then 0 else |w| - 1;
    PlusZero(RunBack(p, n));
    while n >= 1
      invariant 0 <= n <= |p|
      invariant RunBack(p, |p|) == Plus(count, RunBack(p, n))
    {
      RunBackUnfold(p, n, count);
      var st := PairStatus(w, n, direction, p);
      if st.None? {
        return None;
      }
      if !st.value {
        break;
      }
      count := count + 1;
      n := n - 1;
    }
    return Some(count);
  }

  /** The still-frame count of `check_starts_moving` on a window. */
  method CountStill(w: seq<BehaviorState>, direction: Dir) returns (r: Option<nat>)
    ensures r == StillRun(w, direction)
  {
    PairStatusesAre(w, direction);
    r := CountRun(w, direction, PairStatuses(w, direction));
  }

  /** The frames `check_starts_moving` looks at: the last 47. */
  function StillWindow(history: seq<BehaviorState>): seq<BehaviorState>
  {
    Window(history, MaxStayedStill + 2)
  }

  /** The verdict of `check_starts_moving`. */
  function StartsMovingVerdict(m: Motion, history: seq<BehaviorState>): Verdict
  {
    match Direction(m.now, InTheAir(m.marioNow, m.now))
    case None => Pass
    case Some(direction) =>
      match StillRun(StillWindow(history), direction)
      case None => Crash("missing player position")
      case Some(stayedStill) =>
        if stayedStill < 1 then Pass
        else AssertWithSuccess(!StayedStillTooLong(stayedStill), "stayed still")
  }

  /** `check_starts_moving`: with a direction held, count the still frames
      back from now and fail when there are more than 45. */
  method CheckStartsMoving(m: Motion, history: seq<BehaviorState>) returns (v: Verdict)
    ensures v == StartsMovingVerdict(m, history)
  {
    var direction := Direction(m.now, InTheAir(m.marioNow, m.now));
    if direction.None? {
      return Pass;
    }
    var stayedStill := CountStill(StillWindow(history), direction.value);
    if stayedStill.None? {
      return Crash("missing player position");
    }
    if stayedStill.value < 1 {
      return Pass;
    }
    v := AssertWithSuccess(!StayedStillTooLong(stayedStill.value), "stayed still");
  }

  /** The pair ending at frame j of w is a still step. */
  predicate StillPair(w: seq<BehaviorState>, j: int, direction: Dir)
    requires 1 <= j < |w|
  {
    && GetElement("player", w[j]).Some? && GetElement("player", w[j - 1]).Some?
    && StillStep(w[j], w[j - 1], GetPosition(w[j], X).value, GetPosition(w[j - 1], X).value, direction)
  }

  /** The last r entries before n are still pairs when the run back from n
      is r. */
  lemma {:induction false} RunBackTrue(p: seq<Option<bool>>, n: nat)
    requires n <= |p| && RunBack(p, n).Some?
    ensures forall i :: n - RunBack(p, n).value <= i < n ==> p[i] == Some(true)
  {
    if n >= 1 && p[n - 1] == Some(true) {
      RunBackTrue(p, n - 1);
    }
  }

  /** Every pair counted by a still run is a still step, and the run never
      counts more pairs than the window holds. */
  lemma StillRunSteps(w: seq<BehaviorState>, direction: Dir)
    requires StillRun(w, direction).Some?
    ensures forall j :: 1 <= j < |w| && |w| - StillRun(w, direction).value <= j ==> StillPair(w, j, direction)
    ensures StillRun(w, direction).value <= Max(|w| - 1, 0)
  {
    var p := PairStatuses(w, direction);
    PairStatusesAre(w, direction);
    RunBackTrue(p, |p|);
    forall j | 1 <= j < |w| && |w| - StillRun(w, direction).value <= j
      ensures StillPair(w, j, direction)
    {
      assert p[j - 1] == PairStill(w, j + 1, direction);
    }
  }

  /** `check_starts_moving` passes without a direction; otherwise it fails
      exactly when more than 45 still pairs were counted, which takes every
      one of the 46 pairs of a full 47-frame window; it raises only when a
      frame in the run lacks a player box. */
  lemma StartsMovingFailsOnlyOnFullWindow(m: Motion, history: seq<BehaviorState>)
    ensures Direction(m.now, InTheAir(m.marioNow, m.now)).None? ==> StartsMovingVerdict(m, history) == Pass
    ensures StartsMovingVerdict(m, history).Fail? ==>
      var direction := Direction(m.now, InTheAir(m.marioNow, m.now)).value;
      && |history| >= 47
      && StillRun(StillWindow(history), direction) == Some(46)
  {
    var d := Direction(m.now, InTheAir(m.marioNow, m.now));
    if StartsMovingVerdict(m, history).Fail? {
      var w := StillWindow(history);
      var run := StillRun(w, d.value);
      assert run.Some? && run.value > MaxStayedStill;
      StillRunBelowWindow(w, d.value, run);
      FullWindow(run, |w|, |history|);
    }
  }

  /** A count above 45 below a window of at most 47 frames is 46 on a full
      window. */
  lemma FullWindow(run: Option<nat>, size: nat, frames: nat)
    requires run.Some? && run.value > MaxStayedStill
    requires run.value == 0 || run.value < size
    requires size == Min(frames, MaxStayedStill + 2)
    ensures run == Some(46) && frames >= 47
  {
  }

  /** A nonzero still run counts fewer pairs than the window has frames. */
  lemma StillRunBelowWindow(w: seq<BehaviorState>, direction: Dir, run: Option<nat>)
    requires run == StillRun(w, direction) && run.Some?
    ensures run.value == 0 || run.value < |w|
  {
    var p := PairStatuses(w, direction);
    assert |p| == (if |w| < 2 then 0 else |w| - 1);
  }

  /** `check_starts_moving` exactly as written. `path_is_clear` first
      evaluates the touch propositions, which raise a TypeError (see
      `StayedInPlaceAsWritten`), so the loop never counts a pair: on the
      newest pair it raises on a missing position, breaks with nothing
      counted (and passes) when Mario moved or the direction changed, and
      otherwise reaches `path_is_clear` and raises. */
  function StartsMovingAsWritten(m: Motion, history: seq<BehaviorState>): (v: Verdict)
    ensures !v.Fail?
  {
    match Direction(m.now, InTheAir(m.marioNow, m.now))
    case None => Pass
    case Some(direction) =>
      var w := StillWindow(history);
      if |w| < 2 then Pass
      else
        var now, before := w[|w| - 1], w[|w| - 2];
        var posNow, posBefore := GetPosition(now, X), GetPosition(before, X);
        if posNow.None? || posBefore.None? then Crash("missing player position")
        else if Moved(posNow.value - posBefore.value) then Pass
        else if Direction(now, InTheAir(GetElement("player", now).value, now)) != Some(direction) then Pass
        else Crash("has_touch() missing argument 'state'")
  }

  /** As written, `check_starts_moving` raises on every frame `expect`
      checks in which a direction key is held and Mario moved by at most one
      pixel: the newest pair keeps Mario's own direction, so the loop reaches
      `path_is_clear`. */
  lemma StartsMovingCrashesWhenNotMoving(history: seq<BehaviorState>)
    requires Init(history).Some?
    requires var m := Init(history).value;
      Direction(m.now, InTheAir(m.marioNow, m.now)).Some? && !Moved(m.actualMovement)
    ensures StartsMovingAsWritten(Init(history).value, history) == Crash("has_touch() missing argument 'state'")
  {
    var m := Init(history).value;
    var w := StillWindow(history);
    assert w[|w| - 1] == m.now && w[|w| - 2] == m.before;
  }

  /** Wherever the written check does not raise, it agrees with the
      corrected one: both pass. */
  lemma StartsMovingVersionsAgree(m: Motion, history: seq<BehaviorState>)
    ensures !StartsMovingAsWritten(m, history).Crash? ==> StartsMovingAsWritten(m, history) == StartsMovingVerdict(m, history)
  {
    var d := Direction(m.now, InTheAir(m.marioNow, m.now));
    if d.Some? && !StartsMovingAsWritten(m, history).Crash? {
      var w := StillWindow(history);
      var p := PairStatuses(w, d.value);
      if |w| >= 2 {
        PairStatusesAre(w, d.value);
        assert p[|w| - 2] == PairStill(w, |w|, d.value) == Some(false);
      }
      assert StillRun(w, d.value) == Some(0);
    }
  }

  // ---------------------------------------------------------------------
  // Safety properties
  // ---------------------------------------------------------------------

  /** `check_does_not_move_past_left_boundary`. */
  function CheckNotPastLeftBoundary(m: Motion): (v: Verdict)
    ensures v == Pass <==> m.marioNow.box.x >= m.now.startX
    ensures !v.Crash?
  {
    AssertWithSuccess(!IsPastLeftBoundary(m.marioNow, m.now), "within left boundary")
  }

  /** `check_does_not_move_past_right_boundary`. */
  function CheckNotPastRightBoundary(m: Motion): (v: Verdict)
    ensures v == Pass <==> m.marioNow.box.Right() <= m.now.endX
    ensures !v.Crash?
  {
    AssertWithSuccess(!IsPastRightBoundary(m.marioNow, m.now), "within right boundary")
  }

  /** `check_does_not_exceed_max_velocity`: the running limit applies exactly
      when running was pressed recently. */
  function CheckMaxVelocity(m: Motion, runningRecently: bool): (v: Verdict)
    ensures v == Pass <==> Abs(m.velocityNow) <= (if runningRecently then 13 else 7)
    ensures !v.Crash?
  {
    if runningRecently then
      AssertWithSuccess(!ExceedsMaxRunVelocity(m.velocityNow, 1), "within run maximum")
    else
      AssertWithSuccess(!ExceedsMaxWalkVelocity(m.velocityNow, 1), "within walk maximum")
  }

  /** `check_does_not_exceed_max_vertical_velocity`. */
  function CheckMaxVerticalVelocity(m: Motion): (v: Verdict)
    ensures v == Pass <==> Abs(m.verticalVelocityNow) <= 12
    ensures !v.Crash?
  {
    AssertWithSuccess(!ExceedsMaxVerticalVelocity(m.verticalVelocityNow, 1), "within vertical maximum")
  }

  // ---------------------------------------------------------------------
  // Movement.expect
  // ---------------------------------------------------------------------

  /** Checks run in order: the outcome is the first one that does not pass. */
  function Chain(vs: seq<Verdict>): (v: Verdict)
    ensures v == Pass <==> forall i :: 0 <= i < |vs| ==> vs[i] == Pass
    ensures v != Pass ==> exists i :: 0 <= i < |vs| && vs[i] == v && forall j :: 0 <= j < i ==> vs[j] == Pass
  {
    if vs == [] then Pass
    else
      assert forall i :: 1 <= i < |vs| ==> vs[i] == vs[1..][i - 1];
      AndThen(vs[0], Chain(vs[1..]))
  }

  /** The checks of `Movement.expect`, in the order it runs them. */
  function Checks(m: Motion, history: seq<BehaviorState>): seq<Verdict>
  {
    [CheckRightMovement(m), CheckLeftMovement(m), CheckStayedInPlace(m),
     CheckFall(m), CheckStopFall(m), CheckJump(m),
     StartsMovingVerdict(m, history),
     CheckMaxVelocity(m, RunningRecently(history)), CheckMaxVerticalVelocity(m),
     CheckNotPastLeftBoundary(m), CheckNotPastRightBoundary(m)]
  }

  /** The verdict of `Movement.expect`. */
  function ExpectVerdict(history: seq<BehaviorState>): Verdict
  {
    match Init(history)
    case None => Pass
    case Some(m) => if InTransition(history) then Pass else Chain(Checks(m, history))
  }

  /** `Movement.expect`: nothing is checked when `init` fails or Mario was in
      a transition within the last 55 frames; otherwise the causal, liveness
      and safety checks run in order. */
  method Expect(history: seq<BehaviorState>) returns (v: Verdict)
    ensures v == ExpectVerdict(history)
  {
    var behavior := Init(history);
    if behavior.None? {
      return Pass;
    }
    var m := behavior.value;
    var transition := WasInTransition(history);
    if transition {
      return Pass;
    }
    var startsMoving := CheckStartsMoving(m, history);
    var running := RunningPressedRecently(history);
    v := Chain([CheckRightMovement(m), CheckLeftMovement(m), CheckStayedInPlace(m),
                CheckFall(m), CheckStopFall(m), CheckJump(m),
                startsMoving,
                CheckMaxVelocity(m, running), CheckMaxVerticalVelocity(m),
                CheckNotPastLeftBoundary(m), CheckNotPastRightBoundary(m)]);
  }

  /** What a passing `Movement.expect` guarantees about the last step when
      the checks ran: Mario stayed inside the level, his horizontal step was
      within 13 pixels (7 unless running was pressed in the last 45 frames),
      his vertical step within 12, and every move right or left of more than
      one pixel had a cause. */
  lemma ExpectPassGuarantees(history: seq<BehaviorState>)
    requires Init(history).Some? && !InTransition(history)
    requires ExpectVerdict(history) == Pass
    ensures var m := Init(history).value;
      && m.now.startX <= m.marioNow.box.x && m.marioNow.box.Right() <= m.now.endX
      && -13 <= m.posNow - m.posBefore <= 13
      && (!RunningRecently(history) ==> -7 <= m.posNow - m.posBefore <= 7)
      && -12 <= m.posYNow - m.posYBefore <= 12
      && (m.posNow - m.posBefore > 1 ==> m.velocity > 1 || Base.IsKeyPressed(m.now, Right))
      && (m.posNow - m.posBefore < -1 ==> m.velocity < -1 || Base.IsKeyPressed(m.now, Left))
  {
    var m := Init(history).value;
    var vs := Checks(m, history);
    assert vs[0] == Pass && vs[1] == Pass && vs[7] == Pass && vs[8] == Pass;
    assert vs[9] == Pass && vs[10] == Pass;
  }

  /** `Movement.expect` checks nothing when `init` fails or Mario was in
      transition; in particular with fewer than three frames. */
  lemma ExpectSkips(history: seq<BehaviorState>)
    ensures |history| < 3 ==> ExpectVerdict(history) == Pass
    ensures Init(history).Some? && InTransition(history) ==> ExpectVerdict(history) == Pass
  {
  }

  /** If only the k-th of a run of checks can raise, the run raises only
      through it. */
  lemma {:induction false} ChainCrash(vs: seq<Verdict>, k: nat)
    requires forall i :: 0 <= i < |vs| && i != k ==> !vs[i].Crash?
    ensures Chain(vs).Crash? ==> k < |vs| && vs[k] == Chain(vs)
  {
    if Chain(vs).Crash? {
      var i :| 0 <= i < |vs| && vs[i] == Chain(vs);
    }
  }

  /** With the touch queries corrected, every check but
      `check_starts_moving` either passes or fails an assertion, so
      `Movement.expect` raises only through the still-frame count reaching a
      frame without a player box. (As written, `check_stayed_in_place` and
      `check_starts_moving` also raise at the touch queries; see
      `StayedInPlaceAsWritten` and `StartsMovingAsWritten`.) */
  lemma ExpectCrashesOnlyInStartsMoving(history: seq<BehaviorState>)
    requires ExpectVerdict(history).Crash?
    ensures Init(history).Some?
    ensures var m := Init(history).value;
      && StartsMovingVerdict(m, history).Crash?
      && Direction(m.now, InTheAir(m.marioNow, m.now)).Some?
      && StillRun(StillWindow(history), Direction(m.now, InTheAir(m.marioNow, m.now)).value).None?
  {
    var m := Init(history).value;
    ChecksRaiseOnlyInStartsMoving(m, history);
    ChainCrash(Checks(m, history), 6);
  }

  /** With the touch queries corrected, no check but the seventh,
      `check_starts_moving`, raises. */
  lemma ChecksRaiseOnlyInStartsMoving(m: Motion, history: seq<BehaviorState>)
    ensures forall i :: 0 <= i < |Checks(m, history)| && i != 6 ==> !Checks(m, history)[i].Crash?
  {
    var vs := Checks(m, history);
    assert !vs[0].Crash? && !vs[1].Crash? && !vs[2].Crash? && !vs[3].Crash? && !vs[4].Crash?;
    assert !vs[5].Crash? && !vs[7].Crash? && !vs[8].Crash? && !vs[9].Crash? && !vs[10].Crash?;
  }
}
