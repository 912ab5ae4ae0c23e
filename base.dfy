/** Queries shared by every behaviour model (models/base.py): element lookup,
    held keys, positions, level boundaries, viewport visibility, one-pixel
    contact and overlap tests against named element groups, the direction
    rule, and the assertion helper, whose outcome is a Verdict here. */
module Base {
  import opened Wrappers
  import opened Vision
  import opened Game

  /** Element groups that block movement. */
  const SolidObjects: seq<string> := ["box", "brick", "pipe", "ground", "step", "slider", "collider"]

  /** Element groups Mario can stomp. */
  const StompableEnemyObjects: seq<string> := ["enemy", "goomba", "koopa", "flykoopa"]

  /** Outcome of an oracle check: it passes, an assertion fails, or the check
      raises some other error (for example arithmetic on a missing position). */
  datatype Verdict = Pass | Fail(check: string) | Crash(reason: string)

  /** Two checks run one after the other: the first that does not pass stops
      the sequence. */
  function AndThen(first: Verdict, next: Verdict): (v: Verdict)
    ensures v == Pass <==> first == Pass && next == Pass
    ensures first != Pass ==> v == first
  {
    if first.Pass? then next else first
  }

  /** `assert_with_success`: passes when the condition holds, otherwise the
      assertion fails with the given message. */
  function AssertWithSuccess(condition: bool, msg: string): (v: Verdict)
    ensures v.Pass? <==> condition
    ensures v.Crash? == false
    ensures !condition ==> v.check == msg
  {
    if condition then Pass else Fail(msg)
  }

  /** `state.boxes.get(name, [])`. */
  function Elements(state: BehaviorState, name: string): seq<Element>
  {
    if name in state.boxes then state.boxes[name] else []
  }

  /** `get`: the first element of a group, None when the group is missing or
      empty. */
  function GetElement(name: string, state: BehaviorState): (r: Option<Element>)
    ensures r.None? <==> Elements(state, name) == []
    ensures r.Some? ==> name in state.boxes && r.value == state.boxes[name][0]
  {
    var elements := Elements(state, name);
    if elements != [] then Some(elements[0]) else None
  }

  /** `is_key_pressed`: the bound key code is present in the frame's keys. */
  predicate IsKeyPressed(state: BehaviorState, f: Field)
  {
    Held(state.keys, f)
  }

  /** The dictionary `get_pressed_keys` builds (no entry for `enter`). */
  datatype KeyFlags = KeyFlags(right: bool, left: bool, jump: bool, action: bool, down: bool)

  function GetPressedKeys(state: BehaviorState): KeyFlags
  {
    KeyFlags(IsKeyPressed(state, Right), IsKeyPressed(state, Left), IsKeyPressed(state, Jump),
             IsKeyPressed(state, Action), IsKeyPressed(state, Down))
  }

  /** The model's key flags agree with the harness's PressedKeys reading of
      the same key dictionary (jump is key "a", action is key "s"). */
  lemma PressedKeysAgree(state: BehaviorState)
    ensures var flags := GetPressedKeys(state);
      var k := Game.GetPressedKeys(state.keys);
      && (flags.right <==> k.right == 1) && (flags.left <==> k.left == 1)
      && (flags.jump <==> k.jump == 1) && (flags.action <==> k.action == 1)
      && (flags.down <==> k.down == 1)
  {
    var k := Game.GetPressedKeys(state.keys);
    assert Get(k, Right) == Game.IsKeyPressed(state.keys, Right);
    assert Get(k, Left) == Game.IsKeyPressed(state.keys, Left);
    assert Get(k, Jump) == Game.IsKeyPressed(state.keys, Jump);
    assert Get(k, Action) == Game.IsKeyPressed(state.keys, Action);
    assert Get(k, Down) == Game.IsKeyPressed(state.keys, Down);
  }

  datatype Axis = X | Y

  /** `get_position`: the player element's x or y, None without a player box. */
  function GetPosition(state: BehaviorState, axis: Axis): (r: Option<int>)
    ensures r.Some? <==> GetElement("player", state).Some?
    ensures r.Some? ==> r.value == (if axis == X then GetElement("player", state).value.box.x
                                    else GetElement("player", state).value.box.y)
  {
    match GetElement("player", state)
    case None => None
    case Some(mario) => if axis == X then Some(mario.box.x) else Some(mario.box.y)
  }

  predicate IsAtRightBoundary(element: Element, state: BehaviorState)
  {
    element.box.x == state.endX - element.box.w
  }

  predicate IsAtLeftBoundary(element: Element, state: BehaviorState)
  {
    element.box.x == state.startX
  }

  predicate IsPastRightBoundary(element: Element, state: BehaviorState)
  {
    element.box.x > state.endX - element.box.w
  }

  predicate IsPastLeftBoundary(element: Element, state: BehaviorState)
  {
    element.box.x < state.startX
  }

  /** On each side an element is exactly one of: at the boundary, past it, or
      inside the level; in particular "at" and "past" exclude each other. */
  lemma BoundaryTrichotomy(element: Element, state: BehaviorState)
    ensures !(IsAtLeftBoundary(element, state) && IsPastLeftBoundary(element, state))
    ensures !(IsAtRightBoundary(element, state) && IsPastRightBoundary(element, state))
    ensures IsAtLeftBoundary(element, state) || IsPastLeftBoundary(element, state) || element.box.x > state.startX
    ensures IsAtRightBoundary(element, state) || IsPastRightBoundary(element, state)
            || element.box.Right() < state.endX
  {
  }

  /** `is_visible_in_viewport`: true without a viewport or element, otherwise
      the element lies entirely inside the viewport. */
  predicate IsVisibleInViewport(element: Option<Element>, state: BehaviorState)
  {
    match (state.viewport, element)
    case (Some(v), Some(e)) =>
      e.box.Left() >= v.x && e.box.Right() <= v.x + v.w
      && e.box.Top() >= v.y && e.box.Bottom() <= v.y + v.h
    case _ => true
  }

  /** A visible element of positive size overlaps the viewport, so it is also
      "in view" in the sense of `colliderect`. */
  lemma VisibleIsInView(element: Element, state: BehaviorState)
    requires state.viewport.Some? && element.box.w > 0 && element.box.h > 0
    requires IsVisibleInViewport(Some(element), state)
    ensures InView(element.box, state.viewport.value)
  {
  }

  /** The boxes of the named groups, concatenated in the order of `objects`. */
  function Gather(state: BehaviorState, objects: seq<string>): seq<Element>
  {
    if objects == [] then []
    else Gather(state, objects[..|objects| - 1]) + Elements(state, objects[|objects| - 1])
  }

  /** An element is gathered exactly when it belongs to one of the named
      groups. */
  lemma {:induction false} GatherMembership(state: BehaviorState, objects: seq<string>, e: Element)
    ensures e in Gather(state, objects) <==>
      exists i :: 0 <= i < |objects| && e in Elements(state, objects[i])
  {
    if objects != [] {
      var init := objects[..|objects| - 1];
      GatherMembership(state, init, e);
      if e in Gather(state, objects) {
        if e !in Gather(state, init) {
          assert e in Elements(state, objects[|objects| - 1]);
        } else {
          var i :| 0 <= i < |init| && e in Elements(state, init[i]);
          assert objects[i] == init[i];
        }
      } else {
        forall i | 0 <= i < |objects| ensures e !in Elements(state, objects[i]) {
          if i < |init| {
            assert objects[i] == init[i];
          }
        }
      }
    }
  }

  function Shifted(r: Rect, dx: int, dy: int): Rect
  {
    Rect(r.x + dx, r.y + dy, r.w, r.h)
  }

  function WithY(r: Rect, y: int): Rect
  {
    Rect(r.x, y, r.w, r.h)
  }

  /** `has_right_touch`: the element moved one pixel right, at its current y
      or at its previous y, overlaps another listed box that does not start
      left of it. */
  predicate HasRightTouch(element: Element, elementBefore: Element, state: BehaviorState, objects: seq<string>)
  {
    var now := Shifted(element.box, 1, 0);
    var before := WithY(now, elementBefore.box.y);
    exists b :: b in Gather(state, objects) && b != element
      && (ColliderRect(now, b.box) || ColliderRect(before, b.box)) && element.box.x <= b.box.x
  }

  /** `has_left_touch`: the mirror image of `has_right_touch`. */
  predicate HasLeftTouch(element: Element, elementBefore: Element, state: BehaviorState, objects: seq<string>)
  {
    var now := Shifted(element.box, -1, 0);
    var before := WithY(now, elementBefore.box.y);
    exists b :: b in Gather(state, objects) && b != element
      && (ColliderRect(now, b.box) || ColliderRect(before, b.box)) && element.box.x >= b.box.x
  }

  /** `has_top_touch`: the element moved one pixel up overlaps another listed
      box whose top lies above the element's top. */
  predicate HasTopTouch(element: Element, state: BehaviorState, objects: seq<string>)
  {
    exists b :: b in Gather(state, objects) && b != element
      && ColliderRect(Shifted(element.box, 0, -1), b.box) && element.box.Top() > b.box.Top()
  }

  /** `has_bottom_touch`: the element moved one pixel down overlaps another
      listed box whose top is not above the element's top and lies within one
      pixel of the element's bottom. */
  predicate HasBottomTouch(element: Element, state: BehaviorState, objects: seq<string>)
  {
    exists b :: b in Gather(state, objects) && b != element
      && ColliderRect(Shifted(element.box, 0, 1), b.box)
      && element.box.Top() <= b.box.Top() && Abs(element.box.Bottom() - b.box.Top()) <= 1
  }

  /** `has_collision`: the element overlaps some other listed box. */
  predicate HasCollision(element: Element, state: BehaviorState, objects: seq<string>)
  {
    exists b :: b in Gather(state, objects) && b != element && ColliderRect(element.box, b.box)
  }

  /** `has_right_collision`. */
  predicate HasRightCollision(element: Element, elementBefore: Element, state: BehaviorState, objects: seq<string>)
  {
    var now := element.box;
    var before := WithY(element.box, elementBefore.box.y);
    exists b :: b in Gather(state, objects) && b != element
      && (ColliderRect(now, b.box) || ColliderRect(before, b.box))
      && (now.Right() >= b.box.Left() || before.Right() >= b.box.Left())
  }

  /** `has_left_collision`. */
  predicate HasLeftCollision(element: Element, elementBefore: Element, state: BehaviorState, objects: seq<string>)
  {
    var now := element.box;
    var before := WithY(element.box, elementBefore.box.y);
    exists b :: b in Gather(state, objects) && b != element
      && (ColliderRect(now, b.box) || ColliderRect(before, b.box))
      && (now.Left() <= b.box.Right() || before.Left() <= b.box.Right())
  }

  /** `has_top_collision`: overlap with a listed box whose top is above the
      element's top. */
  predicate HasTopCollision(element: Element, state: BehaviorState, objects: seq<string>)
  {
    exists b :: b in Gather(state, objects) && b != element
      && ColliderRect(element.box, b.box) && element.box.Top() > b.box.Top()
  }

  /** `has_bottom_collision`: overlap with a listed box whose top is not above
      the element's top and lies within one pixel of the element's bottom. */
  predicate HasBottomCollision(element: Element, state: BehaviorState, objects: seq<string>)
  {
    exists b :: b in Gather(state, objects) && b != element
      && ColliderRect(element.box, b.box)
      && element.box.Top() <= b.box.Top() && Abs(element.box.Bottom() - b.box.Top()) <= 1
  }

  /** No listed box other than the element itself means no collision and no
      contact of any kind; in particular a frame without listed boxes has
      none, and an element never collides with itself. */
  lemma NothingElseNoContact(element: Element, elementBefore: Element, state: BehaviorState, objects: seq<string>)
    requires forall b :: b in Gather(state, objects) ==> b == element
    ensures !HasCollision(element, state, objects)
    ensures !HasTopCollision(element, state, objects) && !HasBottomCollision(element, state, objects)
    ensures !HasRightCollision(element, elementBefore, state, objects)
    ensures !HasLeftCollision(element, elementBefore, state, objects)
    ensures !HasRightTouch(element, elementBefore, state, objects)
    ensures !HasLeftTouch(element, elementBefore, state, objects)
    ensures !HasTopTouch(element, state, objects) && !HasBottomTouch(element, state, objects)
  {
  }

  /** The top and bottom collision tests only narrow the plain overlap test. */
  lemma VerticalCollisionIsCollision(element: Element, state: BehaviorState, objects: seq<string>)
    ensures HasTopCollision(element, state, objects) ==> HasCollision(element, state, objects)
    ensures HasBottomCollision(element, state, objects) ==> HasCollision(element, state, objects)
  {
  }

  /** For boxes of positive width, the side condition of the right and left
      collision tests is implied by the overlap itself, so each holds exactly
      when some other listed box overlaps the element at its current or
      previous y. */
  lemma SideCollisionIsOverlap(element: Element, elementBefore: Element, state: BehaviorState, objects: seq<string>)
    requires element.box.w > 0
    requires forall b :: b in Gather(state, objects) ==> b.box.w > 0
    ensures HasRightCollision(element, elementBefore, state, objects) <==>
      exists b :: b in Gather(state, objects) && b != element
        && (ColliderRect(element.box, b.box) || ColliderRect(WithY(element.box, elementBefore.box.y), b.box))
    ensures HasLeftCollision(element, elementBefore, state, objects) <==>
      exists b :: b in Gather(state, objects) && b != element
        && (ColliderRect(element.box, b.box) || ColliderRect(WithY(element.box, elementBefore.box.y), b.box))
  {
  }

  /** For boxes of positive size, a bottom touch is a bottom edge contact in
      the sense of the detector with tolerance 1: the element's feet are on
      the box's top or one pixel into it, with horizontal overlap. */
  lemma BottomTouchIsEdgeContact(element: Element, state: BehaviorState, objects: seq<string>)
    requires element.box.w > 0 && element.box.h > 0
    requires forall b :: b in Gather(state, objects) ==> b.box.w > 0 && b.box.h > 0
    requires HasBottomTouch(element, state, objects)
    ensures exists b :: (b in Gather(state, objects) && b != element
      && BottomTouch(element.box, b.box, 1)
      && 0 <= element.box.Bottom() - b.box.Top() <= 1)
  {
    var b :| b in Gather(state, objects) && b != element
      && ColliderRect(Shifted(element.box, 0, 1), b.box)
      && element.box.Top() <= b.box.Top() && Abs(element.box.Bottom() - b.box.Top()) <= 1;
    assert BottomTouch(element.box, b.box, 1);
  }

  /** `is_horizontal_pipe`. */
  predicate IsHorizontalPipe(element: Element)
  {
    element.name == "pipe" && element.box.w > element.box.h
  }

  /** `collides_with_horizontal_pipe`: false without an element; otherwise an
      overlap with another, wider-than-tall pipe whose top is above the
      element's top. */
  predicate CollidesWithHorizontalPipe(element: Option<Element>, state: BehaviorState)
  {
    match element
    case None => false
    case Some(e) =>
      exists p :: p in Elements(state, "pipe") && p != e && IsHorizontalPipe(p)
        && ColliderRect(e.box, p.box) && e.box.Top() > p.box.Top()
  }

  /** A horizontal-pipe contact is a top collision against the pipe group. */
  lemma HorizontalPipeIsTopCollision(element: Element, state: BehaviorState)
    requires CollidesWithHorizontalPipe(Some(element), state)
    ensures HasTopCollision(element, state, ["pipe"])
  {
    var p :| p in Elements(state, "pipe") && p != element && IsHorizontalPipe(p)
      && ColliderRect(element.box, p.box) && element.box.Top() > p.box.Top();
    assert ["pipe"][..0] == [];
    assert Gather(state, ["pipe"]) == Elements(state, "pipe");
  }

  datatype Dir = RightDir | LeftDir

  /** `direction`: the pressed side; with both pressed, right wins in the air
      and left on the ground; None with neither pressed. */
  function Direction(state: BehaviorState, inTheAir: bool): (d: Option<Dir>)
    ensures var k := GetPressedKeys(state);
      && (d.None? <==> !k.right && !k.left)
      && (k.right && !k.left ==> d == Some(RightDir))
      && (k.left && !k.right ==> d == Some(LeftDir))
      && (k.left && k.right ==> d == (if inTheAir then Some(RightDir) else Some(LeftDir)))
  {
    var keys := GetPressedKeys(state);
    if inTheAir then
      if keys.right then Some(RightDir) else if keys.left then Some(LeftDir) else None
    else
      if keys.left then Some(LeftDir) else if keys.right then Some(RightDir) else None
  }
}
