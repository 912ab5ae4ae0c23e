/** The level behaviour model (models/level.py): the boundary predicates with
    the bounds of level 1 fixed when the model is built. */
module Level {
  import opened Vision
  import Base
  import Game

  /** Level boundaries of level 1. */
  const StartX: int := 0
  const EndX: int := 9086

  predicate IsAtLeftBoundary(element: Element)
  {
    element.box.x == StartX
  }

  predicate IsAtRightBoundary(element: Element)
  {
    element.box.x == EndX - element.box.w
  }

  predicate IsPastLeftBoundary(element: Element)
  {
    element.box.x < StartX
  }

  predicate IsPastRightBoundary(element: Element)
  {
    element.box.x > EndX - element.box.w
  }

  /** With the fixed bounds: at the left boundary iff x is 0, past it iff x is
      negative; at the right boundary iff x is 9086 - w, past it iff x exceeds
      that; "at" and "past" exclude each other on each side. */
  lemma LevelBounds(element: Element)
    ensures IsAtLeftBoundary(element) <==> element.box.x == 0
    ensures IsPastLeftBoundary(element) <==> element.box.x < 0
    ensures IsAtRightBoundary(element) <==> element.box.x + element.box.w == 9086
    ensures IsPastRightBoundary(element) <==> element.box.x + element.box.w > 9086
    ensures !(IsAtLeftBoundary(element) && IsPastLeftBoundary(element))
    ensures !(IsAtRightBoundary(element) && IsPastRightBoundary(element))
  {
  }

  /** The level model answers as the base model does on a frame whose bounds
      are those of level 1. */
  lemma AgreesWithBase(element: Element, state: Game.BehaviorState)
    requires state.startX == StartX && state.endX == EndX
    ensures IsAtLeftBoundary(element) == Base.IsAtLeftBoundary(element, state)
    ensures IsAtRightBoundary(element) == Base.IsAtRightBoundary(element, state)
    ensures IsPastLeftBoundary(element) == Base.IsPastLeftBoundary(element, state)
    ensures IsPastRightBoundary(element) == Base.IsPastRightBoundary(element, state)
  {
  }
}
