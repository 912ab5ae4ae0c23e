/** Integer rectangle geometry of the element detector (actions/vision.py):
    pygame rectangles, detected elements, overlap and edge-contact tests, and
    the translation of a world box into viewport coordinates. */
module Vision {

  /** A pygame `Rect`: position and size; a negative size is kept as given. */
  datatype Rect = Rect(x: int, y: int, w: int, h: int)
  {
    function Left(): int { x }
    function Right(): int { x + w }
    function Top(): int { y }
    function Bottom(): int { y + h }
  }

  /** A detected element. It is a reference type because the oracle compares
      elements by identity (`box is element`), never by value. */
  class Element {
    const name: string
    const box: Rect
    const id: int

    constructor (name: string, box: Rect, id: int)
      ensures this.name == name && this.box == box && this.id == id
    {
      this.name := name;
      this.box := box;
      this.id := id;
    }
  }

  function Abs(n: int): (r: nat)
    ensures r == n || r == -n
  {
    if n < 0 then -n else n
  }

  function Min(a: int, b: int): (r: int)
    ensures r <= a && r <= b && (r == a || r == b)
  {
    if a <= b then a else b
  }

  function Max(a: int, b: int): (r: int)
    ensures r >= a && r >= b && (r == a || r == b)
  {
    if a >= b then a else b
  }

  /** Width of the horizontal overlap of two boxes (negative when apart). */
  function HorizontalOverlap(b1: Rect, b2: Rect): int
  {
    Min(b1.Right(), b2.Right()) - Max(b1.Left(), b2.Left())
  }

  /** Height of the vertical overlap of two boxes (negative when apart). */
  function VerticalOverlap(b1: Rect, b2: Rect): int
  {
    Min(b1.Bottom(), b2.Bottom()) - Max(b1.Top(), b2.Top())
  }

  /** The top edge of b1 lies within `tolerance` of the bottom edge of b2 and the
      boxes overlap horizontally. */
  predicate TopTouch(b1: Rect, b2: Rect, tolerance: int)
  {
    Abs(b1.Top() - b2.Bottom()) <= tolerance && HorizontalOverlap(b1, b2) > 0
  }

  /** The bottom edge of b1 lies within `tolerance` of the top edge of b2 and the
      boxes overlap horizontally. */
  predicate BottomTouch(b1: Rect, b2: Rect, tolerance: int)
  {
    Abs(b1.Bottom() - b2.Top()) <= tolerance && HorizontalOverlap(b1, b2) > 0
  }

  /** The right edge of b1 lies within `tolerance` of the left edge of b2 and the
      boxes overlap vertically. */
  predicate RightTouch(b1: Rect, b2: Rect, tolerance: int)
  {
    Abs(b1.Right() - b2.Left()) <= tolerance && VerticalOverlap(b1, b2) > 0
  }

  /** The left edge of b1 lies within `tolerance` of the right edge of b2 and the
      boxes overlap vertically. */
  predicate LeftTouch(b1: Rect, b2: Rect, tolerance: int)
  {
    Abs(b1.Left() - b2.Right()) <= tolerance && VerticalOverlap(b1, b2) > 0
  }

  /** `Vision.collides`: the open interiors of the two boxes, taken as
      given, intersect. */
  predicate Collides(b1: Rect, b2: Rect)
  {
    b1.Left() < b2.Right() && b1.Right() > b2.Left()
    && b1.Top() < b2.Bottom() && b1.Bottom() > b2.Top()
  }

  /** pygame's `Rect.colliderect`, which the oracle queries call: a rectangle
      of zero width or height collides with nothing; otherwise the rectangles,
      negative sizes normalised, have intersecting open interiors. */
  predicate ColliderRect(b1: Rect, b2: Rect)
  {
    && b1.w != 0 && b1.h != 0 && b2.w != 0 && b2.h != 0
    && Min(b1.x, b1.x + b1.w) < Max(b2.x, b2.x + b2.w)
    && Max(b1.x, b1.x + b1.w) > Min(b2.x, b2.x + b2.w)
    && Min(b1.y, b1.y + b1.h) < Max(b2.y, b2.y + b2.h)
    && Max(b1.y, b1.y + b1.h) > Min(b2.y, b2.y + b2.h)
  }

  /** `in_view`: the viewport's `colliderect` with the box. */
  predicate InView(box: Rect, viewport: Rect)
  {
    ColliderRect(viewport, box)
  }

  /** `colliderect` is symmetric, agrees with `collides` (as the latter's
      comment says) on boxes of positive size, and a box of zero width or
      height collides with nothing. */
  lemma ColliderRectAgreesWithCollides(b1: Rect, b2: Rect)
    ensures ColliderRect(b1, b2) <==> ColliderRect(b2, b1)
    ensures b1.w > 0 && b1.h > 0 && b2.w > 0 && b2.h > 0 ==> (ColliderRect(b1, b2) <==> Collides(b1, b2))
    ensures b1.w == 0 || b1.h == 0 ==> !ColliderRect(b1, b2) && !ColliderRect(b2, b1)
  {
  }

  /** The two differ on degenerate boxes: a box of width 0 inside another
      overlaps it for `collides`, but `colliderect` reports no collision. */
  lemma ZeroWidthCollidesOnlyForCollides()
    ensures Collides(Rect(0, 0, 0, 10), Rect(-5, 0, 10, 10))
    ensures !ColliderRect(Rect(0, 0, 0, 10), Rect(-5, 0, 10, 10))
  {
  }

  /** Overlap is a symmetric relation. */
  lemma CollidesSymmetric(b1: Rect, b2: Rect)
    ensures Collides(b1, b2) <==> Collides(b2, b1)
  {
  }

  /** A box overlaps itself exactly when it has positive width and height. */
  lemma CollidesWithItself(b: Rect)
    ensures Collides(b, b) <==> b.w > 0 && b.h > 0
  {
  }

  /** Two boxes of positive size collide exactly when they overlap by a
      positive amount along both axes. */
  lemma CollidesIffOverlaps(b1: Rect, b2: Rect)
    requires b1.w > 0 && b1.h > 0 && b2.w > 0 && b2.h > 0
    ensures Collides(b1, b2) <==> HorizontalOverlap(b1, b2) > 0 && VerticalOverlap(b1, b2) > 0
  {
  }

  /** Right contact of b1 against b2 is left contact of b2 against b1, and
      bottom contact of b1 is top contact of b2. */
  lemma TouchDuality(b1: Rect, b2: Rect, tolerance: int)
    ensures RightTouch(b1, b2, tolerance) <==> LeftTouch(b2, b1, tolerance)
    ensures BottomTouch(b1, b2, tolerance) <==> TopTouch(b2, b1, tolerance)
  {
  }

  /** Every contact test is monotone in its tolerance. */
  lemma TouchMonotone(b1: Rect, b2: Rect, t: int, t': int)
    requires t <= t'
    ensures TopTouch(b1, b2, t) ==> TopTouch(b1, b2, t')
    ensures BottomTouch(b1, b2, t) ==> BottomTouch(b1, b2, t')
    ensures RightTouch(b1, b2, t) ==> RightTouch(b1, b2, t')
    ensures LeftTouch(b1, b2, t) ==> LeftTouch(b1, b2, t')
  {
  }

  /** Boxes that meet only at a corner do not touch, whatever the tolerance:
      contact needs a strictly positive overlap along the other axis. */
  lemma CornerIsNoTouch(b1: Rect, b2: Rect, tolerance: int)
    requires b1.Right() == b2.Left() && b1.Bottom() == b2.Top()
    ensures !RightTouch(b1, b2, tolerance) && !LeftTouch(b2, b1, tolerance)
    ensures !BottomTouch(b1, b2, tolerance) && !TopTouch(b2, b1, tolerance)
  {
  }

  /** `adjust_box` as written: translate a world box into viewport coordinates.
      A box starting left of the viewport is cut at the viewport's left edge;
      otherwise its width is bounded by `viewport.x + viewport.w - x'`, where x'
      is the already translated x. */
  function AdjustBox(box: Rect, viewport: Rect): (r: Rect)
    ensures r.y == box.y && r.h == box.h
    ensures r.x >= 0
    ensures r.Right() <= box.Right() - viewport.x
    ensures box.x < viewport.x ==> r.x == 0 && r.Right() == box.Right() - viewport.x
    ensures box.x >= viewport.x ==> r.x == box.x - viewport.x && r.w <= box.w
    ensures box.x >= viewport.x ==> r.w == Min(box.w, viewport.x + viewport.w - (box.x - viewport.x))
  {
    if box.x < viewport.x then
      Rect(0, box.y, box.Right() - viewport.x, box.h)
    else
      var x := box.x - viewport.x;
      Rect(x, box.y, Min(box.w, viewport.x + viewport.w - x), box.h)
  }

  /** Witness of the discrepancy in `adjust_box`: with a viewport scrolled to
      x = 100 and 200 wide, a 100-wide box at world x = 250 (screen x = 150)
      keeps its whole width and ends at screen x = 250, past the viewport's
      right edge at 200. */
  lemma AdjustBoxOverrunsViewport()
    ensures AdjustBox(Rect(250, 0, 100, 10), Rect(100, 0, 200, 100)) == Rect(150, 0, 100, 10)
    ensures AdjustBox(Rect(250, 0, 100, 10), Rect(100, 0, 200, 100)).Right() > 200
  {
  }

  /** `adjust_box` with the visible width measured in viewport coordinates
      (`viewport.w - x'`), which is what "taking into account visible width"
      asks for: a box that starts inside the viewport never ends past it, and
      nothing changes while the viewport is not scrolled. */
  function AdjustBoxClipped(box: Rect, viewport: Rect): (r: Rect)
    ensures r.y == box.y && r.h == box.h
    ensures box.x >= viewport.x ==> r.x == box.x - viewport.x && r.Right() <= viewport.w
    ensures box.x >= viewport.x ==> r.w == Min(box.w, viewport.w - (box.x - viewport.x))
    ensures box.x < viewport.x ==> r == AdjustBox(box, viewport)
    ensures viewport.x == 0 ==> r == AdjustBox(box, viewport)
  {
    if box.x < viewport.x then
      Rect(0, box.y, box.Right() - viewport.x, box.h)
    else
      var x := box.x - viewport.x;
      Rect(x, box.y, Min(box.w, viewport.w - x), box.h)
  }
}
