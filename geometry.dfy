/**
 * Integer rectangles standing in for pygame.Rect, with the strict-overlap
 * collision test the simulation relies on, plus the small numeric helpers
 * (Python's min and max) and the optional value shared by the other modules.
 */
module Geometry {

  /** A value or nothing, for lookups and operations that can fail. */
  datatype Option<T> = None | Some(value: T)

  function MinInt(a: int, b: int): int { if a <= b then a else b }
  function MinReal(a: real, b: real): real { if a <= b then a else b }
  function MaxReal(a: real, b: real): real { if a >= b then a else b }

  /** An axis-aligned rectangle: top-left corner, width and height, in pixels. */
  datatype Rect = Rect(x: int, y: int, w: int, h: int) {
    function Right(): int { x + w }
    function Bottom(): int { y + h }
    /** pygame's Rect.center: the half extents are rounded down. */
    function Center(): (int, int) { (x + w / 2, y + h / 2) }
  }

  /**
   * Rect.colliderect: the interiors intersect (touching edges do not collide),
   * and a rectangle of zero width or height collides with nothing.
   */
  predicate Overlaps(a: Rect, b: Rect) {
    && a.w != 0 && a.h != 0 && b.w != 0 && b.h != 0
    && a.x < b.Right() && b.x < a.Right() && a.y < b.Bottom() && b.y < a.Bottom()
  }

  /** Rect.collidepoint: the right and bottom edges are outside. */
  predicate ContainsPoint(r: Rect, px: int, py: int) {
    r.x <= px < r.Right() && r.y <= py < r.Bottom()
  }

  /** The two axes along which the collision resolver works separately. */
  datatype Axis = Horizontal | Vertical

  function Start(r: Rect, axis: Axis): int { if axis == Horizontal then r.x else r.y }
  function Extent(r: Rect, axis: Axis): int { if axis == Horizontal then r.w else r.h }
  function End(r: Rect, axis: Axis): int { Start(r, axis) + Extent(r, axis) }

  /** The rectangle moved along `axis` so that it starts at `v`; the other axis is kept. */
  function MovedTo(r: Rect, axis: Axis, v: int): (m: Rect)
    ensures Start(m, axis) == v && Extent(m, axis) == Extent(r, axis)
    ensures m.w == r.w && m.h == r.h
    ensures axis == Horizontal ==> m.y == r.y
    ensures axis == Vertical ==> m.x == r.x
  {
    if axis == Horizontal then r.(x := v) else r.(y := v)
  }
}
