/**
 * The level edits of mapEditor.py: the camera scroll, the cursor cell under
 * the mouse, placing a tile on the grid or off it, erasing under the cursor,
 * and cycling the selected asset group and variant. Windowing, drawing, the
 * event loop and saving are not modelled; the mouse position arrives already
 * divided by the render scale.
 */
module MapEditor {
  import opened Geometry
  import opened TileMap
  import opened Utils

  /** The asset groups the editor offers, in the order of its asset table. */
  const TileList: seq<string> := ["block", "decor", "items", "coin/collect"]

  /** Pixels the camera moves per frame while a direction key is held. */
  const ScrollSpeed: int := 10

  /** The scroll change along one axis: the speed times (forward key minus backward key). */
  function ScrollDelta(back: bool, forward: bool): (d: int)
    ensures d in {-ScrollSpeed, 0, ScrollSpeed}
    ensures d > 0 <==> forward && !back
    ensures d < 0 <==> back && !forward
  {
    ((if forward then 1 else 0) - (if back then 1 else 0)) * ScrollSpeed
  }

  /**
   * The cell under the mouse: the mouse position plus the scroll, floor-divided
   * by the tile size, so positions left of or above the origin fall in negative cells.
   */
  function CursorCell(mpos: Point, scroll: Cell, tilesize: int): (c: Cell)
    requires tilesize > 0
    ensures (c.0 * tilesize) as real <= mpos.0 + scroll.0 as real < ((c.0 + 1) * tilesize) as real
    ensures (c.1 * tilesize) as real <= mpos.1 + scroll.1 as real < ((c.1 + 1) * tilesize) as real
  {
    var c := (((mpos.0 + scroll.0 as real) / tilesize as real).Floor,
              ((mpos.1 + scroll.1 as real) / tilesize as real).Floor);
    FloorScaled(mpos.0 + scroll.0 as real, tilesize);
    FloorScaled(mpos.1 + scroll.1 as real, tilesize);
    c
  }

  /** Floor division by a positive tile size brackets the position between two multiples of it. */
  lemma FloorScaled(v: real, tilesize: int)
    requires tilesize > 0
    ensures var k := (v / tilesize as real).Floor;
      (k * tilesize) as real <= v < ((k + 1) * tilesize) as real
  {
    var t := tilesize as real;
    var k := (v / t).Floor;
    FloorBrackets(v / t);
    BelowQuotient(v, t, k as real);
    AboveQuotient(v, t, k as real + 1.0);
    IntScale(k, tilesize);
    IntScaleSucc(k, tilesize);
  }

  /** A number at most v / t, scaled by t, is at most v. */
  lemma BelowQuotient(v: real, t: real, a: real)
    requires t > 0.0 && a <= v / t
    ensures a * t <= v
  {
    QuotientTimes(v, t);
    ScaleLe(a, v / t, t);
  }

  /** A number above v / t, scaled by t, is above v. */
  lemma AboveQuotient(v: real, t: real, b: real)
    requires t > 0.0 && v / t < b
    ensures v < b * t
  {
    QuotientTimes(v, t);
    ScaleLt(v / t, b, t);
  }

  /** Scaling by a positive factor keeps a non-strict order. */
  lemma ScaleLe(a: real, b: real, t: real)
    requires a <= b && t > 0.0
    ensures a * t <= b * t
  {
    assert b * t - a * t == (b - a) * t;
  }

  /** Scaling by a positive factor keeps a strict order. */
  lemma ScaleLt(a: real, b: real, t: real)
    requires a < b && t > 0.0
    ensures a * t < b * t
  {
    assert b * t - a * t == (b - a) * t;
  }

  /** Dividing by a positive real and multiplying back gives the number again. */
  lemma QuotientTimes(v: real, t: real)
    requires t > 0.0
    ensures v / t * t == v
  {
  }

  /** A real lies between its floor and the next integer. */
  lemma FloorBrackets(q: real)
    ensures q.Floor as real <= q < q.Floor as real + 1.0
  {
  }

  /** Integer multiplication agrees with real multiplication. */
  lemma IntScale(k: int, n: int)
    ensures (k * n) as real == k as real * n as real
  {
  }

  /** The same, for the next multiple. */
  lemma IntScaleSucc(k: int, n: int)
    ensures ((k + 1) * n) as real == (k as real + 1.0) * n as real
  {
    IntScale(k + 1, n);
  }

  /**
   * The grid after a tile is stored at a cell: that cell now holds it, every
   * other cell is as before, and keys still match positions.
   */
  function Placed(m: map<Cell, GridTile>, cell: Cell, kind: string, variant: int): (r: map<Cell, GridTile>)
    ensures r.Keys == m.Keys + {cell}
    ensures r[cell] == Tile(kind, variant, cell)
    ensures forall c :: c in m && c != cell ==> r[c] == m[c]
    ensures KeysMatchPos(m) ==> KeysMatchPos(r)
  {
    m[cell := Tile(kind, variant, cell)]
  }

  /**
   * The right-click test for an off-grid tile: its image rectangle, placed at
   * its position minus the scroll, contains the mouse. pygame makes the
   * rectangle's corner and the mouse position integral (`toInt`); image sizes
   * come from the asset table (`imageSize`).
   */
  function HitBy(mpos: Point, scroll: Cell, toInt: real -> int, imageSize: (string, int) -> (int, int)): OffgridTile -> bool {
    (t: OffgridTile) =>
      var size := imageSize(t.kind, t.variant);
      ContainsPoint(Rect(toInt(t.pos.0 - scroll.0 as real), toInt(t.pos.1 - scroll.1 as real), size.0, size.1),
                    toInt(mpos.0), toInt(mpos.1))
  }

  /**
   * What a right click leaves of the off-grid tiles: none under the mouse,
   * and every other tile as often as before, in its relative order.
   */
  lemma EraseOffgrid(s: seq<OffgridTile>, hit: OffgridTile -> bool)
    ensures forall t :: t in Without(s, hit) ==> !hit(t)
    ensures forall t :: !hit(t) ==> multiset(Without(s, hit))[t] == multiset(s)[t]
  {
    WithoutDrops(s, hit);
    forall t | !hit(t) ensures multiset(Without(s, hit))[t] == multiset(s)[t] {
      WithoutKeeps(s, hit, t);
    }
  }

  /** A step of `step` through `count` choices, wrapping at both ends as Python's % does. */
  function Cycle(v: int, count: int, step: int): (r: int)
    requires count > 0
    ensures 0 <= r < count
  {
    (v + step) % count
  }

  /** Stepping forward then back, or back then forward, returns to the same choice. */
  lemma CycleRoundTrip(v: int, count: int)
    requires 0 <= v < count
    ensures Cycle(Cycle(v, count, 1), count, -1) == v
    ensures Cycle(Cycle(v, count, -1), count, 1) == v
  {
    if v + 1 < count {
      ModUnique(v + 1, count, 0, v + 1);
      ModUnique(v, count, 0, v);
    } else {
      ModUnique(v + 1, count, 1, 0);
      ModUnique(-1, count, -1, count - 1);
    }
    if v >= 1 {
      ModUnique(v - 1, count, 0, v - 1);
      ModUnique(v, count, 0, v);
    } else {
      ModUnique(-1, count, -1, count - 1);
      ModUnique(count, count, 1, 0);
    }
  }

  /** The editor's state: the level being edited, the camera, and the selected asset. */
  class Editor {
    const level: Tilemap
    /** The number of images in each asset group, in the order of TileList. */
    const variantCounts: seq<int>
    var scroll: Cell
    var tileGroup: int
    var tileVariant: int

    ghost predicate Valid()
      reads this, level
    {
      && level.Valid()
      && |variantCounts| == |TileList|
      && (forall g :: 0 <= g < |variantCounts| ==> variantCounts[g] > 0)
      && 0 <= tileGroup < |TileList|
      && 0 <= tileVariant < variantCounts[tileGroup]
    }

    /** A fresh editor over `level`: no scroll, the first variant of the first group selected. */
    constructor (level: Tilemap, variantCounts: seq<int>)
      requires level.Valid()
      requires |variantCounts| == |TileList| && forall g :: 0 <= g < |variantCounts| ==> variantCounts[g] > 0
      ensures Valid()
      ensures this.level == level && this.variantCounts == variantCounts
      ensures scroll == (0, 0) && tileGroup == 0 && tileVariant == 0
    {
      this.level := level;
      this.variantCounts := variantCounts;
      scroll := (0, 0);
      tileGroup := 0;
      tileVariant := 0;
    }

    /** The per-frame camera move from the held direction keys. */
    method ScrollStep(left: bool, right: bool, up: bool, down: bool)
      modifies this
      ensures scroll == (old(scroll.0) + ScrollDelta(left, right), old(scroll.1) + ScrollDelta(up, down))
      ensures tileGroup == old(tileGroup) && tileVariant == old(tileVariant)
    {
      scroll := (scroll.0 + ((if right then 1 else 0) - (if left then 1 else 0)) * ScrollSpeed,
                 scroll.1 + ((if down then 1 else 0) - (if up then 1 else 0)) * ScrollSpeed);
    }

    /** A left click on the grid: store the selected tile at the cursor cell, replacing what was there. */
    method PlaceOnGrid(mpos: Point)
      requires Valid()
      modifies level
      ensures Valid()
      ensures level.tilemap == Placed(old(level.tilemap), CursorCell(mpos, scroll, level.tilesize),
                                      TileList[tileGroup], tileVariant)
      ensures level.offgrid == old(level.offgrid) && level.tilesize == old(level.tilesize)
    {
      var cell := CursorCell(mpos, scroll, level.tilesize);
      level.tilemap := level.tilemap[cell := Tile(TileList[tileGroup], tileVariant, cell)];
    }

    /** A left click off the grid: append the selected tile at the mouse position in level pixels. */
    method PlaceOffgrid(mpos: Point)
      requires Valid()
      modifies level
      ensures Valid()
      ensures level.offgrid == old(level.offgrid) +
        [Tile(TileList[tileGroup], tileVariant, (mpos.0 + scroll.0 as real, mpos.1 + scroll.1 as real))]
      ensures level.tilemap == old(level.tilemap) && level.tilesize == old(level.tilesize)
    {
      level.offgrid := level.offgrid + [Tile(TileList[tileGroup], tileVariant, (mpos.0 + scroll.0 as real, mpos.1 + scroll.1 as real))];
    }

    /**
     * A right click: remove the grid tile at the cursor cell, if any, then
     * every off-grid tile under the mouse.
     */
    method Erase(mpos: Point, toInt: real -> int, imageSize: (string, int) -> (int, int))
      requires Valid()
      modifies level
      ensures Valid()
      ensures level.tilemap == old(level.tilemap) - {CursorCell(mpos, scroll, level.tilesize)}
      ensures level.offgrid == Without(old(level.offgrid), HitBy(mpos, scroll, toInt, imageSize))
      ensures level.tilesize == old(level.tilesize)
    {
      var cell := CursorCell(mpos, scroll, level.tilesize);
      if cell in level.tilemap {
        level.tilemap := level.tilemap - {cell};
      }
      RemoveOffgridWhere(level, HitBy(mpos, scroll, toInt, imageSize));
    }

    /** Shift and the wheel: the previous (wheel up) or next variant of the current group, wrapping. */
    method CycleVariant(wheelUp: bool)
      requires Valid()
      modifies this
      ensures Valid()
      ensures tileVariant == Cycle(old(tileVariant), variantCounts[tileGroup], if wheelUp then -1 else 1)
      ensures tileGroup == old(tileGroup) && scroll == old(scroll)
    {
      if wheelUp {
        tileVariant := (tileVariant - 1) % variantCounts[tileGroup];
      } else {
        tileVariant := (tileVariant + 1) % variantCounts[tileGroup];
      }
    }

    /** The wheel alone: the previous (wheel up) or next group, wrapping, from its first variant. */
    method CycleGroup(wheelUp: bool)
      requires Valid()
      modifies this
      ensures Valid()
      ensures tileGroup == Cycle(old(tileGroup), |TileList|, if wheelUp then -1 else 1)
      ensures tileVariant == 0 && scroll == old(scroll)
    {
      if wheelUp {
        tileGroup := (tileGroup - 1) % |TileList|;
      } else {
        tileGroup := (tileGroup + 1) % |TileList|;
      }
      tileVariant := 0;
    }
  }
}
