/**
 * The sparse tile grid of scripts/tilemap.py: grid tiles keyed by their cell,
 * off-grid tiles in an ordered list, the 24-cell neighbourhood probe used by
 * the collision resolver, the collidable-rectangle filter, and the cell window
 * the renderer visits.
 */
module TileMap {
  import opened Geometry

  /** A grid cell (column, row); the level file spells its key "x;y". */
  type Cell = (int, int)
  /** A free pixel position, used by off-grid tiles. */
  type Point = (real, real)

  /** A placed tile: asset group name, variant index and position. */
  datatype Tile<P> = Tile(kind: string, variant: int, pos: P)
  type GridTile = Tile<Cell>
  type OffgridTile = Tile<Point>

  /** The probe order of the neighbourhood query: all cells up to two away, except the centre. */
  const NeighborOffsets: seq<Cell> :=
    [(0, -1), (-1, -1), (-1, 0), (-1, 1), (0, 1), (1, 1), (1, 0), (1, -1),
     (0, -2), (-1, -2), (-2, -2), (-2, -1), (-2, 0), (-2, 1), (-2, 2), (-1, 2),
     (0, 2), (1, 2), (2, 2), (2, 1), (2, 0), (2, -1), (2, -2), (1, -2)]

  /** Asset groups whose every variant is solid. */
  const PhysicsTiles: set<string> := {"block"}
  /** Asset groups where only some variants are solid (the keys of the variant table). */
  const VariantPhysicsTiles: set<string> := {"decor"}

  /**
   * What the collision filter needs from the asset table: which decor
   * variants are solid (the pipes) and the pixel width of each decor image.
   */
  datatype PhysicsAssets = PhysicsAssets(decorCollidable: set<int>, decorWidth: int -> int)

  /** The level invariant: a grid tile's position is the cell of its own key. */
  ghost predicate KeysMatchPos(m: map<Cell, GridTile>) {
    forall c :: c in m ==> m[c].pos == c
  }

  /** A neighbour offset: at most two cells away on each axis, and not the centre itself. */
  predicate InRing(o: Cell) {
    -2 <= o.0 <= 2 && -2 <= o.1 <= 2 && o != (0, 0)
  }

  predicate Distinct<T(==)>(s: seq<T>) {
    forall i, j :: 0 <= i < j < |s| ==> s[i] != s[j]
  }

  /** The offset table has 24 distinct entries, all in the ring. */
  lemma NeighborOffsetsShape()
    ensures |NeighborOffsets| == 24
    ensures forall i :: 0 <= i < |NeighborOffsets| ==> InRing(NeighborOffsets[i])
    ensures Distinct(NeighborOffsets)
  {
  }

  /** Every cell of the ring is in the offset table: the full 5x5 block minus its centre. */
  lemma RingCovered()
    ensures forall o :: InRing(o) ==> o in NeighborOffsets
  {
    forall o | InRing(o) ensures o in NeighborOffsets {
      if o.0 == -2 {
        if o.1 == -2 { assert NeighborOffsets[10] == o; }
        if o.1 == -1 { assert NeighborOffsets[11] == o; }
        if o.1 == 0 { assert NeighborOffsets[12] == o; }
        if o.1 == 1 { assert NeighborOffsets[13] == o; }
        if o.1 == 2 { assert NeighborOffsets[14] == o; }
      } else if o.0 == -1 {
        if o.1 == -2 { assert NeighborOffsets[9] == o; }
        if o.1 == -1 { assert NeighborOffsets[1] == o; }
        if o.1 == 0 { assert NeighborOffsets[2] == o; }
        if o.1 == 1 { assert NeighborOffsets[3] == o; }
        if o.1 == 2 { assert NeighborOffsets[15] == o; }
      } else if o.0 == 0 {
        if o.1 == -2 { assert NeighborOffsets[8] == o; }
        if o.1 == -1 { assert NeighborOffsets[0] == o; }
        if o.1 == 1 { assert NeighborOffsets[4] == o; }
        if o.1 == 2 { assert NeighborOffsets[16] == o; }
      } else if o.0 == 1 {
        if o.1 == -2 { assert NeighborOffsets[23] == o; }
        if o.1 == -1 { assert NeighborOffsets[7] == o; }
        if o.1 == 0 { assert NeighborOffsets[6] == o; }
        if o.1 == 1 { assert NeighborOffsets[5] == o; }
        if o.1 == 2 { assert NeighborOffsets[17] == o; }
      } else if o.0 == 2 {
        if o.1 == -2 { assert NeighborOffsets[22] == o; }
        if o.1 == -1 { assert NeighborOffsets[21] == o; }
        if o.1 == 0 { assert NeighborOffsets[20] == o; }
        if o.1 == 1 { assert NeighborOffsets[19] == o; }
        if o.1 == 2 { assert NeighborOffsets[18] == o; }
      }
    }
  }

  /**
   * The cell containing a pixel position: Python's floor division, which for a
   * positive tile size is Dafny's division, so negative coordinates round down.
   */
  function CellOf(p: Cell, tilesize: int): (c: Cell)
    requires tilesize > 0
    ensures c.0 * tilesize <= p.0 < (c.0 + 1) * tilesize
    ensures c.1 * tilesize <= p.1 < (c.1 + 1) * tilesize
  {
    (p.0 / tilesize, p.1 / tilesize)
  }

  /** The cells at `offsets` from `center`, in offset order. */
  function Shifted(offsets: seq<Cell>, center: Cell): (cells: seq<Cell>)
    ensures |cells| == |offsets|
    ensures forall i :: 0 <= i < |offsets| ==> cells[i] == (center.0 + offsets[i].0, center.1 + offsets[i].1)
  {
    seq(|offsets|, i requires 0 <= i < |offsets| => (center.0 + offsets[i].0, center.1 + offsets[i].1))
  }

  /** The cells probed around `center`, in offset order. */
  function ProbedCells(center: Cell): seq<Cell>
  {
    Shifted(NeighborOffsets, center)
  }

  /** The tiles stored at `cells`, in the order of `cells`, skipping empty cells. */
  function Present(m: map<Cell, GridTile>, cells: seq<Cell>): seq<GridTile>
  {
    if cells == [] then []
    else
      var c := cells[|cells| - 1];
      Present(m, cells[..|cells| - 1]) + (if c in m then [m[c]] else [])
  }

  /** No tile of `tiles` sits at `cell`. */
  predicate NoneAt(tiles: seq<GridTile>, cell: Cell) {
    forall t :: t in tiles ==> t.pos != cell
  }

  /** Probing one more offset around `center` appends the tile at that cell, if any. */
  lemma ProbeStep(m: map<Cell, GridTile>, offsets: seq<Cell>, center: Cell, i: int)
    requires 0 <= i < |offsets|
    ensures var key := (center.0 + offsets[i].0, center.1 + offsets[i].1);
      Present(m, Shifted(offsets, center)[..i + 1]) == Present(m, Shifted(offsets, center)[..i]) + (if key in m then [m[key]] else [])
  {
    var cells := Shifted(offsets, center);
    assert cells[..i + 1][..i] == cells[..i];
  }

  /** The cells of `cells` that hold a tile, in order. */
  function Stored(m: map<Cell, GridTile>, cells: seq<Cell>): seq<Cell>
  {
    if cells == [] then []
    else
      var c := cells[|cells| - 1];
      Stored(m, cells[..|cells| - 1]) + (if c in m then [c] else [])
  }

  lemma {:induction false} PresentAppend(m: map<Cell, GridTile>, a: seq<Cell>, b: seq<Cell>)
    ensures Present(m, a + b) == Present(m, a) + Present(m, b)
    decreases |b|
  {
    if b != [] {
      var b' := b[..|b| - 1];
      assert (a + b)[..|a + b| - 1] == a + b';
      PresentAppend(m, a, b');
    } else {
      assert a + b == a;
    }
  }

  /**
   * Under the level invariant, the probe returns exactly one tile per stored
   * probed cell, in probe order, and each returned tile sits at its cell.
   */
  lemma {:induction false} PresentIsStored(m: map<Cell, GridTile>, cells: seq<Cell>)
    requires KeysMatchPos(m)
    ensures |Present(m, cells)| == |Stored(m, cells)| <= |cells|
    ensures forall j :: 0 <= j < |Stored(m, cells)| ==>
              Stored(m, cells)[j] in m && Present(m, cells)[j] == m[Stored(m, cells)[j]] &&
              Present(m, cells)[j].pos == Stored(m, cells)[j]
  {
    if cells != [] {
      PresentIsStored(m, cells[..|cells| - 1]);
    }
  }

  /** A cell is kept by Stored exactly when it is probed and holds a tile. */
  lemma {:induction false} StoredMembers(m: map<Cell, GridTile>, cells: seq<Cell>)
    ensures forall c :: c in Stored(m, cells) <==> c in cells && c in m
  {
    if cells != [] {
      var init := cells[..|cells| - 1];
      StoredMembers(m, init);
      assert cells == init + [cells[|cells| - 1]];
    }
  }

  /** Stored keeps the order of `cells`, so distinct probes give distinct results. */
  lemma {:induction false} StoredDistinct(m: map<Cell, GridTile>, cells: seq<Cell>)
    requires Distinct(cells)
    ensures Distinct(Stored(m, cells))
  {
    if cells != [] {
      var init := cells[..|cells| - 1];
      var c := cells[|cells| - 1];
      StoredDistinct(m, init);
      StoredMembers(m, init);
      assert c !in init;
    }
  }

  /** Shifting a table of distinct offsets gives distinct cells. */
  lemma ShiftedDistinct(offsets: seq<Cell>, center: Cell)
    requires Distinct(offsets)
    ensures Distinct(Shifted(offsets, center))
  {
    var cells := Shifted(offsets, center);
    forall i, j | 0 <= i < j < |cells| ensures cells[i] != cells[j] {
      assert offsets[i] != offsets[j];
    }
  }

  /** The cells at ring offsets are ring cells around the centre, and each ring offset in the table gives its cell. */
  lemma ShiftedMembers(offsets: seq<Cell>, center: Cell, c: Cell)
    requires forall i :: 0 <= i < |offsets| ==> InRing(offsets[i])
    requires forall o :: InRing(o) ==> o in offsets
    ensures c in Shifted(offsets, center) <==> InRing((c.0 - center.0, c.1 - center.1))
  {
    var cells := Shifted(offsets, center);
    var o := (c.0 - center.0, c.1 - center.1);
    if InRing(o) {
      assert o in offsets;
      var i :| 0 <= i < |offsets| && offsets[i] == o;
      assert cells[i] == c;
    }
    if c in cells {
      var i :| 0 <= i < |cells| && cells[i] == c;
      assert o == offsets[i];
    }
  }

  /** The probed cells are distinct. */
  lemma ProbedCellsDistinct(center: Cell)
    ensures Distinct(ProbedCells(center))
  {
    NeighborOffsetsShape();
    ShiftedDistinct(NeighborOffsets, center);
  }

  /** A cell is probed exactly when it is near the centre cell. */
  lemma ProbedCellMembers(center: Cell, c: Cell)
    ensures c in ProbedCells(center) <==> Near(c, center)
  {
    NeighborOffsetsShape();
    RingCovered();
    ShiftedMembers(NeighborOffsets, center, c);
  }

  /** A cell at most two away on each axis from `center`, and not `center` itself. */
  predicate Near(c: Cell, center: Cell) {
    InRing((c.0 - center.0, c.1 - center.1))
  }

  /** Probing distinct cells returns tiles at distinct cells, one per stored probed cell. */
  lemma ProbeDistinct(m: map<Cell, GridTile>, cells: seq<Cell>)
    requires KeysMatchPos(m) && Distinct(cells)
    ensures |Present(m, cells)| <= |cells|
    ensures forall i, j :: 0 <= i < j < |Present(m, cells)| ==> Present(m, cells)[i].pos != Present(m, cells)[j].pos
  {
    PresentIsStored(m, cells);
    StoredDistinct(m, cells);
    var r, s := Present(m, cells), Stored(m, cells);
    forall i, j | 0 <= i < j < |r| ensures r[i].pos != r[j].pos {
      assert r[i].pos == s[i] && r[j].pos == s[j];
    }
  }

  /** A tile is returned by a probe exactly when it is stored at one of the probed cells. */
  lemma ProbeMembers(m: map<Cell, GridTile>, cells: seq<Cell>, t: GridTile)
    requires KeysMatchPos(m)
    ensures t in Present(m, cells) <==> t.pos in cells && t.pos in m && m[t.pos] == t
  {
    var r, s := Present(m, cells), Stored(m, cells);
    PresentIsStored(m, cells);
    StoredMembers(m, cells);
    if t in r {
      var j :| 0 <= j < |r| && r[j] == t;
      assert s[j] in s;
    }
    if t.pos in cells && t.pos in m && m[t.pos] == t {
      assert t.pos in s;
      var j :| 0 <= j < |s| && s[j] == t.pos;
      assert r[j] == t;
    }
  }

  /** The neighbourhood query returns at most 24 tiles, at pairwise distinct cells. */
  lemma NeighborhoodDistinct(m: map<Cell, GridTile>, center: Cell)
    requires KeysMatchPos(m)
    ensures |Present(m, ProbedCells(center))| <= 24
    ensures var r := Present(m, ProbedCells(center));
      forall i, j :: 0 <= i < j < |r| ==> r[i].pos != r[j].pos
  {
    var cells := ProbedCells(center);
    assert |cells| == 24;
    ProbedCellsDistinct(center);
    ProbeDistinct(m, cells);
  }

  /**
   * The neighbourhood query, stated over the grid: under the level invariant
   * it returns exactly the stored tiles at most two cells away from the centre
   * cell on each axis, other than the centre cell itself.
   */
  lemma NeighborhoodMembers(m: map<Cell, GridTile>, center: Cell, t: GridTile)
    requires KeysMatchPos(m)
    ensures t in Present(m, ProbedCells(center)) <==> t.pos in m && m[t.pos] == t && Near(t.pos, center)
  {
    ProbeMembers(m, ProbedCells(center), t);
    ProbedCellMembers(center, t.pos);
  }

  /** A tile in the centre cell itself is never among the neighbours. */
  lemma NeighborhoodSkipsCenter(m: map<Cell, GridTile>, center: Cell)
    requires KeysMatchPos(m)
    ensures forall t :: t in Present(m, ProbedCells(center)) ==> t.pos != center
  {
    forall t | t in Present(m, ProbedCells(center)) ensures t.pos != center {
      NeighborhoodMembers(m, center, t);
    }
  }

  /**
   * The collision rectangles one tile yields: a solid-group tile gives a
   * tile-sized square at its pixel position; a decor tile whose variant is
   * collidable gives a square as wide as its image; any other tile gives none.
   */
  function TileRects(t: GridTile, tilesize: int, assets: PhysicsAssets): (r: seq<Rect>)
    ensures |r| <= 1
    ensures |r| == 1 <==>
      t.kind in PhysicsTiles || (t.kind in VariantPhysicsTiles && t.variant in assets.decorCollidable)
    ensures |r| == 1 ==> r[0].x == t.pos.0 * tilesize && r[0].y == t.pos.1 * tilesize && r[0].w == r[0].h
    ensures t.kind == "block" ==> r == [Rect(t.pos.0 * tilesize, t.pos.1 * tilesize, tilesize, tilesize)]
    ensures t.kind == "decor" && |r| == 1 ==> r[0].w == assets.decorWidth(t.variant)
  {
    var px, py := t.pos.0 * tilesize, t.pos.1 * tilesize;
    (if t.kind in PhysicsTiles then [Rect(px, py, tilesize, tilesize)] else [])
    + (if t.kind in VariantPhysicsTiles && t.variant in assets.decorCollidable
       then [Rect(px, py, assets.decorWidth(t.variant), assets.decorWidth(t.variant))] else [])
  }

  /** The rectangles of a tile sequence, concatenated in tile order. */
  function RectsOf(tiles: seq<GridTile>, tilesize: int, assets: PhysicsAssets): (r: seq<Rect>)
    ensures |r| <= |tiles|
  {
    if tiles == [] then []
    else RectsOf(tiles[..|tiles| - 1], tilesize, assets) + TileRects(tiles[|tiles| - 1], tilesize, assets)
  }

  /** Every collision rectangle comes from one of the tiles it was derived from. */
  lemma {:induction false} RectsOfOrigin(tiles: seq<GridTile>, tilesize: int, assets: PhysicsAssets)
    ensures forall r :: r in RectsOf(tiles, tilesize, assets) ==>
      exists i :: 0 <= i < |tiles| && TileRects(tiles[i], tilesize, assets) == [r]
  {
    if tiles != [] {
      var init := tiles[..|tiles| - 1];
      RectsOfOrigin(init, tilesize, assets);
      var last := TileRects(tiles[|tiles| - 1], tilesize, assets);
      forall r | r in RectsOf(tiles, tilesize, assets)
        ensures exists i :: 0 <= i < |tiles| && TileRects(tiles[i], tilesize, assets) == [r]
      {
        if r in RectsOf(init, tilesize, assets) {
          var i :| 0 <= i < |init| && TileRects(init[i], tilesize, assets) == [r];
          assert tiles[i] == init[i];
        } else {
          assert r in last && |last| == 1;
          assert TileRects(tiles[|tiles| - 1], tilesize, assets) == [r];
        }
      }
    }
  }

  /** The grid cells the renderer visits: columns x0..x1-1 ascending, each column's rows y0..y1-1 ascending. */
  function Window(x0: int, x1: int, y0: int, y1: int): seq<Cell>
    decreases x1 - x0
  {
    if x1 <= x0 then [] else Window(x0, x1 - 1, y0, y1) + Column(x1 - 1, y0, y1)
  }

  function Column(x: int, y0: int, y1: int): seq<Cell>
    decreases y1 - y0
  {
    if y1 <= y0 then [] else Column(x, y0, y1 - 1) + [(x, y1 - 1)]
  }

  /** Lexicographic order on cells: by column, then by row. */
  predicate Before(a: Cell, b: Cell) {
    a.0 < b.0 || (a.0 == b.0 && a.1 < b.1)
  }

  lemma {:induction false} ColumnShape(x: int, y0: int, y1: int)
    ensures forall c :: c in Column(x, y0, y1) <==> c.0 == x && y0 <= c.1 < y1
    ensures forall i, j :: 0 <= i < j < |Column(x, y0, y1)| ==> Before(Column(x, y0, y1)[i], Column(x, y0, y1)[j])
    decreases y1 - y0
  {
    if y1 > y0 {
      ColumnShape(x, y0, y1 - 1);
    }
  }

  /** The window holds each cell of the rectangle [x0,x1) x [y0,y1) once, in column-major ascending order. */
  lemma {:induction false} WindowShape(x0: int, x1: int, y0: int, y1: int)
    ensures forall c :: c in Window(x0, x1, y0, y1) <==> x0 <= c.0 < x1 && y0 <= c.1 < y1
    ensures forall i, j :: 0 <= i < j < |Window(x0, x1, y0, y1)| ==>
      Before(Window(x0, x1, y0, y1)[i], Window(x0, x1, y0, y1)[j])
    decreases x1 - x0
  {
    if x1 > x0 {
      var a, b := Window(x0, x1 - 1, y0, y1), Column(x1 - 1, y0, y1);
      WindowShape(x0, x1 - 1, y0, y1);
      ColumnShape(x1 - 1, y0, y1);
      var w := a + b;
      forall i, j | 0 <= i < j < |w| ensures Before(w[i], w[j]) {
        if j >= |a| && i < |a| {
          assert w[i] in a && w[j] in b;
        }
      }
    }
  }

  /** The cells window of one frame: from five columns left of the view to the column under its right edge. */
  function ViewWindow(offset: Cell, width: int, height: int, tilesize: int): seq<Cell>
    requires tilesize > 0
  {
    Window(offset.0 / tilesize - 5, (offset.0 + width) / tilesize + 1,
           offset.1 / tilesize, (offset.1 + height) / tilesize + 1)
  }

  /** The level held in memory: tile size, grid tiles and off-grid tiles. */
  class Tilemap {
    var tilesize: int
    var tilemap: map<Cell, GridTile>
    var offgrid: seq<OffgridTile>

    ghost predicate Valid()
      reads this
    {
      tilesize > 0 && KeysMatchPos(tilemap)
    }

    constructor (tilesize: int := 16)
      requires tilesize > 0
      ensures Valid()
      ensures this.tilesize == tilesize && tilemap == map[] && offgrid == []
    {
      this.tilesize := tilesize;
      tilemap := map[];
      offgrid := [];
    }

    /** The specification of tiles_around. */
    function Around(pos: Cell): seq<GridTile>
      reads this
      requires tilesize > 0
    {
      Present(tilemap, ProbedCells(CellOf(pos, tilesize)))
    }

    /** The specification of tile_rects_around. */
    function RectsAround(pos: Cell, assets: PhysicsAssets): seq<Rect>
      reads this
      requires tilesize > 0
    {
      RectsOf(Around(pos), tilesize, assets)
    }

    /** tiles_around: probe the 24 neighbour cells of the cell containing `pos`. */
    method TilesAround(pos: Cell) returns (tiles: seq<GridTile>)
      requires tilesize > 0
      ensures tiles == Around(pos)
      ensures Valid() ==> NoneAt(tiles, CellOf(pos, tilesize))
    {
      tiles := Probe(NeighborOffsets, CellOf(pos, tilesize));
      if Valid() {
        AroundSkipsCenter(pos);
      }
    }

    /**
     * The loop of tiles_around: for each offset in order, the tile stored at
     * the centre cell plus that offset, if there is one.
     */
    method Probe(offsets: seq<Cell>, loc: Cell) returns (tiles: seq<GridTile>)
      ensures tiles == Present(tilemap, Shifted(offsets, loc))
    {
      tiles := [];
      for i := 0 to |offsets|
        invariant tiles == Present(tilemap, Shifted(offsets, loc)[..i])
      {
        var offset := offsets[i];
        var key := (loc.0 + offset.0, loc.1 + offset.1);
        ProbeStep(tilemap, offsets, loc, i);
        if key in tilemap {
          tiles := tiles + [tilemap[key]];
        }
      }
      assert Shifted(offsets, loc)[..|offsets|] == Shifted(offsets, loc);
    }

    /** A valid level never reports the tile of the position's own cell. */
    lemma AroundSkipsCenter(pos: Cell)
      requires Valid()
      ensures NoneAt(Around(pos), CellOf(pos, tilesize))
    {
      NeighborhoodSkipsCenter(tilemap, CellOf(pos, tilesize));
    }

    /** tile_rects_around: the collision rectangles of the neighbouring tiles, in probe order. */
    method TileRectsAround(pos: Cell, assets: PhysicsAssets) returns (rects: seq<Rect>)
      requires tilesize > 0
      ensures rects == RectsAround(pos, assets)
      ensures |rects| <= 24
    {
      var tiles := TilesAround(pos);
      rects := [];
      for i := 0 to |tiles|
        invariant rects == RectsOf(tiles[..i], tilesize, assets)
      {
        assert tiles[..i + 1][..i] == tiles[..i];
        rects := rects + TileRects(tiles[i], tilesize, assets);
      }
      assert tiles[..|tiles|] == tiles;
      assert |Present(tilemap, ProbedCells(CellOf(pos, tilesize)))| <= 24 by {
        PresentLength(tilemap, ProbedCells(CellOf(pos, tilesize)));
      }
    }

    /** The inner loop of render: the tiles of column `x`, rows y0 to y1 - 1 ascending. */
    method RenderColumn(x: int, y0: int, y1: int) returns (drawn: seq<GridTile>)
      ensures drawn == Present(tilemap, Column(x, y0, y1))
    {
      drawn := [];
      var y := y0;
      while y < y1
        invariant y0 <= y && (y <= y1 || y == y0)
        invariant drawn == Present(tilemap, Column(x, y0, y))
        decreases y1 - y
      {
        if (x, y) in tilemap {
          drawn := drawn + [tilemap[(x, y)]];
        }
        y := y + 1;
      }
    }

    /**
     * The part of render that decides what is drawn: every off-grid tile in
     * list order, then the grid tiles of the view window in column-major order.
     * The pixels themselves are not modelled.
     */
    method Render(offset: Cell, width: int, height: int)
      returns (offgridDrawn: seq<OffgridTile>, gridDrawn: seq<GridTile>)
      requires tilesize > 0
      ensures offgridDrawn == offgrid
      ensures gridDrawn == Present(tilemap, ViewWindow(offset, width, height, tilesize))
    {
      offgridDrawn := [];
      for i := 0 to |offgrid|
        invariant offgridDrawn == offgrid[..i]
      {
        offgridDrawn := offgridDrawn + [offgrid[i]];
      }
      assert offgrid[..|offgrid|] == offgrid;

      gridDrawn := RenderGrid(offset.0 / tilesize - 5, (offset.0 + width) / tilesize + 1,
                              offset.1 / tilesize, (offset.1 + height) / tilesize + 1);
    }

    /** The grid part of render: columns x0 to x1 - 1, each from row y0 to y1 - 1. */
    method RenderGrid(x0: int, x1: int, y0: int, y1: int) returns (gridDrawn: seq<GridTile>)
      ensures gridDrawn == Present(tilemap, Window(x0, x1, y0, y1))
    {
      gridDrawn := [];
      var x := x0;
      while x < x1
        invariant x0 <= x && (x <= x1 || x == x0)
        invariant gridDrawn == Present(tilemap, Window(x0, x, y0, y1))
        decreases x1 - x
      {
        var column := RenderColumn(x, y0, y1);
        gridDrawn := gridDrawn + column;
        PresentAppend(tilemap, Window(x0, x, y0, y1), Column(x, y0, y1));
        x := x + 1;
      }
    }
  }

  lemma {:induction false} PresentLength(m: map<Cell, GridTile>, cells: seq<Cell>)
    ensures |Present(m, cells)| <= |cells|
  {
    if cells != [] {
      PresentLength(m, cells[..|cells| - 1]);
    }
  }

  /** The tiles that survive a removal pass, in their original order. */
  function Without(s: seq<OffgridTile>, drop: OffgridTile -> bool): (r: seq<OffgridTile>)
  {
    if s == [] then []
    else Without(s[..|s| - 1], drop) + (if drop(s[|s| - 1]) then [] else [s[|s| - 1]])
  }

  /** No dropped tile survives the removal pass. */
  lemma {:induction false} WithoutDrops(s: seq<OffgridTile>, drop: OffgridTile -> bool)
    ensures forall t :: t in Without(s, drop) ==> !drop(t)
  {
    if s != [] {
      WithoutDrops(s[..|s| - 1], drop);
    }
  }

  /** Every tile the pass does not drop survives it, as often as it occurred. */
  lemma {:induction false} WithoutKeeps(s: seq<OffgridTile>, drop: OffgridTile -> bool, t: OffgridTile)
    requires !drop(t)
    ensures multiset(Without(s, drop))[t] == multiset(s)[t]
  {
    if s != [] {
      var init, last := s[..|s| - 1], s[|s| - 1];
      WithoutKeeps(init, drop, t);
      assert s == init + [last];
    }
  }

  /** A second removal pass with the same test changes nothing. */
  lemma {:induction false} WithoutIdempotent(s: seq<OffgridTile>, drop: OffgridTile -> bool)
    ensures Without(Without(s, drop), drop) == Without(s, drop)
  {
    if s != [] {
      var init, last := s[..|s| - 1], s[|s| - 1];
      WithoutIdempotent(init, drop);
      var w := Without(init, drop);
      if !drop(last) {
        assert (w + [last])[..|w + [last]| - 1] == w;
        calc {
          Without(Without(s, drop), drop);
          Without(w + [last], drop);
          Without(w, drop) + [last];
          w + [last];
        }
      } else {
        assert Without(s, drop) == w;
      }
    }
  }

  /** Python's list.remove: drop the first element equal to `x`. */
  function RemoveFirst(s: seq<OffgridTile>, x: OffgridTile): seq<OffgridTile>
  {
    if s == [] then []
    else if s[0] == x then s[1..]
    else [s[0]] + RemoveFirst(s[1..], x)
  }

  /** list.remove shortens the list by one when `x` occurs, and leaves it as it was otherwise. */
  lemma {:induction false} RemoveFirstShape(s: seq<OffgridTile>, x: OffgridTile)
    ensures x in s ==> |RemoveFirst(s, x)| == |s| - 1
    ensures x !in s ==> RemoveFirst(s, x) == s
  {
    if s != [] && s[0] != x {
      RemoveFirstShape(s[1..], x);
      assert x in s <==> x in s[1..];
    }
  }

  lemma {:induction false} RemoveFirstAfter(a: seq<OffgridTile>, x: OffgridTile, b: seq<OffgridTile>)
    requires x !in a
    ensures RemoveFirst(a + [x] + b, x) == a + b
  {
    if a == [] {
      assert a + [x] + b == [x] + b;
    } else {
      assert (a + [x] + b)[1..] == a[1..] + [x] + b;
      RemoveFirstAfter(a[1..], x, b);
    }
  }

  /**
   * One iteration of the removal loop over a snapshot of the list: the list
   * holds the survivors of the first i tiles followed by the rest, so the i-th
   * tile, when dropped, is its own first occurrence (no earlier survivor is
   * dropped), and removing it extends that shape to i + 1 tiles.
   */
  lemma RemoveStep(snapshot: seq<OffgridTile>, i: int, drop: OffgridTile -> bool)
    requires 0 <= i < |snapshot|
    ensures var kept, t := Without(snapshot[..i], drop), snapshot[i];
      (if drop(t) then RemoveFirst(kept + snapshot[i..], t) else kept + snapshot[i..])
        == Without(snapshot[..i + 1], drop) + snapshot[i + 1..]
  {
    var tile := snapshot[i];
    var kept := Without(snapshot[..i], drop);
    assert snapshot[..i + 1] == snapshot[..i] + [tile];
    assert snapshot[..i + 1][..i] == snapshot[..i];
    assert snapshot[i..] == [tile] + snapshot[i + 1..];
    if drop(tile) {
      WithoutDrops(snapshot[..i], drop);
      assert kept + snapshot[i..] == kept + [tile] + snapshot[i + 1..];
      RemoveFirstAfter(kept, tile, snapshot[i + 1..]);
    } else {
      assert kept + snapshot[i..] == (kept + [tile]) + snapshot[i + 1..];
    }
  }

  /**
   * The loop `for t in list.copy(): if drop(t): list.remove(t)` that both the
   * tile-deletion script and the editor's right click run over the off-grid tiles.
   */
  method RemoveOffgridWhere(level: Tilemap, drop: OffgridTile -> bool)
    modifies level
    ensures level.offgrid == Without(old(level.offgrid), drop)
    ensures level.tilemap == old(level.tilemap) && level.tilesize == old(level.tilesize)
  {
    var snapshot := level.offgrid;
    for i := 0 to |snapshot|
      invariant level.offgrid == Without(snapshot[..i], drop) + snapshot[i..]
      invariant level.tilemap == old(level.tilemap) && level.tilesize == old(level.tilesize)
    {
      var tile := snapshot[i];
      RemoveStep(snapshot, i, drop);
      if drop(tile) {
        level.offgrid := RemoveFirst(level.offgrid, tile);
      }
    }
    assert snapshot[..|snapshot|] == snapshot;
  }
}
