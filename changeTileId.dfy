/**
 * The bulk rename of debug/changeTileID.py: every grid and off-grid tile of
 * one asset group is moved, in place, to another group. Loading and saving
 * the level file are not modelled.
 */
module ChangeTileId {
  import opened TileMap

  /** The group the script renames, and the group it renames it to. */
  const OldType: string := "coins"
  const NewType: string := "coin/collect"

  /** One tile after the rename: a tile of `oldType` gets `newType`, any other is kept. */
  function Renamed<P>(t: Tile<P>, oldType: string, newType: string): (r: Tile<P>)
    ensures r.variant == t.variant && r.pos == t.pos
    ensures t.kind != oldType ==> r == t
    ensures t.kind == oldType ==> r.kind == newType
  {
    if t.kind == oldType then t.(kind := newType) else t
  }

  /**
   * The grid after the rename: the same cells, each tile renamed. No tile of
   * the old group is left unless the two groups are the same.
   */
  function RenamedGrid(m: map<Cell, GridTile>, oldType: string, newType: string): (r: map<Cell, GridTile>)
    ensures r.Keys == m.Keys
    ensures forall c :: c in r ==> r[c].variant == m[c].variant && r[c].pos == m[c].pos
    ensures forall c :: c in r && m[c].kind != oldType ==> r[c] == m[c]
    ensures oldType != newType ==> forall c :: c in r ==> r[c].kind != oldType
  {
    map c | c in m :: Renamed(m[c], oldType, newType)
  }

  /**
   * The off-grid list after the rename: same length and order, each tile
   * renamed. No tile of the old group is left unless the two groups are the same.
   */
  function RenamedOffgrid(s: seq<OffgridTile>, oldType: string, newType: string): (r: seq<OffgridTile>)
    ensures |r| == |s|
    ensures forall i :: 0 <= i < |s| ==> r[i].variant == s[i].variant && r[i].pos == s[i].pos
    ensures forall i :: 0 <= i < |s| && s[i].kind != oldType ==> r[i] == s[i]
    ensures oldType != newType ==> forall i :: 0 <= i < |r| ==> r[i].kind != oldType
  {
    seq(|s|, i requires 0 <= i < |s| => Renamed(s[i], oldType, newType))
  }

  /** Renaming keeps every grid tile on the cell of its key. */
  lemma RenamePreservesKeys(m: map<Cell, GridTile>, oldType: string, newType: string)
    requires KeysMatchPos(m)
    ensures KeysMatchPos(RenamedGrid(m, oldType, newType))
  {
  }

  /**
   * A second rename with the same groups changes nothing: after the first no
   * old-group tile is left, or the two groups are the same and the rename is
   * the identity.
   */
  lemma RenameIdempotent(m: map<Cell, GridTile>, s: seq<OffgridTile>, oldType: string, newType: string)
    ensures RenamedGrid(RenamedGrid(m, oldType, newType), oldType, newType) == RenamedGrid(m, oldType, newType)
    ensures RenamedOffgrid(RenamedOffgrid(s, oldType, newType), oldType, newType) == RenamedOffgrid(s, oldType, newType)
  {
    var r := RenamedGrid(m, oldType, newType);
    assert forall c :: c in r ==> Renamed(r[c], oldType, newType) == r[c];
    var q := RenamedOffgrid(s, oldType, newType);
    assert forall i :: 0 <= i < |q| ==> Renamed(q[i], oldType, newType) == q[i];
  }

  /** With its default arguments both groups are the old one, and the rename leaves the level as it was. */
  lemma DefaultRenameIsNoop(m: map<Cell, GridTile>, s: seq<OffgridTile>)
    ensures RenamedGrid(m, OldType, OldType) == m
    ensures RenamedOffgrid(s, OldType, OldType) == s
  {
    var r := RenamedGrid(m, OldType, OldType);
    assert forall c :: c in r ==> r[c] == m[c];
  }

  /**
   * change_tile_type: rewrite the group of every matching grid tile, visiting
   * the cells in some order, then of every matching off-grid tile in list order.
   */
  method ChangeTileType(level: Tilemap, oldType: string := OldType, newType: string := OldType)
    modifies level
    ensures level.tilemap == RenamedGrid(old(level.tilemap), oldType, newType)
    ensures level.offgrid == RenamedOffgrid(old(level.offgrid), oldType, newType)
    ensures level.tilesize == old(level.tilesize)
  {
    RenameGridTiles(level, oldType, newType);
    RenameOffgridTiles(level, oldType, newType);
  }

  /** The first loop: over the grid's cells, in whatever order the level holds them. */
  method RenameGridTiles(level: Tilemap, oldType: string, newType: string)
    modifies level
    ensures level.tilemap == RenamedGrid(old(level.tilemap), oldType, newType)
    ensures level.offgrid == old(level.offgrid) && level.tilesize == old(level.tilesize)
  {
    ghost var m := level.tilemap;
    var todo := level.tilemap.Keys;
    while todo != {}
      invariant todo <= m.Keys
      invariant level.tilemap.Keys == m.Keys
      invariant forall c :: c in m ==> level.tilemap[c] == if c in todo then m[c] else Renamed(m[c], oldType, newType)
      invariant level.offgrid == old(level.offgrid) && level.tilesize == old(level.tilesize)
      decreases todo
    {
      var loc :| loc in todo;
      if level.tilemap[loc].kind == oldType {
        level.tilemap := level.tilemap[loc := level.tilemap[loc].(kind := newType)];
      }
      todo := todo - {loc};
    }
    assert level.tilemap == RenamedGrid(m, oldType, newType);
  }

  /** The second loop: over the off-grid list, in order. */
  method RenameOffgridTiles(level: Tilemap, oldType: string, newType: string)
    modifies level
    ensures level.offgrid == RenamedOffgrid(old(level.offgrid), oldType, newType)
    ensures level.tilemap == old(level.tilemap) && level.tilesize == old(level.tilesize)
  {
    ghost var s := level.offgrid;
    for i := 0 to |level.offgrid|
      invariant |level.offgrid| == |s|
      invariant forall j :: 0 <= j < |s| ==> level.offgrid[j] == if j < i then Renamed(s[j], oldType, newType) else s[j]
      invariant level.tilemap == old(level.tilemap) && level.tilesize == old(level.tilesize)
    {
      if level.offgrid[i].kind == oldType {
        level.offgrid := level.offgrid[i := level.offgrid[i].(kind := newType)];
      }
    }
    assert level.offgrid == RenamedOffgrid(s, oldType, newType);
  }
}
