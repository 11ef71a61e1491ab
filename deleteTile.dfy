/**
 * The bulk delete of debug/deleteTile.py: every tile of one asset group is
 * removed from the level in place. Its grid loop deletes from the dictionary
 * it is iterating over, which Python refuses at the next iteration step with a
 * RuntimeError; the model returns that failure as an outcome.
 */
module DeleteTile {
  import opened TileMap

  /** The group the script deletes. */
  const Target: string := "coin/collect"

  /** How the deletion ends. */
  datatype Outcome =
    | Completed
      /** Python's "dictionary changed size during iteration": one grid tile was deleted, the off-grid pass never ran. */
    | DictChangedSize

  /** The removal test of the off-grid pass. */
  function OfType(tile: string): OffgridTile -> bool {
    (t: OffgridTile) => t.kind == tile
  }

  /**
   * What the off-grid pass leaves: the tiles of other groups, each as often
   * as before and in their relative order, and no tile of the deleted group;
   * a second pass removes nothing more.
   */
  lemma OffgridDeletion(s: seq<OffgridTile>, tile: string)
    ensures forall t :: t in Without(s, OfType(tile)) ==> t.kind != tile
    ensures forall t: OffgridTile :: t.kind != tile ==> multiset(Without(s, OfType(tile)))[t] == multiset(s)[t]
    ensures Without(Without(s, OfType(tile)), OfType(tile)) == Without(s, OfType(tile))
  {
    WithoutDrops(s, OfType(tile));
    forall t: OffgridTile | t.kind != tile ensures multiset(Without(s, OfType(tile)))[t] == multiset(s)[t] {
      WithoutKeeps(s, OfType(tile), t);
    }
    WithoutIdempotent(s, OfType(tile));
  }

  /** Whether some grid tile belongs to the group. */
  predicate HasGridTile(m: map<Cell, GridTile>, tile: string) {
    exists c :: c in m && m[c].kind == tile
  }

  /**
   * delete_tile: the grid loop, visiting the cells in some order, fails right
   * after deleting the first matching tile it meets; only when no grid tile
   * matches does the off-grid pass run.
   */
  method DeleteTile(level: Tilemap, tile: string := Target) returns (outcome: Outcome)
    modifies level
    ensures outcome == Completed <==> !HasGridTile(old(level.tilemap), tile)
    ensures outcome == Completed ==>
      level.tilemap == old(level.tilemap) && level.offgrid == Without(old(level.offgrid), OfType(tile))
    ensures outcome == DictChangedSize ==>
      (exists c :: c in old(level.tilemap) && old(level.tilemap)[c].kind == tile && level.tilemap == old(level.tilemap) - {c})
      && level.offgrid == old(level.offgrid)
    ensures level.tilesize == old(level.tilesize)
  {
    var todo := level.tilemap.Keys;
    while todo != {}
      invariant todo <= level.tilemap.Keys
      invariant forall c :: c in level.tilemap && c !in todo ==> level.tilemap[c].kind != tile
      invariant unchanged(level)
      decreases todo
    {
      var loc :| loc in todo;
      if level.tilemap[loc].kind == tile {
        level.tilemap := level.tilemap - {loc};
        return DictChangedSize;
      }
      todo := todo - {loc};
    }
    RemoveOffgridWhere(level, OfType(tile));
    return Completed;
  }

  /** The grid with every tile of the group removed and every other tile kept. */
  function GridWithout(m: map<Cell, GridTile>, tile: string): (r: map<Cell, GridTile>)
    ensures r.Keys <= m.Keys
    ensures forall c :: c in r ==> r[c] == m[c] && r[c].kind != tile
    ensures forall c :: c in m && m[c].kind != tile ==> c in r
    ensures KeysMatchPos(m) ==> KeysMatchPos(r)
  {
    map c | c in m && m[c].kind != tile :: m[c]
  }

  /**
   * A level with a single tile of the group on its grid: delete_tile as
   * written fails on it, where the evident intent leaves an empty grid.
   */
  lemma DeleteTileFailsOnMatch()
    ensures var m := map[(0, 0) := Tile(Target, 0, (0, 0))];
      HasGridTile(m, Target) && GridWithout(m, Target) == map[]
  {
    var m := map[(0, 0) := Tile(Target, 0, (0, 0))];
    assert m[(0, 0)].kind == Target;
  }

  /**
   * The deletion the script evidently intends: iterate over a snapshot of the
   * grid's cells, so deleting is allowed, then filter the off-grid list.
   */
  method DeleteTileIntended(level: Tilemap, tile: string := Target)
    modifies level
    ensures level.tilemap == GridWithout(old(level.tilemap), tile)
    ensures level.offgrid == Without(old(level.offgrid), OfType(tile))
    ensures level.tilesize == old(level.tilesize)
  {
    ghost var m := level.tilemap;
    var todo := level.tilemap.Keys;
    while todo != {}
      invariant todo <= m.Keys
      invariant level.tilemap.Keys <= m.Keys
      invariant forall c :: c in m ==> (c in level.tilemap <==> c in todo || m[c].kind != tile)
      invariant forall c :: c in level.tilemap ==> level.tilemap[c] == m[c]
      invariant level.offgrid == old(level.offgrid) && level.tilesize == old(level.tilesize)
      decreases todo
    {
      var loc :| loc in todo;
      if level.tilemap[loc].kind == tile {
        level.tilemap := level.tilemap - {loc};
      }
      todo := todo - {loc};
    }
    assert level.tilemap == GridWithout(m, tile);
    RemoveOffgridWhere(level, OfType(tile));
  }
}
