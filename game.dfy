/**
 * The camera and level-column policy of MarioGame.py: the sorted list of the
 * level's tile columns, the per-frame scroll update, and the horizontal
 * intent handed to the player. Windowing, drawing and the event loop are not
 * modelled.
 */
module Game {
  import opened Geometry
  import opened TileMap

  /** The drawing surface: the 640x480 window divided by the render scale 1.5, truncated. */
  const DisplayWidth: int := 426
  const DisplayHeight: int := 320

  /** The scroll keeps the player's centre this many pixels from the left edge. */
  const LeftMargin: int := 100

  predicate StrictlyAscending(xs: seq<int>) {
    forall i, j :: 0 <= i < j < |xs| ==> xs[i] < xs[j]
  }

  /** The columns holding a grid tile, read from the tiles' own positions. */
  ghost function Columns(m: map<Cell, GridTile>): set<int> {
    set c | c in m :: m[c].pos.0
  }

  /** `x` placed into a strictly ascending list unless it is already there. */
  function Insert(xs: seq<int>, x: int): (r: seq<int>)
    requires StrictlyAscending(xs)
    ensures StrictlyAscending(r)
    ensures forall y :: y in r <==> y in xs || y == x
  {
    if xs == [] then [x]
    else if x < xs[0] then [x] + xs
    else if x == xs[0] then xs
    else
      var rest := Insert(xs[1..], x);
      assert forall y :: y in xs[1..] ==> xs[0] < y;
      assert forall k :: 0 <= k < |rest| ==> xs[0] < rest[k] by {
        forall k | 0 <= k < |rest| ensures xs[0] < rest[k] { assert rest[k] in rest; }
      }
      [xs[0]] + rest
  }

  /** sorted(set(list)): the distinct values of the list in ascending order. */
  function SortedDistinct(list: seq<int>): (r: seq<int>)
    ensures StrictlyAscending(r)
    ensures forall y :: y in r <==> y in list
  {
    if list == [] then []
    else Insert(SortedDistinct(list[..|list| - 1]), list[|list| - 1])
  }

  /** A strictly ascending list holds each value once: its length is the number of its values. */
  lemma {:induction false} AscendingIsDistinct(xs: seq<int>)
    requires StrictlyAscending(xs)
    ensures |xs| == |set y | y in xs|
  {
    if xs != [] {
      var rest := xs[1..];
      AscendingIsDistinct(rest);
      assert (set y | y in xs) == (set y | y in rest) + {xs[0]};
      assert xs[0] !in rest;
    }
  }

  /**
   * The column list built in the game's constructor: each grid tile's column
   * appended in some order of the cells, then de-duplicated and sorted. It is
   * strictly ascending and holds exactly the columns of the grid tiles.
   */
  method ColumnList(m: map<Cell, GridTile>) returns (xs: seq<int>)
    ensures StrictlyAscending(xs)
    ensures forall x :: x in xs <==> x in Columns(m)
  {
    var list := [];
    var todo := m.Keys;
    while todo != {}
      invariant todo <= m.Keys
      invariant forall x :: x in list <==> exists c :: c in m && c !in todo && m[c].pos.0 == x
      decreases todo
    {
      var loc :| loc in todo;
      list := list + [m[loc].pos.0];
      todo := todo - {loc};
    }
    xs := SortedDistinct(list);
  }

  /** How one scroll update ends: the new scroll, or Python's IndexError on a level with fewer than two columns. */
  datatype ScrollResult = Scrolled(scroll: Cell) | IndexError

  /**
   * The horizontal rule: scroll to keep the player 100 pixels from the left
   * edge once past that margin, unless the next-to-last tile column is
   * already left of the display's right edge. The column test reads the
   * next-to-last entry of the list, so it fails on fewer than two columns,
   * but only past the margin, since the margin test comes first.
   */
  function ScrollX(sx: int, centerX: int, xLocList: seq<int>, tilesize: int, playerWidth: int): (r: Option<int>)
    ensures r.None? <==> centerX > LeftMargin && |xLocList| < 2
    ensures r.Some? ==> r.value == sx || (r.value == centerX - LeftMargin && centerX > LeftMargin)
    ensures r.Some? && centerX <= LeftMargin ==> r.value == sx
    ensures r.Some? && r.value != sx ==>
      centerX > LeftMargin && |xLocList| >= 2 && xLocList[|xLocList| - 2] * tilesize - sx + playerWidth >= DisplayWidth
    ensures centerX > LeftMargin && |xLocList| >= 2 && xLocList[|xLocList| - 2] * tilesize - sx + playerWidth >= DisplayWidth ==>
      r == Some(centerX - LeftMargin)
  {
    if !(LeftMargin < centerX) then Some(sx)
    else if |xLocList| < 2 then None
    else if xLocList[|xLocList| - 2] * tilesize - sx + playerWidth >= DisplayWidth then Some(centerX - LeftMargin)
    else Some(sx)
  }

  /**
   * The vertical rule: above the middle of the display the scroll follows the
   * player's centre; otherwise it stays. It only ever becomes negative.
   */
  function ScrollY(sy: int, centerY: int): (r: int)
    ensures r == sy || (r == centerY - DisplayHeight / 2 && r < 0)
    ensures centerY >= DisplayHeight / 2 ==> r == sy
    ensures centerY < DisplayHeight / 2 ==> r == centerY - DisplayHeight / 2
  {
    if centerY < DisplayHeight / 2 then centerY - DisplayHeight / 2 else sy
  }

  /** The vertical scroll after a run of frames with the given player centres. */
  function ScrollYAfter(sy: int, centers: seq<int>): int {
    if centers == [] then sy else ScrollY(ScrollYAfter(sy, centers[..|centers| - 1]), centers[|centers| - 1])
  }

  /** Starting from 0, the vertical scroll is never positive, whatever the player does. */
  lemma {:induction false} ScrollYNeverPositive(sy: int, centers: seq<int>)
    requires sy <= 0
    ensures ScrollYAfter(sy, centers) <= 0
  {
    if centers != [] {
      ScrollYNeverPositive(sy, centers[..|centers| - 1]);
    }
  }

  /**
   * The horizontal input the player receives: right minus left, each pressed
   * key counting 1, with no vertical part.
   */
  function MoveIntent(left: bool, right: bool): (m: (real, real))
    ensures m.0 in {-1.0, 0.0, 1.0} && m.1 == 0.0
    ensures m.0 > 0.0 <==> right && !left
    ensures m.0 < 0.0 <==> left && !right
  {
    ((if right then 1.0 else 0.0) - (if left then 1.0 else 0.0), 0.0)
  }

  /** The camera state of the running game. */
  class Game {
    const tilesize: int
    const xLocList: seq<int>
    var scroll: Cell
    var movement: (bool, bool)

    /** A game over `level`: no scroll, no key held, and the column list of the level's grid. */
    constructor (level: Tilemap)
      ensures tilesize == level.tilesize && scroll == (0, 0) && movement == (false, false)
      ensures StrictlyAscending(xLocList) && forall x :: x in xLocList <==> x in Columns(level.tilemap)
    {
      var columns := ColumnList(level.tilemap);
      tilesize := level.tilesize;
      xLocList := columns;
      scroll := (0, 0);
      movement := (false, false);
    }

    /**
     * The scroll update at the top of a frame, from the player's rectangle:
     * the horizontal rule, then the vertical one. On an IndexError the frame
     * is abandoned with the scroll untouched.
     */
    method UpdateScroll(player: Rect, playerWidth: int) returns (r: ScrollResult)
      modifies this
      ensures r.IndexError? <==> player.Center().0 > LeftMargin && |xLocList| < 2
      ensures r.IndexError? ==> scroll == old(scroll)
      ensures r.Scrolled? ==> r.scroll == scroll
      ensures r.Scrolled? ==> Some(scroll.0) == ScrollX(old(scroll.0), player.Center().0, xLocList, tilesize, playerWidth)
      ensures r.Scrolled? ==> scroll.1 == ScrollY(old(scroll.1), player.Center().1)
      ensures old(scroll.1) <= 0 ==> scroll.1 <= 0
      ensures movement == old(movement)
    {
      var center := player.Center();
      if LeftMargin < center.0 {
        if |xLocList| < 2 {
          return IndexError;
        }
        if xLocList[|xLocList| - 2] * tilesize - scroll.0 + playerWidth >= DisplayWidth {
          scroll := (scroll.0 + (center.0 - LeftMargin - scroll.0), scroll.1);
        }
      }
      if center.1 < DisplayHeight / 2 {
        scroll := (scroll.0, scroll.1 + (center.1 - DisplayHeight / 2 - scroll.1));
      }
      r := Scrolled(scroll);
    }
  }
}
