/**
 * The block of scripts/block.py: a position and the image number of its
 * kind, looked up by name when the block is made and overwritten on update.
 * Drawing is not modelled.
 */
module Blocks {
  import opened Geometry

  /** The block kinds and their image numbers in the block tile set. */
  const BlockVariants: map<string, int> := map["break" := 1, "fixed" := 2, "mystery" := 3]

  /** The position a block reaches after one update's movement, component by component. */
  function Moved(pos: (real, real), movement: (real, real)): (r: (real, real))
    ensures r.0 - pos.0 == movement.0 && r.1 - pos.1 == movement.1
  {
    (pos.0 + movement.0, pos.1 + movement.1)
  }

  /** Moving a block and moving it back returns it where it was; no movement leaves it in place. */
  lemma MovedRoundTrip(pos: (real, real), movement: (real, real))
    ensures Moved(Moved(pos, movement), (-movement.0, -movement.1)) == pos
    ensures Moved(pos, (0.0, 0.0)) == pos
  {
  }

  class Block {
    var pos: (real, real)
    /** The image number; None once an update has been given no type. */
    var kind: Option<int>

    /** A block of a known kind at `pos`. */
    constructor (pos: (real, real), name: string)
      requires name in BlockVariants
      ensures this.pos == pos && kind == Some(BlockVariants[name])
    {
      this.pos := pos;
      kind := Some(BlockVariants[name]);
    }

    /** update: move by `movement` and take `newType` as the kind, whatever it was. */
    method Update(newType: Option<int> := None, movement: (real, real) := (0.0, 0.0))
      modifies this
      ensures pos == Moved(old(pos), movement)
      ensures kind == newType
    {
      pos := (pos.0 + movement.0, pos.1);
      pos := (pos.0, pos.1 + movement.1);
      kind := newType;
    }
  }

  /** Making a block by name: the name's image number, or Python's KeyError for a name outside the table. */
  method NewBlock(pos: (real, real), name: string) returns (b: Option<Block>)
    ensures b.None? <==> name !in BlockVariants
    ensures b.Some? ==> fresh(b.value) && b.value.pos == pos && b.value.kind == Some(BlockVariants[name])
  {
    if name !in BlockVariants {
      return None;
    }
    var block := new Block(pos, name);
    b := Some(block);
  }

  /** The three kinds get the images 1, 2 and 3, one each. */
  lemma BlockVariantsTable()
    ensures BlockVariants.Keys == {"break", "fixed", "mystery"}
    ensures BlockVariants["break"] == 1 && BlockVariants["fixed"] == 2 && BlockVariants["mystery"] == 3
    ensures forall a, b :: a in BlockVariants && b in BlockVariants && a != b ==> BlockVariants[a] != BlockVariants[b]
  {
  }
}
