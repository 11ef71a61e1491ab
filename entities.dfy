/**
 * The physics entity of scripts/entities.py: axis-separated movement with
 * clamping against the neighbouring tile rectangles, capped gravity, facing,
 * and the player's jump bookkeeping, acceleration and action selection.
 */
module Entities {
  import opened Geometry
  import opened TileMap
  import opened Utils

  /** A pair of Python floats, modelled exactly. */
  type Vec = (real, real)

  /** The four contact flags an update reports. */
  datatype Collisions = Collisions(up: bool, down: bool, left: bool, right: bool)

  const NoCollisions := Collisions(false, false, false, false)

  /** The cap gravity puts on the downward velocity, and the pull per frame. */
  const MaxFall: real := 5.0
  const Gravity: real := 0.2

  /** The key of an entity's animation for an action, as `type + '/' + action`. */
  function AnimationKey(kind: string, action: string): string {
    kind + "/" + action
  }

  /**
   * The entity's rectangle: its position made integral by pygame (the
   * conversion `toInt`), with its size.
   */
  function BoxAt(pos: Vec, size: (int, int), toInt: real -> int): Rect {
    Rect(toInt(pos.0), toInt(pos.1), size.0, size.1)
  }

  /**
   * The state of one axis pass: the working rectangle, the entity's coordinate
   * on this axis, and the two contact flags of this axis (`lo` is left or up,
   * `hi` is right or down).
   */
  datatype AxisPass = AxisPass(box: Rect, coord: real, lo: bool, hi: bool)

  /**
   * One tile of an axis pass. A tile the working rectangle overlaps pushes it
   * back against the motion `d` until the two are flush, sets the flag of the
   * side that was hit, and the entity's coordinate becomes the rectangle's.
   */
  function ClampStep(axis: Axis, p: AxisPass, tile: Rect, d: real): (q: AxisPass)
    ensures q.box.w == p.box.w && q.box.h == p.box.h
    ensures p.lo ==> q.lo
    ensures p.hi ==> q.hi
  {
    if !Overlaps(p.box, tile) then p
    else
      var box :=
        if d < 0.0 then MovedTo(p.box, axis, End(tile, axis))
        else if d > 0.0 then MovedTo(p.box, axis, Start(tile, axis) - Extent(p.box, axis))
        else p.box;
      AxisPass(box, Start(box, axis) as real, p.lo || d < 0.0, p.hi || d > 0.0)
  }

  /** An axis pass over the tiles in order. */
  function Resolve(axis: Axis, s: AxisPass, tiles: seq<Rect>, d: real): (r: AxisPass)
    ensures r.box.w == s.box.w && r.box.h == s.box.h
    ensures s.lo ==> r.lo
    ensures s.hi ==> r.hi
  {
    if tiles == [] then s
    else ClampStep(axis, Resolve(axis, s, tiles[..|tiles| - 1], d), tiles[|tiles| - 1], d)
  }

  /**
   * A tile the working rectangle overlaps pushes it back against the motion
   * until the two are flush and no longer overlap, raising the flag of the
   * side that was hit; a tile it does not overlap changes nothing. Only the
   * moving axis of the rectangle changes.
   */
  lemma ClampStepFacts(axis: Axis, p: AxisPass, tile: Rect, d: real)
    ensures var q := ClampStep(axis, p, tile, d); !Overlaps(p.box, tile) ==> q == p
    ensures var q := ClampStep(axis, p, tile, d); q.box.w == p.box.w && q.box.h == p.box.h
    ensures var q := ClampStep(axis, p, tile, d); axis == Horizontal ==> q.box.y == p.box.y
    ensures var q := ClampStep(axis, p, tile, d); axis == Vertical ==> q.box.x == p.box.x
    ensures var q := ClampStep(axis, p, tile, d); q.lo <==> p.lo || (Overlaps(p.box, tile) && d < 0.0)
    ensures var q := ClampStep(axis, p, tile, d); q.hi <==> p.hi || (Overlaps(p.box, tile) && d > 0.0)
    ensures var q := ClampStep(axis, p, tile, d); d == 0.0 ==> q.box == p.box
    ensures var q := ClampStep(axis, p, tile, d); Overlaps(p.box, tile) ==> q.coord == Start(q.box, axis) as real
    // Moving backwards, the rectangle ends up just after the tile, further forward than before.
    ensures var q := ClampStep(axis, p, tile, d); Overlaps(p.box, tile) && d < 0.0 ==> Start(q.box, axis) == End(tile, axis) && Start(q.box, axis) > Start(p.box, axis) && !Overlaps(q.box, tile)
    // Moving forwards, it ends up just before the tile, further back than before.
    ensures var q := ClampStep(axis, p, tile, d); Overlaps(p.box, tile) && d > 0.0 ==> End(q.box, axis) == Start(tile, axis) && Start(q.box, axis) < Start(p.box, axis) && !Overlaps(q.box, tile)
  {
  }

  /**
   * What a whole axis pass can do: keep the size and the other axis, raise
   * only the flag of the side the motion heads to, never lower a flag, and
   * leave the rectangle alone when there is no motion.
   */
  lemma {:induction false} ResolveFacts(axis: Axis, s: AxisPass, tiles: seq<Rect>, d: real)
    ensures var r := Resolve(axis, s, tiles, d); r.box.w == s.box.w && r.box.h == s.box.h
    ensures var r := Resolve(axis, s, tiles, d); axis == Horizontal ==> r.box.y == s.box.y
    ensures var r := Resolve(axis, s, tiles, d); axis == Vertical ==> r.box.x == s.box.x
    ensures var r := Resolve(axis, s, tiles, d); r.lo ==> s.lo || d < 0.0
    ensures var r := Resolve(axis, s, tiles, d); r.hi ==> s.hi || d > 0.0
    ensures var r := Resolve(axis, s, tiles, d); s.lo ==> r.lo
    ensures var r := Resolve(axis, s, tiles, d); s.hi ==> r.hi
    ensures var r := Resolve(axis, s, tiles, d); d == 0.0 ==> r.box == s.box && r.lo == s.lo && r.hi == s.hi
    // Corrections only ever push the rectangle back against the motion.
    ensures var r := Resolve(axis, s, tiles, d); d < 0.0 ==> Start(r.box, axis) >= Start(s.box, axis)
    ensures var r := Resolve(axis, s, tiles, d); d > 0.0 ==> Start(r.box, axis) <= Start(s.box, axis)
    ensures var r := Resolve(axis, s, tiles, d); r.coord == s.coord || r.coord == Start(r.box, axis) as real
  {
    if tiles != [] {
      ResolveFacts(axis, s, tiles[..|tiles| - 1], d);
      ClampStepFacts(axis, Resolve(axis, s, tiles[..|tiles| - 1], d), tiles[|tiles| - 1], d);
    }
  }

  /**
   * A pass that raised a flag leaves the rectangle flush against one of the
   * tiles, on the side facing the motion, with the entity's coordinate on
   * the rectangle's.
   */
  lemma {:induction false} ResolveFlush(axis: Axis, s: AxisPass, tiles: seq<Rect>, d: real)
    requires !s.lo && !s.hi
    ensures var r := Resolve(axis, s, tiles, d);
      r.lo ==> exists k :: 0 <= k < |tiles| && Start(r.box, axis) == End(tiles[k], axis)
    ensures var r := Resolve(axis, s, tiles, d);
      r.hi ==> exists k :: 0 <= k < |tiles| && End(r.box, axis) == Start(tiles[k], axis)
    ensures var r := Resolve(axis, s, tiles, d);
      r.lo || r.hi ==> r.coord == Start(r.box, axis) as real
  {
    if tiles != [] {
      var init := tiles[..|tiles| - 1];
      var last := tiles[|tiles| - 1];
      ResolveFlush(axis, s, init, d);
      ResolveFacts(axis, s, init, d);
      var p := Resolve(axis, s, init, d);
      var r := ClampStep(axis, p, last, d);
      ClampStepFacts(axis, p, last, d);
      if !Overlaps(p.box, last) {
        if r.lo {
          var k :| 0 <= k < |init| && Start(p.box, axis) == End(init[k], axis);
          assert tiles[k] == init[k];
        }
        if r.hi {
          var k :| 0 <= k < |init| && End(p.box, axis) == Start(init[k], axis);
          assert tiles[k] == init[k];
        }
      } else if d < 0.0 {
        assert Start(r.box, axis) == End(tiles[|tiles| - 1], axis);
      } else if d > 0.0 {
        assert End(r.box, axis) == Start(tiles[|tiles| - 1], axis);
      }
    }
  }

  /** One frame of gravity: the downward velocity grows by 0.2 up to the cap. */
  function Fall(vy: real): (v: real)
    ensures v <= MaxFall
    ensures v == MaxFall || v == vy + Gravity
  {
    MinReal(MaxFall, vy + Gravity)
  }

  /** The vertical velocity after `n` frames of free fall. */
  function FreeFall(n: nat, vy: real): real {
    if n == 0 then vy else Fall(FreeFall(n - 1, vy))
  }

  /**
   * Free fall accumulates: after n >= 1 frames without contact the velocity is
   * the start velocity plus n pulls, capped; from rest or moving down it
   * reaches the cap within 25 frames.
   */
  lemma {:induction false} FreeFallClosed(n: nat, vy: real)
    requires n >= 1
    ensures FreeFall(n, vy) == MinReal(MaxFall, vy + n as real * Gravity)
    ensures vy >= 0.0 && n >= 25 ==> FreeFall(n, vy) == MaxFall
  {
    if n > 1 {
      FreeFallClosed(n - 1, vy);
    }
  }

  /** The facing after a frame moving `dx` horizontally: left for negative, right for positive, else as it was. */
  function FlipAfter(flip: bool, dx: real): (r: bool)
    ensures dx != 0.0 ==> (r <==> dx < 0.0)
    ensures dx == 0.0 ==> r == flip
  {
    if dx < 0.0 then true else if dx > 0.0 then false else flip
  }

  /** The part of an entity that update changes, apart from its animation. */
  datatype Motion = Motion(pos: Vec, velocity: Vec, collisions: Collisions, flip: bool)

  /**
   * `near` gives, for every pixel position, the collision rectangles
   * tile_rects_around finds around it in `level`: the specification functions
   * below take the level through this lookup.
   */
  ghost predicate Looks(level: Tilemap, assets: PhysicsAssets, near: Cell -> seq<Rect>)
    reads level
  {
    level.tilesize > 0 && forall c {:trigger level.RectsAround(c, assets)} :: near(c) == level.RectsAround(c, assets)
  }

  /**
   * The pass along `axis` of an entity that has just moved by `d` to `at`:
   * its rectangle there, against the rectangles around that rectangle's centre.
   */
  function AxisMove(axis: Axis, at: Vec, size: (int, int), d: real, near: Cell -> seq<Rect>, toInt: real -> int): (r: AxisPass)
    ensures r.box.w == size.0 && r.box.h == size.1
  {
    var box := BoxAt(at, size, toInt);
    Resolve(axis, AxisPass(box, if axis == Horizontal then at.0 else at.1, false, false), near(box.Center()), d)
  }

  /**
   * One physics frame of an entity of the given size, with the level seen through `near`: facing
   * from the sign of the frame movement, an x pass, a y pass from the position
   * the x pass left, then gravity, cancelled by a vertical contact.
   */
  function Simulate(s: Motion, size: (int, int), movement: Vec, near: Cell -> seq<Rect>, toInt: real -> int): Motion
  {
    var dx, dy := s.velocity.0 + movement.0, s.velocity.1 + movement.1;
    var flip := FlipAfter(s.flip, dx);
    var px := AxisMove(Horizontal, (s.pos.0 + dx, s.pos.1), size, dx, near, toInt);
    var py := AxisMove(Vertical, (px.coord, s.pos.1 + dy), size, dy, near, toInt);
    var cols := Collisions(py.lo, py.hi, px.lo, px.hi);
    var vy := if cols.down || cols.up then 0.0 else Fall(s.velocity.1);
    Motion((px.coord, py.coord), (s.velocity.0, vy), cols, flip)
  }

  /**
   * What one physics frame guarantees: the horizontal velocity is kept, the
   * vertical one is capped and zeroed by a vertical contact, each contact flag
   * lies on the side the frame movement heads to, and facing follows the sign
   * of the horizontal frame movement.
   */
  lemma SimulateFacts(s: Motion, size: (int, int), movement: Vec, near: Cell -> seq<Rect>, toInt: real -> int)
    ensures var r := Simulate(s, size, movement, near, toInt); r.velocity.0 == s.velocity.0
    ensures var r := Simulate(s, size, movement, near, toInt); r.velocity.1 <= MaxFall
    ensures var r := Simulate(s, size, movement, near, toInt); r.collisions.down || r.collisions.up ==> r.velocity.1 == 0.0
    ensures var r := Simulate(s, size, movement, near, toInt); !r.collisions.down && !r.collisions.up ==> r.velocity.1 == Fall(s.velocity.1)
    ensures var r := Simulate(s, size, movement, near, toInt); r.collisions.left ==> s.velocity.0 + movement.0 < 0.0
    ensures var r := Simulate(s, size, movement, near, toInt); r.collisions.right ==> s.velocity.0 + movement.0 > 0.0
    ensures var r := Simulate(s, size, movement, near, toInt); r.collisions.up ==> s.velocity.1 + movement.1 < 0.0
    ensures var r := Simulate(s, size, movement, near, toInt); r.collisions.down ==> s.velocity.1 + movement.1 > 0.0
    ensures var r := Simulate(s, size, movement, near, toInt); s.velocity.0 + movement.0 < 0.0 ==> r.flip
    ensures var r := Simulate(s, size, movement, near, toInt); s.velocity.0 + movement.0 > 0.0 ==> !r.flip
    ensures var r := Simulate(s, size, movement, near, toInt); s.velocity.0 + movement.0 == 0.0 ==> r.flip == s.flip
  {
    var dx, dy := s.velocity.0 + movement.0, s.velocity.1 + movement.1;
    var bx := BoxAt((s.pos.0 + dx, s.pos.1), size, toInt);
    ResolveFacts(Horizontal, AxisPass(bx, s.pos.0 + dx, false, false), near(bx.Center()), dx);
    var px := AxisMove(Horizontal, (s.pos.0 + dx, s.pos.1), size, dx, near, toInt);
    var b := BoxAt((px.coord, s.pos.1 + dy), size, toInt);
    ResolveFacts(Vertical, AxisPass(b, s.pos.1 + dy, false, false), near(b.Center()), dy);
  }

  /** Whether the animation templates hold a usable animation for an action of `kind`. */
  ghost predicate HasAnimation(templates: map<string, Animation>, kind: string, action: string)
    reads templates.Values
  {
    AnimationKey(kind, action) in templates && templates[AnimationKey(kind, action)].Valid()
  }

  /** A moving thing of the level: position, velocity, contacts, facing and animation. */
  class PhysicsEntity {
    const kind: string
    const size: (int, int)
    var pos: Vec
    var velocity: Vec
    var collisions: Collisions
    var action: string
    var flip: bool
    var animation: Animation
    var lastMovement: Vec

    /** The horizontal velocity is never written, and gravity never lets the vertical one exceed the cap. */
    ghost predicate Valid()
      reads this, animation
    {
      animation.Valid() && velocity.0 == 0.0 && velocity.1 <= MaxFall
    }

    function MotionOf(): Motion
      reads this
    {
      Motion(pos, velocity, collisions, flip)
    }

    /** An entity at rest, not colliding, facing right, showing a fresh copy of its idle animation. */
    constructor (templates: map<string, Animation>, kind: string, pos: Vec, size: (int, int))
      requires HasAnimation(templates, kind, "idle")
      ensures Valid()
      ensures this.kind == kind && this.pos == pos && this.size == size
      ensures velocity == (0.0, 0.0) && collisions == NoCollisions && !flip && action == "idle"
      ensures lastMovement == (0.0, 0.0)
      ensures fresh(animation)
      ensures var t := templates[AnimationKey(kind, "idle")];
        animation.images == t.images && animation.imgDuration == t.imgDuration && animation.loop == t.loop
      ensures animation.frame == 0 && !animation.done
    {
      var a := templates[AnimationKey(kind, "idle")].Copy();
      this.kind := kind;
      this.size := size;
      this.pos := pos;
      velocity := (0.0, 0.0);
      collisions := NoCollisions;
      action := "idle";
      flip := false;
      animation := a;
      lastMovement := (0.0, 0.0);
    }

    /** rect: the entity's rectangle. */
    function Box(toInt: real -> int): (r: Rect)
      reads this
      ensures r.w == size.0 && r.h == size.1
      ensures r.x == toInt(pos.0) && r.y == toInt(pos.1)
    {
      BoxAt(pos, size, toInt)
    }

    /** set_action: a different action restarts that action's animation; the same action changes nothing. */
    method SetAction(action: string, templates: map<string, Animation>)
      requires action != this.action ==> HasAnimation(templates, kind, action)
      requires Valid()
      modifies this
      ensures Valid()
      ensures this.action == action
      ensures pos == old(pos) && velocity == old(velocity) && collisions == old(collisions)
      ensures flip == old(flip) && lastMovement == old(lastMovement)
      ensures action == old(this.action) ==> animation == old(animation)
      ensures action != old(this.action) ==> fresh(animation) && animation.frame == 0 && !animation.done
      ensures action != old(this.action) ==> var t := templates[AnimationKey(kind, action)];
        animation.images == t.images && animation.imgDuration == t.imgDuration && animation.loop == t.loop
    {
      if action != this.action {
        this.action := action;
        animation := templates[AnimationKey(kind, action)].Copy();
      }
    }

    /**
     * update: one physics frame against the level, as `Simulate` describes it,
     * then one tick of the animation.
     */
    method Update(level: Tilemap, assets: PhysicsAssets, toInt: real -> int, ghost near: Cell -> seq<Rect>,
                  movement: Vec := (0.0, 0.0))
      requires Valid() && Looks(level, assets, near)
      modifies this, animation
      ensures Valid()
      ensures MotionOf() == Simulate(old(MotionOf()), size, movement, near, toInt)
      ensures flip == FlipAfter(old(flip), old(velocity.0) + movement.0)
      ensures lastMovement == movement && action == old(action)
      ensures animation == old(animation)
      ensures animation.frame == NextFrame(animation.loop, animation.Period(), old(animation.frame))
      ensures animation.done == NextDone(animation.loop, animation.Period(), old(animation.frame), old(animation.done))
    {
      var r := Step(level, MotionOf(), size, movement, assets, toInt, near);
      pos, velocity, collisions, flip := r.pos, r.velocity, r.collisions, r.flip;
      lastMovement := movement;
      animation.Update();
    }
  }

  /**
   * The collision loop of one axis: each overlapping rectangle, in order,
   * pushes the entity's rectangle back against the motion `d` and raises the
   * flag of the side that was hit.
   */
  method ClampAxis(axis: Axis, start: AxisPass, rects: seq<Rect>, d: real) returns (r: AxisPass)
    ensures r == Resolve(axis, start, rects, d)
  {
    var box, coord, lo, hi := start.box, start.coord, start.lo, start.hi;
    for i := 0 to |rects|
      invariant AxisPass(box, coord, lo, hi) == Resolve(axis, start, rects[..i], d)
    {
      var tile := rects[i];
      assert rects[..i + 1][..i] == rects[..i];
      if Overlaps(box, tile) {
        if d < 0.0 {
          lo := true;
          box := MovedTo(box, axis, End(tile, axis));
        }
        if d > 0.0 {
          hi := true;
          box := MovedTo(box, axis, Start(tile, axis) - Extent(box, axis));
        }
        coord := Start(box, axis) as real;
      }
    }
    assert rects[..|rects|] == rects;
    r := AxisPass(box, coord, lo, hi);
  }

  /**
   * The motion part of update: facing from the sign of the frame movement,
   * the x pass, the y pass, then gravity, cancelled by a vertical contact.
   */
  method Step(level: Tilemap, s: Motion, size: (int, int), movement: Vec, assets: PhysicsAssets,
              toInt: real -> int, ghost near: Cell -> seq<Rect>) returns (r: Motion)
    requires Looks(level, assets, near)
    ensures r == Simulate(s, size, movement, near, toInt)
    ensures r.velocity.0 == s.velocity.0 && r.velocity.1 <= MaxFall
    ensures r.flip == FlipAfter(s.flip, s.velocity.0 + movement.0)
  {
    var dx, dy := s.velocity.0 + movement.0, s.velocity.1 + movement.1;
    var flip := s.flip;
    if dx < 0.0 {
      flip := true;
    } else if dx > 0.0 {
      flip := false;
    }
    var px := PassAt(level, Horizontal, (s.pos.0 + dx, s.pos.1), size, dx, assets, toInt, near);
    var py := PassAt(level, Vertical, (px.coord, s.pos.1 + dy), size, dy, assets, toInt, near);
    var collisions := Collisions(py.lo, py.hi, px.lo, px.hi);
    var vy := MinReal(MaxFall, s.velocity.1 + Gravity);
    if collisions.down || collisions.up {
      vy := 0.0;
    }
    assert flip == FlipAfter(s.flip, dx);
    assert vy == if collisions.down || collisions.up then 0.0 else Fall(s.velocity.1);
    r := Motion((px.coord, py.coord), (s.velocity.0, vy), collisions, flip);
    SimulateFacts(s, size, movement, near, toInt);
  }

  /**
   * One axis pass of update: the entity's rectangle at `at`, the rectangles
   * around its centre, and the collision loop over them.
   */
  method PassAt(level: Tilemap, axis: Axis, at: Vec, size: (int, int), d: real, assets: PhysicsAssets,
                toInt: real -> int, ghost near: Cell -> seq<Rect>) returns (p: AxisPass)
    requires Looks(level, assets, near)
    ensures p == AxisMove(axis, at, size, d, near, toInt)
  {
    var box := BoxAt(at, size, toInt);
    var rects := level.TileRectsAround(box.Center(), assets);
    p := ClampAxis(axis, AxisPass(box, if axis == Horizontal then at.0 else at.1, false, false), rects, d);
  }

  /**
   * The player's horizontal acceleration for one frame: input pushes it by 0.1
   * towards the input's side up to the top speed; without input it decays by
   * 0.1 towards zero on the side the player faces.
   */
  function Accelerate(a: real, moveX: real, flip: bool, speed: real): (r: real)
    requires speed >= 0.0 && -speed <= a <= speed
    ensures -speed <= r <= speed
    ensures moveX < 0.0 ==> r <= a && (r < a <==> a > -speed)
    ensures moveX > 0.0 ==> r >= a && (r > a <==> a < speed)
  {
    if moveX < 0.0 then MaxReal(a - 0.1, -speed)
    else if moveX > 0.0 then MinReal(a + 0.1, speed)
    else if flip then MinReal(a + 0.1, 0.0)
    else MaxReal(a - 0.1, 0.0)
  }

  /**
   * Coasting: the player's frame is driven by its acceleration, so it then
   * faces the way the acceleration points; with no input the acceleration
   * moves towards zero by at most 0.1 and never changes sign.
   */
  lemma Coast(a: real, flip: bool, speed: real)
    requires speed >= 0.0 && -speed <= a <= speed
    ensures var r := Accelerate(a, 0.0, FlipAfter(flip, a), speed);
      (a >= 0.0 ==> 0.0 <= r <= a && a - r <= 0.1) && (a <= 0.0 ==> a <= r <= 0.0 && r - a <= 0.1)
  {
  }

  /** The action the player shows: airborne, turning, running or standing. */
  function ChooseAction(airTime: int, moveX: real, flip: bool, xAccel: real, lastAccel: real): (action: string)
    ensures action in {"jump", "turn", "run", "idle"}
    ensures action == "jump" <==> airTime > 4
    ensures action == "idle" <==> airTime <= 4 && moveX == 0.0
    ensures action == "turn" ==> moveX != 0.0 && (if flip then xAccel > lastAccel else xAccel < lastAccel)
  {
    if airTime > 4 then "jump"
    else if moveX != 0.0 then
      if flip && xAccel > lastAccel then "turn"
      else if !flip && xAccel < lastAccel then "turn"
      else "run"
    else "idle"
  }

  /**
   * On the ground with input, the player turns exactly when the input pushes
   * against the side it faces and the acceleration is not already at the top
   * speed on the input's side.
   */
  lemma TurnIffPushingAgainstFacing(airTime: int, moveX: real, flip: bool, a: real, speed: real)
    requires speed >= 0.0 && -speed <= a <= speed
    requires airTime <= 4 && moveX != 0.0
    ensures ChooseAction(airTime, moveX, flip, Accelerate(a, moveX, flip, speed), a) == "turn" <==>
      (flip && moveX > 0.0 && a < speed) || (!flip && moveX < 0.0 && a > -speed)
  {
  }

  /** The action names a player needs animations for. */
  const PlayerActions: set<string> := {"idle", "jump", "turn", "run"}

  /** The player: a physics entity of kind 'player' with jumping and acceleration. */
  class Player {
    const body: PhysicsEntity
    var airTime: int
    var jumps: int
    var xAccel: real
    var lastAccel: real
    const speed: real

    ghost predicate Valid()
      reads this, body, body.animation
    {
      && body.Valid() && body.kind == "player"
      && speed == 2.0
      && 0 <= jumps <= 1 && airTime >= 0
      && -speed <= xAccel <= speed && lastAccel == xAccel
    }

    constructor (templates: map<string, Animation>, pos: Vec, size: (int, int))
      requires HasAnimation(templates, "player", "idle")
      ensures Valid() && fresh(body) && fresh(body.animation)
      ensures body.pos == pos && body.size == size && body.velocity == (0.0, 0.0) && body.action == "idle"
      ensures airTime == 0 && jumps == 1 && xAccel == 0.0 && lastAccel == 0.0
    {
      body := new PhysicsEntity(templates, "player", pos, size);
      airTime := 0;
      jumps := 1;
      xAccel := 0.0;
      lastAccel := 0.0;
      speed := 2.0;
    }

    /** jump: with a jump left and not long airborne, kick upwards and use up the jump. */
    method Jump() returns (jumped: bool)
      requires Valid()
      modifies this, body
      ensures Valid()
      ensures jumped <==> old(jumps) != 0 && old(airTime) < 5
      ensures jumped ==>
        body.velocity == (old(body.velocity.0), old(body.velocity.1) - 5.5) && jumps == old(jumps) - 1 && airTime == 5
      ensures !jumped ==> body.velocity == old(body.velocity) && jumps == old(jumps) && airTime == old(airTime)
      ensures xAccel == old(xAccel) && lastAccel == old(lastAccel)
      ensures body.pos == old(body.pos) && body.collisions == old(body.collisions) && body.flip == old(body.flip)
      ensures body.action == old(body.action) && body.animation == old(body.animation)
      ensures body.lastMovement == old(body.lastMovement)
    {
      jumped := false;
      if jumps != 0 && airTime < 5 {
        body.velocity := (body.velocity.0, body.velocity.1 - 5.5);
        jumps := jumps - 1;
        airTime := 5;
        jumped := true;
      }
    }

    /**
     * update: a physics frame driven by the current acceleration, then the
     * air time and jump count, the new acceleration and the action to show.
     */
    method Update(level: Tilemap, assets: PhysicsAssets, toInt: real -> int, ghost near: Cell -> seq<Rect>,
                  templates: map<string, Animation>, movement: Vec := (0.0, 0.0))
      requires Valid() && Looks(level, assets, near)
      requires forall a :: a in PlayerActions ==> HasAnimation(templates, "player", a)
      modifies this, body, body.animation
      ensures Valid()
      ensures body.MotionOf() == Simulate(old(body.MotionOf()), body.size, (old(xAccel), movement.1), near, toInt)
      ensures body.lastMovement == (old(xAccel), movement.1)
      ensures body.collisions.down ==> airTime == 0 && jumps == 1
      ensures !body.collisions.down ==> airTime == old(airTime) + 1 && jumps == old(jumps)
      ensures xAccel == Accelerate(old(xAccel), movement.0, body.flip, speed)
      ensures body.action == ChooseAction(airTime, movement.0, body.flip, xAccel, old(xAccel))
      ensures lastAccel == xAccel
      ensures body.flip == FlipAfter(old(body.flip), old(xAccel))
      ensures body.action == old(body.action) ==>
        body.animation == old(body.animation)
        && body.animation.frame == NextFrame(body.animation.loop, body.animation.Period(), old(body.animation.frame))
        && body.animation.done == NextDone(body.animation.loop, body.animation.Period(), old(body.animation.frame), old(body.animation.done))
      ensures body.action != old(body.action) ==>
        fresh(body.animation) && body.animation.frame == 0 && !body.animation.done
      ensures body.action in PlayerActions && AnimationKey("player", body.action) in templates
      ensures body.action != old(body.action) ==> var t := templates[AnimationKey("player", body.action)];
        body.animation.images == t.images && body.animation.imgDuration == t.imgDuration && body.animation.loop == t.loop
    {
      body.Update(level, assets, toInt, near, (xAccel, movement.1));
      Settle(movement.0, templates);
    }

    /**
     * The bookkeeping after the physics frame: the air time and jump count
     * from the ground contact, the new acceleration from the input, and the
     * action chosen from both; the body's motion is left as the frame made it.
     */
    method Settle(moveX: real, templates: map<string, Animation>)
      requires Valid()
      requires forall a :: a in PlayerActions ==> HasAnimation(templates, "player", a)
      modifies this, body
      ensures Valid()
      ensures body.MotionOf() == old(body.MotionOf()) && body.lastMovement == old(body.lastMovement)
      ensures body.collisions.down ==> airTime == 0 && jumps == 1
      ensures !body.collisions.down ==> airTime == old(airTime) + 1 && jumps == old(jumps)
      ensures xAccel == Accelerate(old(xAccel), moveX, body.flip, speed)
      ensures body.action == ChooseAction(airTime, moveX, body.flip, xAccel, old(xAccel))
      ensures lastAccel == xAccel
      ensures body.action == old(body.action) ==> body.animation == old(body.animation)
      ensures body.action != old(body.action) ==>
        fresh(body.animation) && body.animation.frame == 0 && !body.animation.done
      ensures body.action in PlayerActions && AnimationKey("player", body.action) in templates
      ensures body.action != old(body.action) ==> var t := templates[AnimationKey("player", body.action)];
        body.animation.images == t.images && body.animation.imgDuration == t.imgDuration && body.animation.loop == t.loop
    {
      airTime := airTime + 1;
      if body.collisions.down {
        airTime := 0;
        jumps := 1;
      }

      xAccel := Accelerate(xAccel, moveX, body.flip, speed);

      var action := ChooseAction(airTime, moveX, body.flip, xAccel, lastAccel);
      body.SetAction(action, templates);

      lastAccel := xAccel;
    }
  }
}
