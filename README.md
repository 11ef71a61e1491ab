# Super Mario clone: level grid, physics and level edits in Dafny

This project models the logic of a small pygame platformer (a Super Mario
Bros. clone) and of its map editor and maintenance scripts. It leaves out
the drawing. It covers these parts:

- **The sparse tile level (`TileMap`).**
  - Grid tiles are keyed by their cell; off-grid tiles sit in an ordered list.
  - The 24-cell neighbourhood probe feeds the collision resolver.
  - Tiles are filtered into collision rectangles.
  - The renderer visits a window of cells.
- **The physics entity and the player (`Entities`).**
  - Movement is resolved along each axis separately, clamping against the neighbouring tile rectangles.
  - Gravity is capped, and facing follows the horizontal movement.
  - The player adds jumps and air time, horizontal acceleration, and the choice of animation.
- **The frame-counter animation and the sprite-strip slicing (`Utils`).**
- **The two maintenance scripts:**
  - a bulk rename of one asset group to another (`ChangeTileId`);
  - a bulk delete of one group (`DeleteTile`).
- **The game's camera (`Game`):**
  - the sorted list of tile columns;
  - the scroll update;
  - the horizontal input handed to the player.
- **The editor's edit operations (`MapEditor`):**
  - scrolling and the cursor cell;
  - placing and erasing tiles;
  - cycling the selected asset.
- **The block (`Blocks`).**

Shared pieces live in `Geometry`:
- integer rectangles with the strict overlap test of `pygame.Rect`;
- Python's `min` and `max`;
- an optional value.

Python floats are modelled as exact `real`s, and Python integers as `int`.
Python's floor division `//` by a positive tile size is Dafny's `/`. On a
float it is `.Floor` of the quotient.

Several things the code reads from pygame or the asset table are parameters
of the model:
- The conversion pygame applies when a float position becomes a rectangle corner is `toInt: real -> int`.
- The decor variants that collide and the decor image widths are `PhysicsAssets`.
- The image sizes the editor's eraser uses are `imageSize`.
- The per-group image counts are `variantCounts`.

The physics specification sees the level through a ghost lookup `near`.
The predicate `Looks` ties it to the level's own `RectsAround`.

## Model

| member | source | states |
|---|---|---|
| Geometry.MovedTo | scripts/entities.py:57-60 | Moving a rectangle's edge onto a tile edge sets its start on that axis and keeps its size and its other axis. |
| TileMap.NeighborOffsetsShape | scripts/tilemap.py:5-6 | The offset table has 24 pairwise distinct entries, each at most two away on both axes and none equal to (0,0). |
| TileMap.RingCovered | scripts/tilemap.py:5-6 | Every offset at most two away on both axes, other than (0,0), is in the table: the table is the whole 5x5 block minus its centre. |
| TileMap.CellOf | scripts/tilemap.py:23 | The probed centre cell brackets the pixel position between two multiples of the tile size on each axis (floor division, so negative positions round down). |
| TileMap.Shifted | scripts/tilemap.py:24-25 | The probed cells are the centre plus each offset, one per offset, in table order. |
| TileMap.PresentAppend | scripts/tilemap.py:24-28 | Probing a concatenation of cell lists returns the two probes' results concatenated. |
| TileMap.PresentIsStored | scripts/tilemap.py:24-28 | Under the key/position invariant the probe returns one tile per probed cell that holds a tile, in probe order, each sitting at its cell. |
| TileMap.StoredMembers | scripts/tilemap.py:27 | A cell is kept exactly when it is probed and present in the grid. |
| TileMap.StoredDistinct | scripts/tilemap.py:24-28 | Distinct probed cells give distinct kept cells. |
| TileMap.ShiftedDistinct | scripts/tilemap.py:24-25 | Distinct offsets give distinct probed cells. |
| TileMap.ShiftedMembers | scripts/tilemap.py:24-25 | With a table that is exactly the ring, a cell is probed exactly when it is in the ring around the centre. |
| TileMap.ProbedCellsDistinct | scripts/tilemap.py:24-25 | The 24 probed cells are pairwise distinct. |
| TileMap.ProbedCellMembers | scripts/tilemap.py:23-25 | A cell is probed exactly when it is at most two away on each axis from the centre cell and is not that cell. |
| TileMap.ProbeDistinct | scripts/tilemap.py:24-28 | Probing distinct cells returns at most one tile per cell, and no two returned tiles share a position. |
| TileMap.ProbeMembers | scripts/tilemap.py:24-28 | A tile is returned exactly when it is the stored tile of one of the probed cells. |
| TileMap.NeighborhoodDistinct | scripts/tilemap.py:21-30 | tiles_around returns at most 24 tiles, at pairwise distinct cells. |
| TileMap.NeighborhoodMembers | scripts/tilemap.py:21-30 | tiles_around returns exactly the stored tiles at most two cells from the centre cell on each axis, other than the centre cell. |
| TileMap.NeighborhoodSkipsCenter | scripts/tilemap.py:5-6 | A tile in the cell containing the position is never returned. |
| TileMap.TileRects | scripts/tilemap.py:36-40 | A tile yields at most one rectangle, and one exactly when its group is solid or it is a collidable decor variant. A block gives the tile-sized square at its pixel position; a decor rectangle is square, with the image width on both sides. |
| TileMap.RectsOf | scripts/tilemap.py:34-42 | The rectangles of a tile list number at most one per tile. |
| TileMap.RectsOfOrigin | scripts/tilemap.py:34-42 | Every rectangle produced is the rectangle of one of the tiles it came from. |
| TileMap.ColumnShape | scripts/tilemap.py:53 | The inner render loop visits exactly the rows y0 to y1-1 of its column, ascending. |
| TileMap.WindowShape | scripts/tilemap.py:52-53 | The render window visits each cell of the x and y ranges exactly once, x outer and y inner, both ascending. |
| TileMap.Tilemap.constructor | scripts/tilemap.py:14-18 | A new level has the given tile size, an empty grid and no off-grid tiles. |
| TileMap.Tilemap.TilesAround | scripts/tilemap.py:21-30 | tiles_around returns the probe specification `Around`; under the invariant, no tile at the centre cell. It changes nothing. |
| TileMap.Tilemap.Probe | scripts/tilemap.py:24-28 | The loop over an offset table returns the tiles stored at the centre plus each offset, in table order, skipping empty cells. |
| TileMap.Tilemap.AroundSkipsCenter | scripts/tilemap.py:5-6 | On a valid level, the tiles around a position never include one at the position's own cell. |
| TileMap.ProbeStep | scripts/tilemap.py:24-28 | Probing one more offset appends the tile at that cell, if there is one. |
| TileMap.Tilemap.TileRectsAround | scripts/tilemap.py:33-42 | The rectangles are those of the probed tiles in probe order, at most 24. It changes nothing. |
| TileMap.Tilemap.RenderColumn | scripts/tilemap.py:53-58 | The inner render loop draws the stored tiles of the column window in ascending row order. |
| TileMap.Tilemap.RenderGrid | scripts/tilemap.py:52-58 | The nested render loop draws the stored tiles of the window in column-major order. |
| TileMap.Tilemap.Render | scripts/tilemap.py:44-60 | render draws every off-grid tile in list order, then the stored grid tiles of the view window derived from the offset and surface size. |
| TileMap.Present | scripts/tilemap.py:24-28 | The probe specification: the tiles stored at the given cells, in order, empty cells skipped. Its properties are stated by `PresentAppend`, `PresentIsStored`, `PresentLength` and `ProbeMembers`. |
| TileMap.ViewWindow | scripts/tilemap.py:52-53 | The cells render visits for an offset and surface size: columns offset.x // ts - 5 up to (offset.x + width) // ts, rows offset.y // ts up to (offset.y + height) // ts. Their order and membership are stated by `WindowShape`. |
| TileMap.RemoveFirst | debug/deleteTile.py:20 | list.remove: the first element equal to the argument is dropped. Its effect is stated by `RemoveFirstShape` and `RemoveFirstAfter`. |
| TileMap.RemoveFirstShape | mapEditor.py:116 | list.remove shortens the list by one when the tile occurs, and leaves it unchanged otherwise. |
| TileMap.PresentLength | scripts/tilemap.py:24-28 | A probe returns at most one tile per probed cell. |
| TileMap.WithoutDrops | debug/deleteTile.py:18-20 | No tile the removal test selects survives the removal pass. |
| TileMap.WithoutKeeps | debug/deleteTile.py:18-20 | Every tile the test does not select survives as often as it occurred. |
| TileMap.WithoutIdempotent | debug/deleteTile.py:18-20 | A second removal pass with the same test changes nothing. |
| TileMap.RemoveFirstAfter | debug/deleteTile.py:20 | list.remove of a tile absent from the prefix removes exactly the occurrence after the prefix. |
| TileMap.RemoveStep | debug/deleteTile.py:18-20 | One iteration over the snapshot extends "survivors of the first i tiles, then the rest" to i+1. |
| TileMap.RemoveOffgridWhere | debug/deleteTile.py:18-20 | Looping over a copy of the list and removing each selected tile leaves exactly the unselected tiles in their order. The grid and tile size are untouched. |
| Entities.ClampStep | scripts/entities.py:53-61 | One tile of an axis pass keeps the rectangle's size and never lowers a contact flag. The full effect is stated by `ClampStepFacts`. |
| Entities.Resolve | scripts/entities.py:54-61 | A whole pass over the tile rectangles keeps the rectangle's size and never lowers a contact flag. The full effect is stated by `ResolveFacts` and `ResolveFlush`. |
| Entities.AxisMove | scripts/entities.py:51-53 | An axis pass starts from the entity's rectangle at the moved position and keeps the entity's size. |
| Entities.FlipAfter | scripts/entities.py:41-44 | The entity faces left after moving left, right after moving right, and keeps its facing without horizontal motion. |
| Entities.Simulate | scripts/entities.py:30-82 | One physics frame: facing, the x pass, the y pass from where the x pass left the entity, then capped gravity cancelled by a vertical contact. Its properties are stated by `SimulateFacts`. |
| Entities.ClampStepFacts | scripts/entities.py:53-61 | Each of these holds for one tile of an axis pass. The flags are stated as if-and-only-if: lo is set exactly when it was already set or the tile overlaps while moving backwards, and hi likewise for forwards. With no overlap nothing changes. With no motion the rectangle stays. On an overlap moving backwards, the rectangle is flush after the tile, further forward, and no longer overlapping; moving forwards, it is flush before it, further back, and no longer overlapping. The coordinate becomes the rectangle's. Size and other axis are kept. |
| Entities.ResolveFacts | scripts/entities.py:51-73 | A whole axis pass keeps size and other axis, raises only the flag of the side the motion heads to, never lowers a flag, does nothing without motion, and only pushes back against the motion. |
| Entities.ResolveFlush | scripts/entities.py:54-61 | After a pass that raised a flag, the rectangle is flush against one of the tiles on the side of the motion, and the entity's coordinate is the rectangle's. |
| Entities.Fall | scripts/entities.py:78 | Gravity adds 0.2 up to the cap 5. |
| Entities.FreeFallClosed | scripts/entities.py:78 | After n frames without contact the vertical velocity is min(5, v + 0.2n); from rest or falling it is at the cap within 25 frames. |
| Entities.SimulateFacts | scripts/entities.py:30-84 | One frame keeps the horizontal velocity and caps the vertical one at 5, zeroing it on an up or down contact. Left/right contacts only come with matching x motion and up/down with matching y motion. Facing follows the sign of the x motion. |
| Entities.PhysicsEntity.constructor | scripts/entities.py:5-20 | A new entity is at rest, without contacts, facing right, with a fresh restarted copy of its idle animation. |
| Entities.PhysicsEntity.Box | scripts/entities.py:22-23 | rect is the integral position with the entity's size. |
| Entities.PhysicsEntity.SetAction | scripts/entities.py:25-28 | A different action installs a fresh restarted copy of that action's animation; the same action changes nothing. |
| Entities.PhysicsEntity.Update | scripts/entities.py:30-84 | The new position, velocity, contacts and facing are those of `Simulate`, and the animation advances one tick. The velocity invariant is kept. |
| Entities.ClampAxis | scripts/entities.py:53-61 | The collision loop over the rectangles computes the axis pass `Resolve`. |
| Entities.Step | scripts/entities.py:39-82 | The motion part of update computes `Simulate`, keeps the horizontal velocity, caps the vertical one, and sets facing from the x motion. |
| Entities.PassAt | scripts/entities.py:51-53 | One axis pass queries the rectangles around the moved rectangle's centre and resolves against them. |
| Entities.Accelerate | scripts/entities.py:117-129 | The acceleration stays within plus or minus the speed. Input to the left never raises it and lowers it exactly when not already at minus the speed. Input to the right is the mirror image. |
| Entities.Coast | scripts/entities.py:117-129 | Without input the acceleration moves toward zero by at most 0.1 and never changes sign. |
| Entities.ChooseAction | scripts/entities.py:132-143 | The action is one of jump, turn, run, idle. It is jump exactly when the air time exceeds 4. It is idle exactly when on the ground without input. A turn means input while accelerating against the facing. |
| Entities.TurnIffPushingAgainstFacing | scripts/entities.py:117-143 | On the ground with input, the player turns exactly when the input pushes against the facing and the acceleration is not already at the limit on that side. |
| Entities.Player.constructor | scripts/entities.py:91-98 | A new player is idle at rest with air time 0, one jump and no acceleration. |
| Entities.Player.Jump | scripts/entities.py:100-105 | A jump happens exactly when a jump is left and the air time is below 5. It subtracts 5.5 from the vertical velocity, uses up the jump and sets the air time to 5; otherwise nothing changes. |
| Entities.Player.Update | scripts/entities.py:107-145 | The body's frame is driven by the current acceleration. A ground contact resets air time and jumps; otherwise the air time grows by one. The acceleration and action follow `Accelerate` and `ChooseAction`, and last_accel becomes the new acceleration. Jumps stay in {0,1}. When the action is unchanged the same animation has advanced one tick; when it changed, the animation is a fresh copy, restarted at frame 0, of the new action's template. |
| Entities.Player.Settle | scripts/entities.py:110-145 | After the physics frame: the air time and jumps from the ground contact, the acceleration from the input, the action from both, and the animation kept on an unchanged action or replaced by a restarted copy of the new action's template. The body's motion is untouched. |
| Utils.NextFrame | scripts/utils.py:66-70 | One tick keeps a frame in range; a non-looping animation's frame never goes back. |
| Utils.NextDone | scripts/utils.py:66-71 | Once done, an animation stays done; a looping animation's done flag never changes. |
| Utils.LoopTicks | scripts/utils.py:66-67 | A looping animation started at frame 0 shows frame n mod (duration times count) after n updates. |
| Utils.ModSucc | scripts/utils.py:67 | Advancing a counter mod p and advancing then reducing agree. |
| Utils.ModUnique | scripts/utils.py:67 | A quotient and remainder in range are the ones the modulo computes. |
| Utils.ClampTicks | scripts/utils.py:68-71 | A clamped animation started at frame 0 shows frame min(n, last) after n updates, and is done exactly from the first update that reaches the last frame. |
| Utils.StripRects | scripts/utils.py:48-50 | load_strip produces image_count rectangles (none for a non-positive count). |
| Utils.StripFrames | scripts/utils.py:48-50 | The k-th strip rectangle is the first moved right by k widths; neighbours abut, and for a non-empty size no two overlap. |
| Utils.Animation.constructor | scripts/utils.py:55-60 | A new animation starts at frame 0, not done, with images, duration (default 5) and loop (default true) as given. |
| Utils.Animation.Copy | scripts/utils.py:62-63 | copy is a fresh animation with the same images, duration and loop, restarted at frame 0 and not done. |
| Utils.Animation.Update | scripts/utils.py:65-71 | Looping wraps the frame modulo duration times count; otherwise the frame grows to the last frame and done becomes and stays true there. The frame stays in range. |
| Utils.Animation.ImageIndex | scripts/utils.py:74 | The shown image's index is the frame divided by the duration, within the image list. |
| Utils.Animation.Img | scripts/utils.py:73-74 | img returns one of the animation's images. |
| Utils.DivBounds | scripts/utils.py:74 | A frame in range divided by the duration is a valid image index, bracketed by the duration multiples. |
| Utils.AnimationExamples | scripts/utils.py:65-74 | Three images of five frames, looping: 14 updates show the third image, the 15th wraps to the first. Two images of four frames, not looping: from the 7th update on, done and showing the second image. |
| ChangeTileId.Renamed | debug/changeTileID.py:16-17 | A tile of the old group gets the new group; any other tile is unchanged; variant and position are kept. |
| ChangeTileId.RenamedGrid | debug/changeTileID.py:15-17 | The renamed grid has the same cells, variants and positions, and leaves tiles of other groups unchanged. No tile of the old group is left unless old and new are equal. |
| ChangeTileId.RenamedOffgrid | debug/changeTileID.py:19-21 | The renamed list keeps its length, order, variants and positions, and leaves tiles of other groups unchanged. No tile of the old group is left unless old and new are equal. |
| ChangeTileId.RenamePreservesKeys | debug/changeTileID.py:15-17 | Renaming keeps every grid tile on the cell of its key. |
| ChangeTileId.RenameIdempotent | debug/changeTileID.py:14-21 | A second call with the same groups changes nothing. |
| ChangeTileId.DefaultRenameIsNoop | debug/changeTileID.py:14 | With the default arguments (both groups the old one) the call leaves the level as it was. |
| ChangeTileId.ChangeTileType | debug/changeTileID.py:14-21 | The two in-place loops produce the renamed grid and the renamed off-grid list; the tile size is untouched. |
| ChangeTileId.RenameGridTiles | debug/changeTileID.py:15-17 | The grid loop, visiting cells in any order, produces the renamed grid. |
| ChangeTileId.RenameOffgridTiles | debug/changeTileID.py:19-21 | The list loop produces the renamed list. |
| DeleteTile.OffgridDeletion | debug/deleteTile.py:18-20 | The off-grid pass leaves no tile of the group, keeps every other tile as often as before, and a second pass removes nothing. |
| DeleteTile.DeleteTile | debug/deleteTile.py:13-20 | The call completes exactly when no grid tile belongs to the group; then the grid is unchanged and the list filtered. Otherwise one matching grid tile is deleted and it fails, with the list untouched. |
| DeleteTile.GridWithout | debug/deleteTile.py:14-16 | The grid with the group removed keeps every other tile and no tile of the group, and keeps the key/position invariant. |
| DeleteTile.DeleteTileFailsOnMatch | debug/deleteTile.py:14-16 | A level with one tile of the group makes the script fail, where the intended result is an empty grid. |
| DeleteTile.DeleteTileIntended | debug/deleteTile.py:13-20 | Iterating over a snapshot of the cells removes exactly the group's grid tiles, then filters the list. |
| Game.Insert | MarioGame.py:54 | Inserting into a strictly ascending list keeps it strictly ascending and adds exactly the new value. |
| Game.SortedDistinct | MarioGame.py:54 | sorted(set(list)) is strictly ascending and holds exactly the list's values. |
| Game.AscendingIsDistinct | MarioGame.py:54 | A strictly ascending list holds each value once. |
| Game.ColumnList | MarioGame.py:50-54 | x_loc_list is strictly ascending and holds exactly the distinct columns of the grid tiles. |
| Game.ScrollX | MarioGame.py:62-63 | The horizontal scroll fails exactly when the player is past the margin and there are fewer than two columns. It becomes centerx - 100 whenever the player is past the margin and the next-to-last column, at x * tilesize - scroll.x + player width, reaches the display width 426. It changes only in that case and otherwise stays. |
| Game.ScrollY | MarioGame.py:66-67 | When the centre is above the display's middle the vertical scroll becomes centery - 160, which is negative; otherwise it stays. |
| Game.ScrollYNeverPositive | MarioGame.py:37 | Starting from 0, the vertical scroll never becomes positive over any run of frames. |
| Game.MoveIntent | MarioGame.py:73 | The player's movement is (right - left, 0), with the x part in {-1, 0, 1} and its sign given by the one pressed key. |
| Game.Game.constructor | MarioGame.py:37-54 | A new game has no scroll, no keys held, and the column list of its level. |
| Game.Game.UpdateScroll | MarioGame.py:62-67 | The scroll update follows `ScrollX` then `ScrollY`, failing with the scroll untouched on the IndexError, and keeps a non-positive vertical scroll non-positive. |
| MapEditor.ScrollDelta | mapEditor.py:60-61 | Each axis moves by -10, 0 or 10, forward exactly when only the forward key is held. |
| MapEditor.CursorCell | mapEditor.py:76-77 | The cursor cell brackets mouse plus scroll between two multiples of the tile size (floor division). |
| MapEditor.FloorScaled | mapEditor.py:76-77 | Floor division by a positive tile size brackets the position. |
| MapEditor.Placed | mapEditor.py:89-93 | Storing a tile sets that cell only, to a tile whose position is the cell, keeping the key/position invariant. |
| MapEditor.HitBy | mapEditor.py:111-115 | The right-click test: the tile's image rectangle, at its position minus the scroll, contains the mouse. Its use is stated by `EraseOffgrid` and `Editor.Erase`. |
| MapEditor.EraseOffgrid | mapEditor.py:111-116 | The right-click pass leaves no tile under the mouse and every other tile as often as before. |
| MapEditor.Cycle | mapEditor.py:132-140 | A wheel step stays within the number of choices. |
| MapEditor.CycleRoundTrip | mapEditor.py:132-140 | Stepping forward then back, or back then forward, returns to the same choice. |
| MapEditor.Editor.constructor | mapEditor.py:43-53 | A new editor has no scroll and the first variant of the first group selected. |
| MapEditor.Editor.ScrollStep | mapEditor.py:60-61 | Each frame the scroll moves by `ScrollDelta` on each axis; the selection is untouched. |
| MapEditor.Editor.PlaceOnGrid | mapEditor.py:88-93 | A left click on the grid stores the selected tile at the cursor cell, every other cell unchanged, keeping the level invariant. |
| MapEditor.Editor.PlaceOffgrid | mapEditor.py:95-100 | A left click off the grid appends one tile at mouse plus scroll; earlier tiles are unchanged. |
| MapEditor.Editor.Erase | mapEditor.py:103-116 | A right click removes the cursor cell's key if present, every other key unchanged, then exactly the off-grid tiles under the mouse, in order. |
| MapEditor.Editor.CycleVariant | mapEditor.py:130-134 | Shift and the wheel step the variant by one, wrapping within the group; the group is kept. |
| MapEditor.Editor.CycleGroup | mapEditor.py:135-141 | The wheel steps the group by one, wrapping, and resets the variant to 0. |
| Blocks.Moved | scripts/block.py:22-23 | The new position differs from the old by the movement on each component. |
| Blocks.MovedRoundTrip | scripts/block.py:22-23 | Moving and moving back returns the block; no movement leaves it in place. |
| Blocks.BlockVariantsTable | scripts/block.py:3-7 | The table maps break, fixed and mystery to 1, 2 and 3, one image each. |
| Blocks.Block.constructor | scripts/block.py:11-18 | A block stores its position and its kind's image number. |
| Blocks.Block.Update | scripts/block.py:21-24 | update moves the block by the movement and always overwrites the kind, with None when none is given. |
| Blocks.NewBlock | scripts/block.py:18 | Making a block fails exactly for a name outside the table; otherwise it is the named kind at the position. |

## Left out

- All drawing, blitting, image flipping and scaling, windowing, the clock, and the player's drawing offset: these only produce pixels.
- File and JSON I/O, so both scripts' module-level load/rewrite, `Tilemap.load`/`save`, and image and sprite-sheet loading. `load_images` order depends on the file system.
- The event loops of the game and the editor. Only the state updates they perform are modelled, each as its own method. The order in which the game calls them in one frame is not modelled as one method.
- scripts/cloud.py, whose construction is random and whose update only serves drawing. `Block.render`, which only draws.
- `get_image_variation` is not part of this model. The set of collidable decor variants is the parameter `PhysicsAssets.decorCollidable`.
- IEEE rounding of the 0.1, 0.2 and 5.5 steps: floats are exact reals.
- pygame's float-to-integer conversion, taken as the parameter `toInt`.
- TileMap.CellOf: takes an integer position. tiles_around first applies `int()`, which truncates toward zero, before `//`. Every caller passes a rectangle centre, which is already an integer, so nothing changes for them.
- Geometry.Overlaps: follows pygame 2 in rejecting zero-width or zero-height rectangles, but does not normalise negative widths or heights as pygame does. Negative sizes do not arise in the model's callers.
- The order in which Python iterates over the grid dictionary. Loops over the grid visit the cells in an unspecified order, and the stated results do not depend on it (except which matching tile `DeleteTile` deletes, stated as "some").
- The `"x;y"` key strings: a key is the cell pair itself. The spelling is injective, so the two are interchangeable.
- Entities.PhysicsEntity.Update: the level is also given as a ghost lookup `near` that must agree with `RectsAround`. The specification is stated through it rather than by unfolding the tile map.
- Entities.PhysicsEntity.SetAction: requires the new action's animation to exist; the source fails with a KeyError instead.
- Entities.PhysicsEntity.constructor: also sets `lastMovement` to (0, 0); the source first assigns it in update. It requires the idle animation to exist, where the source raises KeyError inside set_action('idle') (scripts/entities.py:18, 28).
- Entities.Player.Update: requires all four player animations (idle, jump, turn, run) to exist, where the source raises KeyError in set_action when the chosen one is missing. Entities.Player.Settle requires the same.
- Utils.Animation.constructor: requires a non-empty image list and a positive duration. The source accepts others and then fails on the modulo at scripts/utils.py:67 or on the image index.
- MapEditor.Editor.constructor: requires every asset group to have at least one image. The source fails on the modulo or the image lookup otherwise.
- Blocks.Block.constructor: requires a known name. The KeyError for an unknown name is modelled by `Blocks.NewBlock`.
- Game.Game.UpdateScroll: the vertical scroll is an integer. In the source it is a float with an integer value, because the display height's half is 160.0.

Two facts about the code that are easy to miss:
- The neighbour table is the whole 5x5 block minus its centre, corners included.
- A non-looping animation of two images of four frames is done after 7 updates: done is set when the last frame, 7, is reached, not one update later.

## Findings

| source | as written | input that shows it | evidently intended | confidence | as-written member | corrected member |
|---|---|---|---|---|---|---|
| debug/deleteTile.py:14-16 | deletes from the grid dictionary while iterating over it, so Python raises RuntimeError at the next iteration step after the first deletion, and the off-grid pass never runs | a level whose grid holds one tile of the group, e.g. a single "coin/collect" tile at cell (0,0) | remove every grid tile of the group (iterating over a snapshot of the keys), then filter the off-grid list | high, not executed | DeleteTile.DeleteTile (with DeleteTile.DeleteTileFailsOnMatch) | DeleteTile.DeleteTileIntended |
