# PixelPhysicsEngine: the falling-sand automaton, in Dafny

This project models the core of PixelPhysicsEngine, a falling-sand toy. A grid of tiles
(`TileSet`) holds one element per tile. The element is EMPTY, sand, water or wood. Each tick
visits every column once, in a shuffled order. In each column it visits the rows from the
bottom up, and it updates every tile that is not EMPTY:

- sand falls through anything less dense, then may slide down a diagonal;
- water falls, then spreads down a diagonal or sideways; when that spread does not move it,
  it flows at most one tile along a heading it keeps between ticks;
- the update of wood and of EMPTY changes nothing (an EMPTY tile moves only when another
  element swaps with it).

The engine splits the screen into a table of workers. Each worker has a private grid and runs
the tick on it. A worker services resize requests and projects its grid into the shared grid
at its offset. The engine routes a tile the user places to the worker that owns it.

The project's files:

- `wrappers.dfy`: `Option`.
- `materials.dfy` (Elements.h): the material tags and colours, and the element constants of
  each class. It also holds element copy, assignment and equality, and the gravity direction.
- `tiles.dfy` (Tile.h): tile construction, `SetElement`, `SwapElements`, assignment and
  equality.
- `grid.dfy` (TileSet.h, TileSet.cpp): the grid as `seq<seq<Tile>>`, column-major, with
  specification functions and the per-material census. It also holds the class `TileSet`,
  whose methods update the grid in place and are proved equal to those functions.
- `physics.dfy` (Elements.cpp): each update rule is first a pure step function that returns
  the new grid and whether anything moved. Each rule is then a method on a `TileSet`, proved
  equal to that function. Every step keeps the grid valid, its shape, the count of every
  material, and every wood tile in place.
- `scheduler.dfy` (TileSet.cpp:40-59, Engine.cpp:26-40): the tick as a function of the grid,
  a permutation of the columns and the coin flips, and the in-place loop proved equal to it.
- `partitions.dfy` (Engine.h, Engine.cpp): the routing arithmetic, the projection, and the
  classes `Worker` and `Engine`.

Randomness is an input:

- every `rand() % 100 < 50` is a `bool` coin;
- the coins of a tick are a function of (visit number, row);
- `random_shuffle` is a permutation `order` of the column indices.

Each try-lock is a `bool` that says whether the lock was taken. An engine resize takes the
set of worker keys whose lock it obtained.

Where the source's text does not type-check, the model does what the code evidently means:

- `Element::parentTile` is the tile's position, and the "engine" an element updates against
  is its `TileSet`.
- `heading` is declared as a `QPoint` (Elements.h:105) but used as an integer horizontal
  step (Elements.cpp:139-149). It is modelled as an integer in -1..1.

The code has no hand-off of elements between neighbouring partitions and no "active" flag on
a tile, and a liquid moves at most one tile sideways per update. Workers meet only through the
projection into the shared grid.

## Model

| member | source | states |
|---|---|---|
| Materials.FromTag | Elements.h:19-24 | a tag decodes to the material with exactly that tag, and to nothing when no material has it |
| Materials.TagRoundTrip | Elements.h:19-24 | the tags are distinct (EMPTY 0, SAND 1, WATER 4, WOOD 8): decoding a material's tag gives the material back |
| Materials.ColorOf | Elements.h:27-31 | every material has a colour with components in 0..255 |
| Materials.ColorsDistinct | Elements.h:27-31 | no two materials share a colour |
| Materials.NewElement | Elements.h:37-45 | a new element has the requested material and parent, is well formed (the class constants), and is at rest |
| Materials.DensityBounds | Elements.h:185-190 | every element's density is positive and at most the maximum, and it is the maximum exactly for wood (wood has the largest double, sand 1520 at Elements.h:252-256, water 997 at Elements.h:346-349, EMPTY 1.0) |
| Materials.SameElementExactly | Elements.h:71-79 | Element equality holds exactly when every physics field but the parent pointer agrees |
| Materials.CopyElement | Elements.h:49-56 | a copy has the same physics fields and class, the new parent, a solid's friction, and a liquid's gravityUpdated reset to false (Elements.h:308-311) |
| Materials.AssignElement | Elements.h:58-69 | assignment copies every physics field and the class extras, and keeps the target's parent |
| Materials.CopyVersusAssign | Elements.h:308-321 | a liquid's assignment is Liquid-equal to its source, while its copy is Liquid-equal exactly when gravityUpdated was false; a solid's copy and assignment are both Solid-equal (Elements.h:166-170) |
| Materials.GravityDirection | Elements.cpp:19-22 | the direction is +1 exactly when denser than 1.225, -1 exactly when lighter, and 0 when equal |
| Materials.FallingMaterials | Elements.cpp:19-22 | every non-EMPTY material falls (+1) and EMPTY (density 1.0) rises (-1) |
| Tiles.SetElement | Tile.h:44-63 | a tag of one of the four materials gives a well-formed resting element of that material at the tile; any other tag leaves the tile without an element |
| Tiles.DefaultTile | Tile.h:16-18 | the default tile sits at (-1, -1) with a resting EMPTY element |
| Tiles.NewTile | Tile.h:24-26 | a new tile sits at (x, y) with a well-formed resting element of material m |
| Tiles.TileWithElement | Tile.h:28-30 | a tile built from a position and an element sits at that position with a fresh resting element of that element's material, the same tile as Tile(x, y, material) |
| Tiles.CopyTile | Tile.h:32-34 | a copy keeps the position and the material, with a fresh resting element |
| Tiles.CopyNewTile | Tile.h:32-34 | copying a new tile gives the same tile back |
| Tiles.SwapElements | Tile.h:36-42 | when either tile has no element nothing changes; otherwise the payloads are exchanged, positions stay, and each element's parent is its new tile |
| Tiles.SwapElementsTwice | Tile.h:36-42 | swapping twice restores both tiles |
| Tiles.AssignTile | Tile.h:69-76 | the target takes the source's position and element, and that element's parent becomes the target |
| Tiles.AssignConsistent | Tile.h:69-76 | assigning a consistent tile gives exactly that tile |
| Tiles.CopyAndAssignEquality | Tile.h:78-81 | an assigned tile equals its source, and a copied tile equals its source exactly when the source's physics fields are the defaults |
| Grid.ValidIsPopulated | TileSet.h:9-88 | a valid grid has an element in every tile |
| Grid.InBoundsExactly | TileSet.cpp:62-64 | InBounds holds exactly when 0 <= x < width and 0 <= y < height, where width is the number of columns and height the length of column 0, or 0 when there are no columns (TileSet.h:77-83) |
| Grid.SentinelBlocks | TileSet.cpp:161-165 | outside the grid a tile is never empty, and the sentinel's maximum density (Engine.cpp:66) is never less than an element's; IsEmpty (TileSet.cpp:77-85) is false there |
| Grid.SetCell | TileSet.cpp:98-113 | writing one cell keeps the shape and changes only that cell |
| Grid.SetCellValid | TileSet.cpp:98-113 | writing a well-placed tile keeps the grid valid |
| Grid.Placed | TileSet.cpp:98-120 | SetTile writes only at the tile's own position and only when it is in bounds; every other cell and the shape are unchanged |
| Grid.PlacedValid | TileSet.cpp:98-120 | placing a tile with a well-formed element keeps the grid valid |
| Grid.SwapCells | TileSet.cpp:172-181 | a swap with either coordinate out of bounds leaves the grid unchanged, and any swap keeps the shape |
| Grid.SwapExchanges | TileSet.cpp:172-181 | an in-bounds swap exchanges exactly the two payloads, keeps the grid valid, and changes no other cell (TileSet.h:65-72) |
| Grid.PayloadDetermines | Tile.h:36-42 | two well-placed tiles at the same index with the same payload are equal |
| Grid.SwapTwice | TileSet.cpp:172-181 | swapping the same pair twice restores the grid |
| Grid.CountSetCell | TileSet.cpp:98-113 | writing one cell changes each material's count by exactly the cell's old and new material |
| Grid.SwapKeepsCensus | TileSet.cpp:172-181 | a swap keeps the count of every material |
| Grid.ResizedContents | TileSet.cpp:123-158 | a resize gives a w by h grid: cells in the old and new rectangle keep their material, every added cell is a new EMPTY tile at its index, and the grid is valid (TileSet.h:62-63) |
| Grid.ResizeSameSize | TileSet.cpp:134 | a resize to the same size is the identity, with or without the initialization flag |
| Grid.ClearedContents | TileSet.cpp:191-197 | clearing keeps the shape, makes every cell EMPTY, and leaves a valid grid (TileSet.h:74-75) |
| Grid.GridOf | Tile.h:24-26 | a grid built from materials has a new tile of that material at every index |
| Grid.GridOfValid | TileSet.h:9-88 | a rectangular grid built from materials is valid |
| Grid.CopyOfContents | TileSet.cpp:9-17 | the copy has the same shape and every cell's material, and is valid |
| Grid.ResizeSeq | TileSet.cpp:139-142 | QVector resize: the new length, the old prefix kept as values, and the filler beyond it |
| Grid.Stretched | TileSet.cpp:139-142 | after the two QVector resizes the grid has w columns of h tiles |
| Grid.TileSet.constructor | TileSet.cpp:4-7 | a new TileSet has no columns and is valid |
| Grid.TileSet.Copy | TileSet.cpp:9-17 | the copy constructor builds CopyOf the other grid |
| Grid.TileSet.SetTile | TileSet.cpp:98-113 | the new grid is Placed(old grid, tile) |
| Grid.TileSet.SetTileBulkUpdate | TileSet.cpp:116-120 | the new grid is Placed(old grid, a copy of the tile) |
| Grid.TileSet.Swap | TileSet.cpp:172-189 | the new grid is SwapCells of the old one, valid, with the same census |
| Grid.TileSet.ResizeTiles | TileSet.cpp:123-158 | the new grid is Resized(old grid, w, h, initialization) and valid |
| Grid.TileSet.ClearTiles | TileSet.cpp:191-197 | the new grid is Cleared(old grid), valid and the same shape |
| Grid.TileSet.StretchTiles | TileSet.cpp:139-142 | the two QVector resizes in place |
| Grid.TileSet.FillAddedColumns | TileSet.cpp:144-148 | every cell of every added column becomes a new EMPTY tile, and nothing else changes |
| Grid.TileSet.FillAddedRows | TileSet.cpp:150-154 | every added cell of every column becomes a new EMPTY tile, and nothing else changes |
| Physics.ConservesTransitive | Elements.cpp:24-35 | keeping validity, shape and census composes over successive steps |
| Physics.KeepsWoodTransitive | Elements.cpp:24-35 | leaving every wood tile in place composes over successive steps |
| Physics.SwapConserves | TileSet.cpp:172-181 | a swap keeps validity, shape and census, and keeps every wood tile unless one of the two cells is wood |
| Physics.SetHeading | Elements.cpp:139-149 | writing the heading changes only that field of that one element, and keeps validity, shape, census and wood |
| Physics.SetHeadingSame | Elements.cpp:139-149 | rewriting an element's own heading changes nothing |
| Physics.SetHeadingTwice | Elements.cpp:139-149 | of two heading writes only the last one counts |
| Physics.Fall | Elements.cpp:14-36 | the gravity step conserves the grid, changes nothing when it does not move, and moves only to an in-bounds target |
| Physics.FallSinksDenser | Elements.cpp:24-35 | a falling element moves exactly when the tile below is in bounds and is EMPTY or less dense, and then the two payloads trade places and every other cell is unchanged |
| Physics.SandSinksThroughWater | Elements.cpp:27-35 | in a 1x2 column, sand above water ends as water above sand |
| Physics.FallPosition | Elements.cpp:14-36 | after gravity the element's material is at the target when it moved, and in place otherwise |
| Physics.SpreadChoice | Elements.cpp:52-76 | no move exactly when no candidate qualifies; otherwise the move of best priority (empty diagonal, then less-dense diagonal, then empty side), with the coin deciding between two equal ones |
| Physics.SpreadChoiceSymmetric | Elements.cpp:52-76 | mirroring the neighbourhood and the coin mirrors the choice |
| Physics.ChoiceInBounds | Elements.cpp:45-50 | a chosen target is always in bounds |
| Physics.ChoiceAvoidsWood | Elements.cpp:45-50 | a chosen target is never wood |
| Physics.Spread | Elements.cpp:38-83 | the spread conserves the grid and keeps wood, changes nothing when it does not move, and moves exactly when a choice exists |
| Physics.SlideChoice | Elements.cpp:97-119 | the slide choice is the spread choice with the side moves removed, and only below friction 0.5 |
| Physics.SlideIsDiagonal | Elements.cpp:97-119 | a slide only goes down a diagonal, and friction >= 0.5 never slides |
| Physics.SpreadMoves | Elements.cpp:78-80 | when a spread moves it is exactly one swap: the element lands on the chosen target, that cell's element takes its place, and every other cell is unchanged |
| Physics.Slide | Elements.cpp:92-126 | the slide conserves the grid and keeps wood, changes nothing when it does not move, and moves exactly when a slide choice exists |
| Physics.SlideMoves | Elements.cpp:121-123 | when a slide moves it is exactly one swap with the chosen cell down-left or down-right, and every other cell is unchanged |
| Physics.ChoiceAvoidsWoodMasked | Elements.cpp:97-119 | a chosen slide target is in bounds and never wood |
| Physics.HeadingStep | Elements.cpp:138-157 | the heading step conserves the grid, and for water keeps every wood tile |
| Physics.FlowAlongHeading | Elements.cpp:139-157 | a zero heading becomes the coin's ±1; an out-of-bounds target moves nothing; a denser target zeroes the heading and moves nothing; otherwise exactly one swap with the target; every cell but the element's and the target's is unchanged; water never flows into wood |
| Physics.Flow | Elements.cpp:135-160 | the liquid spread conserves the grid and keeps wood |
| Physics.SolidStep | Elements.cpp:85-90 | gravity then slide conserves the grid, and keeps wood for sand |
| Physics.FallThenSlide | Elements.cpp:85-90 | both halves run: sand over an empty tile falls and then slides down a diagonal in the same update |
| Physics.LiquidStep | Elements.cpp:128-133 | gravity then flow conserves the grid, and keeps wood for water |
| Physics.ElementStep | Elements.cpp:10-12 | every update conserves the grid and keeps wood, and EMPTY and wood never change anything |
| Physics.WriteHeading | Elements.cpp:143-149 | the heading write in place equals SetHeading |
| Physics.GravityUpdate | Elements.cpp:14-36 | the grid and the result equal the Fall step |
| Physics.SpreadUpdate | Elements.cpp:38-83 | the grid and the result equal the Spread step |
| Physics.SolidSpreadUpdate | Elements.cpp:92-126 | the grid and the result equal the Slide step |
| Physics.LiquidSpreadUpdate | Elements.cpp:135-160 | the grid and the result equal the Flow step |
| Physics.HeadingUpdate | Elements.cpp:138-157 | the grid and the result equal the heading step |
| Physics.SolidUpdate | Elements.cpp:85-90 | the grid and the result equal SolidStep |
| Physics.LiquidUpdate | Elements.cpp:128-133 | the grid and the result equal LiquidStep |
| Physics.Update | Elements.cpp:10-12 | the grid and the result equal ElementStep, and the grid stays valid |
| Scheduler.Visit | TileSet.cpp:49-54 | visiting a cell conserves the grid and keeps wood, and an EMPTY cell is skipped |
| Scheduler.VisitRows | TileSet.cpp:49-54 | a column's rows, bottom up, conserve the grid and keep wood |
| Scheduler.VisitColumns | TileSet.cpp:47-55 | the first k visits conserve the grid and keep wood |
| Scheduler.VisitColumnsNext | TileSet.cpp:47-55 | visit k+1 runs column order[k] on the grid the first k visits left |
| Scheduler.Tick | TileSet.cpp:40-59 | a whole tick conserves validity, shape, census and every wood tile |
| Scheduler.UpdateTiles | Engine.cpp:27-38 | the in-place tick equals Tick, keeps the grid valid, keeps every material's count, and keeps every wood tile |
| Scheduler.UpdateVisit | TileSet.cpp:48 | visit i runs column order[i]: the clamp to the last column never changes a permutation's entry |
| Scheduler.UpdateColumn | Engine.cpp:32-37 | the in-place column loop, bottom up and skipping EMPTY, equals VisitRows |
| Scheduler.StillRows | TileSet.cpp:49-54 | on a grid of only EMPTY and wood, visiting a column changes nothing |
| Partitions.RouteLoop | Engine.cpp:136-152 | the routing loop with its decrement computes RouteAsWritten |
| Partitions.RouteAsWrittenExactly | Engine.cpp:133-153 | as written, a coordinate <= 0 routes to -1, and v > 0 routes to min((v-1)/size, total-1) |
| Partitions.BoundaryMisrouted | Engine.cpp:133-153 | as written, coordinate k*size routes to worker k-1 at local coordinate size, which is outside that worker's grid, and 0 routes to no worker |
| Partitions.WorkerSlot | Engine.cpp:133-153 | corrected routing: -1 exactly when the coordinate is negative or the sizes are not positive; otherwise a worker in range whose band starts at or before v and, inside the grid, ends after it |
| Partitions.SlotUnique | Engine.cpp:133-153 | corrected routing picks worker s exactly when v lies in s's band [s*size, (s+1)*size) |
| Partitions.ProjectedContents | Engine.cpp:43-56 | the projection keeps the shared grid's shape and validity, copies each local material to (i + xOffset, j + yOffset) when that is in bounds, and leaves every other shared cell untouched |
| Partitions.Worker.constructor | Engine.h:42-53 | the worker's grid is a copy of the shared one, the request is (-1, -1), and the offsets are column * -1 and row * -1 |
| Partitions.Worker.ServiceResize | Engine.cpp:14-24 | with the lock and a pending request: resize to the request, offsets column*width and row*height, the request zeroed and the flag cleared; otherwise nothing changes |
| Partitions.Worker.RequestResize | Engine.cpp:181-183 | the request is set and marked pending, and the offsets are unchanged |
| Partitions.Worker.Project | Engine.cpp:43-56 | with the lock the shared grid becomes Projected(old shared grid, worker grid, offsets); without it nothing changes |
| Partitions.Worker.ProjectColumn | Engine.cpp:49-51 | one column of the projection, bottom up |
| Partitions.Worker.UpdateTiles | Engine.cpp:12-57 | resize service, then the tick on the worker's grid when its lock is taken, then the projection only when no resize is pending |
| Partitions.ClearGrids | Engine.cpp:116-118 | every grid of the set is cleared and stays valid |
| Partitions.Engine.constructor | Engine.cpp:59-74 | the engine starts with the given size, the EMPTY brush, no workers, and a w by h shared grid of new EMPTY tiles |
| Partitions.Engine.SetupWorkerThreads | Engine.cpp:76-84 | exactly one new worker per (row, column) of the table, each a copy of the shared grid at its key, and both counts recorded |
| Partitions.Engine.AddWorker | Engine.cpp:79 | one new worker at key (i, j), the table filled up to it |
| Partitions.Engine.ClearTiles | Engine.cpp:115-121 | every worker's grid and the shared grid are cleared |
| Partitions.Engine.SetMaterial | Engine.cpp:123-125 | the brush material is set and nothing else changes |
| Partitions.Engine.ResizeTiles | Engine.cpp:170-189 | nothing changes when the size is the same and not initializing; otherwise the shared grid is resized and, once workers run, each worker whose lock was taken gets width/columns by height/rows (integer division) |
| Partitions.Engine.PostResizeRequests | Engine.cpp:178-187 | each worker whose lock was taken gets the request, and the others are untouched |
| Partitions.Engine.PostRequest | Engine.cpp:181-183 | one worker gets the request, and the others are untouched |
| Partitions.Engine.UserPlacedTile | Engine.cpp:129-167 | with the corrected routing, only the owning worker's grid changes, and only when its lock is taken: a copy of the tile is placed at (x - xOffset, y - yOffset), and only if that is in bounds |

## Left out

- Threads, timers and `QObject` wiring (Engine.h, Engine.cpp:86-113) are not modelled:
  `work`, `setup`, `finished`, the destructor and the update timer are concurrency and
  scheduling.
- Locks and timeouts: each `tryLockFor*` is a `bool` input, and `lockForRead`/`lockForWrite`
  always succeed. Interleavings of workers and the main thread are not modelled.
- Randomness: `rand()`, `srand(time)` and `random_shuffle` are inputs (coins and a
  permutation). The tick's coin function is indexed by (visit number, row). At most one coin
  is drawn per element update,
  because a generic spread draws only when it moves and a liquid draws for its heading only
  when the generic spread did not move.
- Rendering (QGraphicsPixelitem, QGraphicsEngineItem), the window and the brush rasterisation
  (PhysicsWindow, MainWindow): floating-point drawing code, not part of this model.
- Hashhelpers.h and GeneralHashHelpers.h: the worker table is a Dafny `map` with exact-key
  lookup. The `QPoint` ordering of GeneralHashHelpers.h:6-9 is not a strict weak order, so
  `QMap` lookup can miss keys that are present in some table shapes (a 3 by 3 table, say).
  Exact-key lookup matches the source only for tables where every key is found, such as the
  2 by 4 table Engine.cpp:98 builds. The iteration order of `QMap` is not modelled either.
- Grid.ResizedContents: keeps every tile of the old and new rectangle whole, heading
  included. When `QVector<Tile>::resize` (TileSet.cpp:139-142) grows a column past its
  capacity it reallocates. Because `Tile` is not declared movable, it copies each kept tile
  through `Tile(const Tile&)` (Tile.h:32-34), which gives the tile a fresh element of the same
  material, so a resting liquid's heading returns to 0. The model keeps the whole tile, as
  happens when no reallocation occurs. It does not model QVector capacity. What holds either
  way, the material and position of every kept cell, is what the lemma's contract states.
- Grid.ResizeSeq: keeps the old prefix as values; the reallocation copy described above is
  not modelled.
- Grid.TileSet.ResizeTiles and Partitions.Worker.ServiceResize: go through Resized, so a
  kept tile's element keeps its physics state across a resize, as above.
- The unused physics fields (temperature, lifetime, onFire, velocity) are kept as constants,
  and the Ice, Gas and Steam stubs are not modelled.
- Tiles and elements are values. The `shared_ptr` sharing that `Tile::operator=` creates, and
  the raw `parentTile` pointer, become the tile's position. Aliasing between two tiles that
  share an element is not modelled.
- Scheduler.StillRows: the whole-tick form (a grid of only EMPTY and wood is a fixed point of
  the tick) is stated per column only.
- Partitions.Engine.SetupWorkerThreads: requires an empty worker table. The source calls it
  once, from `SetEngineGraphicsItem` (Engine.cpp:94-108), before any worker exists; replacing
  existing workers is not modelled.
- Partitions.Worker.UpdateTiles: requires a pending request to be non-negative
  (`RequestSized`). Every request the engine posts is a quotient of non-negative sizes.
- Partitions.Worker.UpdateTiles: the permutation is an input sized to the grid the tick runs
  on. `std::random_shuffle`'s distribution is not modelled.
- Partitions.Worker.constructor: `needToResize` is a `std::atomic<bool>` the source never
  initialises, and `m_workersInitialized` is read before it is assigned in the engine
  constructor. Both are modelled as false at construction.
- Partitions.Engine.constructor: `totalWorkerRows` and `totalWorkerColumns` are uninitialised
  before `SetupWorkerThreads`. They are modelled as 0.
- Partitions.Engine.UserPlacedTile: uses the corrected routing (see Findings) and requires the
  worker counts to be non-zero. The source divides by them, and before `SetupWorkerThreads`
  they are uninitialised.
- Integers are unbounded. The source's `int` arithmetic (offsets, sizes, products in the
  routing loop) does not overflow for any screen size, so no wrap-around is modelled.
- Materials.CopyElement: takes the new parent as an argument. The copy constructors of
  Elements.h:49-56 leave `parentTile` unset, and the copy's owner sets it afterwards, so the
  model never has an element without a parent.
- Materials.AssignElement: requires both elements to be of the same class. `Element::operator=`
  (Elements.h:58-69) accepts any element through the base class and then copies only the base
  fields; assignment across classes (a friction or gravityUpdated left behind) is not modelled.
- The `QPoint` form of `heading` is not modelled; the heading is an integer horizontal step.

## Findings

| source | as written | input that shows it | evidently intended | confidence | as-written member | corrected member |
|---|---|---|---|---|---|---|
| Engine.cpp:133-153 | the routing loop stops at the first k with v <= k*size and then decrements, so it picks k-1 | y = k*h with 1 <= k <= totalRows (for example y = h): the tile goes to worker k-1 at local row h, one past that worker's last row, so SetTileBulkUpdate drops it; y = 0 (row 0 of the screen) routes to -1 and is never placed | worker floor(v/size), clamped to the last worker, so that v lies in that worker's band [s*size, (s+1)*size) | not executed | Partitions.BoundaryMisrouted | Partitions.WorkerSlot |
