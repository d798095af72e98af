/**
 * Engine.cpp: the partitioned engine. The shared grid is split into totalRows x totalColumns
 * workers; each worker owns a private TileSet, services resize requests, runs the tick on it
 * and projects its materials back into the shared grid at its offset. The engine routes a
 * tile the user places to the worker that owns it.
 *
 * Every try-lock of the source is a boolean parameter (true: the lock was taken), the
 * shuffle and the coins of a tick are parameters, and the threads that run the workers are
 * not part of this model: each method is one sequential call.
 */
module Partitions {
  import opened Wrappers
  import opened Materials
  import opened Tiles
  import opened Grid
  import opened Scheduler

  function Min(a: int, b: int): int
  {
    if a <= b then a else b
  }

  // ---------------------------------------------------------------------------------------
  // Routing a placed tile to a worker (Engine.cpp:133-153)

  /**
   * The stopping point of one routing loop of UserPlacedTile: the first k, counting up from
   * k, with v <= k * size, or the bound once k reaches it.
   */
  function FirstReaching(v: int, size: int, total: int, k: int): int
    decreases total - k
  {
    if k >= total then k
    else if v <= k * size then k
    else FirstReaching(v, size, total, k + 1)
  }

  /** The worker index UserPlacedTile computes for coordinate v, as written: the loop's stopping point minus one. */
  function RouteAsWritten(v: int, size: int, total: int): int
  {
    FirstReaching(v, size, total, 0) - 1
  }

  /** One routing loop of UserPlacedTile (Engine.cpp:136-152), with its decrement. */
  method RouteLoop(v: int, size: int, total: int) returns (index: int)
    ensures index == RouteAsWritten(v, size, total)
  {
    var k := 0;
    while k < total
      invariant 0 <= k
      invariant FirstReaching(v, size, total, k) == FirstReaching(v, size, total, 0)
      decreases total - k
    {
      if v <= k * size {
        break;
      }
      k := k + 1;
    }
    index := k - 1;
  }

  lemma MulMonotone(a: int, b: int, size: int)
    requires size > 0 && a <= b
    ensures a * size <= b * size
  {
  }

  /** Euclidean division is characterised by its bracket: d * size <= n < (d + 1) * size. */
  lemma DivBracket(n: int, size: int, d: int)
    requires size > 0 && d * size <= n < (d + 1) * size
    ensures n / size == d
  {
    var q := n / size;
    if q < d {
      MulMonotone(q + 1, d, size);
    } else if q > d {
      MulMonotone(d + 1, q, size);
    }
  }

  lemma {:induction false} FirstReachingCeiling(v: int, size: int, total: int, k: int)
    requires size > 0 && v > 0 && 0 <= k <= total && k <= (v - 1) / size + 1
    ensures FirstReaching(v, size, total, k) == Min((v - 1) / size + 1, total)
    decreases total - k
  {
    var d := (v - 1) / size;
    if k < total {
      if v <= k * size {
        if k <= d {
          MulMonotone(k, d, size);
        }
      } else {
        FirstReachingCeiling(v, size, total, k + 1);
      }
    }
  }

  /**
   * What the routing loops compute: -1 for v <= 0, and otherwise the k with
   * k * size < v <= (k + 1) * size, capped at the last worker.
   */
  lemma RouteAsWrittenExactly(v: int, size: int, total: int)
    requires size > 0 && total > 0
    ensures v <= 0 ==> RouteAsWritten(v, size, total) == -1
    ensures v > 0 ==> RouteAsWritten(v, size, total) == Min((v - 1) / size, total - 1)
  {
    if v > 0 {
      FirstReachingCeiling(v, size, total, 0);
    }
  }

  /**
   * The off-by-one: the first coordinate of every worker but the first, v = k * size, is
   * routed to worker k - 1, where its local coordinate v - (k - 1) * size is size, one past
   * that worker's last cell; and coordinate 0 is routed to no worker at all.
   */
  lemma BoundaryMisrouted(k: int, size: int, total: int)
    requires size > 0 && 1 <= k <= total
    ensures RouteAsWritten(k * size, size, total) == k - 1
    ensures k * size - (k - 1) * size == size
    ensures RouteAsWritten(0, size, total) == -1
  {
    RouteAsWrittenExactly(k * size, size, total);
    RouteAsWrittenExactly(0, size, total);
    assert (k - 1) * size <= k * size - 1 < k * size;
    DivBracket(k * size - 1, size, k - 1);
  }

  /**
   * The worker index routing evidently intends: the slot of size `size` that contains v,
   * with coordinates past the last full slot going to the last worker; -1 (no worker)
   * for a negative coordinate or when there are no slots of positive size.
   */
  function WorkerSlot(v: int, size: int, total: int): (r: int)
    ensures v < 0 || size <= 0 || total <= 0 <==> r == -1
    ensures 0 <= v && size > 0 && total > 0 ==> 0 <= r < total && r * size <= v
    ensures 0 <= v < total * size && size > 0 ==> v < (r + 1) * size
  {
    if v < 0 || size <= 0 || total <= 0 then -1
    else if v / size < total then v / size
    else
      MulMonotone(total, v / size, size);
      total - 1
  }

  /**
   * Inside the workers' span, a coordinate is routed to worker s exactly when its local
   * coordinate v - s * size lies inside that worker.
   */
  lemma SlotUnique(v: int, size: int, total: int, s: int)
    requires size > 0 && 0 <= v < total * size && 0 <= s < total
    ensures WorkerSlot(v, size, total) == s <==> 0 <= v - s * size < size
  {
    if 0 <= v - s * size < size {
      DivBracket(v, size, s);
    }
  }

  // ---------------------------------------------------------------------------------------
  // Projection of a worker's grid into the shared grid (Engine.cpp:43-56)

  /**
   * The shared grid after a worker projects: every cell (a, b) of the shared grid whose
   * local coordinate (a - xo, b - yo) is inside the worker's grid holds a new tile of that
   * local cell's material; every other cell is as it was.
   */
  function Projected(m: TileGrid, l: TileGrid, xo: int, yo: int): TileGrid
    requires Populated(l)
  {
    seq(|m|, a requires 0 <= a < |m| =>
      seq(|m[a]|, b requires 0 <= b < |m[a]| =>
        if InBounds(l, a - xo, b - yo) then NewTile(a, b, MaterialOf(l[a - xo][b - yo])) else m[a][b]))
  }

  /**
   * Projection keeps the shared grid's shape and validity, shows every local cell's
   * material at its offset position when that is inside the shared grid, and leaves every
   * cell no local cell maps to untouched.
   */
  lemma ProjectedContents(m: TileGrid, l: TileGrid, xo: int, yo: int)
    requires ValidTiles(m) && ValidTiles(l)
    ensures SameShape(Projected(m, l, xo, yo), m) && ValidTiles(Projected(m, l, xo, yo))
    ensures forall i, j :: InBounds(l, i, j) && InBounds(m, i + xo, j + yo) ==>
              MaterialOf(Projected(m, l, xo, yo)[i + xo][j + yo]) == MaterialOf(l[i][j])
    ensures forall a, b :: 0 <= a < |m| && 0 <= b < |m[a]| && !InBounds(l, a - xo, b - yo) ==>
              Projected(m, l, xo, yo)[a][b] == m[a][b]
  {
    var r := Projected(m, l, xo, yo);
    forall a, b | 0 <= a < |m| && 0 <= b < |m[a]|
      ensures WellPlaced(r[a][b], a, b)
    {
      if InBounds(l, a - xo, b - yo) {
        assert r[a][b] == NewTile(a, b, MaterialOf(l[a - xo][b - yo]));
      } else {
        assert r[a][b] == m[a][b];
      }
    }
    forall i, j | InBounds(l, i, j) && InBounds(m, i + xo, j + yo)
      ensures MaterialOf(r[i + xo][j + yo]) == MaterialOf(l[i][j])
    {
      var a, b := i + xo, j + yo;
      assert b < |m[a]|;
      assert a - xo == i && b - yo == j;
      assert r[a][b] == NewTile(a, b, MaterialOf(l[i][j]));
    }
  }

  /**
   * The projection loop's progress: local columns before i, and rows above j of column i,
   * have been written.
   */
  predicate Projecting(t: TileGrid, m: TileGrid, l: TileGrid, xo: int, yo: int, i: int, j: int)
  {
    Populated(l) && Rectangular(m) && SameShape(t, m)
    && forall a, b :: 0 <= a < |m| && 0 <= b < |m[a]| ==>
         t[a][b] == if InBounds(l, a - xo, b - yo) && (a - xo < i || (a - xo == i && b - yo > j))
                    then NewTile(a, b, MaterialOf(l[a - xo][b - yo])) else m[a][b]
  }

  lemma ProjectingStart(m: TileGrid, l: TileGrid, xo: int, yo: int)
    requires Populated(l) && Rectangular(m)
    ensures Projecting(m, m, l, xo, yo, 0, Height(l) - 1)
  {
  }

  lemma ProjectingStep(t: TileGrid, m: TileGrid, l: TileGrid, xo: int, yo: int, i: int, j: int)
    requires Projecting(t, m, l, xo, yo, i, j) && InBounds(l, i, j)
    ensures Rectangular(t)
    ensures Projecting(Placed(t, NewTile(i + xo, j + yo, MaterialOf(l[i][j]))), m, l, xo, yo, i, j - 1)
  {
    assert |m| > 0 ==> |t[0]| == |m[0]|;
    var x, y := i + xo, j + yo;
    var r := Placed(t, NewTile(x, y, MaterialOf(l[i][j])));
    forall a, b | 0 <= a < |m| && 0 <= b < |m[a]|
      ensures r[a][b] == if InBounds(l, a - xo, b - yo) && (a - xo < i || (a - xo == i && b - yo > j - 1))
                         then NewTile(a, b, MaterialOf(l[a - xo][b - yo])) else m[a][b]
    {
      if a == x && b == y {
        PlacedNewTile(t, x, y, MaterialOf(l[i][j]));
      }
    }
  }

  lemma ProjectingNextColumn(t: TileGrid, m: TileGrid, l: TileGrid, xo: int, yo: int, i: int)
    requires Projecting(t, m, l, xo, yo, i, -1)
    ensures Projecting(t, m, l, xo, yo, i + 1, Height(l) - 1)
  {
  }

  lemma ProjectingDone(t: TileGrid, m: TileGrid, l: TileGrid, xo: int, yo: int)
    requires Projecting(t, m, l, xo, yo, Width(l), Height(l) - 1)
    ensures t == Projected(m, l, xo, yo)
  {
    GridExtensionality(t, Projected(m, l, xo, yo));
  }

  // ---------------------------------------------------------------------------------------
  // Worker (Engine.h:34-106, Engine.cpp:12-57)

  /**
   * One partition: a private copy of the shared grid, the worker's place in the partition
   * table, its offsets into the shared grid and a pending resize request.
   */
  class Worker {
    const main: TileSet
    const tileSet: TileSet
    const totalRows: int
    const totalColumns: int
    const row: int
    const column: int
    var xOffset: int
    var yOffset: int
    var requestWidth: int
    var requestHeight: int
    var needToResize: bool

    /** Both grids valid and distinct. */
    ghost predicate Valid()
      reads main, tileSet
    {
      main != tileSet && main.Valid() && tileSet.Valid()
    }

    /** A pending request has a size QVector::resize can take. */
    predicate RequestSized()
      reads this
    {
      needToResize ==> requestWidth >= 0 && requestHeight >= 0
    }

    /**
     * Worker(...) (Engine.h:42-53): the private grid is a copy of the shared one; the request
     * is a default QSize, (-1, -1), so the initial offsets are -column and -row; no resize is
     * pending.
     */
    constructor (allTiles: TileSet, totalRows: int, totalColumns: int, row: int, column: int)
      requires allTiles.Valid()
      ensures Valid() && fresh(tileSet)
      ensures main == allTiles && tileSet.tiles == CopyOf(allTiles.tiles)
      ensures this.totalRows == totalRows && this.totalColumns == totalColumns
      ensures this.row == row && this.column == column
      ensures xOffset == -column && yOffset == -row
      ensures requestWidth == -1 && requestHeight == -1 && !needToResize
    {
      main := allTiles;
      tileSet := new TileSet.Copy(allTiles);
      this.totalRows := totalRows;
      this.totalColumns := totalColumns;
      this.row := row;
      this.column := column;
      var request := Point(-1, -1);
      requestWidth, requestHeight := request.x, request.y;
      xOffset := column * request.x;
      yOffset := row * request.y;
      needToResize := false;
      CopyOfContents(allTiles.tiles);
    }

    /**
     * The resize block of Worker::UpdateTiles (Engine.cpp:14-24): when the lock is taken and
     * a resize is pending, resize the private grid to the request, move the offsets to
     * column * width and row * height, zero the request and clear the flag.
     */
    method ServiceResize(locked: bool)
      requires Valid() && RequestSized()
      modifies this, tileSet
      ensures Valid()
      ensures locked && old(needToResize) ==>
        tileSet.tiles == Resized(old(tileSet.tiles), old(requestWidth), old(requestHeight), false)
        && Width(tileSet.tiles) == old(requestWidth)
        && xOffset == column * old(requestWidth) && yOffset == row * old(requestHeight)
        && requestWidth == 0 && requestHeight == 0 && !needToResize
      ensures !(locked && old(needToResize)) ==>
        tileSet.tiles == old(tileSet.tiles) && xOffset == old(xOffset) && yOffset == old(yOffset)
        && requestWidth == old(requestWidth) && requestHeight == old(requestHeight) && needToResize == old(needToResize)
    {
      if locked && needToResize {
        ghost var g := tileSet.tiles;
        tileSet.ResizeTiles(requestWidth, requestHeight, false);
        if requestWidth != Width(g) || requestHeight != Height(g) {
          ResizedContents(g, requestWidth, requestHeight, false);
        }
        xOffset := column * requestWidth;
        yOffset := row * requestHeight;
        requestWidth, requestHeight := 0, 0;
        needToResize := false;
      }
    }

    /** What Engine::ResizeTiles does to a worker whose lock it takes (Engine.cpp:181-183). */
    method RequestResize(w: int, h: int)
      requires w >= 0 && h >= 0
      modifies this
      ensures RequestSized()
      ensures requestWidth == w && requestHeight == h && needToResize
      ensures xOffset == old(xOffset) && yOffset == old(yOffset)
    {
      requestWidth, requestHeight := w, h;
      needToResize := true;
    }

    /**
     * The projection block of Worker::UpdateTiles (Engine.cpp:43-56): when the lock is taken,
     * write a new tile of each local cell's material into the shared grid at the cell's
     * position plus the offsets, column by column, rows from the bottom up.
     */
    method Project(locked: bool)
      requires Valid()
      modifies main
      ensures Valid()
      ensures main.tiles == if locked then Projected(old(main.tiles), tileSet.tiles, xOffset, yOffset) else old(main.tiles)
    {
      if locked {
        ghost var m := main.tiles;
        var l := tileSet.tiles;
        ProjectingStart(m, l, xOffset, yOffset);
        var i := 0;
        while i < |l|
          invariant 0 <= i <= |l|
          invariant Projecting(main.tiles, m, l, xOffset, yOffset, i, Height(l) - 1)
        {
          ProjectColumn(i, m, l);
          ProjectingNextColumn(main.tiles, m, l, xOffset, yOffset, i);
          i := i + 1;
        }
        ProjectingDone(main.tiles, m, l, xOffset, yOffset);
        ProjectedContents(m, l, xOffset, yOffset);
      }
    }

    /** Column i of the projection (Engine.cpp:49-51): rows from the bottom up. */
    method ProjectColumn(i: int, ghost m: TileGrid, l: TileGrid)
      requires 0 <= i < |l|
      requires Projecting(main.tiles, m, l, xOffset, yOffset, i, Height(l) - 1)
      modifies main
      ensures Projecting(main.tiles, m, l, xOffset, yOffset, i, -1)
    {
      var j := Height(l) - 1;
      while j >= 0
        invariant -1 <= j < Height(l)
        invariant Projecting(main.tiles, m, l, xOffset, yOffset, i, j)
      {
        var t := NewTile(i + xOffset, j + yOffset, l[i][j].element.value.material);
        ProjectingStep(main.tiles, m, l, xOffset, yOffset, i, j);
        CopyNewTile(i + xOffset, j + yOffset, l[i][j].element.value.material);
        main.SetTileBulkUpdate(t);
        j := j - 1;
      }
    }

    /**
     * Worker::UpdateTiles (Engine.cpp:12-57): service a pending resize, run the tick on the
     * private grid with the given shuffle and coins, then, unless a resize is still pending,
     * project the private grid into the shared one. Each flag says whether the matching
     * try-lock was taken.
     */
    method UpdateTiles(sizeLocked: bool, tilesLocked: bool, mainLocked: bool, order: seq<int>, coins: (int, int) -> bool)
      requires Valid() && RequestSized()
      requires IsPermutation(order, if sizeLocked && needToResize then requestWidth else Width(tileSet.tiles))
      modifies this, tileSet, main
      ensures Valid()
      ensures sizeLocked && old(needToResize) ==>
        xOffset == column * old(requestWidth) && yOffset == row * old(requestHeight)
        && requestWidth == 0 && requestHeight == 0 && !needToResize
      ensures !(sizeLocked && old(needToResize)) ==>
        xOffset == old(xOffset) && yOffset == old(yOffset) && needToResize == old(needToResize)
        && requestWidth == old(requestWidth) && requestHeight == old(requestHeight)
      ensures var resized :=
                if sizeLocked && old(needToResize)
                then Resized(old(tileSet.tiles), old(requestWidth), old(requestHeight), false)
                else old(tileSet.tiles);
              tileSet.tiles == if tilesLocked then Tick(resized, order, coins) else resized
      ensures main.tiles ==
                if mainLocked && !needToResize
                then Projected(old(main.tiles), tileSet.tiles, xOffset, yOffset)
                else old(main.tiles)
    {
      ServiceResize(sizeLocked);
      if tilesLocked {
        Scheduler.UpdateTiles(tileSet, order, coins);
      }
      if !needToResize {
        Project(mainLocked);
      }
    }
  }

  // ---------------------------------------------------------------------------------------
  // Engine (Engine.h:108-160, Engine.cpp:59-189)

  /** Clear each grid of a set of distinct grids, one at a time (the worker loop of Engine.cpp:116-118). */
  method ClearGrids(grids: set<TileSet>)
    requires forall g :: g in grids ==> g.Valid()
    modifies grids
    ensures forall g :: g in grids ==> g.Valid() && g.tiles == Cleared(old(g.tiles))
  {
    var remaining := grids;
    while remaining != {}
      invariant remaining <= grids
      invariant forall g :: g in grids ==> g.Valid() && g.tiles == if g in remaining then old(g.tiles) else Cleared(old(g.tiles))
      decreases remaining
    {
      var g :| g in remaining;
      g.ClearTiles();
      remaining := remaining - {g};
    }
  }

  /**
   * The engine: the shared grid, its size, the partition table and the workers, keyed by
   * (worker row, worker column). The map is looked up by exact key only.
   */
  class Engine {
    var width: nat
    var height: nat
    var totalRows: int
    var totalColumns: int
    var currentMaterial: Material
    const mainTiles: TileSet
    var workers: map<Point, Worker>
    var workersInitialized: bool

    function WorkerGrids(): set<TileSet>
      reads this
    {
      set k | k in workers :: workers[k].tileSet
    }

    /**
     * The shared grid is valid; every worker sits at its own key inside the partition
     * table, shares the engine's grid, is valid, and owns a private grid no other worker has.
     */
    ghost predicate Valid()
      reads this, mainTiles, WorkerGrids()
    {
      mainTiles.Valid()
      && (forall k :: k in workers ==>
            workers[k].main == mainTiles && workers[k].Valid()
            && workers[k].row == k.x && workers[k].column == k.y
            && 0 <= k.x < totalRows && 0 <= k.y < totalColumns)
      && (forall k1, k2 :: k1 in workers && k2 in workers && k1 != k2 ==> workers[k1].tileSet != workers[k2].tileSet)
    }

    /**
     * Engine(width, height) (Engine.cpp:59-74): resize the shared grid with the
     * initialization flag, clear it, and start with no workers and the EMPTY brush.
     */
    constructor (w: nat, h: nat)
      ensures Valid() && fresh(mainTiles)
      ensures width == w && height == h && currentMaterial == EMPTY
      ensures workers == map[] && !workersInitialized
      ensures Width(mainTiles.tiles) == w && forall i :: 0 <= i < w ==> |mainTiles.tiles[i]| == h
      ensures forall i, j :: 0 <= i < w && 0 <= j < h ==> mainTiles.tiles[i][j] == NewTile(i, j, EMPTY)
    {
      width, height := w, h;
      currentMaterial := EMPTY;
      mainTiles := new TileSet();
      workers := map[];
      workersInitialized := false;
      totalRows, totalColumns := 0, 0;
      new;
      ResizeTiles(w, h, true, {});
      ClearTiles();
      ClearedContents(Resized([], w, h, true));
    }

    /**
     * Engine::SetupWorkerThreads (Engine.cpp:76-84): one new worker for every (row, column)
     * of the totalRows x totalColumns table, each with a private copy of the shared grid,
     * then record both counts.
     */
    method SetupWorkerThreads(rows: int, columns: int)
      requires Valid() && workers == map[]
      modifies this
      ensures Valid()
      ensures totalRows == rows && totalColumns == columns
      ensures forall k :: k in workers <==> 0 <= k.x < rows && 0 <= k.y < columns
      ensures forall k :: k in workers ==> WorkerCreated(workers[k], k, rows, columns, mainTiles)
      ensures width == old(width) && height == old(height) && currentMaterial == old(currentMaterial)
      ensures workersInitialized == old(workersInitialized)
    {
      var i := 0;
      while i < rows
        invariant 0 <= i && (i <= rows || i == 0)
        invariant Table(i, 0, rows, columns)
        invariant width == old(width) && height == old(height) && currentMaterial == old(currentMaterial)
        invariant workersInitialized == old(workersInitialized)
      {
        var j := 0;
        while j < columns
          invariant 0 <= j && (j <= columns || j == 0)
          invariant Table(i, j, rows, columns)
          invariant width == old(width) && height == old(height) && currentMaterial == old(currentMaterial)
          invariant workersInitialized == old(workersInitialized)
        {
          AddWorker(i, j, rows, columns);
          j := j + 1;
        }
        i := i + 1;
      }
      totalRows, totalColumns := rows, columns;
    }

    /** One step of SetupWorkerThreads (Engine.cpp:79): a new worker at key (i, j). */
    method AddWorker(i: int, j: int, rows: int, columns: int)
      requires Table(i, j, rows, columns) && 0 <= i < rows && 0 <= j < columns
      modifies this
      ensures Table(i, j + 1, rows, columns)
      ensures width == old(width) && height == old(height) && currentMaterial == old(currentMaterial)
      ensures workersInitialized == old(workersInitialized)
    {
      var w := new Worker(mainTiles, rows, columns, i, j);
      workers := workers[Point(i, j) := w];
    }

    /**
     * The partition table SetupWorkerThreads has built so far: rows before i in full and
     * the first j workers of row i, each one created by the Worker constructor.
     */
    ghost predicate Table(i: int, j: int, rows: int, columns: int)
      reads this, mainTiles, workers.Values, WorkerGrids()
    {
      mainTiles.Valid()
      && (forall k :: k in workers <==> (0 <= k.x < i && 0 <= k.y < columns) || (k.x == i && 0 <= k.y < j))
      && (forall k :: k in workers ==> WorkerCreated(workers[k], k, rows, columns, mainTiles))
      && (forall k1, k2 :: k1 in workers && k2 in workers && k1 != k2 ==> workers[k1].tileSet != workers[k2].tileSet)
    }

    /** What the Worker constructor promises about the worker SetupWorkerThreads creates at key k. */
    ghost predicate WorkerCreated(w: Worker, k: Point, rows: int, columns: int, shared: TileSet)
      reads shared, w, w.tileSet
    {
      w.main == shared && w.Valid()
      && w.tileSet.tiles == CopyOf(shared.tiles)
      && w.row == k.x && w.column == k.y && w.totalRows == rows && w.totalColumns == columns
      && w.xOffset == -k.y && w.yOffset == -k.x && !w.needToResize
    }

    /** Engine::ClearTiles (Engine.cpp:115-121): clear every worker's private grid, then the shared grid. */
    method ClearTiles()
      requires Valid()
      modifies mainTiles, WorkerGrids()
      ensures Valid()
      ensures mainTiles.tiles == Cleared(old(mainTiles.tiles))
      ensures forall k :: k in workers ==> workers[k].tileSet.tiles == Cleared(old(workers[k].tileSet.tiles))
    {
      ClearGrids(WorkerGrids());
      mainTiles.ClearTiles();
    }

    /** Engine::SetMaterial (Engine.cpp:123-125): the material the brush places from now on. */
    method SetMaterial(m: Material)
      modifies this
      ensures currentMaterial == m
      ensures width == old(width) && height == old(height) && workers == old(workers)
      ensures totalRows == old(totalRows) && totalColumns == old(totalColumns)
      ensures workersInitialized == old(workersInitialized)
    {
      currentMaterial := m;
    }

    /**
     * Engine::ResizeTiles (Engine.cpp:170-189): nothing happens when the size is unchanged
     * and this is not the initialization; otherwise record the size, resize the shared grid,
     * and, once the workers run, post to every worker whose lock was taken (its key is in
     * `granted`) a request of width / totalColumns by height / totalRows.
     */
    method ResizeTiles(w: nat, h: nat, initialization: bool, granted: set<Point>)
      requires Valid()
      modifies this, mainTiles, workers.Values
      ensures Valid()
      ensures workers == old(workers) && totalRows == old(totalRows) && totalColumns == old(totalColumns)
      ensures currentMaterial == old(currentMaterial) && workersInitialized == old(workersInitialized)
      ensures w == old(width) && h == old(height) && !initialization ==>
        width == old(width) && height == old(height) && mainTiles.tiles == old(mainTiles.tiles)
        && forall k :: k in workers ==> Untouched(workers[k])
      ensures !(w == old(width) && h == old(height) && !initialization) ==>
        width == w && height == h && mainTiles.tiles == Resized(old(mainTiles.tiles), w, h, initialization)
        && forall k :: k in workers ==>
             if workersInitialized && k in granted
             then Requested(workers[k], w / totalColumns, h / totalRows)
             else Untouched(workers[k])
    {
      if w == width && h == height && !initialization {
        return;
      }
      width, height := w, h;
      mainTiles.ResizeTiles(w, h, initialization);
      if workersInitialized {
        PostResizeRequests(granted);
      }
    }

    /** The request loop of Engine::ResizeTiles (Engine.cpp:178-187), over every worker whose lock was taken. */
    method PostResizeRequests(granted: set<Point>)
      requires Valid()
      modifies workers.Values
      ensures Valid()
      ensures forall k :: k in workers ==>
        if k in granted then Requested(workers[k], width / totalColumns, height / totalRows) else Untouched(workers[k])
    {
      assert DistinctWorkers() && KeysInTable();
      var remaining := workers.Keys;
      while remaining != {}
        invariant remaining <= workers.Keys
        invariant forall k :: k in workers ==>
          if k in granted && k !in remaining then Requested(workers[k], width / totalColumns, height / totalRows)
          else Untouched(workers[k])
        decreases remaining
      {
        var k :| k in remaining;
        if k in granted {
          PostRequest(k);
        }
        remaining := remaining - {k};
      }
    }

    /** No two keys share a worker. */
    predicate DistinctWorkers()
      reads this
    {
      forall k1, k2 :: k1 in workers && k2 in workers && k1 != k2 ==> workers[k1] != workers[k2]
    }

    /** Every key lies inside the totalRows x totalColumns table. */
    predicate KeysInTable()
      reads this
    {
      forall k :: k in workers ==> 0 <= k.x < totalRows && 0 <= k.y < totalColumns
    }

    /** One request (Engine.cpp:181-183): the worker at key k gets width / totalColumns by height / totalRows. */
    method PostRequest(k: Point)
      requires k in workers && DistinctWorkers() && KeysInTable()
      modifies workers[k]
      ensures Requested(workers[k], width / totalColumns, height / totalRows)
      ensures forall k' :: k' in workers && k' != k ==> Untouched(workers[k'])
    {
      var worker := workers[k];
      worker.RequestResize(width / totalColumns, height / totalRows);
    }

    /** A worker holds a pending request of the given size, with its offsets as they were. */
    twostate predicate Requested(worker: Worker, rw: int, rh: int)
      reads worker
    {
      worker.requestWidth == rw && worker.requestHeight == rh && worker.needToResize
      && worker.xOffset == old(worker.xOffset) && worker.yOffset == old(worker.yOffset)
    }

    /** A worker's own fields are as they were when the method began. */
    twostate predicate Untouched(worker: Worker)
      reads worker
    {
      worker.xOffset == old(worker.xOffset) && worker.yOffset == old(worker.yOffset)
      && worker.requestWidth == old(worker.requestWidth) && worker.requestHeight == old(worker.requestHeight)
      && worker.needToResize == old(worker.needToResize)
    }

    /** The worker key a placed tile at `p` goes to, by the corrected routing (see WorkerSlot). */
    function WorkerKey(p: Point): Point
      requires totalRows != 0 && totalColumns != 0
      reads this
    {
      Point(WorkerSlot(p.y, height / totalRows, totalRows), WorkerSlot(p.x, width / totalColumns, totalColumns))
    }

    /**
     * Engine::UserPlacedTile (Engine.cpp:129-167), with the routing corrected: find the
     * worker that owns the tile's position; if there is one and its lock is taken, move the
     * tile to the worker's local coordinates (its position minus the worker's offsets) and
     * SetTileBulkUpdate it into the worker's grid. The tile is the by-value parameter.
     */
    method UserPlacedTile(tile: Tile, locked: bool)
      requires Valid() && tile.element.Some? && totalRows != 0 && totalColumns != 0
      modifies WorkerGrids()
      ensures Valid()
      ensures forall k :: k in workers ==>
        workers[k].tileSet.tiles ==
          if k == WorkerKey(tile.position) && locked
          then Placed(old(workers[k].tileSet.tiles),
                      CopyTile(tile.(position := Point(tile.position.x - workers[k].xOffset, tile.position.y - workers[k].yOffset))))
          else old(workers[k].tileSet.tiles)
    {
      var x, y := tile.position.x, tile.position.y;
      var workerWidths := width / totalColumns;
      var workerHeights := height / totalRows;
      var key := Point(WorkerSlot(y, workerHeights, totalRows), WorkerSlot(x, workerWidths, totalColumns));
      if key in workers && locked {
        var worker := workers[key];
        var local := tile.(position := Point(x - worker.xOffset, y - worker.yOffset));
        PlacedValid(worker.tileSet.tiles, CopyTile(local));
        worker.tileSet.SetTileBulkUpdate(local);
      }
    }
  }
}
