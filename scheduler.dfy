/**
 * The tick (TileSet::Update, TileSet.cpp:40-59, and the tick loop of Worker::UpdateTiles,
 * Engine.cpp:26-40): every column once, in the order a shuffle gives, and in each column the
 * rows from the bottom (height - 1) up to 0, updating every cell that does not hold EMPTY.
 * The shuffle is an input permutation and the coin for the update at visit i, row j is
 * coins(i, j).
 */
module Scheduler {
  import opened Materials
  import opened Tiles
  import opened Grid
  import opened Physics

  /** The result of std::iota followed by std::random_shuffle: every index below n exactly once. */
  predicate IsPermutation(order: seq<int>, n: int)
  {
    |order| == n
    && (forall k :: 0 <= k < |order| ==> 0 <= order[k] < n)
    && (forall a, b :: 0 <= a < b < |order| ==> order[a] != order[b])
  }

  /** One visited cell: an element that is not EMPTY gets its Update. */
  function Visit(g: TileGrid, col: int, j: int, coin: bool): (r: TileGrid)
    requires ValidTiles(g) && InBounds(g, col, j)
    ensures Conserves(g, r) && KeepsWood(g, r)
    ensures MaterialOf(g[col][j]) == EMPTY ==> r == g
  {
    if MaterialOf(g[col][j]) != EMPTY then ElementStep(g, col, j, coin).tiles else g
  }

  /** Rows j, j - 1, ..., 0 of column col, visited in that order during visit number i. */
  function VisitRows(g: TileGrid, col: int, j: int, i: int, coins: (int, int) -> bool): (r: TileGrid)
    requires ValidTiles(g) && 0 <= col < Width(g) && j < Height(g)
    ensures Conserves(g, r) && KeepsWood(g, r)
    decreases j + 1
  {
    if j < 0 then g
    else
      var g1 := Visit(g, col, j, coins(i, j));
      var r := VisitRows(g1, col, j - 1, i, coins);
      ConservesTransitive(g, g1, r);
      KeepsWoodTransitive(g, g1, r);
      r
  }

  /** The first k visits: columns order[0], ..., order[k - 1], each bottom row first. */
  function VisitColumns(g: TileGrid, order: seq<int>, k: nat, coins: (int, int) -> bool): (r: TileGrid)
    requires ValidTiles(g) && IsPermutation(order, Width(g)) && k <= |order|
    ensures Conserves(g, r) && KeepsWood(g, r)
  {
    if k == 0 then g
    else
      var g1 := VisitColumns(g, order, k - 1, coins);
      var r := VisitRows(g1, order[k - 1], Height(g1) - 1, k - 1, coins);
      ConservesTransitive(g, g1, r);
      KeepsWoodTransitive(g, g1, r);
      r
  }

  lemma VisitColumnsNext(g: TileGrid, order: seq<int>, k: nat, coins: (int, int) -> bool, h: TileGrid, col: int)
    requires ValidTiles(g) && IsPermutation(order, Width(g)) && k < |order|
    requires h == VisitColumns(g, order, k, coins) && col == order[k]
    ensures VisitColumns(g, order, k + 1, coins) == VisitRows(h, col, Height(h) - 1, k, coins)
  {
  }

  /** One whole tick. */
  function Tick(g: TileGrid, order: seq<int>, coins: (int, int) -> bool): (r: TileGrid)
    requires ValidTiles(g) && IsPermutation(order, Width(g))
    ensures Conserves(g, r) && KeepsWood(g, r)
  {
    VisitColumns(g, order, |order|, coins)
  }

  /**
   * TileSet::Update (TileSet.cpp:40-59) and the tick loop of Worker::UpdateTiles
   * (Engine.cpp:27-38): the tick in place, keeping the grid valid, its shape, every
   * material's count, and every wood tile.
   */
  method UpdateTiles(ts: TileSet, order: seq<int>, coins: (int, int) -> bool)
    requires ts.Valid() && IsPermutation(order, Width(ts.tiles))
    modifies ts
    ensures ts.tiles == Tick(old(ts.tiles), order, coins)
    ensures ts.Valid() && SameCensus(ts.tiles, old(ts.tiles)) && KeepsWood(old(ts.tiles), ts.tiles)
  {
    ghost var g0 := ts.tiles;
    var width := |ts.tiles|;  // the tick never changes the width
    var i := 0;
    while i < width
      invariant 0 <= i <= width == |order| && ts.Valid() && Width(ts.tiles) == width
      invariant ts.tiles == VisitColumns(g0, order, i, coins)
    {
      ghost var before := ts.tiles;
      UpdateVisit(ts, order, i, coins);
      VisitColumnsNext(g0, order, i, coins, before, order[i]);
      i := i + 1;
    }
  }

  /** Visit number i of the tick: column order[i], clamped to the last column as TileSet.cpp:48 does. */
  method UpdateVisit(ts: TileSet, order: seq<int>, i: nat, coins: (int, int) -> bool)
    requires ts.Valid() && IsPermutation(order, Width(ts.tiles)) && i < |order|
    modifies ts
    ensures ts.tiles == VisitRows(old(ts.tiles), order[i], Height(old(ts.tiles)) - 1, i, coins)
    ensures ts.Valid() && Width(ts.tiles) == Width(old(ts.tiles))
  {
    var col := if order[i] < |ts.tiles| - 1 then order[i] else |ts.tiles| - 1;
    assert col == order[i];
    UpdateColumn(ts, col, i, coins);
  }

  /** One column of the tick: rows from the bottom up, skipping EMPTY cells (TileSet.cpp:49-54, Engine.cpp:32-37). */
  method UpdateColumn(ts: TileSet, col: int, i: int, coins: (int, int) -> bool)
    requires ts.Valid() && 0 <= col < Width(ts.tiles)
    modifies ts
    ensures ts.tiles == VisitRows(old(ts.tiles), col, Height(old(ts.tiles)) - 1, i, coins)
    ensures ts.Valid()
  {
    ghost var target := VisitRows(ts.tiles, col, Height(ts.tiles) - 1, i, coins);
    ghost var g0 := ts.tiles;
    var j := |ts.tiles[col]| - 1;
    while j >= 0
      invariant -1 <= j < Height(ts.tiles) && ts.Valid() && SameShape(ts.tiles, g0)
      invariant VisitRows(ts.tiles, col, j, i, coins) == target
    {
      if ts.tiles[col][j].element.value.material != EMPTY {
        var _ := Update(ts, col, j, coins(i, j));
      }
      j := j - 1;
    }
  }

  /** Nothing in the grid can move: every tile holds EMPTY or wood. */
  predicate Still(g: TileGrid)
  {
    forall i, j :: 0 <= i < |g| && 0 <= j < |g[i]| ==> !Mobile(MaterialOf(g[i][j]))
  }

  /** Visiting any column of a grid that holds only EMPTY and wood leaves the grid exactly as it was. */
  lemma {:induction false} StillRows(g: TileGrid, col: int, j: int, i: int, coins: (int, int) -> bool)
    requires ValidTiles(g) && 0 <= col < Width(g) && j < Height(g) && Still(g)
    ensures VisitRows(g, col, j, i, coins) == g
    decreases j + 1
  {
    if j >= 0 {
      assert Visit(g, col, j, coins(i, j)) == g;
      StillRows(g, col, j - 1, i, coins);
    }
  }
}
