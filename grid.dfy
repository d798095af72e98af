/**
 * TileSet.h / TileSet.cpp: a column-major grid of tiles with bounds-checked access, the
 * swap primitive, resizing and clearing. The grid's contents are a value of type `TileGrid`;
 * the functions below are the specification, and the class `TileSet` holds the grid in a
 * field that its methods update in place.
 */
module Grid {
  import opened Wrappers
  import opened Materials
  import opened Tiles

  /** TileSet::Tiles: tiles[x][y], one sequence per column. */
  type TileGrid = seq<seq<Tile>>

  /** width() (TileSet.h:77-79). */
  function Width(g: TileGrid): nat
  {
    |g|
  }

  /** height() (TileSet.h:81-83): the length of column 0, or 0 when there are no columns. */
  function Height(g: TileGrid): nat
  {
    if |g| > 0 then |g[0]| else 0
  }

  predicate Rectangular(g: TileGrid)
  {
    forall i :: 0 <= i < |g| ==> |g[i]| == Height(g)
  }

  predicate HasElements(g: TileGrid)
  {
    forall i, j :: 0 <= i < |g| && 0 <= j < |g[i]| ==> g[i][j].element.Some?
  }

  /** What the source relies on whenever it reads the grid: all columns as long as column 0, and no null element. */
  predicate Populated(g: TileGrid)
  {
    Rectangular(g) && HasElements(g)
  }

  /** A tile that belongs at column i, row j. */
  predicate WellPlaced(t: Tile, i: int, j: int)
  {
    t.position == Point(i, j) && t.element.Some? && Consistent(t) && WellFormed(t.element.value)
  }

  /**
   * The TileSet invariant: rectangular, and every tile sits at its own index, owns a
   * well-formed element, and that element points back at it.
   */
  predicate ValidTiles(g: TileGrid)
  {
    Rectangular(g) && forall i, j :: 0 <= i < |g| && 0 <= j < |g[i]| ==> WellPlaced(g[i][j], i, j)
  }

  lemma ValidIsPopulated(g: TileGrid)
    requires ValidTiles(g)
    ensures Populated(g)
  {
  }

  predicate SameShape(a: TileGrid, b: TileGrid)
  {
    |a| == |b| && forall i :: 0 <= i < |a| ==> |a[i]| == |b[i]|
  }

  /** Two grids of the same shape that agree on every cell are equal. */
  lemma GridExtensionality(a: TileGrid, b: TileGrid)
    requires SameShape(a, b)
    requires forall i, j :: 0 <= i < |a| && 0 <= j < |a[i]| ==> a[i][j] == b[i][j]
    ensures a == b
  {
    forall i | 0 <= i < |a|
      ensures a[i] == b[i]
    {
    }
  }

  /** TileSet::InBounds (TileSet.cpp:62-64): inside the width and inside column 0's height. */
  predicate InBounds(g: TileGrid, x: int, y: int)
  {
    0 <= x < |g| && 0 <= y < |g[0]|
  }

  /**
   * On a rectangular grid InBounds holds exactly for 0 <= x < width() and 0 <= y < height(),
   * which are exactly the coordinates at which a tile is stored.
   */
  lemma InBoundsExactly(g: TileGrid, x: int, y: int)
    requires Rectangular(g)
    ensures InBounds(g, x, y) <==> 0 <= x < Width(g) && 0 <= y < Height(g)
    ensures InBounds(g, x, y) <==> 0 <= x < |g| && 0 <= y < |g[x]|
  {
  }

  function MaterialOf(t: Tile): Material
  {
    if t.element.Some? then t.element.value.material else EMPTY
  }

  /** TileSet::IsEmpty(x, y) (TileSet.cpp:77-85): false outside the grid, else whether the tile's material is EMPTY. */
  predicate IsEmpty(g: TileGrid, x: int, y: int)
    requires Populated(g)
  {
    InBounds(g, x, y) && g[x][y].element.value.material == EMPTY
  }

  /** The shared sentinel tile: a default tile whose element's density is the largest double (Engine.cpp:66). */
  const InvalidTile: Tile := DefaultTile().(element := Some(DefaultTile().element.value.(density := MaxDensity)))

  /** TileSet::TileAt (TileSet.cpp:161-165): the stored tile, or the sentinel outside the grid. */
  function TileAt(g: TileGrid, x: int, y: int): Tile
    requires Rectangular(g)
  {
    if InBounds(g, x, y) then g[x][y] else InvalidTile
  }

  /** The density of the element TileAt(x, y) owns. */
  function DensityAt(g: TileGrid, x: int, y: int): real
    requires Populated(g)
  {
    TileAt(g, x, y).element.value.density
  }

  /**
   * Outside the grid no move can qualify: the cell is not empty, and the sentinel is at
   * least as dense as any element, so a "strictly less dense than me" test fails against it.
   */
  lemma SentinelBlocks(g: TileGrid, x: int, y: int, e: Element)
    requires Populated(g) && !InBounds(g, x, y) && WellFormed(e)
    ensures !IsEmpty(g, x, y)
    ensures !(DensityAt(g, x, y) < e.density)
  {
    DensityBounds(e);
  }

  /** Writes one cell. */
  function SetCell(g: TileGrid, x: int, y: int, t: Tile): (r: TileGrid)
    requires 0 <= x < |g| && 0 <= y < |g[x]|
    ensures SameShape(r, g)
    ensures forall i, j :: 0 <= i < |g| && 0 <= j < |g[i]| ==> r[i][j] == if i == x && j == y then t else g[i][j]
  {
    g[x := g[x][y := t]]
  }

  lemma SetCellValid(g: TileGrid, x: int, y: int, t: Tile)
    requires ValidTiles(g) && 0 <= x < |g| && 0 <= y < |g[x]| && WellPlaced(t, x, y)
    ensures ValidTiles(SetCell(g, x, y, t))
  {
    var r := SetCell(g, x, y, t);
    assert forall i :: 0 <= i < |r| ==> |r[i]| == |g[i]|;
    assert Height(r) == Height(g);
  }

  /**
   * TileSet::SetTile and SetTileBulkUpdate's write (TileSet.cpp:98-120): a tile whose
   * position is inside the grid is assigned to the cell at that position; otherwise
   * nothing is written.
   */
  function Placed(g: TileGrid, t: Tile): (r: TileGrid)
    requires Rectangular(g) && t.element.Some?
    ensures SameShape(r, g)
    ensures !InBounds(g, t.position.x, t.position.y) ==> r == g
    ensures forall i, j :: 0 <= i < |g| && 0 <= j < |g[i]| && Point(i, j) != t.position ==> r[i][j] == g[i][j]
    ensures InBounds(g, t.position.x, t.position.y) ==>
      r[t.position.x][t.position.y] == AssignTile(g[t.position.x][t.position.y], t)
  {
    var x, y := t.position.x, t.position.y;
    if InBounds(g, x, y) then SetCell(g, x, y, AssignTile(g[x][y], t)) else g
  }

  /** Placing a tile whose element is well formed keeps the grid valid. */
  lemma PlacedValid(g: TileGrid, t: Tile)
    requires ValidTiles(g) && t.element.Some? && WellFormed(t.element.value)
    ensures ValidTiles(Placed(g, t))
  {
    var x, y := t.position.x, t.position.y;
    if InBounds(g, x, y) {
      SetCellValid(g, x, y, AssignTile(g[x][y], t));
    }
  }

  /**
   * TileSet::Swap (TileSet.cpp:172-181): when either coordinate is outside the grid nothing
   * changes; otherwise the two tiles' elements change places (Tile::SwapElements).
   */
  function SwapCells(g: TileGrid, x1: int, y1: int, x2: int, y2: int): (r: TileGrid)
    requires Rectangular(g)
    ensures SameShape(r, g)
    ensures !(InBounds(g, x1, y1) && InBounds(g, x2, y2)) ==> r == g
  {
    if !InBounds(g, x1, y1) || !InBounds(g, x2, y2) then g
    else
      var pair := SwapElements(g[x1][y1], g[x2][y2]);
      SetCell(SetCell(g, x1, y1, pair.0), x2, y2, pair.1)
  }

  /**
   * On a valid grid a swap of two cells inside it exchanges what the two cells carry,
   * leaves every other cell alone, and keeps the grid valid.
   */
  lemma SwapExchanges(g: TileGrid, x1: int, y1: int, x2: int, y2: int)
    requires ValidTiles(g) && InBounds(g, x1, y1) && InBounds(g, x2, y2)
    ensures ValidTiles(SwapCells(g, x1, y1, x2, y2))
    ensures Payload(SwapCells(g, x1, y1, x2, y2)[x1][y1]) == Payload(g[x2][y2])
    ensures Payload(SwapCells(g, x1, y1, x2, y2)[x2][y2]) == Payload(g[x1][y1])
    ensures forall i, j :: 0 <= i < |g| && 0 <= j < |g[i]| && Point(i, j) != Point(x1, y1) && Point(i, j) != Point(x2, y2)
              ==> SwapCells(g, x1, y1, x2, y2)[i][j] == g[i][j]
  {
    var pair := SwapElements(g[x1][y1], g[x2][y2]);
    var g1 := SetCell(g, x1, y1, pair.0);
    assert WellPlaced(pair.0, x1, y1);
    SetCellValid(g, x1, y1, pair.0);
    assert WellPlaced(pair.1, x2, y2);
    SetCellValid(g1, x2, y2, pair.1);
  }

  /** A valid tile is determined by its position and what it carries. */
  lemma PayloadDetermines(a: Tile, b: Tile, i: int, j: int)
    requires WellPlaced(a, i, j) && WellPlaced(b, i, j) && Payload(a) == Payload(b)
    ensures a == b
  {
    assert a.element.value == a.element.value.(parentTile := Point(0, 0)).(parentTile := Point(i, j));
    assert b.element.value == b.element.value.(parentTile := Point(0, 0)).(parentTile := Point(i, j));
  }

  /** Swapping the same two cells twice restores the grid. */
  lemma {:induction false} SwapTwice(g: TileGrid, x1: int, y1: int, x2: int, y2: int)
    requires ValidTiles(g)
    ensures SwapCells(SwapCells(g, x1, y1, x2, y2), x1, y1, x2, y2) == g
  {
    if InBounds(g, x1, y1) && InBounds(g, x2, y2) {
      var g1 := SwapCells(g, x1, y1, x2, y2);
      SwapExchanges(g, x1, y1, x2, y2);
      assert InBounds(g1, x1, y1) && InBounds(g1, x2, y2);
      var g2 := SwapCells(g1, x1, y1, x2, y2);
      SwapExchanges(g1, x1, y1, x2, y2);
      forall i, j | 0 <= i < |g| && 0 <= j < |g[i]|
        ensures g2[i][j] == g[i][j]
      {
        if Point(i, j) == Point(x1, y1) || Point(i, j) == Point(x2, y2) {
          PayloadDetermines(g2[i][j], g[i][j], i, j);
        }
      }
      GridExtensionality(g2, g);
    }
  }

  /** How many tiles of a column hold material m. */
  function ColumnCount(col: seq<Tile>, m: Material): nat
  {
    if |col| == 0 then 0 else ColumnCount(col[..|col| - 1], m) + (if MaterialOf(col[|col| - 1]) == m then 1 else 0)
  }

  /** How many tiles of the grid hold material m. */
  function Count(g: TileGrid, m: Material): nat
  {
    if |g| == 0 then 0 else Count(g[..|g| - 1], m) + ColumnCount(g[|g| - 1], m)
  }

  /** Two grids hold the same number of tiles of every material. */
  predicate SameCensus(a: TileGrid, b: TileGrid)
  {
    forall m :: Count(a, m) == Count(b, m)
  }

  function Indicator(b: bool): nat
  {
    if b then 1 else 0
  }

  lemma {:induction false} ColumnCountUpdate(col: seq<Tile>, y: int, t: Tile, m: Material)
    requires 0 <= y < |col|
    ensures ColumnCount(col[y := t], m) + Indicator(MaterialOf(col[y]) == m) == ColumnCount(col, m) + Indicator(MaterialOf(t) == m)
  {
    var n := |col|;
    var c := col[y := t];
    if y < n - 1 {
      assert c[..n - 1] == col[..n - 1][y := t];
      assert col[..n - 1][y] == col[y];
      ColumnCountUpdate(col[..n - 1], y, t, m);
      assert c[n - 1] == col[n - 1];
    } else {
      assert c[..n - 1] == col[..n - 1];
    }
  }

  lemma {:induction false} CountSetColumn(g: TileGrid, x: int, c: seq<Tile>, m: Material)
    requires 0 <= x < |g|
    ensures Count(g[x := c], m) + ColumnCount(g[x], m) == Count(g, m) + ColumnCount(c, m)
  {
    var n := |g|;
    var r := g[x := c];
    if x < n - 1 {
      assert r[..n - 1] == g[..n - 1][x := c];
      assert g[..n - 1][x] == g[x];
      CountSetColumn(g[..n - 1], x, c, m);
      assert r[n - 1] == g[n - 1];
    } else {
      assert r[..n - 1] == g[..n - 1];
    }
  }

  /** Writing one cell removes that cell's material from the census and adds the new tile's. */
  lemma CountSetCell(g: TileGrid, x: int, y: int, t: Tile, m: Material)
    requires 0 <= x < |g| && 0 <= y < |g[x]|
    ensures Count(SetCell(g, x, y, t), m) + Indicator(MaterialOf(g[x][y]) == m) == Count(g, m) + Indicator(MaterialOf(t) == m)
  {
    assert SetCell(g, x, y, t) == g[x := g[x][y := t]];
    CountSetColumn(g, x, g[x][y := t], m);
    ColumnCountUpdate(g[x], y, t, m);
  }

  /** A swap never creates or destroys a material: every material's count is unchanged. */
  lemma SwapKeepsCensus(g: TileGrid, x1: int, y1: int, x2: int, y2: int)
    requires ValidTiles(g)
    ensures SameCensus(SwapCells(g, x1, y1, x2, y2), g)
  {
    if InBounds(g, x1, y1) && InBounds(g, x2, y2) {
      var pair := SwapElements(g[x1][y1], g[x2][y2]);
      var g1 := SetCell(g, x1, y1, pair.0);
      assert MaterialOf(pair.0) == MaterialOf(g[x2][y2]) && MaterialOf(pair.1) == MaterialOf(g[x1][y1]);
      assert MaterialOf(g1[x2][y2]) == MaterialOf(g[x2][y2]);
      forall m
        ensures Count(SwapCells(g, x1, y1, x2, y2), m) == Count(g, m)
      {
        CountSetCell(g, x1, y1, pair.0, m);
        CountSetCell(g1, x2, y2, pair.1, m);
      }
    }
  }

  /**
   * The grid that ResizeTiles leaves (TileSet.cpp:123-158): unchanged when the size is the
   * same and `initialization` is false; otherwise `w` columns of `h` tiles, where a cell
   * inside the old width and the old height keeps its tile and every other cell gets a new
   * EMPTY tile at its own position.
   */
  function Resized(g: TileGrid, w: nat, h: nat, initialization: bool): TileGrid
    requires Rectangular(g)
  {
    if w == Width(g) && h == Height(g) && !initialization then g
    else
      seq(w, i requires 0 <= i < w =>
        seq(h, j requires 0 <= j < h =>
          if i < Width(g) && j < Height(g) then g[i][j] else NewTile(i, j, EMPTY)))
  }

  /** What ResizeTiles promises: the new size, the overlap kept, the rest EMPTY, validity kept. */
  lemma ResizedContents(g: TileGrid, w: nat, h: nat, initialization: bool)
    requires ValidTiles(g)
    requires w != Width(g) || h != Height(g) || initialization
    ensures Width(Resized(g, w, h, initialization)) == w
    ensures forall i :: 0 <= i < w ==> |Resized(g, w, h, initialization)[i]| == h
    ensures Height(Resized(g, w, h, initialization)) == if w > 0 then h else 0
    ensures forall i, j :: 0 <= i < w && 0 <= j < h && i < Width(g) && j < Height(g) ==>
              Resized(g, w, h, initialization)[i][j] == g[i][j]
    ensures forall i, j :: 0 <= i < w && 0 <= j < h && !(i < Width(g) && j < Height(g)) ==>
              MaterialOf(Resized(g, w, h, initialization)[i][j]) == EMPTY
    ensures ValidTiles(Resized(g, w, h, initialization))
  {
  }

  /**
   * The initialization flag forces ResizeTiles to do its work even when the size is
   * unchanged, but on a valid grid that work changes nothing.
   */
  lemma ResizeSameSize(g: TileGrid, initialization: bool)
    requires ValidTiles(g)
    ensures Resized(g, Width(g), Height(g), initialization) == g
  {
    var r := Resized(g, Width(g), Height(g), initialization);
    if initialization {
      assert SameShape(r, g);
      GridExtensionality(r, g);
    }
  }

  /** The grid ClearTiles leaves (TileSet.cpp:191-197): the same size, every tile a new EMPTY tile at its position. */
  function Cleared(g: TileGrid): TileGrid
  {
    seq(|g|, i requires 0 <= i < |g| => seq(Height(g), j requires 0 <= j < Height(g) => NewTile(i, j, EMPTY)))
  }

  /** Clearing keeps the dimensions, makes every material EMPTY and keeps the grid valid. */
  lemma ClearedContents(g: TileGrid)
    requires Rectangular(g)
    ensures SameShape(Cleared(g), g)
    ensures forall i, j :: 0 <= i < |g| && 0 <= j < |g[i]| ==> MaterialOf(Cleared(g)[i][j]) == EMPTY
    ensures ValidTiles(Cleared(g))
  {
  }

  /** A grid built from a table of materials, ms[x][y], one new tile per cell. */
  function GridOf(ms: seq<seq<Material>>): (g: TileGrid)
    ensures |g| == |ms| && forall i :: 0 <= i < |ms| ==> |g[i]| == |ms[i]|
    ensures forall i, j :: 0 <= i < |ms| && 0 <= j < |ms[i]| ==> g[i][j] == NewTile(i, j, ms[i][j])
  {
    seq(|ms|, i requires 0 <= i < |ms| => seq(|ms[i]|, j requires 0 <= j < |ms[i]| => NewTile(i, j, ms[i][j])))
  }

  lemma GridOfValid(ms: seq<seq<Material>>)
    requires forall i :: 0 <= i < |ms| ==> |ms[i]| == |ms[0]|
    ensures ValidTiles(GridOf(ms))
  {
  }

  /** The grid the copy constructor builds (TileSet.cpp:9-17): a new tile of the same material at each index. */
  function CopyOf(g: TileGrid): TileGrid
    requires HasElements(g)
  {
    seq(|g|, i requires 0 <= i < |g| => seq(|g[i]|, j requires 0 <= j < |g[i]| => NewTile(i, j, g[i][j].element.value.material)))
  }

  /** The copy has the same shape and the same material in every cell, and is valid. */
  lemma CopyOfContents(g: TileGrid)
    requires Populated(g)
    ensures SameShape(CopyOf(g), g)
    ensures forall i, j :: 0 <= i < |g| && 0 <= j < |g[i]| ==> MaterialOf(CopyOf(g)[i][j]) == MaterialOf(g[i][j])
    ensures ValidTiles(CopyOf(g))
  {
    var c := CopyOf(g);
    assert Height(c) == Height(g);
  }

  /** QVector::resize: truncate to n items, or pad with `filler` (a default-constructed item) up to n. */
  function ResizeSeq<T>(s: seq<T>, n: nat, filler: T): (r: seq<T>)
    ensures |r| == n
    ensures forall k :: 0 <= k < n ==> r[k] == if k < |s| then s[k] else filler
  {
    if n <= |s| then s[..n] else s + seq(n - |s|, _ => filler)
  }

  /**
   * The grid after ResizeTiles' two QVector resizes (TileSet.cpp:139-142) and before it
   * writes any tile: w columns of h cells, the old cells where they existed and
   * default-constructed tiles elsewhere.
   */
  function Stretched(g: TileGrid, w: nat, h: nat): (r: TileGrid)
    ensures |r| == w && forall i :: 0 <= i < w ==> |r[i]| == h
  {
    seq(w, i requires 0 <= i < w => seq(h, j requires 0 <= j < h => if i < |g| && j < |g[i]| then g[i][j] else DefaultTile()))
  }

  /** Whether ResizeTiles' third loop has written cell (a, b) once it has reached column i3, row j3. */
  predicate AddedColumnDone(ow: int, i3: int, j3: int, a: int, b: int)
  {
    a >= ow && (a < i3 || (a == i3 && b < j3))
  }

  /** Whether ResizeTiles' fourth loop has written cell (a, b) once it has reached column i4, row j4. */
  predicate AddedRowDone(oh: int, i4: int, j4: int, a: int, b: int)
  {
    b >= oh && (a < i4 || (a == i4 && b < j4))
  }

  /**
   * The grid while ResizeTiles writes new tiles: the shape of `s`, a new EMPTY tile in every
   * cell already written, and the stretched grid's cell everywhere else.
   */
  predicate Filling(t: TileGrid, s: TileGrid, ow: int, oh: int, i3: int, j3: int, i4: int, j4: int)
  {
    SameShape(t, s) && Rectangular(s)
    && forall a, b :: 0 <= a < |t| && 0 <= b < |t[a]| ==>
         t[a][b] == if AddedColumnDone(ow, i3, j3, a, b) || AddedRowDone(oh, i4, j4, a, b) then NewTile(a, b, EMPTY) else s[a][b]
  }

  /** One write of ResizeTiles' third loop advances the Filling state by one cell. */
  lemma FillingColumnStep(t: TileGrid, s: TileGrid, ow: int, oh: int, i: int, j: int)
    requires Filling(t, s, ow, oh, i, j, 0, 0) && ow <= i && 0 <= i < |t| && 0 <= j < |t[i]|
    ensures Filling(SetCell(t, i, j, NewTile(i, j, EMPTY)), s, ow, oh, i, j + 1, 0, 0)
  {
  }

  /** The third loop moves on to the next added column. */
  lemma FillingNextColumn(t: TileGrid, s: TileGrid, ow: int, oh: int, i: int, h: nat)
    requires Filling(t, s, ow, oh, i, h, 0, 0) && 0 <= i < |t| && |t[i]| == h
    ensures Filling(t, s, ow, oh, i + 1, 0, 0, 0)
  {
  }

  /** One write of ResizeTiles' fourth loop advances the Filling state by one cell. */
  lemma FillingRowStep(t: TileGrid, s: TileGrid, ow: int, oh: int, i3: int, i: int, j: int)
    requires Filling(t, s, ow, oh, i3, 0, i, j) && oh <= j && 0 <= i < |t| && 0 <= j < |t[i]|
    ensures Filling(SetCell(t, i, j, NewTile(i, j, EMPTY)), s, ow, oh, i3, 0, i, j + 1)
  {
  }

  /** The fourth loop moves on to the next column. */
  lemma FillingNextRowColumn(t: TileGrid, s: TileGrid, ow: int, oh: int, i3: int, i: int, h: nat)
    requires Filling(t, s, ow, oh, i3, 0, i, if h < oh then oh else h) && 0 <= i < |t| && |t[i]| == h
    ensures Filling(t, s, ow, oh, i3, 0, i + 1, oh)
  {
  }

  /** When both loops are done, the grid is the resized one. */
  lemma FillingDone(g: TileGrid, w: nat, h: nat, initialization: bool, t: TileGrid, i3: int)
    requires ValidTiles(g) && (w != Width(g) || h != Height(g) || initialization)
    requires i3 >= w && Filling(t, Stretched(g, w, h), Width(g), Height(g), i3, 0, w, Height(g))
    ensures t == Resized(g, w, h, initialization)
  {
    GridExtensionality(t, Resized(g, w, h, initialization));
  }

  /** The grid while ClearTiles runs: cells before (i, j) in column-major order are cleared, the rest are as in g. */
  predicate Clearing(t: TileGrid, g: TileGrid, i: int, j: int)
  {
    SameShape(t, g)
    && forall a, b :: 0 <= a < |t| && 0 <= b < |t[a]| ==>
         t[a][b] == if a < i || (a == i && b < j) then NewTile(a, b, EMPTY) else g[a][b]
  }

  lemma ClearingStep(t: TileGrid, g: TileGrid, i: int, j: int)
    requires Clearing(t, g, i, j) && 0 <= i < |t| && 0 <= j < |t[i]|
    ensures Clearing(SetCell(t, i, j, NewTile(i, j, EMPTY)), g, i, j + 1)
  {
  }

  lemma ClearingDone(t: TileGrid, g: TileGrid)
    requires Clearing(t, g, |g|, 0) && Rectangular(g)
    ensures t == Cleared(g)
  {
    GridExtensionality(t, Cleared(g));
  }

  /** Assigning a fresh tile into a cell of its own position stores exactly that tile. */
  lemma PlacedNewTile(g: TileGrid, x: int, y: int, m: Material)
    requires Rectangular(g) && InBounds(g, x, y)
    ensures Placed(g, CopyTile(NewTile(x, y, m))) == SetCell(g, x, y, NewTile(x, y, m))
    ensures Placed(g, NewTile(x, y, m)) == SetCell(g, x, y, NewTile(x, y, m))
  {
    CopyNewTile(x, y, m);
    AssignConsistent(g[x][y], NewTile(x, y, m));
  }

  /**
   * TileSet (TileSet.h:9-88): the grid, updated in place. Its invariant is ValidTiles, which
   * every method below keeps.
   */
  class TileSet {
    var tiles: TileGrid

    ghost predicate Valid()
      reads this
    {
      ValidTiles(tiles)
    }

    /** TileSet() (TileSet.cpp:4-7): no columns. */
    constructor ()
      ensures tiles == [] && Valid()
    {
      tiles := [];
    }

    /**
     * TileSet(const TileSet&) (TileSet.cpp:9-17): the same number of columns, each as long
     * as the original's, and at every index a new tile of the original's material.
     */
    constructor Copy(other: TileSet)
      requires HasElements(other.tiles)
      ensures tiles == CopyOf(other.tiles)
    {
      var src := other.tiles;
      var cols: TileGrid := [];
      var i := 0;
      while i < |src|
        invariant 0 <= i <= |src| && |cols| == i
        invariant forall a :: 0 <= a < i ==> cols[a] == CopyOf(src)[a]
      {
        var col: seq<Tile> := [];
        var j := 0;
        while j < |src[i]|
          invariant 0 <= j <= |src[i]| && |col| == j
          invariant forall b :: 0 <= b < j ==> col[b] == NewTile(i, b, src[i][b].element.value.material)
        {
          col := col + [NewTile(i, j, src[i][j].element.value.material)];
          j := j + 1;
        }
        cols := cols + [col];
        i := i + 1;
      }
      tiles := cols;
    }

    /** TileSet::SetTile (TileSet.cpp:98-113): assign the tile at its own position when that is inside the grid. */
    method SetTile(t: Tile)
      requires Rectangular(tiles) && t.element.Some?
      modifies this
      ensures tiles == Placed(old(tiles), t)
    {
      var x, y := t.position.x, t.position.y;
      if InBounds(tiles, x, y) {
        tiles := tiles[x := tiles[x][y := AssignTile(tiles[x][y], t)]];
      }
    }

    /**
     * TileSet::SetTileBulkUpdate (TileSet.cpp:116-120): the same write, of the by-value
     * parameter, which is a copy of the caller's tile.
     */
    method SetTileBulkUpdate(t: Tile)
      requires Rectangular(tiles) && t.element.Some?
      modifies this
      ensures tiles == Placed(old(tiles), CopyTile(t))
    {
      var c := CopyTile(t);
      var x, y := c.position.x, c.position.y;
      if InBounds(tiles, x, y) {
        tiles := tiles[x := tiles[x][y := AssignTile(tiles[x][y], c)]];
      }
    }

    /** TileSet::Swap (TileSet.cpp:172-189). */
    method Swap(x1: int, y1: int, x2: int, y2: int)
      requires Valid()
      modifies this
      ensures tiles == SwapCells(old(tiles), x1, y1, x2, y2)
      ensures Valid() && SameCensus(tiles, old(tiles))
    {
      SwapKeepsCensus(tiles, x1, y1, x2, y2);
      if InBounds(tiles, x1, y1) && InBounds(tiles, x2, y2) {
        SwapExchanges(tiles, x1, y1, x2, y2);
        var pair := SwapElements(tiles[x1][y1], tiles[x2][y2]);
        tiles := tiles[x1 := tiles[x1][y1 := pair.0]];
        tiles := tiles[x2 := tiles[x2][y2 := pair.1]];
      }
    }

    /**
     * TileSet::ResizeTiles (TileSet.cpp:123-158): resize the column vector and every column,
     * then write a new EMPTY tile into each added column and into each added row.
     */
    method ResizeTiles(w: nat, h: nat, initialization: bool)
      requires Valid()
      modifies this
      ensures tiles == Resized(old(tiles), w, h, initialization)
      ensures Valid()
    {
      var ow := |tiles|;
      var oh := if ow > 0 then |tiles[0]| else 0;
      if w != ow || h != oh || initialization {
        ghost var g0 := tiles;
        StretchTiles(w, h);
        ghost var s := tiles;
        var done := FillAddedColumns(ow, oh);
        FillAddedRows(ow, oh, done, s);
        FillingDone(g0, w, h, initialization, tiles, done);
        ResizedContents(g0, w, h, initialization);
      }
    }

    /** TileSet::ClearTiles (TileSet.cpp:191-197): SetTile a new EMPTY tile at every index, column by column. */
    method ClearTiles()
      requires Valid()
      modifies this
      ensures tiles == Cleared(old(tiles))
      ensures Valid() && SameShape(tiles, old(tiles))
    {
      ghost var g := tiles;
      ClearedContents(g);
      var i := 0;
      while i < |tiles|
        invariant 0 <= i <= |tiles|
        invariant Clearing(tiles, g, i, 0) && Rectangular(tiles)
      {
        var j := 0;
        while j < Height(tiles)
          invariant 0 <= j <= Height(tiles)
          invariant Clearing(tiles, g, i, j) && Rectangular(tiles)
        {
          PlacedNewTile(tiles, i, j, EMPTY);
          ClearingStep(tiles, g, i, j);
          SetTile(NewTile(i, j, EMPTY));
          j := j + 1;
        }
        assert Clearing(tiles, g, i + 1, 0);
        i := i + 1;
      }
      ClearingDone(tiles, g);
    }

    /** The QVector resizes of ResizeTiles (TileSet.cpp:139-142). */
    method StretchTiles(w: nat, h: nat)
      modifies this
      ensures tiles == Stretched(old(tiles), w, h)
    {
      ghost var g0 := tiles;
      ghost var s := Stretched(g0, w, h);
      tiles := ResizeSeq(tiles, w, []);
      var i := 0;
      while i < w
        invariant 0 <= i <= w && |tiles| == w
        invariant forall a :: 0 <= a < i ==> tiles[a] == s[a]
        invariant forall a :: i <= a < w ==> tiles[a] == if a < |g0| then g0[a] else []
      {
        tiles := tiles[i := ResizeSeq(tiles[i], h, DefaultTile())];
        i := i + 1;
      }
    }

    /** ResizeTiles' third loop (TileSet.cpp:144-148): a new EMPTY tile in every cell of every added column. */
    method FillAddedColumns(ow: nat, oh: nat) returns (done: int)
      requires Rectangular(tiles)
      modifies this
      ensures Filling(tiles, old(tiles), ow, oh, done, 0, 0, 0) && done >= |tiles|
    {
      ghost var s := tiles;
      var w, h := |tiles|, Height(tiles);
      var i := ow;
      while i < w
        invariant ow <= i && (i <= w || i == ow)
        invariant Filling(tiles, s, ow, oh, i, 0, 0, 0)
      {
        var j := 0;
        while j < h
          invariant 0 <= j <= h
          invariant Filling(tiles, s, ow, oh, i, j, 0, 0)
        {
          PlacedNewTile(tiles, i, j, EMPTY);
          FillingColumnStep(tiles, s, ow, oh, i, j);
          SetTileBulkUpdate(NewTile(i, j, EMPTY));
          j := j + 1;
        }
        FillingNextColumn(tiles, s, ow, oh, i, h);
        i := i + 1;
      }
      done := i;
    }

    /** ResizeTiles' fourth loop (TileSet.cpp:150-154): a new EMPTY tile in every cell of every added row. */
    method FillAddedRows(ow: nat, oh: nat, done: int, ghost s: TileGrid)
      requires Filling(tiles, s, ow, oh, done, 0, 0, 0)
      modifies this
      ensures Filling(tiles, s, ow, oh, done, 0, |tiles|, oh)
    {
      var w, h := |tiles|, Height(tiles);
      var i := 0;
      while i < w
        invariant 0 <= i <= w
        invariant Filling(tiles, s, ow, oh, done, 0, i, oh)
      {
        var j := oh;
        while j < h
          invariant oh <= j && (j <= h || j == oh)
          invariant Filling(tiles, s, ow, oh, done, 0, i, j)
        {
          PlacedNewTile(tiles, i, j, EMPTY);
          FillingRowStep(tiles, s, ow, oh, done, i, j);
          SetTileBulkUpdate(NewTile(i, j, EMPTY));
          j := j + 1;
        }
        FillingNextRowColumn(tiles, s, ow, oh, done, i, h);
        i := i + 1;
      }
    }
  }
}
