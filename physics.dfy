/**
 * Elements.cpp: the per-material update rules. Each rule is a pure step function from a grid
 * and the element's position to the grid after the rule and whether it moved anything; the
 * methods at the end run the same rules in place on a TileSet and are proved equal to them.
 * Each coin stands for one `rand() % 100 < 50` draw, and `true` means "left".
 */
module Physics {
  import opened Wrappers
  import opened Materials
  import opened Tiles
  import opened Grid

  /** The grid after an update, and the update's return value. */
  datatype Step = Step(tiles: TileGrid, moved: bool)

  /** What every step keeps: a valid grid of the same shape holding the same number of each material. */
  predicate Conserves(g: TileGrid, r: TileGrid)
  {
    ValidTiles(r) && SameShape(r, g) && SameCensus(r, g)
  }

  /** Every wood tile is left exactly as it was. */
  predicate KeepsWood(g: TileGrid, r: TileGrid)
    requires SameShape(r, g)
  {
    forall i, j :: 0 <= i < |g| && 0 <= j < |g[i]| && MaterialOf(g[i][j]) == WOOD ==> r[i][j] == g[i][j]
  }

  /** The materials whose Update moves anything: Sand and Water. */
  predicate Mobile(m: Material)
  {
    m == SAND || m == WATER
  }

  /** The element at an in-bounds cell of a valid grid. */
  function ElementAt(g: TileGrid, x: int, y: int): Element
    requires ValidTiles(g) && InBounds(g, x, y)
  {
    g[x][y].element.value
  }

  lemma ConservesTransitive(g: TileGrid, h: TileGrid, r: TileGrid)
    requires Conserves(g, h) && Conserves(h, r)
    ensures Conserves(g, r)
  {
  }

  lemma KeepsWoodTransitive(g: TileGrid, h: TileGrid, r: TileGrid)
    requires Conserves(g, h) && Conserves(h, r)
    ensures KeepsWood(g, h) && KeepsWood(h, r) ==> KeepsWood(g, r)
  {
  }

  /** A swap keeps the grid valid and the census; it keeps wood in place unless it moves a wood tile itself. */
  lemma SwapConserves(g: TileGrid, x1: int, y1: int, x2: int, y2: int)
    requires ValidTiles(g)
    ensures Conserves(g, SwapCells(g, x1, y1, x2, y2))
    ensures !(InBounds(g, x1, y1) && InBounds(g, x2, y2)) ==> KeepsWood(g, SwapCells(g, x1, y1, x2, y2))
    ensures InBounds(g, x1, y1) && InBounds(g, x2, y2) && MaterialOf(g[x1][y1]) != WOOD && MaterialOf(g[x2][y2]) != WOOD ==>
              KeepsWood(g, SwapCells(g, x1, y1, x2, y2))
  {
    SwapKeepsCensus(g, x1, y1, x2, y2);
    if InBounds(g, x1, y1) && InBounds(g, x2, y2) {
      SwapExchanges(g, x1, y1, x2, y2);
    }
  }

  /** Writes an element's heading in place (Elements.cpp:143 and 149). */
  function SetHeading(g: TileGrid, x: int, y: int, h: int): (r: TileGrid)
    requires ValidTiles(g) && InBounds(g, x, y) && -1 <= h <= 1
    ensures Conserves(g, r)
    ensures MaterialOf(g[x][y]) != WOOD ==> KeepsWood(g, r)
    ensures r[x][y].element.value == ElementAt(g, x, y).(heading := h)
    ensures forall i, j :: 0 <= i < |g| && 0 <= j < |g[i]| && (i, j) != (x, y) ==> r[i][j] == g[i][j]
  {
    var t := g[x][y].(element := Some(ElementAt(g, x, y).(heading := h)));
    SetCellValid(g, x, y, t);
    forall m
      ensures Count(SetCell(g, x, y, t), m) == Count(g, m)
    {
      CountSetCell(g, x, y, t, m);
    }
    SetCell(g, x, y, t)
  }

  /** Writing an element's own heading back changes nothing. */
  lemma SetHeadingSame(g: TileGrid, x: int, y: int)
    requires ValidTiles(g) && InBounds(g, x, y) && -1 <= ElementAt(g, x, y).heading <= 1
    ensures SetHeading(g, x, y, ElementAt(g, x, y).heading) == g
  {
    var r := SetHeading(g, x, y, ElementAt(g, x, y).heading);
    assert r[x][y] == g[x][y];
    GridExtensionality(r, g);
  }

  /** A second heading write replaces the first. */
  lemma SetHeadingTwice(g: TileGrid, x: int, y: int, h1: int, h2: int)
    requires ValidTiles(g) && InBounds(g, x, y) && -1 <= h1 <= 1 && -1 <= h2 <= 1
    ensures SetHeading(SetHeading(g, x, y, h1), x, y, h2) == SetHeading(g, x, y, h2)
  {
    var a := SetHeading(SetHeading(g, x, y, h1), x, y, h2);
    var b := SetHeading(g, x, y, h2);
    assert a[x][y] == b[x][y];
    GridExtensionality(a, b);
  }

  /** The cell an element at (x, y) falls (or rises) into. */
  function FallTarget(g: TileGrid, x: int, y: int): Point
    requires ValidTiles(g) && InBounds(g, x, y)
  {
    Point(x, y + GravityDirection(ElementAt(g, x, y).density))
  }

  /**
   * PhysicalElement::GravityUpdate (Elements.cpp:14-36): one step in the direction the
   * density gives; the step is taken when the target is EMPTY, or strictly lighter while
   * falling, or strictly denser while rising, and never when the target is outside the grid.
   */
  function Fall(g: TileGrid, x: int, y: int): (r: Step)
    requires ValidTiles(g) && InBounds(g, x, y)
    ensures Conserves(g, r.tiles)
    ensures Mobile(MaterialOf(g[x][y])) ==> KeepsWood(g, r.tiles)
    ensures !r.moved ==> r.tiles == g
    ensures r.moved ==> InBounds(g, FallTarget(g, x, y).x, FallTarget(g, x, y).y)
  {
    var d := ElementAt(g, x, y).density;
    var dir := GravityDirection(d);
    var ty := y + dir;
    SwapConserves(g, x, y, x, ty);
    DensityBounds(ElementAt(g, x, y));
    if !InBounds(g, x, ty) then Step(g, false)
    else if IsEmpty(g, x, ty) || (DensityAt(g, x, ty) < d && dir > 0) || (DensityAt(g, x, ty) > d && dir < 0) then
      DensityBounds(ElementAt(g, x, ty));
      Step(SwapCells(g, x, y, x, ty), true)
    else Step(g, false)
  }

  /**
   * Sand and Water fall: an update of either by gravity moves it exactly one cell down, into
   * a cell that was EMPTY or held something strictly lighter, which takes its old place. When
   * the cell below is inside the grid and holds anything else, or is outside the grid, nothing moves.
   */
  lemma FallSinksDenser(g: TileGrid, x: int, y: int)
    requires ValidTiles(g) && InBounds(g, x, y) && Mobile(MaterialOf(g[x][y]))
    ensures FallTarget(g, x, y) == Point(x, y + 1)
    ensures Fall(g, x, y).moved <==>
      InBounds(g, x, y + 1) && (MaterialOf(g[x][y + 1]) == EMPTY || ElementAt(g, x, y + 1).density < ElementAt(g, x, y).density)
    ensures Fall(g, x, y).moved ==>
      Payload(Fall(g, x, y).tiles[x][y + 1]) == Payload(g[x][y]) && Payload(Fall(g, x, y).tiles[x][y]) == Payload(g[x][y + 1])
    ensures forall i, j :: 0 <= i < |g| && 0 <= j < |g[i]| && Point(i, j) != Point(x, y) && Point(i, j) != Point(x, y + 1)
              ==> Fall(g, x, y).tiles[i][j] == g[i][j]
  {
    FallingMaterials(ElementAt(g, x, y));
    if InBounds(g, x, y + 1) {
      SwapExchanges(g, x, y, x, y + 1);
    }
  }

  /** Sand above water in a one-column grid two cells high: gravity swaps them. */
  lemma SandSinksThroughWater()
    ensures var g := GridOf([[SAND, WATER]]);
      ValidTiles(g) && Fall(g, 0, 0).moved
      && MaterialOf(Fall(g, 0, 0).tiles[0][0]) == WATER && MaterialOf(Fall(g, 0, 0).tiles[0][1]) == SAND
  {
    var g := GridOf([[SAND, WATER]]);
    GridOfValid([[SAND, WATER]]);
    FallSinksDenser(g, 0, 0);
  }

  /** The four cells a spread can move into. */
  datatype Move = DownLeft | DownRight | Left | Right

  function Target(x: int, y: int, m: Move): Point
  {
    match m
    case DownLeft => Point(x - 1, y + 1)
    case DownRight => Point(x + 1, y + 1)
    case Left => Point(x - 1, y)
    case Right => Point(x + 1, y)
  }

  predicate Leftward(m: Move)
  {
    m == DownLeft || m == Left
  }

  function Mirror(m: Move): Move
  {
    match m
    case DownLeft => DownRight
    case DownRight => DownLeft
    case Left => Right
    case Right => Left
  }

  /** The six neighbourhood tests a spread makes (Elements.cpp:45-50 and 97-100). */
  datatype Survey = Survey(
    leftEmpty: bool, rightEmpty: bool,
    downLeftEmpty: bool, downRightEmpty: bool,
    downLeftLighter: bool, downRightLighter: bool)

  function SurveyAt(g: TileGrid, x: int, y: int, density: real): Survey
    requires Populated(g)
  {
    Survey(IsEmpty(g, x - 1, y), IsEmpty(g, x + 1, y),
           IsEmpty(g, x - 1, y + 1), IsEmpty(g, x + 1, y + 1),
           DensityAt(g, x - 1, y + 1) < density, DensityAt(g, x + 1, y + 1) < density)
  }

  /**
   * The priority of a move under a survey, lower first: an empty diagonal (0), a strictly
   * lighter diagonal (1), an empty side (2); 3 means the move does not qualify.
   */
  function Rank(s: Survey, m: Move): nat
  {
    match m
    case DownLeft => if s.downLeftEmpty then 0 else if s.downLeftLighter then 1 else 3
    case DownRight => if s.downRightEmpty then 0 else if s.downRightLighter then 1 else 3
    case Left => if s.leftEmpty then 2 else 3
    case Right => if s.rightEmpty then 2 else 3
  }

  /**
   * The choice chain of PhysicalElement::SpreadUpdate (Elements.cpp:52-76): no move exactly
   * when nothing qualifies; otherwise a move of the best rank, and when its mirror image has
   * the same rank the coin decides, `true` for the left one.
   */
  function SpreadChoice(s: Survey, coin: bool): (r: Option<Move>)
    ensures r.None? <==> forall m :: Rank(s, m) == 3
    ensures r.Some? ==> Rank(s, r.value) < 3 && forall m :: Rank(s, r.value) <= Rank(s, m)
    ensures r.Some? && Rank(s, Mirror(r.value)) == Rank(s, r.value) ==> (Leftward(r.value) <==> coin)
  {
    if s.downLeftEmpty && s.downRightEmpty then Some(if coin then DownLeft else DownRight)
    else if s.downLeftEmpty then Some(DownLeft)
    else if s.downRightEmpty then Some(DownRight)
    else if s.downLeftLighter && s.downRightLighter then Some(if coin then DownLeft else DownRight)
    else if s.downLeftLighter then Some(DownLeft)
    else if s.downRightLighter then Some(DownRight)
    else if s.leftEmpty && s.rightEmpty then Some(if coin then Left else Right)
    else if s.leftEmpty then Some(Left)
    else if s.rightEmpty then Some(Right)
    else None
  }

  function MirrorSurvey(s: Survey): Survey
  {
    Survey(s.rightEmpty, s.leftEmpty, s.downRightEmpty, s.downLeftEmpty, s.downRightLighter, s.downLeftLighter)
  }

  /** The rule has no left or right bias of its own: mirroring the neighbourhood and the coin mirrors the choice. */
  lemma SpreadChoiceSymmetric(s: Survey, coin: bool)
    ensures SpreadChoice(MirrorSurvey(s), !coin) ==
      match SpreadChoice(s, coin) case Some(m) => Some(Mirror(m)) case None => None
  {
  }

  /**
   * The moves a spread can choose always lie inside the grid: IsEmpty is false outside it,
   * and the sentinel's density is never strictly less than an element's.
   */
  lemma ChoiceInBounds(g: TileGrid, x: int, y: int, e: Element, coin: bool)
    requires Populated(g) && WellFormed(e)
    ensures SpreadChoice(SurveyAt(g, x, y, e.density), coin).Some? ==>
      InBounds(g, Target(x, y, SpreadChoice(SurveyAt(g, x, y, e.density), coin).value).x,
                  Target(x, y, SpreadChoice(SurveyAt(g, x, y, e.density), coin).value).y)
  {
    DensityBounds(e);
  }

  /** Neither an empty cell nor a strictly lighter cell can hold wood. */
  lemma ChoiceAvoidsWood(g: TileGrid, x: int, y: int, e: Element, coin: bool)
    requires ValidTiles(g) && WellFormed(e)
    requires SpreadChoice(SurveyAt(g, x, y, e.density), coin).Some?
    ensures var p := Target(x, y, SpreadChoice(SurveyAt(g, x, y, e.density), coin).value);
      InBounds(g, p.x, p.y) && MaterialOf(g[p.x][p.y]) != WOOD
  {
    ChoiceInBounds(g, x, y, e, coin);
    DensityBounds(e);
    var p := Target(x, y, SpreadChoice(SurveyAt(g, x, y, e.density), coin).value);
    DensityBounds(g[p.x][p.y].element.value);
  }

  /** PhysicalElement::SpreadUpdate (Elements.cpp:38-83): make the chosen move, if any, by one swap. */
  function Spread(g: TileGrid, x: int, y: int, coin: bool): (r: Step)
    requires ValidTiles(g) && InBounds(g, x, y)
    ensures Conserves(g, r.tiles)
    ensures MaterialOf(g[x][y]) != WOOD ==> KeepsWood(g, r.tiles)
    ensures !r.moved ==> r.tiles == g
    ensures r.moved <==> SpreadChoice(SurveyAt(g, x, y, ElementAt(g, x, y).density), coin).Some?
  {
    var e := ElementAt(g, x, y);
    var c := SpreadChoice(SurveyAt(g, x, y, e.density), coin);
    if c.Some? then
      var p := Target(x, y, c.value);
      ChoiceAvoidsWood(g, x, y, e, coin);
      SwapConserves(g, x, y, p.x, p.y);
      Step(SwapCells(g, x, y, p.x, p.y), true)
    else Step(g, false)
  }

  /**
   * When a spread moves, it is exactly one swap: the element lands on the chosen target, the
   * target's element takes its place, and every other cell is as it was.
   */
  lemma SpreadMoves(g: TileGrid, x: int, y: int, coin: bool)
    requires ValidTiles(g) && InBounds(g, x, y)
    ensures var c := SpreadChoice(SurveyAt(g, x, y, ElementAt(g, x, y).density), coin);
      c.Some? ==>
        var p := Target(x, y, c.value);
        var r := Spread(g, x, y, coin).tiles;
        && InBounds(g, p.x, p.y)
        && Payload(r[p.x][p.y]) == Payload(g[x][y]) && Payload(r[x][y]) == Payload(g[p.x][p.y])
        && forall i, j :: 0 <= i < |g| && 0 <= j < |g[i]| && Point(i, j) != Point(x, y) && Point(i, j) != p ==> r[i][j] == g[i][j]
  {
    var e := ElementAt(g, x, y);
    var c := SpreadChoice(SurveyAt(g, x, y, e.density), coin);
    if c.Some? {
      var p := Target(x, y, c.value);
      ChoiceAvoidsWood(g, x, y, e, coin);
      SwapExchanges(g, x, y, p.x, p.y);
    }
  }

  /** The choice chain of MoveableSolid::SpreadUpdate (Elements.cpp:97-119): diagonals only, and only below friction 0.5. */
  function SlideChoice(s: Survey, friction: real, coin: bool): (r: Option<Move>)
    ensures r == if friction < 0.5 then SpreadChoice(s.(leftEmpty := false, rightEmpty := false), coin) else None
  {
    var downLeft := friction < 0.5 && s.downLeftEmpty;
    var downRight := friction < 0.5 && s.downRightEmpty;
    var swapLeft := friction < 0.5 && s.downLeftLighter;
    var swapRight := friction < 0.5 && s.downRightLighter;
    if downLeft && downRight then Some(if coin then DownLeft else DownRight)
    else if downLeft then Some(DownLeft)
    else if downRight then Some(DownRight)
    else if swapLeft && swapRight then Some(if coin then DownLeft else DownRight)
    else if swapLeft then Some(DownLeft)
    else if swapRight then Some(DownRight)
    else None
  }

  /** A solid slides only diagonally downwards, and with friction of at least 0.5 it never slides. */
  lemma SlideIsDiagonal(s: Survey, friction: real, coin: bool)
    ensures SlideChoice(s, friction, coin).Some? ==> SlideChoice(s, friction, coin).value in {DownLeft, DownRight}
    ensures friction >= 0.5 ==> SlideChoice(s, friction, coin).None?
  {
  }

  /** The friction of a solid element, and 1.0 (Solid's default) for any other. */
  function FrictionOf(e: Element): real
  {
    if e.extra.Solid? then e.extra.friction else 1.0
  }

  /** MoveableSolid::SpreadUpdate (Elements.cpp:92-126). */
  function Slide(g: TileGrid, x: int, y: int, coin: bool): (r: Step)
    requires ValidTiles(g) && InBounds(g, x, y)
    ensures Conserves(g, r.tiles)
    ensures MaterialOf(g[x][y]) != WOOD ==> KeepsWood(g, r.tiles)
    ensures !r.moved ==> r.tiles == g
    ensures r.moved <==> SlideChoice(SurveyAt(g, x, y, ElementAt(g, x, y).density), FrictionOf(ElementAt(g, x, y)), coin).Some?
  {
    var e := ElementAt(g, x, y);
    var s := SurveyAt(g, x, y, e.density);
    var c := SlideChoice(s, FrictionOf(e), coin);
    if c.Some? then
      var p := Target(x, y, c.value);
      ChoiceAvoidsWoodMasked(g, x, y, e, coin);
      SwapConserves(g, x, y, p.x, p.y);
      Step(SwapCells(g, x, y, p.x, p.y), true)
    else Step(g, false)
  }

  /**
   * When a slide moves, it is exactly one swap with the chosen diagonal cell, and every other
   * cell is as it was.
   */
  lemma SlideMoves(g: TileGrid, x: int, y: int, coin: bool)
    requires ValidTiles(g) && InBounds(g, x, y)
    ensures var c := SlideChoice(SurveyAt(g, x, y, ElementAt(g, x, y).density), FrictionOf(ElementAt(g, x, y)), coin);
      c.Some? ==>
        var p := Target(x, y, c.value);
        var r := Slide(g, x, y, coin).tiles;
        && p.y == y + 1 && (p.x == x - 1 || p.x == x + 1) && InBounds(g, p.x, p.y)
        && Payload(r[p.x][p.y]) == Payload(g[x][y]) && Payload(r[x][y]) == Payload(g[p.x][p.y])
        && forall i, j :: 0 <= i < |g| && 0 <= j < |g[i]| && Point(i, j) != Point(x, y) && Point(i, j) != p ==> r[i][j] == g[i][j]
  {
    var e := ElementAt(g, x, y);
    var c := SlideChoice(SurveyAt(g, x, y, e.density), FrictionOf(e), coin);
    if c.Some? {
      SlideIsDiagonal(SurveyAt(g, x, y, e.density), FrictionOf(e), coin);
      var p := Target(x, y, c.value);
      ChoiceAvoidsWoodMasked(g, x, y, e, coin);
      SwapExchanges(g, x, y, p.x, p.y);
    }
  }

  lemma ChoiceAvoidsWoodMasked(g: TileGrid, x: int, y: int, e: Element, coin: bool)
    requires ValidTiles(g) && WellFormed(e)
    requires SpreadChoice(SurveyAt(g, x, y, e.density).(leftEmpty := false, rightEmpty := false), coin).Some?
    ensures var p := Target(x, y, SpreadChoice(SurveyAt(g, x, y, e.density).(leftEmpty := false, rightEmpty := false), coin).value);
      InBounds(g, p.x, p.y) && MaterialOf(g[p.x][p.y]) != WOOD
  {
    DensityBounds(e);
    var c := SpreadChoice(SurveyAt(g, x, y, e.density).(leftEmpty := false, rightEmpty := false), coin);
    var p := Target(x, y, c.value);
    assert InBounds(g, p.x, p.y);
    DensityBounds(g[p.x][p.y].element.value);
  }

  /** The heading a liquid flows along: its own, or ±1 by the coin when it has none (Elements.cpp:139-144). */
  function FlowHeading(e: Element, coin: bool): int
  {
    if e.heading == 0 then (if coin then -1 else 1) else e.heading
  }

  /**
   * The second half of Liquid::SpreadUpdate (Elements.cpp:138-157): one step along the
   * heading, into a cell that is not strictly denser. A strictly denser cell stops the
   * liquid and zeroes its heading; a target outside the grid changes nothing but the heading
   * just drawn.
   */
  function HeadingStep(g: TileGrid, x: int, y: int, coin: bool): (r: Step)
    requires ValidTiles(g) && InBounds(g, x, y)
    ensures Conserves(g, r.tiles)
    ensures MaterialOf(g[x][y]) == WATER ==> KeepsWood(g, r.tiles)
  {
    var e := ElementAt(g, x, y);
    var h := FlowHeading(e, coin);
    var tx := x + h;
    if !InBounds(g, tx, y) then Step(SetHeading(g, x, y, h), false)
    else if DensityAt(g, tx, y) > e.density then Step(SetHeading(g, x, y, 0), false)
    else
      var g1 := SetHeading(g, x, y, h);
      DensityBounds(ElementAt(g, tx, y));
      SwapConserves(g1, x, y, tx, y);
      ConservesTransitive(g, g1, SwapCells(g1, x, y, tx, y));
      Step(SwapCells(g1, x, y, tx, y), true)
  }

  /** Liquid::SpreadUpdate (Elements.cpp:135-160): the generic spread first, and the heading step only when that does not move. */
  function Flow(g: TileGrid, x: int, y: int, coin: bool): (r: Step)
    requires ValidTiles(g) && InBounds(g, x, y)
    ensures Conserves(g, r.tiles)
    ensures MaterialOf(g[x][y]) == WATER ==> KeepsWood(g, r.tiles)
  {
    var s := Spread(g, x, y, coin);
    if s.moved then s else HeadingStep(g, x, y, coin)
  }

  /**
   * The heading step, which is all of Flow when the generic spread does not move, is
   * decided by the cell along the liquid's heading: outside the grid nothing moves; strictly denser, nothing moves and the
   * heading becomes 0; otherwise the liquid and that cell change places and the liquid keeps
   * its heading. A wood cell is always strictly denser than water.
   */
  lemma FlowAlongHeading(g: TileGrid, x: int, y: int, coin: bool)
    requires ValidTiles(g) && InBounds(g, x, y)
    ensures var e := ElementAt(g, x, y); var tx := x + FlowHeading(e, coin);
      && (!InBounds(g, tx, y) ==> !HeadingStep(g, x, y, coin).moved && Payload(HeadingStep(g, x, y, coin).tiles[x][y]) == Payload(g[x][y].(element := Some(e.(heading := FlowHeading(e, coin))))))
      && (InBounds(g, tx, y) && ElementAt(g, tx, y).density > e.density ==>
            !HeadingStep(g, x, y, coin).moved && HeadingStep(g, x, y, coin).tiles[x][y].element.value == e.(heading := 0))
      && (InBounds(g, tx, y) && ElementAt(g, tx, y).density <= e.density ==>
            HeadingStep(g, x, y, coin).moved
            && HeadingStep(g, x, y, coin).tiles[tx][y].element.value == e.(heading := FlowHeading(e, coin), parentTile := Point(tx, y))
            && Payload(HeadingStep(g, x, y, coin).tiles[x][y]) == Payload(g[tx][y]))
    ensures forall i, j :: 0 <= i < |g| && 0 <= j < |g[i]| && Point(i, j) != Point(x, y)
              && Point(i, j) != Point(x + FlowHeading(ElementAt(g, x, y), coin), y)
              ==> HeadingStep(g, x, y, coin).tiles[i][j] == g[i][j]
    ensures (MaterialOf(g[x][y]) == WATER && InBounds(g, x + FlowHeading(ElementAt(g, x, y), coin), y)
             && MaterialOf(g[x + FlowHeading(ElementAt(g, x, y), coin)][y]) == WOOD) ==> !HeadingStep(g, x, y, coin).moved
  {
    var e := ElementAt(g, x, y);
    var h := FlowHeading(e, coin);
    var tx := x + h;
    if InBounds(g, tx, y) {
      DensityBounds(ElementAt(g, tx, y));
      if ElementAt(g, tx, y).density <= e.density {
        var g1 := SetHeading(g, x, y, h);
        SwapExchanges(g1, x, y, tx, y);
      }
    }
  }

  /** MoveableSolid::Update (Elements.cpp:85-90): gravity, then the slide from wherever gravity left the element; both always run. */
  function SolidStep(g: TileGrid, x: int, y: int, coin: bool): (r: Step)
    requires ValidTiles(g) && InBounds(g, x, y)
    ensures Conserves(g, r.tiles)
    ensures Mobile(MaterialOf(g[x][y])) ==> KeepsWood(g, r.tiles)
  {
    var f := Fall(g, x, y);
    var p := if f.moved then FallTarget(g, x, y) else Point(x, y);
    FallPosition(g, x, y);
    var s := Slide(f.tiles, p.x, p.y, coin);
    ConservesTransitive(g, f.tiles, s.tiles);
    KeepsWoodTransitive(g, f.tiles, s.tiles);
    Step(s.tiles, f.moved || s.moved)
  }

  /**
   * Both rules run in one update: sand alone at the top of the middle column of an empty
   * 3 x 3 grid falls one cell and then, with the coin saying left, slides down-left into
   * the bottom-left corner, and the update reports a move.
   */
  lemma FallThenSlide()
    ensures var g := GridOf([[EMPTY, EMPTY, EMPTY], [SAND, EMPTY, EMPTY], [EMPTY, EMPTY, EMPTY]]);
      ValidTiles(g) && SolidStep(g, 1, 0, true).moved
      && MaterialOf(SolidStep(g, 1, 0, true).tiles[0][2]) == SAND
      && MaterialOf(SolidStep(g, 1, 0, true).tiles[1][1]) == EMPTY
      && MaterialOf(SolidStep(g, 1, 0, true).tiles[1][0]) == EMPTY
  {
    var ms := [[EMPTY, EMPTY, EMPTY], [SAND, EMPTY, EMPTY], [EMPTY, EMPTY, EMPTY]];
    var g := GridOf(ms);
    GridOfValid(ms);
    FallSinksDenser(g, 1, 0);
    SwapExchanges(g, 1, 0, 1, 1);
    var f := Fall(g, 1, 0);
    assert MaterialOf(f.tiles[0][2]) == EMPTY && MaterialOf(f.tiles[2][2]) == EMPTY;
    assert MaterialOf(f.tiles[1][1]) == SAND;
    var e := ElementAt(f.tiles, 1, 1);
    assert FrictionOf(e) == 0.0;
    assert SlideChoice(SurveyAt(f.tiles, 1, 1, e.density), FrictionOf(e), true) == Some(DownLeft);
    SwapExchanges(f.tiles, 1, 1, 0, 2);
  }

  /** Liquid::Update (Elements.cpp:128-133): gravity, then the flow from wherever gravity left the element; both always run. */
  function LiquidStep(g: TileGrid, x: int, y: int, coin: bool): (r: Step)
    requires ValidTiles(g) && InBounds(g, x, y)
    ensures Conserves(g, r.tiles)
    ensures MaterialOf(g[x][y]) == WATER ==> KeepsWood(g, r.tiles)
  {
    var f := Fall(g, x, y);
    var p := if f.moved then FallTarget(g, x, y) else Point(x, y);
    FallPosition(g, x, y);
    var s := Flow(f.tiles, p.x, p.y, coin);
    ConservesTransitive(g, f.tiles, s.tiles);
    KeepsWoodTransitive(g, f.tiles, s.tiles);
    Step(s.tiles, f.moved || s.moved)
  }

  /** After gravity the element sits at the fall target if it moved and in place otherwise, with its material unchanged. */
  lemma FallPosition(g: TileGrid, x: int, y: int)
    requires ValidTiles(g) && InBounds(g, x, y)
    ensures var f := Fall(g, x, y); var p := if f.moved then FallTarget(g, x, y) else Point(x, y);
      InBounds(f.tiles, p.x, p.y) && MaterialOf(f.tiles[p.x][p.y]) == MaterialOf(g[x][y])
  {
    var f := Fall(g, x, y);
    if f.moved {
      var t := FallTarget(g, x, y);
      SwapExchanges(g, x, y, t.x, t.y);
    }
  }

  /**
   * Element::Update by dynamic type (Elements.cpp:10-12, 85-90, 128-133, Elements.h:278-280,
   * 373): EMPTY and Wood inherit PhysicalElement::Update, which does nothing and returns
   * false; Sand runs the solid rules and Water the liquid rules.
   */
  function ElementStep(g: TileGrid, x: int, y: int, coin: bool): (r: Step)
    requires ValidTiles(g) && InBounds(g, x, y)
    ensures Conserves(g, r.tiles) && KeepsWood(g, r.tiles)
    ensures !Mobile(MaterialOf(g[x][y])) ==> r == Step(g, false)
  {
    match MaterialOf(g[x][y])
    case EMPTY => Step(g, false)
    case WOOD => Step(g, false)
    case SAND => SolidStep(g, x, y, coin)
    case WATER => LiquidStep(g, x, y, coin)
  }

  /** Writes the heading of the element at (x, y) of the grid in place. */
  method WriteHeading(ts: TileSet, x: int, y: int, h: int)
    requires ts.Valid() && InBounds(ts.tiles, x, y) && -1 <= h <= 1
    modifies ts
    ensures ts.tiles == SetHeading(old(ts.tiles), x, y, h)
  {
    var t := ts.tiles[x][y];
    ts.tiles := ts.tiles[x := ts.tiles[x][y := t.(element := Some(t.element.value.(heading := h)))]];
  }

  /** PhysicalElement::GravityUpdate (Elements.cpp:14-36), in place. */
  method GravityUpdate(ts: TileSet, x: int, y: int) returns (abided: bool)
    requires ts.Valid() && InBounds(ts.tiles, x, y)
    modifies ts
    ensures Step(ts.tiles, abided) == Fall(old(ts.tiles), x, y)
  {
    abided := false;
    var density := ts.tiles[x][y].element.value.density;
    var yDirection := 0;
    if density != AmbientDensity {
      yDirection := if density > AmbientDensity then 1 else -1;
    }
    var ty := y + yDirection;
    if !InBounds(ts.tiles, x, ty) {
      return;
    }
    var canSwap := IsEmpty(ts.tiles, x, ty)
      || (DensityAt(ts.tiles, x, ty) < density && yDirection > 0)
      || (DensityAt(ts.tiles, x, ty) > density && yDirection < 0);
    if canSwap {
      ts.Swap(x, y, x, ty);
      abided := true;
    }
  }

  /** PhysicalElement::SpreadUpdate (Elements.cpp:38-83), in place. */
  method SpreadUpdate(ts: TileSet, x: int, y: int, coin: bool) returns (spread: bool)
    requires ts.Valid() && InBounds(ts.tiles, x, y)
    modifies ts
    ensures Step(ts.tiles, spread) == Spread(old(ts.tiles), x, y, coin)
  {
    ghost var g := ts.tiles;
    var density := ts.tiles[x][y].element.value.density;
    var canSpreadLeft := IsEmpty(ts.tiles, x - 1, y);
    var canSpreadRight := IsEmpty(ts.tiles, x + 1, y);
    var canSpreadBottomLeft := IsEmpty(ts.tiles, x - 1, y + 1);
    var canSpreadBottomRight := IsEmpty(ts.tiles, x + 1, y + 1);
    var canSpreadBottomLeftDueToDensity := DensityAt(ts.tiles, x - 1, y + 1) < density;
    var canSpreadBottomRightDueToDensity := DensityAt(ts.tiles, x + 1, y + 1) < density;
    spread := true;
    var spreadPoint := Point(x, y);
    if canSpreadBottomLeft && canSpreadBottomRight {
      spreadPoint := if coin then Point(x - 1, y + 1) else Point(x + 1, y + 1);
    } else if canSpreadBottomLeft {
      spreadPoint := Point(x - 1, y + 1);
    } else if canSpreadBottomRight {
      spreadPoint := Point(x + 1, y + 1);
    } else if canSpreadBottomLeftDueToDensity && canSpreadBottomRightDueToDensity {
      spreadPoint := if coin then Point(x - 1, y + 1) else Point(x + 1, y + 1);
    } else if canSpreadBottomLeftDueToDensity {
      spreadPoint := Point(x - 1, y + 1);
    } else if canSpreadBottomRightDueToDensity {
      spreadPoint := Point(x + 1, y + 1);
    } else if canSpreadLeft && canSpreadRight {
      spreadPoint := if coin then Point(x - 1, y) else Point(x + 1, y);
    } else if canSpreadLeft {
      spreadPoint := Point(x - 1, y);
    } else if canSpreadRight {
      spreadPoint := Point(x + 1, y);
    } else {
      spread := false;
    }
    assert spread ==> spreadPoint == Target(x, y, SpreadChoice(SurveyAt(g, x, y, density), coin).value);
    if spread {
      ts.Swap(x, y, spreadPoint.x, spreadPoint.y);
    }
  }

  /** MoveableSolid::SpreadUpdate (Elements.cpp:92-126), in place. */
  method SolidSpreadUpdate(ts: TileSet, x: int, y: int, coin: bool) returns (spread: bool)
    requires ts.Valid() && InBounds(ts.tiles, x, y)
    modifies ts
    ensures Step(ts.tiles, spread) == Slide(old(ts.tiles), x, y, coin)
  {
    ghost var g := ts.tiles;
    var e := ts.tiles[x][y].element.value;
    var friction := FrictionOf(e);
    var canSpreadDownLeft := friction < 0.5 && IsEmpty(ts.tiles, x - 1, y + 1);
    var canSpreadDownRight := friction < 0.5 && IsEmpty(ts.tiles, x + 1, y + 1);
    var canSwapDownLeft := friction < 0.5 && DensityAt(ts.tiles, x - 1, y + 1) < e.density;
    var canSwapDownRight := friction < 0.5 && DensityAt(ts.tiles, x + 1, y + 1) < e.density;
    spread := true;
    var spreadPoint := Point(x, y);
    if canSpreadDownLeft && canSpreadDownRight {
      spreadPoint := if coin then Point(x - 1, y + 1) else Point(x + 1, y + 1);
    } else if canSpreadDownLeft {
      spreadPoint := Point(x - 1, y + 1);
    } else if canSpreadDownRight {
      spreadPoint := Point(x + 1, y + 1);
    } else if canSwapDownLeft && canSwapDownRight {
      spreadPoint := if coin then Point(x - 1, y + 1) else Point(x + 1, y + 1);
    } else if canSwapDownLeft {
      spreadPoint := Point(x - 1, y + 1);
    } else if canSwapDownRight {
      spreadPoint := Point(x + 1, y + 1);
    } else {
      spread := false;
    }
    assert spread ==> spreadPoint == Target(x, y, SlideChoice(SurveyAt(g, x, y, e.density), friction, coin).value);
    if spread {
      ts.Swap(x, y, spreadPoint.x, spreadPoint.y);
    }
  }

  /** Liquid::SpreadUpdate (Elements.cpp:135-160), in place. */
  method LiquidSpreadUpdate(ts: TileSet, x: int, y: int, coin: bool) returns (didSpread: bool)
    requires ts.Valid() && InBounds(ts.tiles, x, y)
    modifies ts
    ensures Step(ts.tiles, didSpread) == Flow(old(ts.tiles), x, y, coin)
  {
    didSpread := SpreadUpdate(ts, x, y, coin);
    if !didSpread {
      didSpread := HeadingUpdate(ts, x, y, coin);
    }
  }

  /** The part of Liquid::SpreadUpdate after the generic spread has not moved (Elements.cpp:138-157), in place. */
  method HeadingUpdate(ts: TileSet, x: int, y: int, coin: bool) returns (didSpread: bool)
    requires ts.Valid() && InBounds(ts.tiles, x, y)
    modifies ts
    ensures Step(ts.tiles, didSpread) == HeadingStep(old(ts.tiles), x, y, coin)
  {
    ghost var g := ts.tiles;
    didSpread := false;
    var e := ts.tiles[x][y].element.value;
    var heading := e.heading;
    if heading == 0 {
      heading := if coin then -1 else 1;
      WriteHeading(ts, x, y, heading);
    } else {
      SetHeadingSame(g, x, y);
    }
    var target := Point(x + heading, y);
    if InBounds(ts.tiles, target.x, target.y) {
      if !InBounds(ts.tiles, target.x, target.y) || DensityAt(ts.tiles, target.x, target.y) > e.density {
        WriteHeading(ts, x, y, 0);
        SetHeadingTwice(g, x, y, heading, 0);
      } else {
        ts.Swap(x, y, target.x, target.y);
        didSpread := true;
      }
    }
  }

  /** MoveableSolid::Update (Elements.cpp:85-90), in place. */
  method SolidUpdate(ts: TileSet, x: int, y: int, coin: bool) returns (dirtied: bool)
    requires ts.Valid() && InBounds(ts.tiles, x, y)
    modifies ts
    ensures Step(ts.tiles, dirtied) == SolidStep(old(ts.tiles), x, y, coin)
  {
    ghost var g := ts.tiles;
    FallPosition(g, x, y);
    var fallen := FallTarget(ts.tiles, x, y);
    dirtied := GravityUpdate(ts, x, y);
    var at := if dirtied then fallen else Point(x, y);
    var slid := SolidSpreadUpdate(ts, at.x, at.y, coin);
    dirtied := dirtied || slid;
  }

  /** Liquid::Update (Elements.cpp:128-133), in place. */
  method LiquidUpdate(ts: TileSet, x: int, y: int, coin: bool) returns (dirtied: bool)
    requires ts.Valid() && InBounds(ts.tiles, x, y)
    modifies ts
    ensures Step(ts.tiles, dirtied) == LiquidStep(old(ts.tiles), x, y, coin)
  {
    ghost var g := ts.tiles;
    FallPosition(g, x, y);
    var fallen := FallTarget(ts.tiles, x, y);
    dirtied := GravityUpdate(ts, x, y);
    var at := if dirtied then fallen else Point(x, y);
    var flowed := LiquidSpreadUpdate(ts, at.x, at.y, coin);
    dirtied := dirtied || flowed;
  }

  /** Element::Update through the element's dynamic type, in place. */
  method Update(ts: TileSet, x: int, y: int, coin: bool) returns (dirtied: bool)
    requires ts.Valid() && InBounds(ts.tiles, x, y)
    modifies ts
    ensures Step(ts.tiles, dirtied) == ElementStep(old(ts.tiles), x, y, coin)
    ensures ts.Valid()
  {
    match ts.tiles[x][y].element.value.material
    case EMPTY => dirtied := false;
    case WOOD => dirtied := false;
    case SAND => dirtied := SolidUpdate(ts, x, y, coin);
    case WATER => dirtied := LiquidUpdate(ts, x, y, coin);
  }
}
