/**
 * Tile.h: a tile sits at a grid position and owns one element. Tiles are values here; the
 * element's back-pointer to its tile is the tile's position, and `Consistent` is the
 * invariant that the two agree.
 */
module Tiles {
  import opened Wrappers
  import opened Materials

  /** A tile's position and the element it owns; None stands for the null element pointer. */
  datatype Tile = Tile(position: Point, element: Option<Element>)

  /** The element a tile owns points back at that tile. */
  predicate Consistent(t: Tile)
  {
    t.element.Some? ==> t.element.value.parentTile == t.position
  }

  /** What a tile carries, with the back-pointer left out. */
  function Payload(t: Tile): Option<Element>
  {
    match t.element
    case Some(e) => Some(e.(parentTile := Point(0, 0)))
    case None => None
  }

  /**
   * Tile::SetElement (Tile.h:44-63): a tag naming one of the four materials gets a new
   * element of that material's class, built for this tile; any other tag leaves no element.
   */
  function SetElement(t: Tile, tag: int): (r: Tile)
    ensures r.position == t.position && Consistent(r)
    ensures r.element.Some? <==> FromTag(tag).Some?
    ensures r.element.Some? ==> Tag(r.element.value.material) == tag
    ensures r.element.Some? ==> WellFormed(r.element.value) && AtRest(r.element.value)
  {
    match FromTag(tag)
    case Some(m) => t.(element := Some(NewElement(m, t.position)))
    case None => t.(element := None)
  }

  /** Tile() (Tile.h:16-18): at (-1, -1) with a resting EMPTY element. */
  function DefaultTile(): (t: Tile)
    ensures t.position == Point(-1, -1) && Consistent(t)
    ensures t.element.Some? && t.element.value.material == EMPTY && AtRest(t.element.value)
  {
    SetElement(Tile(Point(-1, -1), None), Tag(EMPTY))
  }

  /** Tile(x, y, material) (Tile.h:24-26): at (x, y) with a resting element of that material. */
  function NewTile(x: int, y: int, m: Material): (t: Tile)
    ensures t.position == Point(x, y) && Consistent(t)
    ensures t.element.Some? && t.element.value.material == m
    ensures WellFormed(t.element.value) && AtRest(t.element.value)
  {
    TagRoundTrip(m);
    SetElement(Tile(Point(x, y), None), Tag(m))
  }

  /**
   * Tile(position, element) (Tile.h:28-30): at the given position with a resting element of
   * the given element's material; only the material is taken from that element.
   */
  function TileWithElement(p: Point, e: Element): (t: Tile)
    ensures t.position == p && Consistent(t)
    ensures t.element.Some? && t.element.value.material == e.material
    ensures WellFormed(t.element.value) && AtRest(t.element.value)
    ensures t == NewTile(p.x, p.y, e.material)
  {
    TagRoundTrip(e.material);
    SetElement(Tile(p, None), Tag(e.material))
  }

  /**
   * Tile(const Tile&) (Tile.h:32-34): the copy keeps the position but gets a new element of
   * the same material, so the physics state of the original element is not carried over.
   */
  function CopyTile(t: Tile): (c: Tile)
    requires t.element.Some?
    ensures c.position == t.position && Consistent(c)
    ensures c.element.Some? && c.element.value.material == t.element.value.material
    ensures AtRest(c.element.value) && WellFormed(c.element.value)
  {
    TagRoundTrip(t.element.value.material);
    SetElement(Tile(t.position, None), Tag(t.element.value.material))
  }

  /**
   * Tile::SwapElements (Tile.h:36-42), as the pair of tiles after the call: when both tiles
   * own an element the elements change places and each points back at its new tile;
   * otherwise nothing changes. Positions never change.
   */
  function SwapElements(a: Tile, b: Tile): (r: (Tile, Tile))
    ensures r.0.position == a.position && r.1.position == b.position
    ensures a.element.None? || b.element.None? ==> r == (a, b)
    ensures a.element.Some? && b.element.Some? ==>
      Payload(r.0) == Payload(b) && Payload(r.1) == Payload(a) && Consistent(r.0) && Consistent(r.1)
  {
    if a.element.Some? && b.element.Some? then
      (a.(element := Some(b.element.value.(parentTile := a.position))),
       b.(element := Some(a.element.value.(parentTile := b.position))))
    else
      (a, b)
  }

  /** Copying a freshly built tile gives the same tile. */
  lemma CopyNewTile(x: int, y: int, m: Material)
    ensures CopyTile(NewTile(x, y, m)) == NewTile(x, y, m)
  {
  }

  /** Swapping the elements of two consistent tiles twice gives back the two tiles. */
  lemma SwapElementsTwice(a: Tile, b: Tile)
    requires Consistent(a) && Consistent(b)
    ensures SwapElements(SwapElements(a, b).0, SwapElements(a, b).1) == (a, b)
  {
  }

  /**
   * Tile::operator= (Tile.h:69-76): the target takes the source's position and element and
   * re-points that element at itself; nothing of the target's old contents survives.
   */
  function AssignTile(target: Tile, source: Tile): (r: Tile)
    requires source.element.Some?
    ensures r.position == source.position && Consistent(r) && Payload(r) == Payload(source)
  {
    Tile(source.position, Some(source.element.value.(parentTile := source.position)))
  }

  /** Assigning a consistent tile gives that very tile, whatever the target held. */
  lemma AssignConsistent(target: Tile, source: Tile)
    requires source.element.Some? && Consistent(source)
    ensures AssignTile(target, source) == source
  {
  }

  /** Tile::operator== (Tile.h:78-81): equal positions and equal elements (Element::operator==). */
  predicate TileEquals(a: Tile, b: Tile)
    requires a.element.Some? && b.element.Some?
  {
    a.position == b.position && SameElement(a.element.value, b.element.value)
  }

  /** The physics fields a fresh element starts with. */
  predicate DefaultPhysics(e: Element)
  {
    e.temperature == AmbientTemp && e.lifetime == DefaultLifetime && !e.onFire
    && e.velocity == 0 && e.heading == 0
  }

  /**
   * An assigned tile compares equal to its source; a copied tile compares equal to the
   * original exactly when the original's element still has the physics fields it was built with.
   */
  lemma CopyAndAssignEquality(target: Tile, t: Tile)
    requires t.element.Some? && WellFormed(t.element.value)
    ensures TileEquals(AssignTile(target, t), t)
    ensures TileEquals(CopyTile(t), t) <==> DefaultPhysics(t.element.value)
  {
  }
}
