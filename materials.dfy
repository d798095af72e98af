/**
 * The particle data model of Elements.h: the material tags, their display colours, the
 * physical constants, and the element records that the class hierarchy
 * Element > PhysicalElement > {Solid > {Wood, MoveableSolid > Sand}, Liquid > Water}
 * builds. An element is a value here; the class it was built as is recorded by its
 * `extra` part (friction for solids, the gravityUpdated flag for liquids).
 */
module Materials {
  import opened Wrappers

  /** The material tags (Elements.h:19-24). */
  datatype Material = EMPTY | SAND | WATER | WOOD

  /** The integer value of each enumerator: EMPTY = 0, SAND = 1 << 0, WATER = 1 << 2, WOOD = 1 << 3. */
  function Tag(m: Material): int
  {
    match m
    case EMPTY => 0
    case SAND => 1
    case WATER => 4
    case WOOD => 8
  }

  /** Reads an integer back as a material tag; a value that names no enumerator gives None. */
  function FromTag(t: int): (r: Option<Material>)
    ensures r.Some? ==> Tag(r.value) == t
    ensures r.None? ==> forall m :: Tag(m) != t
  {
    if t == 0 then Some(EMPTY)
    else if t == 1 then Some(SAND)
    else if t == 4 then Some(WATER)
    else if t == 8 then Some(WOOD)
    else None
  }

  /** The tags are pairwise distinct, so reading a tag back gives the material it came from. */
  lemma TagRoundTrip(m: Material)
    ensures FromTag(Tag(m)) == Some(m)
    ensures forall n :: Tag(n) == Tag(m) ==> n == m
  {
  }

  datatype Color = Color(red: int, green: int, blue: int)

  /** Elements.h:27-31: the display colour of each material. */
  function ColorOf(m: Material): (c: Color)
    ensures 0 <= c.red < 256 && 0 <= c.green < 256 && 0 <= c.blue < 256
  {
    match m
    case EMPTY => Color(64, 64, 64)
    case SAND => Color(189, 183, 107)
    case WATER => Color(0, 0, 255)
    case WOOD => Color(55, 25, 0)
  }

  /** No two materials share a colour, so the projected image tells every material apart. */
  lemma ColorsDistinct(m: Material, n: Material)
    ensures ColorOf(m) == ColorOf(n) ==> m == n
  {
  }

  const AmbientTemp: real := 20.0
  const DefaultLifetime: int := 1000
  const AmbientDensity: real := 1.225

  /** std::numeric_limits<double>::max() exactly, that is 2^1024 - 2^971. */
  const MaxDensity: real := 179769313486231570814527423731704356798070567525844996598917476803157260780028538760589558632766878171540458953514382464234321326889464182768467546703537516986049910576551282076245490090389328944075868508455133942304583236903222948165808559332123348274797826204144723168738177180919299881250404026184124858368.0

  /** A grid coordinate, the QPoint of the source. */
  datatype Point = Point(x: int, y: int)

  /** What an element's class adds to the Element fields. */
  datatype Extra = Plain | Solid(friction: real) | Liquid(gravityUpdated: bool)

  /**
   * The fields of Element (Elements.h:99-106). The heading is the horizontal step a liquid
   * keeps between ticks. The back-pointer to the owning tile is that tile's position.
   */
  datatype Element = Element(
    material: Material,
    temperature: real,
    lifetime: int,
    density: real,
    onFire: bool,
    velocity: int,
    heading: int,
    extra: Extra,
    parentTile: Point)

  /** Element(Tile*) and PhysicalElement(Tile*): the defaults of Elements.h:37-45. */
  function PhysicalElement(parent: Point): Element
  {
    Element(EMPTY, AmbientTemp, DefaultLifetime, 1.0, false, 0, 0, Plain, parent)
  }

  /** Solid(Tile*): a physical element with friction 1.0 (Elements.h:145-148). */
  function SolidElement(parent: Point): Element
  {
    PhysicalElement(parent).(extra := Solid(1.0))
  }

  /** Wood(Tile*): a solid of material WOOD and the largest density (Elements.h:185-190). */
  function WoodElement(parent: Point): Element
  {
    SolidElement(parent).(material := WOOD, density := MaxDensity)
  }

  /** Sand(Tile*): a moveable solid of material SAND, density 1520 and no friction (Elements.h:252-256). */
  function SandElement(parent: Point): Element
  {
    SolidElement(parent).(material := SAND, density := 1520.0, extra := Solid(0.0))
  }

  /** Water(Tile*): a liquid (gravityUpdated false) of material WATER and density 997 (Elements.h:304, 346-349). */
  function WaterElement(parent: Point): Element
  {
    PhysicalElement(parent).(extra := Liquid(false)).(material := WATER, density := 997.0)
  }

  /** The density and class data that each material's constructor gives, as a table. */
  function DensityOf(m: Material): real
  {
    match m
    case EMPTY => 1.0
    case SAND => 1520.0
    case WATER => 997.0
    case WOOD => MaxDensity
  }

  predicate ClassFits(m: Material, x: Extra)
  {
    match m
    case EMPTY => x == Plain
    case SAND => x == Solid(0.0)
    case WATER => x.Liquid?
    case WOOD => x == Solid(1.0)
  }

  /**
   * What every element built for a tile satisfies for as long as it exists: its density
   * and class data are those of its material, and its heading is -1, 0 or 1.
   */
  predicate WellFormed(e: Element)
  {
    e.density == DensityOf(e.material) && ClassFits(e.material, e.extra) && -1 <= e.heading <= 1
  }

  /** The physics fields of a freshly built element: ambient temperature, full lifetime, not burning, still. */
  predicate AtRest(e: Element)
  {
    e.temperature == AmbientTemp && e.lifetime == DefaultLifetime && !e.onFire
    && e.velocity == 0 && e.heading == 0 && (e.extra.Liquid? ==> !e.extra.gravityUpdated)
  }

  /** The element of the class that each material selects (the switch of Tile::SetElement). */
  function NewElement(m: Material, parent: Point): (e: Element)
    ensures e.material == m && e.parentTile == parent
    ensures WellFormed(e) && AtRest(e)
  {
    match m
    case EMPTY => PhysicalElement(parent)
    case SAND => SandElement(parent)
    case WATER => WaterElement(parent)
    case WOOD => WoodElement(parent)
  }

  /** Every density is positive and none exceeds the largest double. */
  lemma DensityBounds(e: Element)
    requires WellFormed(e)
    ensures 0.0 < e.density <= MaxDensity
    ensures e.density == MaxDensity <==> e.material == WOOD
  {
  }

  /** Element::operator== (Elements.h:71-79); PhysicalElement's == is the same comparison. */
  predicate SameElement(a: Element, b: Element)
  {
    a.material == b.material && a.temperature == b.temperature && a.lifetime == b.lifetime
    && a.density == b.density && a.onFire == b.onFire && a.velocity == b.velocity
    && a.heading == b.heading
  }

  /** Solid::operator== (Elements.h:166-170), inherited by Wood and Sand: also compares friction. */
  predicate SameSolid(a: Element, b: Element)
    requires a.extra.Solid? && b.extra.Solid?
  {
    SameElement(a, b) && a.extra.friction == b.extra.friction
  }

  /** Liquid::operator== (Elements.h:323-327), inherited by Water: also compares gravityUpdated. */
  predicate SameLiquid(a: Element, b: Element)
    requires a.extra.Liquid? && b.extra.Liquid?
  {
    SameElement(a, b) && a.extra.gravityUpdated == b.extra.gravityUpdated
  }

  /**
   * Element equality looks at exactly the seven physics fields: two elements compare equal
   * if and only if they agree once their class data and their parent tile are disregarded.
   */
  lemma SameElementExactly(a: Element, b: Element)
    ensures SameElement(a, b) <==> a.(extra := Plain, parentTile := Point(0, 0)) == b.(extra := Plain, parentTile := Point(0, 0))
  {
  }

  /** Elements of the same class: the only pairs the source's typed assignment operators accept. */
  predicate SameClass(a: Element, b: Element)
  {
    a.extra.Plain? == b.extra.Plain? && a.extra.Solid? == b.extra.Solid? && a.extra.Liquid? == b.extra.Liquid?
  }

  /**
   * The copy constructors (Elements.h:49-56, 116-117, 152-155, 308-311, 353-355): the
   * physics fields and a solid's friction are copied, a liquid's gravityUpdated restarts at
   * false. The copy's parentTile is not copied; the source leaves it unset, here the tile
   * that will own the copy is passed in.
   */
  function CopyElement(e: Element, parent: Point): (c: Element)
    ensures SameElement(c, e) && SameClass(c, e) && c.parentTile == parent
    ensures e.extra.Solid? ==> c.extra == e.extra
    ensures e.extra.Liquid? ==> c.extra == Liquid(false)
  {
    e.(extra := if e.extra.Liquid? then Liquid(false) else e.extra, parentTile := parent)
  }

  /**
   * The assignment operators (Elements.h:58-69, 119-123, 157-164, 313-321): every physics
   * field and the class data of the source (friction, gravityUpdated) are copied; the
   * target keeps its own parentTile.
   */
  function AssignElement(target: Element, source: Element): (r: Element)
    requires SameClass(target, source)
    ensures SameElement(r, source) && r.extra == source.extra && r.parentTile == target.parentTile
  {
    source.(parentTile := target.parentTile)
  }

  /**
   * Liquids: assignment keeps Liquid equality with the source, while copy-construction keeps
   * it exactly when the source's gravityUpdated flag was false. Solids: both keep Solid equality.
   */
  lemma CopyVersusAssign(e: Element, t: Element, p: Point)
    requires SameClass(t, e)
    ensures e.extra.Liquid? ==> SameLiquid(AssignElement(t, e), e)
    ensures e.extra.Liquid? ==> (SameLiquid(CopyElement(e, p), e) <==> !e.extra.gravityUpdated)
    ensures e.extra.Solid? ==> SameSolid(AssignElement(t, e), e) && SameSolid(CopyElement(e, p), e)
  {
  }

  /** The sign of the vertical pull (Elements.cpp:19-22): down (+1) when denser than air, up (-1) when lighter, none when equal. */
  function GravityDirection(density: real): (dir: int)
    ensures -1 <= dir <= 1
    ensures dir > 0 <==> density > AmbientDensity
    ensures dir < 0 <==> density < AmbientDensity
  {
    if density != AmbientDensity then (if density > AmbientDensity then 1 else -1) else 0
  }

  /** Of the four materials only EMPTY is lighter than air; sand, water and wood all fall. */
  lemma FallingMaterials(e: Element)
    requires WellFormed(e)
    ensures GravityDirection(e.density) == (if e.material == EMPTY then -1 else 1)
  {
  }
}
