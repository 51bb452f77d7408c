/** The rectangle a widget occupies and the region a search is made in. */
module Regions {
  import opened Wrappers

  /** An axis-aligned rectangle: lower left corner (x, y), then width and height. */
  datatype Region = Region(x: int, y: int, width: int, height: int)

  /** Width and height are positive (enforced by request validation before a region reaches the store). */
  predicate ValidGeometry(r: Region) {
    r.width > 0 && r.height > 0
  }

  /** The builder keeps each coordinate as a boxed (nullable) integer until it is built. */
  datatype RegionBuilder = RegionBuilder(x: Option<int>, y: Option<int>, width: Option<int>, height: Option<int>)
  {
    function SetX(v: int): RegionBuilder { this.(x := Some(v)) }
    function SetY(v: int): RegionBuilder { this.(y := Some(v)) }
    function SetWidth(v: int): RegionBuilder { this.(width := Some(v)) }
    function SetHeight(v: int): RegionBuilder { this.(height := Some(v)) }

    /**
     * `Builder.builder()`: the four boxed values are unboxed, in argument order, to call the
     * constructor; an unset one throws.
     */
    function Build(): (r: Result<Region>)
      ensures r.Success? <==> x.Some? && y.Some? && width.Some? && height.Some?
      ensures r.Success? ==>
        r.value.x == x.value && r.value.y == y.value && r.value.width == width.value && r.value.height == height.value
    {
      if x.None? then Failure(NullPointer("x"))
      else if y.None? then Failure(NullPointer("y"))
      else if width.None? then Failure(NullPointer("width"))
      else if height.None? then Failure(NullPointer("height"))
      else Success(Region(x.value, y.value, width.value, height.value))
    }
  }

  /** `Region.builder()`: nothing set yet. */
  function EmptyBuilder(): (b: RegionBuilder)
    ensures b.Build().Failure?
  {
    RegionBuilder(None, None, None, None)
  }

  /** The getters read back exactly what the setters recorded. */
  lemma BuildReturnsSetValues(x: int, y: int, w: int, h: int)
    ensures EmptyBuilder().SetX(x).SetY(y).SetWidth(w).SetHeight(h).Build() == Success(Region(x, y, w, h))
  {
  }

  /** The argument of `equals(Object)`: null, a region, or an object of another class. */
  datatype JavaObject = Null | RegionObject(region: Region) | OtherObject

  /**
   * `Region.equals`: a reference to itself is equal; null and other classes are not;
   * otherwise all four fields are compared.
   */
  function Equals(r: Region, obj: JavaObject): (eq: bool)
    ensures eq <==> obj == RegionObject(r)
  {
    match obj
    case Null => false
    case OtherObject => false
    case RegionObject(o) => r.x == o.x && r.y == o.y && r.width == o.width && r.height == o.height
  }

  /** `equals` is reflexive and symmetric, so `Objects.equals` on two regions is value equality. */
  lemma EqualsIsValueEquality(a: Region, b: Region)
    ensures Equals(a, RegionObject(a))
    ensures Equals(a, RegionObject(b)) <==> Equals(b, RegionObject(a))
    ensures Equals(a, RegionObject(b)) <==> a == b
    ensures !Equals(a, Null) && !Equals(a, OtherObject)
  {
  }
}
