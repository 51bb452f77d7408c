/** The immutable widget snapshot handed to callers, and its builder. */
module Widgets {
  import opened Wrappers
  import opened Regions

  /** A point in time, as the clock reports it; only compared and copied. */
  type Instant = int

  /** A widget: identifier, boundaries, Z-index and the time of the last modification. */
  datatype Widget = Widget(id: string, boundaries: Region, z: int, modifiedAt: Instant)

  /** The builder keeps each field as a nullable reference until it is built. */
  datatype WidgetBuilder = WidgetBuilder(
    id: Option<string>, boundaries: Option<Region>, z: Option<int>, modifiedAt: Option<Instant>)
  {
    function SetId(v: string): WidgetBuilder { this.(id := Some(v)) }
    function SetBoundaries(v: Region): WidgetBuilder { this.(boundaries := Some(v)) }
    function SetZ(v: int): WidgetBuilder { this.(z := Some(v)) }
    function SetModifiedAt(v: Instant): WidgetBuilder { this.(modifiedAt := Some(v)) }

    /**
     * `Builder.build()`: the boxed Z is unboxed while the constructor's arguments are evaluated,
     * then the constructor rejects a null id, boundaries or timestamp, in that order.
     */
    function Build(): (r: Result<Widget>)
      ensures r.Success? <==> id.Some? && boundaries.Some? && z.Some? && modifiedAt.Some?
      ensures r.Success? ==>
        r.value == Widget(id.value, boundaries.value, z.value, modifiedAt.value)
      ensures z.None? ==> r == Failure(NullPointer("z"))
    {
      if z.None? then Failure(NullPointer("z"))
      else if id.None? then Failure(NullPointer("id"))
      else if boundaries.None? then Failure(NullPointer("boundaries"))
      else if modifiedAt.None? then Failure(NullPointer("modifiedAt"))
      else Success(Widget(id.value, boundaries.value, z.value, modifiedAt.value))
    }
  }

  /** `Widget.builder()`: nothing set yet, so building fails. */
  function EmptyBuilder(): (b: WidgetBuilder)
    ensures b.Build() == Failure(NullPointer("z"))
  {
    WidgetBuilder(None, None, None, None)
  }

  /** `Widget.builder(copy)`: every field of the copy, so building at once gives the copy back. */
  function CopyBuilder(copy: Widget): (b: WidgetBuilder)
    ensures b.Build() == Success(copy)
  {
    WidgetBuilder(Some(copy.id), Some(copy.boundaries), Some(copy.z), Some(copy.modifiedAt))
  }

  /**
   * Overriding setters on a copy builder change only those fields; the id is kept
   * (the use the service makes of it after an update).
   */
  lemma CopyBuilderOverrides(copy: Widget, b: Region, z: int, t: Instant)
    ensures CopyBuilder(copy).SetBoundaries(b).SetZ(z).SetModifiedAt(t).Build()
         == Success(Widget(copy.id, b, z, t))
    ensures CopyBuilder(copy).SetZ(z).Build() == Success(copy.(z := z))
  {
  }

  /** The constructor demands a non-null id, boundaries and timestamp. */
  lemma BuildRejectsMissingFields(b: WidgetBuilder)
    requires b.z.Some?
    ensures b.id.None? ==> b.Build() == Failure(NullPointer("id"))
    ensures b.id.Some? && b.boundaries.None? ==> b.Build() == Failure(NullPointer("boundaries"))
    ensures b.id.Some? && b.boundaries.Some? && b.modifiedAt.None? ==> b.Build() == Failure(NullPointer("modifiedAt"))
  {
  }
}
