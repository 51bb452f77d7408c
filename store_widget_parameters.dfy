/** What a caller asks the store to create or update, and what it asks to list. */
module StoreParameters {
  import opened Wrappers
  import opened Regions

  /** Mandatory boundaries and an optional Z-index (absent: place on the foreground). */
  datatype StoreWidgetParameters = StoreWidgetParameters(boundaries: Region, z: Option<int>)

  datatype StoreWidgetParametersBuilder = StoreWidgetParametersBuilder(boundaries: Option<Region>, z: Option<int>)
  {
    function SetBoundaries(v: Region): StoreWidgetParametersBuilder { this.(boundaries := Some(v)) }

    /** `setZ(Integer)`: the argument itself may be null. */
    function SetZ(v: Option<int>): StoreWidgetParametersBuilder { this.(z := v) }

    /** `build()`: the constructor rejects null boundaries and keeps whatever Z was set. */
    function Build(): (r: Result<StoreWidgetParameters>)
      ensures boundaries.None? <==> r == Failure(NullPointer("boundaries"))
      ensures r.Success? ==> r.value.boundaries == boundaries.value && r.value.z == z
    {
      if boundaries.None? then Failure(NullPointer("boundaries"))
      else Success(StoreWidgetParameters(boundaries.value, z))
    }
  }

  /** `StoreWidgetParameters.builder()`. */
  function EmptyBuilder(): (b: StoreWidgetParametersBuilder)
    ensures b.Build().Failure?
  {
    StoreWidgetParametersBuilder(None, None)
  }

  /** Without a call to `setZ` the parameters carry no Z-index, so the widget goes to the foreground. */
  lemma BuildWithoutZ(b: Region)
    ensures EmptyBuilder().SetBoundaries(b).Build() == Success(StoreWidgetParameters(b, None))
  {
  }

  /**
   * The filter as the stores consume it: an optional search region, an optional Z-index cursor
   * (only widgets above it are listed) and the page size.
   */
  datatype WidgetsFilter = WidgetsFilter(region: Option<Region>, cursor: Option<int>, limit: int)
}
