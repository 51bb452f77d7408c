/**
 * The widgets service: resolves the Z-index of a creation or an update, decides whether an update
 * is needed, and drives the repository. The transaction around each operation is not part of this
 * model (each method runs alone); the id generator and the clock are parameters.
 */
module Service {
  import opened Wrappers
  import opened Regions
  import opened Widgets
  import opened PagedLists
  import opened StoreParameters
  import opened ZOrder
  import opened Repository

  /** The Z-index used when no widget is stored. */
  const INITIAL_Z_INDEX: int := 0

  /** The Z-index of a creation: the requested one, else one above the foreground, else the initial one. */
  function ResolveCreateZ(requested: Option<int>, foreground: Option<int>): (z: int)
    ensures requested.Some? ==> z == requested.value
    ensures requested.None? && foreground.Some? ==> z > foreground.value
  {
    if requested.Some? then requested.value
    else if foreground.Some? then foreground.value + 1
    else INITIAL_Z_INDEX
  }

  /**
   * The Z-index of an update: the requested one, else the foreground if the widget is already
   * there, else one above it (the initial one if there is no foreground at all).
   */
  function ResolveUpdateZ(requested: Option<int>, foreground: Option<int>, current: int): (z: int)
    ensures requested.Some? ==> z == requested.value
    ensures requested.None? && foreground.Some? ==> z >= foreground.value
    ensures requested.None? && foreground.Some? && current <= foreground.value ==>
      (z == current <==> current == foreground.value)
  {
    if requested.Some? then requested.value
    else if foreground.Some? then (if foreground.value == current then foreground.value else foreground.value + 1)
    else INITIAL_Z_INDEX
  }

  /** `updateIsNotNeeded`: equal boundaries and the same Z-index. */
  function UpdateIsNotNeeded(widget: Widget, boundaries: Region, zIndex: int): (notNeeded: bool)
    ensures notNeeded <==> widget.boundaries == boundaries && widget.z == zIndex
  {
    Equals(widget.boundaries, RegionObject(boundaries)) && widget.z == zIndex
  }

  /**
   * A creation without a Z-index goes strictly above every stored widget (to the initial Z-index on
   * an empty store), so it shifts nobody.
   */
  lemma CreateWithoutZGoesOnTop(byId: map<string, Widget>, foreground: Option<int>, w: Widget, t: Instant)
    requires IsForeground(byId, foreground)
    requires w.z == ResolveCreateZ(None, foreground)
    ensures byId == map[] ==> w.z == INITIAL_Z_INDEX
    ensures forall id | id in byId :: byId[id].z < w.z
    ensures Shifted(byId, w.z, t) == byId
  {
    forall id | id in byId ensures byId[id].z < w.z {
      assert byId[id].z in ZValues(byId);
    }
    assert w.z !in ZValues(byId);
    ShiftFromFreeKeyIsIdentity(byId, w.z, t);
  }

  /**
   * An update without a Z-index brings the widget strictly above every other one, and shifts or
   * stamps no other widget.
   */
  lemma UpdateWithoutZGoesOnTop(byId: map<string, Widget>, foreground: Option<int>, id: string, bounds: Region, t: Instant)
    requires ZUnique(byId) && id in byId
    requires IsForeground(byId, foreground)
    ensures var key := ResolveUpdateZ(None, foreground, byId[id].z);
      && (forall other | other in byId && other != id :: byId[other].z < key)
      && Updated(byId, id, bounds, key, t) - {id} == byId - {id}
  {
    DefaultUpdateReachesForeground(byId, id, bounds, foreground.value, t);
  }

  /**
   * The service and the in-memory storage resolve Z-indices alike: one above the foreground for a
   * creation, and the foreground or one above it for an update.
   */
  lemma ResolutionMatchesStorage(byId: map<string, Widget>, foreground: Option<int>, requested: Option<int>, id: string)
    requires IsForeground(byId, foreground)
    ensures byId != map[] ==>
      ResolveCreateZ(requested, foreground) == if requested.Some? then requested.value else MaxOf(ZValues(byId)) + 1
    ensures id in byId ==>
      ResolveUpdateZ(requested, foreground, byId[id].z)
        == if requested.Some? then requested.value
           else if MaxOf(ZValues(byId)) == byId[id].z then byId[id].z
           else MaxOf(ZValues(byId)) + 1
  {
    if byId != map[] {
      var top := MaxOf(ZValues(byId));
      assert foreground.value <= top && top <= foreground.value;
    }
  }

  class WidgetsService {
    const widgetsRepository: InMemoryWidgetsRepository

    ghost predicate Valid()
      reads widgetsRepository, widgetsRepository.spatialIndex
    {
      widgetsRepository.Valid()
    }

    constructor (widgetsRepository: InMemoryWidgetsRepository)
      requires widgetsRepository.Valid()
      ensures this.widgetsRepository == widgetsRepository
      ensures Valid()
    {
      this.widgetsRepository := widgetsRepository;
    }

    /**
     * `createWidget(parameters)`: the widget gets the generated id, the requested Z-index or one above
     * the foreground, and the clock's timestamp; the repository shifts the run at that Z-index.
     */
    method CreateWidget(id: string, parameters: StoreWidgetParameters, modificationTimestamp: Instant)
      returns (widget: Widget)
      requires Valid() && id !in widgetsRepository.widgetsByIds
      requires ValidGeometry(parameters.boundaries)
      modifies widgetsRepository, widgetsRepository.spatialIndex
      ensures Valid()
      ensures widget.id == id && widget.boundaries == parameters.boundaries
      ensures widget.modifiedAt == modificationTimestamp
      ensures widget.z == ResolveCreateZ(parameters.z, old(widgetsRepository.GetCurrentForegroundZIndex()))
      ensures widgetsRepository.widgetsByIds == Inserted(old(widgetsRepository.widgetsByIds), widget, modificationTimestamp)
    {
      var zIndex := ResolveCreateZ(parameters.z, widgetsRepository.GetCurrentForegroundZIndex());
      widgetsRepository.Insert(id, parameters.boundaries, zIndex, modificationTimestamp);
      widget := Widgets.EmptyBuilder()
        .SetId(id)
        .SetBoundaries(parameters.boundaries)
        .SetZ(zIndex)
        .SetModifiedAt(modificationTimestamp)
        .Build().value;
    }

    /**
     * `updateWidget(id, parameters)`: nothing for an unknown id; the stored snapshot when the update
     * is not needed; otherwise the repository moves and re-indexes the widget, and the result is
     * the snapshot with the new boundaries, Z-index and timestamp.
     */
    method UpdateWidget(id: string, parameters: StoreWidgetParameters, modificationTimestamp: Instant)
      returns (result: Option<Widget>)
      requires Valid()
      requires ValidGeometry(parameters.boundaries)
      modifies widgetsRepository, widgetsRepository.spatialIndex
      ensures Valid()
      ensures result.None? <==> id !in old(widgetsRepository.widgetsByIds)
      ensures result.None? ==> unchanged(widgetsRepository, widgetsRepository.spatialIndex)
      ensures result.Some? ==>
        var w := old(widgetsRepository.widgetsByIds)[id];
        var key := ResolveUpdateZ(parameters.z, old(widgetsRepository.GetCurrentForegroundZIndex()), w.z);
        if UpdateIsNotNeeded(w, parameters.boundaries, key) then
          && result.value == w
          && unchanged(widgetsRepository, widgetsRepository.spatialIndex)
        else
          && result.value == Widget(id, parameters.boundaries, key, modificationTimestamp)
          && widgetsRepository.widgetsByIds
             == Updated(old(widgetsRepository.widgetsByIds), id, parameters.boundaries, key, modificationTimestamp)
    {
      var optionalWidget := widgetsRepository.GetWidgetById(id);
      if optionalWidget.None? {
        return None;
      }
      var widget := optionalWidget.value;
      assert widget.id == id;
      var zIndex := ResolveUpdateZ(parameters.z, widgetsRepository.GetCurrentForegroundZIndex(), widget.z);
      if UpdateIsNotNeeded(widget, parameters.boundaries, zIndex) {
        return Some(widget);
      }
      widgetsRepository.Update(widget, parameters.boundaries, zIndex, modificationTimestamp);
      CopyBuilderOverrides(widget, parameters.boundaries, zIndex, modificationTimestamp);
      var updated := CopyBuilder(widget)
        .SetBoundaries(parameters.boundaries)
        .SetZ(zIndex)
        .SetModifiedAt(modificationTimestamp)
        .Build();
      return Some(updated.value);
    }

    /** `deleteWidget(id)`: the widget is gone afterwards; an unknown id has no side effects. */
    method DeleteWidget(id: string)
      requires Valid()
      modifies widgetsRepository, widgetsRepository.spatialIndex
      ensures Valid()
      ensures widgetsRepository.widgetsByIds == old(widgetsRepository.widgetsByIds) - {id}
      ensures id !in old(widgetsRepository.widgetsByIds) ==> unchanged(widgetsRepository, widgetsRepository.spatialIndex)
    {
      var deleted := widgetsRepository.DeleteById(id);
    }

    /** `getWidgetById(id)`. */
    function GetWidgetById(id: string): (r: Option<Widget>)
      reads widgetsRepository
      ensures r.Some? <==> id in widgetsRepository.widgetsByIds
      ensures r.Some? ==> r.value == widgetsRepository.widgetsByIds[id]
    {
      widgetsRepository.GetWidgetById(id)
    }

    /**
     * `getWidgets(filter)`: asks the repository for one more widget than the page holds, then cuts
     * the page; the cursor is present exactly when more widgets match.
     */
    method GetWidgets(filter: WidgetsFilter) returns (page: PagedList<Widget>)
      requires Valid()
      requires filter.limit > 0
      ensures LowestByZ(page.items, Candidates(widgetsRepository.widgetsByIds, filter.region, filter.cursor), filter.limit)
      ensures page.cursor.Some? <==> |Candidates(widgetsRepository.widgetsByIds, filter.region, filter.cursor)| > filter.limit
      ensures page.cursor.Some? ==> page.cursor.value == page.items[|page.items| - 1].z
    {
      var widgets := widgetsRepository.GetWidgets(filter.region, filter.cursor, filter.limit + 1);
      CutPageOfLowest(widgets, Candidates(widgetsRepository.widgetsByIds, filter.region, filter.cursor), filter.limit);
      page := CutPage(widgets, filter.limit);
    }
  }
}
