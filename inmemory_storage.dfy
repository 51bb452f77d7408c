/**
 * The in-memory widget storage: a sorted map from Z-index to widget, a map from id to widget and
 * an R-tree over the boundaries, all three kept in agreement by every operation.
 *
 * The id generator and the clock are parameters of the operations (`id`, `now`); the read-write
 * lock that serialises the operations is not part of this model, so each method runs alone.
 */
module InMemoryStorage {
  import opened Wrappers
  import opened Regions
  import opened Widgets
  import opened SpatialIndex
  import opened PagedLists
  import opened StoreParameters
  import opened ZOrder

  /** The Z-index used when no widget is stored. */
  const INITIAL_Z_INDEX: int := 0

  /** `toWidget(wrapper)`: the immutable snapshot of a stored widget carries all its current fields. */
  function ToWidget(wrapper: Widget): (w: Widget)
    ensures w.id == wrapper.id && w.boundaries == wrapper.boundaries
    ensures w.z == wrapper.z && w.modifiedAt == wrapper.modifiedAt
  {
    Widgets.EmptyBuilder()
      .SetId(wrapper.id)
      .SetBoundaries(wrapper.boundaries)
      .SetZ(wrapper.z)
      .SetModifiedAt(wrapper.modifiedAt)
      .Build().value
  }

  /** `isUpdateNotNeeded`: the boundaries are equal and the Z-index is the same. */
  function IsUpdateNotNeeded(existing: Widget, newBoundaries: Region, newZIndex: int): (notNeeded: bool)
    ensures notNeeded <==> existing.boundaries == newBoundaries && existing.z == newZIndex
  {
    Equals(existing.boundaries, RegionObject(newBoundaries)) && existing.z == newZIndex
  }

  class InMemoryWidgetsStorage {
    /** The sorted map from Z-index to the id of the widget there. */
    var widgetsByZIndex: map<int, string>
    /** The current state of every stored widget, by id. */
    var widgetsByIds: map<string, Widget>
    /** The spatial index over the boundaries. */
    const spatialIndex: WidgetRTree

    ghost predicate Valid()
      reads this, spatialIndex
    {
      Indexed(widgetsByZIndex, widgetsByIds, spatialIndex.entries)
    }

    constructor ()
      ensures Valid()
      ensures widgetsByIds == map[]
      ensures fresh(spatialIndex)
    {
      widgetsByZIndex := map[];
      widgetsByIds := map[];
      spatialIndex := new WidgetRTree();
    }

    /** `getNextSortingKeyForCreation()`: the initial Z-index on an empty store, else one above the last. */
    function NextSortingKeyForCreation(): (k: int)
      reads this, spatialIndex
      requires Valid()
      ensures widgetsByIds == map[] ==> k == INITIAL_Z_INDEX
      ensures widgetsByIds != map[] ==>
        k - 1 in ZValues(widgetsByIds) && forall z | z in ZValues(widgetsByIds) :: z < k
    {
      ConsistentMeansUnique(widgetsByZIndex, widgetsByIds);
      if widgetsByZIndex == map[] then INITIAL_Z_INDEX else MaxOf(widgetsByZIndex.Keys) + 1
    }

    /**
     * `createWidget(parameters)`: the widget goes to the requested Z-index, or above the foreground;
     * the run of widgets occupying that Z-index and the ones right above it move up by one first.
     */
    method CreateWidget(id: string, parameters: StoreWidgetParameters, now: Instant) returns (widget: Widget)
      requires Valid() && id !in widgetsByIds
      requires ValidGeometry(parameters.boundaries)
      modifies this, spatialIndex
      ensures Valid()
      ensures widget.id == id && widget.boundaries == parameters.boundaries && widget.modifiedAt == now
      ensures widget.z == if parameters.z.Some? then parameters.z.value else old(NextSortingKeyForCreation())
      ensures widgetsByIds == Inserted(old(widgetsByIds), widget, now)
    {
      var key := if parameters.z.Some? then parameters.z.value else NextSortingKeyForCreation();
      widget := Widgets.EmptyBuilder()
        .SetId(id)
        .SetBoundaries(parameters.boundaries)
        .SetZ(key)
        .SetModifiedAt(now)
        .Build().value;
      assert widget == Widget(id, parameters.boundaries, key, now);
      var byZ, byId := ShiftOverlying(widgetsByZIndex, widgetsByIds, key, now);
      PlaceNew(widgetsByZIndex, widgetsByIds, spatialIndex.entries, byZ, byId, widget, now);
      widgetsByZIndex := byZ[key := id];
      widgetsByIds := byId[id := widget];
      spatialIndex.Add(id, widget.boundaries);
    }

    /**
     * `updateWidget(id, parameters)`: nothing for an unknown id; the stored widget unchanged when
     * neither the boundaries nor the resolved Z-index differ; otherwise the widget is stamped, moved
     * to the new Z-index (shifting the run there) and re-indexed under its new boundaries.
     * With no Z-index requested, a widget already on the foreground stays there and any other
     * widget goes one above it.
     */
    method UpdateWidget(id: string, parameters: StoreWidgetParameters, now: Instant) returns (result: Option<Widget>)
      requires Valid()
      requires ValidGeometry(parameters.boundaries)
      modifies this, spatialIndex
      ensures Valid()
      ensures result.None? <==> id !in old(widgetsByIds)
      ensures result.None? ==> unchanged(this, spatialIndex)
      ensures result.Some? ==>
        var w := old(widgetsByIds)[id];
        var key := if parameters.z.Some? then parameters.z.value
                   else if MaxOf(ZValues(old(widgetsByIds))) == w.z then w.z
                   else MaxOf(ZValues(old(widgetsByIds))) + 1;
        if w.boundaries == parameters.boundaries && w.z == key then
          && result.value == w
          && unchanged(this, spatialIndex)
        else
          && result.value == Widget(id, parameters.boundaries, key, now)
          && widgetsByIds == Updated(old(widgetsByIds), id, parameters.boundaries, key, now)
    {
      if id !in widgetsByIds {
        return None;
      }
      ConsistentMeansUnique(widgetsByZIndex, widgetsByIds);
      var widget := widgetsByIds[id];
      var key: int;
      if parameters.z.Some? {
        key := parameters.z.value;
      } else {
        var lastKey := MaxOf(widgetsByZIndex.Keys);
        key := if lastKey == widget.z then lastKey else lastKey + 1;
      }
      if IsUpdateNotNeeded(widget, parameters.boundaries, key) {
        return Some(ToWidget(widget));
      }
      widget := ApplyUpdate(id, parameters.boundaries, key, now);
      return Some(ToWidget(widget));
    }

    /**
     * The part of `updateWidget` after the no-op check: stamp, move to `key` if it differs, and
     * re-index if the boundaries differ.
     */
    method ApplyUpdate(id: string, boundaries: Region, key: int, now: Instant) returns (widget: Widget)
      requires Valid() && id in widgetsByIds
      requires ValidGeometry(boundaries)
      modifies this, spatialIndex
      ensures Valid()
      ensures widget == Widget(id, boundaries, key, now)
      ensures widgetsByIds == Updated(old(widgetsByIds), id, boundaries, key, now)
    {
      var stored := widgetsByIds[id];
      widget := stored.(modifiedAt := now);
      if widget.z != key {
        widget := widget.(z := key);
        MoveWidget(widget, now);
      }
      widget := widget.(boundaries := boundaries);
      ReindexWidget(widget);
    }

    /**
     * The move of `updateWidget`: the widget leaves its old Z-index, the run at its new Z-index is
     * shifted, and the widget is put there.
     */
    method MoveWidget(widget: Widget, now: Instant)
      requires Valid() && widget.id in widgetsByIds
      requires widgetsByIds[widget.id].z != widget.z && widgetsByIds[widget.id].boundaries == widget.boundaries
      modifies this
      ensures Valid()
      ensures widgetsByIds == Shifted(old(widgetsByIds) - {widget.id}, widget.z, now)[widget.id := widget]
    {
      var id := widget.id;
      RemoveKeepsConsistent(widgetsByZIndex, widgetsByIds, id);
      var shiftedZ, shiftedIds := ShiftOverlying(widgetsByZIndex - {widgetsByIds[id].z}, widgetsByIds - {id}, widget.z, now);
      MoveKeepsIndexed(widgetsByZIndex, widgetsByIds, spatialIndex.entries, shiftedZ, shiftedIds, widget, now);
      widgetsByZIndex, widgetsByIds := shiftedZ[widget.z := id], shiftedIds[id := widget];
    }

    /**
     * The re-indexing of `updateWidget`: the spatial entry is replaced when the boundaries differ,
     * and the widget takes its new state at the same Z-index.
     */
    method ReindexWidget(widget: Widget)
      requires Valid() && widget.id in widgetsByIds && widgetsByIds[widget.id].z == widget.z
      requires ValidGeometry(widget.boundaries)
      modifies this, spatialIndex
      ensures Valid()
      ensures widgetsByIds == old(widgetsByIds)[widget.id := widget]
      ensures spatialIndex.entries
           == old(spatialIndex.entries) - {Entry(widget.id, old(widgetsByIds)[widget.id].boundaries)} + {Entry(widget.id, widget.boundaries)}
    {
      var current := widgetsByIds[widget.id];
      ReindexKeepsIndexed(widgetsByZIndex, widgetsByIds, spatialIndex.entries, widget);
      if !Equals(current.boundaries, RegionObject(widget.boundaries)) {
        spatialIndex.Remove(widget.id, current.boundaries);
        spatialIndex.Add(widget.id, widget.boundaries);
      }
      widgetsByIds := widgetsByIds[widget.id := widget];
    }

    /** `deleteWidget(id)`: removes the widget from all three structures; an unknown id changes nothing. */
    method DeleteWidget(id: string)
      requires Valid()
      modifies this, spatialIndex
      ensures Valid()
      ensures widgetsByIds == old(widgetsByIds) - {id}
      ensures id !in old(widgetsByIds) ==> unchanged(this, spatialIndex)
    {
      if id in widgetsByIds {
        var removedWidget := widgetsByIds[id];
        widgetsByIds := widgetsByIds - {id};
        widgetsByZIndex := widgetsByZIndex - {removedWidget.z};
        spatialIndex.Remove(id, removedWidget.boundaries);
      }
    }

    /** `getWidgetById(id)`: a snapshot of the stored widget, if there is one. */
    function GetWidgetById(id: string): (r: Option<Widget>)
      reads this
      ensures r.Some? <==> id in widgetsByIds
      ensures r.Some? ==> r.value == widgetsByIds[id]
    {
      if id in widgetsByIds then Some(ToWidget(widgetsByIds[id])) else None
    }

    /** `getWidgetsByZIndex(cursor, limit)`: the first `limit` widgets above the cursor. */
    function GetWidgetsByZIndex(cursor: Option<int>, limit: nat): (items: seq<Widget>)
      reads this, spatialIndex
      requires Valid()
      ensures LowestByZ(items, Candidates(widgetsByIds, None, cursor), limit)
    {
      TailByZ(widgetsByZIndex, widgetsByIds, cursor, limit)
    }

    /**
     * `getWidgetsBySpatialIndex(region, cursor, limit)`: the first `limit` widgets, by ascending
     * Z-index, among those inside the region and above the cursor.
     */
    method GetWidgetsBySpatialIndex(region: Region, cursor: Option<int>, limit: nat) returns (items: seq<Widget>)
      requires Valid()
      ensures LowestByZ(items, Candidates(widgetsByIds, Some(region), cursor), limit)
    {
      var hits := spatialIndex.Contains(region);
      SpatialAgreesReports(spatialIndex.entries, widgetsByIds, region);
      ConsistentMeansUnique(widgetsByZIndex, widgetsByIds);
      items := TopNByZ(hits, widgetsByIds, cursor, limit);
      assert HitCandidates(hits, widgetsByIds, cursor) == Candidates(widgetsByIds, Some(region), cursor) by {
        forall w | w in Candidates(widgetsByIds, Some(region), cursor)
          ensures w in HitCandidates(hits, widgetsByIds, cursor)
        {
          var id :| id in widgetsByIds && widgetsByIds[id] == w
                    && IsContained(region, w.boundaries) && Above(w.z, cursor);
          assert id in ContainedIds(spatialIndex.entries, region);
        }
      }
    }

    /**
     * `getWidgets(filter)`: one page of the widgets matching the filter, by ascending Z-index; the
     * cursor of the page is present exactly when more widgets match, and is the Z-index of its last item.
     */
    method GetWidgets(filter: WidgetsFilter) returns (page: PagedList<Widget>)
      requires Valid()
      requires filter.limit > 0
      ensures LowestByZ(page.items, Candidates(widgetsByIds, filter.region, filter.cursor), filter.limit)
      ensures page.cursor.Some? <==> |Candidates(widgetsByIds, filter.region, filter.cursor)| > filter.limit
      ensures page.cursor.Some? ==> page.cursor.value == page.items[|page.items| - 1].z
    {
      var limit := filter.limit + 1;
      var items: seq<Widget>;
      if filter.region.Some? {
        items := GetWidgetsBySpatialIndex(filter.region.value, filter.cursor, limit);
      } else {
        items := GetWidgetsByZIndex(filter.cursor, limit);
      }
      CutPageOfLowest(items, Candidates(widgetsByIds, filter.region, filter.cursor), filter.limit);
      page := CutPage(items, filter.limit);
    }
  }
}
