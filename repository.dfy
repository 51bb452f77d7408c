/**
 * The in-memory widgets repository: the same three structures as the in-memory storage, but the
 * decisions (which Z-index, whether an update is needed) are left to the service, which calls it
 * inside a transaction.
 */
module Repository {
  import opened Wrappers
  import opened Regions
  import opened Widgets
  import opened SpatialIndex
  import opened ZOrder

  /** `toImmutable(wrapper)`: the immutable snapshot of a stored widget carries all its current fields. */
  function ToImmutable(wrapper: Widget): (w: Widget)
    ensures w.id == wrapper.id && w.boundaries == wrapper.boundaries
    ensures w.z == wrapper.z && w.modifiedAt == wrapper.modifiedAt
  {
    Widgets.EmptyBuilder()
      .SetId(wrapper.id)
      .SetBoundaries(wrapper.boundaries)
      .SetZ(wrapper.z)
      .SetModifiedAt(wrapper.modifiedAt)
      .Build().value
  }

  class InMemoryWidgetsRepository {
    /** The sorted map from Z-index to the id of the widget there. */
    var widgetsByZIndex: map<int, string>
    /** The current state of every stored widget, by id. */
    var widgetsByIds: map<string, Widget>
    /** The spatial index over the boundaries. */
    const spatialIndex: WidgetRTree

    ghost predicate Valid()
      reads this, spatialIndex
    {
      Indexed(widgetsByZIndex, widgetsByIds, spatialIndex.entries)
    }

    constructor ()
      ensures Valid()
      ensures widgetsByIds == map[]
      ensures fresh(spatialIndex)
    {
      widgetsByZIndex := map[];
      widgetsByIds := map[];
      spatialIndex := new WidgetRTree();
    }

    /** `getCurrentForegroundZIndex()`: absent on an empty repository, else the highest Z-index. */
    function GetCurrentForegroundZIndex(): (foreground: Option<int>)
      reads this, spatialIndex
      requires Valid()
      ensures IsForeground(widgetsByIds, foreground)
    {
      ConsistentMeansUnique(widgetsByZIndex, widgetsByIds);
      if widgetsByZIndex == map[] then None else Some(MaxOf(widgetsByZIndex.Keys))
    }

    /** `insert(id, boundaries, zIndex, timestamp)`: shift the run at `zIndex`, then put the widget there. */
    method Insert(id: string, boundaries: Region, zIndex: int, modificationTimestamp: Instant)
      requires Valid() && id !in widgetsByIds
      requires ValidGeometry(boundaries)
      modifies this, spatialIndex
      ensures Valid()
      ensures widgetsByIds == Inserted(old(widgetsByIds), Widget(id, boundaries, zIndex, modificationTimestamp), modificationTimestamp)
    {
      var widget := Widget(id, boundaries, zIndex, modificationTimestamp);
      var byZ, byId := ShiftOverlying(widgetsByZIndex, widgetsByIds, zIndex, modificationTimestamp);
      PlaceNew(widgetsByZIndex, widgetsByIds, spatialIndex.entries, byZ, byId, widget, modificationTimestamp);
      widgetsByZIndex := byZ[zIndex := id];
      widgetsByIds := byId[id := widget];
      spatialIndex.Add(id, widget.boundaries);
    }

    /**
     * `update(widget, newBoundaries, newZIndex, timestamp)`, given the current snapshot of a stored
     * widget: a new Z-index moves it (shifting the run there) and stamps it; new boundaries re-index
     * it and stamp it; when neither differs nothing changes.
     */
    method Update(widget: Widget, newBoundaries: Region, newZIndex: int, modificationTimestamp: Instant)
      requires Valid() && widget.id in widgetsByIds && widgetsByIds[widget.id] == widget
      requires ValidGeometry(newBoundaries)
      modifies this, spatialIndex
      ensures Valid()
      ensures widget.z == newZIndex && widget.boundaries == newBoundaries ==> unchanged(this, spatialIndex)
      ensures widget.z != newZIndex || widget.boundaries != newBoundaries ==>
        widgetsByIds == Updated(old(widgetsByIds), widget.id, newBoundaries, newZIndex, modificationTimestamp)
    {
      var mutableWidget: Option<Widget> := None;
      if widget.z != newZIndex {
        var moved := widget.(z := newZIndex, modifiedAt := modificationTimestamp);
        MoveWidget(moved, modificationTimestamp);
        mutableWidget := Some(moved);
      }
      if !Equals(widget.boundaries, RegionObject(newBoundaries)) {
        var current := if mutableWidget.Some? then mutableWidget.value else widgetsByIds[widget.id];
        var reindexed := current.(boundaries := newBoundaries, modifiedAt := modificationTimestamp);
        ReindexWidget(reindexed);
        mutableWidget := Some(reindexed);
      }
    }

    /**
     * The move of `update`: the widget leaves its old Z-index, the run at its new Z-index is
     * shifted, and the widget is put there.
     */
    method MoveWidget(moved: Widget, modificationTimestamp: Instant)
      requires Valid() && moved.id in widgetsByIds
      requires widgetsByIds[moved.id].z != moved.z && widgetsByIds[moved.id].boundaries == moved.boundaries
      modifies this
      ensures Valid()
      ensures widgetsByIds == Shifted(old(widgetsByIds) - {moved.id}, moved.z, modificationTimestamp)[moved.id := moved]
    {
      var movedId := widgetsByZIndex[widgetsByIds[moved.id].z];
      RemoveKeepsConsistent(widgetsByZIndex, widgetsByIds, movedId);
      var byZ, byId := ShiftOverlying(widgetsByZIndex - {widgetsByIds[movedId].z}, widgetsByIds - {movedId}, moved.z, modificationTimestamp);
      MoveKeepsIndexed(widgetsByZIndex, widgetsByIds, spatialIndex.entries, byZ, byId, moved, modificationTimestamp);
      widgetsByZIndex, widgetsByIds := byZ[moved.z := movedId], byId[movedId := moved];
    }

    /**
     * The re-indexing of `update`: the spatial entry is replaced when the boundaries differ, and the
     * widget takes its new state at the same Z-index.
     */
    method ReindexWidget(reindexed: Widget)
      requires Valid() && reindexed.id in widgetsByIds && widgetsByIds[reindexed.id].z == reindexed.z
      requires ValidGeometry(reindexed.boundaries)
      modifies this, spatialIndex
      ensures Valid()
      ensures widgetsByIds == old(widgetsByIds)[reindexed.id := reindexed]
      ensures spatialIndex.entries
           == old(spatialIndex.entries) - {Entry(reindexed.id, old(widgetsByIds)[reindexed.id].boundaries)} + {Entry(reindexed.id, reindexed.boundaries)}
    {
      var current := widgetsByIds[reindexed.id];
      ReindexKeepsIndexed(widgetsByZIndex, widgetsByIds, spatialIndex.entries, reindexed);
      if !Equals(current.boundaries, RegionObject(reindexed.boundaries)) {
        spatialIndex.Remove(reindexed.id, current.boundaries);
        spatialIndex.Add(reindexed.id, reindexed.boundaries);
      }
      widgetsByIds := widgetsByIds[reindexed.id := reindexed];
    }

    /** `deleteById(id)`: true exactly when a widget was removed; an unknown id changes nothing. */
    method DeleteById(id: string) returns (deleted: bool)
      requires Valid()
      modifies this, spatialIndex
      ensures Valid()
      ensures deleted <==> id in old(widgetsByIds)
      ensures widgetsByIds == old(widgetsByIds) - {id}
      ensures !deleted ==> unchanged(this, spatialIndex)
    {
      if id in widgetsByIds {
        var removedWidget := widgetsByIds[id];
        RemoveKeepsConsistent(widgetsByZIndex, widgetsByIds, id);
        RemoveKeepsSpatial(spatialIndex.entries, widgetsByIds, id);
        widgetsByIds := widgetsByIds - {id};
        widgetsByZIndex := widgetsByZIndex - {removedWidget.z};
        spatialIndex.Remove(id, removedWidget.boundaries);
        return true;
      } else {
        return false;
      }
    }

    /** `getWidgetById(id)`: a snapshot of the stored widget, if there is one. */
    function GetWidgetById(id: string): (r: Option<Widget>)
      reads this
      ensures r.Some? <==> id in widgetsByIds
      ensures r.Some? ==> r.value == widgetsByIds[id]
    {
      if id in widgetsByIds then Some(ToImmutable(widgetsByIds[id])) else None
    }

    /** `getWidgetsByZIndex(cursor, limit)`. */
    function GetWidgetsByZIndex(cursor: Option<int>, limit: nat): (items: seq<Widget>)
      reads this, spatialIndex
      requires Valid()
      ensures LowestByZ(items, Candidates(widgetsByIds, None, cursor), limit)
    {
      TailByZ(widgetsByZIndex, widgetsByIds, cursor, limit)
    }

    /** `getWidgetsBySpatialIndex(region, cursor, limit)`. */
    method GetWidgetsBySpatialIndex(region: Region, cursor: Option<int>, limit: nat) returns (items: seq<Widget>)
      requires Valid()
      ensures LowestByZ(items, Candidates(widgetsByIds, Some(region), cursor), limit)
    {
      var hits := spatialIndex.Contains(region);
      SpatialAgreesReports(spatialIndex.entries, widgetsByIds, region);
      ConsistentMeansUnique(widgetsByZIndex, widgetsByIds);
      items := TopNByZ(hits, widgetsByIds, cursor, limit);
      assert HitCandidates(hits, widgetsByIds, cursor) == Candidates(widgetsByIds, Some(region), cursor) by {
        forall w | w in Candidates(widgetsByIds, Some(region), cursor)
          ensures w in HitCandidates(hits, widgetsByIds, cursor)
        {
          var id :| id in widgetsByIds && widgetsByIds[id] == w
                    && IsContained(region, w.boundaries) && Above(w.z, cursor);
          assert id in ContainedIds(spatialIndex.entries, region);
        }
      }
    }

    /**
     * `getWidgets(region, cursor, limit)`: the first `limit` widgets by ascending Z-index among those
     * inside the region (all of them when there is none) and above the cursor.
     */
    method GetWidgets(regionToSearch: Option<Region>, zIndexCursor: Option<int>, limit: nat) returns (items: seq<Widget>)
      requires Valid()
      ensures LowestByZ(items, Candidates(widgetsByIds, regionToSearch, zIndexCursor), limit)
    {
      if regionToSearch.Some? {
        items := GetWidgetsBySpatialIndex(regionToSearch.value, zIndexCursor, limit);
      } else {
        items := GetWidgetsByZIndex(zIndexCursor, limit);
      }
    }
  }
}
