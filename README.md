# Widget store: a verified model of the in-memory store

The widget store keeps rectangular widgets. Each widget has:
- a unique id;
- integer boundaries (x, y, width, height);
- an integer Z-index;
- the time of its last modification.

The one invariant that matters is that no two live widgets share a Z-index. A creation or move onto an
occupied Z-index pushes up by one the contiguous run of occupied Z-indices that starts there. The push
stops at the first free Z-index, and every pushed widget is stamped with the operation's time.

The model covers the two in-memory stores and the service on top of one of them:
- `InMemoryWidgetsStorage` makes its own decisions.
- `InMemoryWidgetsRepository` leaves those decisions to `WidgetsService`.

Both stores keep three structures: a sorted map from Z-index to widget, a map from id to widget, and an
R-tree over the boundaries. The model also covers the value types these stores use: `Region`, `Widget`,
`PagedList`, `StoreWidgetParameters` and the widgets filter.

How the model is laid out:

- `wrappers.dfy`: `Option`, `Result` and the null-argument failure the builders and factories can raise.
- `region.dfy`, `widget.dfy`, `paged_list.dfy`, `store_widget_parameters.dfy`: the value types and their builders.
  - Each builder keeps nullable fields as `Option`s.
  - `Build` fails exactly where the Java constructor throws.
- `rtree.dfy`: the spatial index.
  - The index is a class over a set of `(id, box)` entries, with the integer containment test of the searcher.
  - `Contains` is a loop that reports every contained entry once.
- `zorder.dfy`: what the two stores share.
  - The invariant `Indexed` says the Z map, the id map and the spatial entries describe the same live widgets.
  - `Shifted` specifies the shift, and the `ShiftOverlying` loop implements it.
  - `Inserted` and `Updated` specify the state after a creation and after an update.
  - `LowestByZ` specifies a listing: the first n candidates by ascending Z-index. It is proved unique by `LowestByZUnique`.
  - The top-N buffer of the spatial search is modelled with a binary search that returns Java's encoding.
  - `CutPage` is the page cut.
- `inmemory_storage.dfy`, `repository.dfy`, `service.dfy`: the two stores and the service.
  - The two stores are classes whose fields the methods reassign.
  - Every mutator keeps `Valid()` and states its new state through the functions of `zorder.dfy`.
- `scenarios.dfy`: two whole runs from the repository's tests, each starting from a fresh store, with their outcomes proved.

How the source's mechanics are modelled:
- The Java stores keep one mutable wrapper per widget and reference it from both maps. Here, the id map holds the wrapper's current value and the Z map refers to it by id.
- Assigning a wrapper field means replacing that map entry.
- The shift mutates the keys of the `TreeMap` in place. The model walks the run exactly as the loop does, updating the widgets, and then rebuilds the keys in one step (`ShiftKeys`).
- The id generator and the clock are parameters: `id` and `now` (or `modificationTimestamp`). A generated id is required not to be live.

Where the source is inconsistent with itself, the model follows the code that consumes the value:
- `WidgetsFilter.java` as shipped has only a cursor and a limit. Both the storage and the service read `filter.getRegion()`. The model uses the filter the code consumes: an optional region, an optional cursor and a limit.
- The service imports `StoreWidgetParameters` from the domain package, which is not part of this model. It is taken to be the storage's class of the same name.

The builders' setters (`SetX`, `SetId`, `SetBoundaries`, `SetZ` and the others) carry no contract of their own. They only record a value, and what they record is stated by each builder's `Build` row and by the builder lemmas below.

## Model

| member | source | states |
|---|---|---|
| Regions.RegionBuilder.Build | src/main/java/com/github/komarovd95/widgetstore/application/domain/Region.java:104-136 | building succeeds exactly when x, y, width and height were all set, and the region carries exactly those values |
| Regions.EmptyBuilder | src/main/java/com/github/komarovd95/widgetstore/application/domain/Region.java:97-99 | building an empty builder fails |
| Regions.BuildReturnsSetValues | src/main/java/com/github/komarovd95/widgetstore/application/domain/Region.java:30-63 | the getters of a built region return exactly the values given to the setters |
| Regions.Equals | src/main/java/com/github/komarovd95/widgetstore/application/domain/Region.java:76-85 | `equals` holds exactly for another region with the same four fields; never for null or another class |
| Regions.EqualsIsValueEquality | src/main/java/com/github/komarovd95/widgetstore/application/domain/Region.java:76-85 | `equals` is reflexive and symmetric, and coincides with value equality |
| Widgets.WidgetBuilder.Build | src/main/java/com/github/komarovd95/widgetstore/application/domain/Widget.java:133-140 | building succeeds exactly when all four fields are set and returns them unchanged; an unset Z fails first |
| Widgets.EmptyBuilder | src/main/java/com/github/komarovd95/widgetstore/application/domain/Widget.java:81-83 | building an empty builder fails on the missing Z |
| Widgets.CopyBuilder | src/main/java/com/github/komarovd95/widgetstore/application/domain/Widget.java:91-98 | `builder(copy).build()` gives back the same widget |
| Widgets.CopyBuilderOverrides | src/main/java/com/github/komarovd95/widgetstore/application/domain/Widget.java:91-98 | setters on a copy builder replace only the fields they set; the id is kept |
| Widgets.BuildRejectsMissingFields | src/main/java/com/github/komarovd95/widgetstore/application/domain/Widget.java:31-36 | a null id, boundaries or timestamp is rejected, in that order |
| PagedLists.LastPage | src/main/java/com/github/komarovd95/widgetstore/application/domain/PagedList.java:59-62 | the last page keeps the items in the given order and has no cursor |
| PagedLists.NonLastPage | src/main/java/com/github/komarovd95/widgetstore/application/domain/PagedList.java:72-76 | a null cursor is rejected; otherwise the page keeps the items and has exactly that cursor |
| StoreParameters.StoreWidgetParametersBuilder.Build | src/main/java/com/github/komarovd95/widgetstore/application/storage/StoreWidgetParameters.java:62-83 | building fails exactly when no boundaries were set; otherwise it keeps the boundaries and the Z that were set |
| StoreParameters.EmptyBuilder | src/main/java/com/github/komarovd95/widgetstore/application/storage/StoreWidgetParameters.java:55-57 | building an empty builder fails on the missing boundaries |
| StoreParameters.BuildWithoutZ | src/main/java/com/github/komarovd95/widgetstore/application/storage/StoreWidgetParameters.java:64-82 | without a call to `setZ` the parameters carry no Z-index, so `getZ` is empty |
| SpatialIndex.ContainedIds | src/main/java/com/github/komarovd95/widgetstore/application/domain/rtree/WidgetRTree.java:60-67 | every entry whose box lies in the region is reported |
| SpatialIndex.IsContained | src/main/java/com/github/komarovd95/widgetstore/application/domain/rtree/WidgetRTree.java:79-84 | edges may touch: when the box is contained every point of the box is a point of the region, and the box is contained as soon as its lower left and upper right corners lie in the region |
| SpatialIndex.RegionContainsItself | src/main/java/com/github/komarovd95/widgetstore/application/domain/rtree/WidgetRTree.java:79-84 | containment is non-strict: a region contains itself, edges included |
| SpatialIndex.ContainmentIsTransitive | src/main/java/com/github/komarovd95/widgetstore/application/domain/rtree/WidgetRTree.java:79-84 | containment is transitive |
| SpatialIndex.TallRegionScenario | src/test/java/com/github/komarovd95/widgetstore/application/storage/inmemory/InMemoryWidgetsStorageTest.java:499-575 | region (0,0,100,150) contains boxes (0,0,100,100) and (0,50,100,100) but not (50,50,100,100) |
| SpatialIndex.SmallRegionScenario | src/test/java/com/github/komarovd95/widgetstore/application/storage/inmemory/InMemoryWidgetsStorageTest.java:671-735 | region (0,0,50,50) contains none of those three boxes |
| SpatialIndex.ReportedAfterAdd | src/main/java/com/github/komarovd95/widgetstore/application/domain/rtree/WidgetRTree.java:21-29 | after `add(id, b)` the id is reported for every region containing b |
| SpatialIndex.NotReportedAfterRemove | src/main/java/com/github/komarovd95/widgetstore/application/domain/rtree/WidgetRTree.java:37-45 | after `remove(id, b)` of the id's only entry, no region reports the id |
| SpatialIndex.WidgetRTree.constructor | src/main/java/com/github/komarovd95/widgetstore/application/domain/rtree/WidgetRTree.java:13 | a new tree holds no entries |
| SpatialIndex.WidgetRTree.Add | src/main/java/com/github/komarovd95/widgetstore/application/domain/rtree/WidgetRTree.java:21-29 | the entry is added and nothing else changes |
| SpatialIndex.WidgetRTree.Remove | src/main/java/com/github/komarovd95/widgetstore/application/domain/rtree/WidgetRTree.java:37-45 | the entry is removed, if present, and nothing else changes |
| SpatialIndex.WidgetRTree.Contains | src/main/java/com/github/komarovd95/widgetstore/application/domain/rtree/WidgetRTree.java:54-77 | only ids of contained entries are reported, every contained entry is reported, and with one entry per id no id is reported twice |
| SpatialIndex.ContainedIdsGrow | src/main/java/com/github/komarovd95/widgetstore/application/domain/rtree/WidgetRTree.java:60-67 | visiting one more leaf entry never loses an id already reported |
| ZOrder.MaxOf | src/main/java/com/github/komarovd95/widgetstore/application/storage/inmemory/InMemoryWidgetsStorage.java:124 | `lastKey()` is a key, and no key is above it |
| ZOrder.Ascending | src/main/java/com/github/komarovd95/widgetstore/application/storage/inmemory/InMemoryWidgetsStorage.java:275-277 | the sorted map iterates each key once, in strictly ascending order |
| ZOrder.ConsistentMeansUnique | src/main/java/com/github/komarovd95/widgetstore/application/storage/inmemory/InMemoryWidgetsStorage.java:49-61 | when the two maps agree, Z-indices are unique and the Z map's keys are exactly the occupied Z-indices |
| ZOrder.SpatialAgreesReports | src/main/java/com/github/komarovd95/widgetstore/application/storage/inmemory/InMemoryWidgetsStorage.java:253-254 | a search of the agreeing index reports exactly the live widgets whose boundaries lie in the region |
| ZOrder.RunEnd | src/main/java/com/github/komarovd95/widgetstore/application/storage/inmemory/InMemoryWidgetsStorage.java:175-181 | the walk stops at the first free Z-index at or above the key; every Z-index before it is occupied |
| ZOrder.ShiftKeepsUniqueAndFreesKey | src/main/java/com/github/komarovd95/widgetstore/application/storage/inmemory/InMemoryWidgetsStorage.java:173-191 | a shift keeps the ids and keeps Z-indices unique, and the key is free afterwards |
| ZOrder.ShiftKeepsOrder | src/main/java/com/github/komarovd95/widgetstore/application/storage/inmemory/InMemoryWidgetsStorage.java:173-191 | a shift keeps the relative Z order of every pair of widgets |
| ZOrder.ShiftFromFreeKeyIsIdentity | src/main/java/com/github/komarovd95/widgetstore/application/storage/inmemory/InMemoryWidgetsStorage.java:179-181 | a shift from a free Z-index moves and stamps nobody |
| ZOrder.ShiftKeys | src/main/java/com/github/komarovd95/widgetstore/application/storage/inmemory/InMemoryWidgetsStorage.java:182-186 | the keys after the in-place mutation (the repository's walk does the same): each key of the run moves up by one and keeps its id, every other key keeps its id, `key` is free when the run is not empty, and no other key appears |
| ZOrder.ShiftKeySoundAt | src/main/java/com/github/komarovd95/widgetstore/application/storage/inmemory/InMemoryWidgetsStorage.java:182-186 | a rebuilt key names a live widget, and that widget's Z-index after the walk is that key |
| ZOrder.ShiftKeyCompleteAt | src/main/java/com/github/komarovd95/widgetstore/application/storage/inmemory/InMemoryWidgetsStorage.java:182-186 | a live widget's Z-index after the walk is a rebuilt key that names it |
| ZOrder.ShiftKeysConsistent | src/main/java/com/github/komarovd95/widgetstore/application/storage/inmemory/InMemoryWidgetsStorage.java:182-186 | the Z map with the run's keys raised by one agrees with the shifted widgets and leaves the key free |
| ZOrder.ShiftKeysSound | src/main/java/com/github/komarovd95/widgetstore/application/storage/inmemory/InMemoryWidgetsStorage.java:182-186 | every rebuilt key names a shifted widget that sits at that key |
| ZOrder.ShiftKeysComplete | src/main/java/com/github/komarovd95/widgetstore/application/storage/inmemory/InMemoryWidgetsStorage.java:182-186 | every shifted widget sits at a rebuilt key that names it |
| ZOrder.BumpNext | src/main/java/com/github/komarovd95/widgetstore/application/storage/inmemory/InMemoryWidgetsStorage.java:182-188 | one step of the walk extends the raised and stamped prefix of the run by one Z-index and touches nothing else |
| ZOrder.WalkIsShift | src/main/java/com/github/komarovd95/widgetstore/application/storage/inmemory/InMemoryWidgetsStorage.java:178-180 | when the walk meets the first free Z-index, the walked widgets are exactly the shifted ones |
| ZOrder.ShiftOverlying | src/main/java/com/github/komarovd95/widgetstore/application/storage/inmemory/InMemoryWidgetsStorage.java:173-191 | the walk raises by one and stamps exactly the run from the key up to the first gap; the maps stay consistent and the key is free |
| ZOrder.ShiftKeepsIdsAndBoundaries | src/main/java/com/github/komarovd95/widgetstore/application/storage/inmemory/InMemoryWidgetsStorage.java:185-187 | a shift changes only Z-indices and timestamps |
| ZOrder.RemoveKeepsConsistent | src/main/java/com/github/komarovd95/widgetstore/application/storage/inmemory/InMemoryWidgetsStorage.java:205-207 | removing a widget's id and its Z-index keeps the two maps consistent |
| ZOrder.PlaceKeepsConsistent | src/main/java/com/github/komarovd95/widgetstore/application/storage/inmemory/InMemoryWidgetsStorage.java:112-113 | putting a fresh widget at a free Z-index keeps the two maps consistent |
| ZOrder.ReplaceKeepsConsistent | src/main/java/com/github/komarovd95/widgetstore/application/storage/inmemory/InMemoryWidgetsStorage.java:156 | changing a wrapper's fields without changing its Z-index keeps the two maps consistent |
| ZOrder.ReindexKeepsSpatial | src/main/java/com/github/komarovd95/widgetstore/application/storage/inmemory/InMemoryWidgetsStorage.java:163-167 | removing the old entry and adding the new boundaries keeps the spatial index in agreement |
| ZOrder.AddKeepsSpatial | src/main/java/com/github/komarovd95/widgetstore/application/storage/inmemory/InMemoryWidgetsStorage.java:114 | adding the entry of a fresh widget keeps the spatial index in agreement |
| ZOrder.PlaceNew | src/main/java/com/github/komarovd95/widgetstore/application/storage/inmemory/InMemoryWidgetsStorage.java:111-114 | putting a fresh widget at the Z-index freed by the shift, under its id and in the spatial index, keeps the invariant and gives `Inserted` |
| ZOrder.SameBoundariesKeepSpatial | src/main/java/com/github/komarovd95/widgetstore/application/storage/inmemory/InMemoryWidgetsStorage.java:157-161 | changing Z-indices and timestamps but no boundaries and no ids keeps the spatial index in agreement |
| ZOrder.MoveKeepsIndexed | src/main/java/com/github/komarovd95/widgetstore/application/storage/inmemory/InMemoryWidgetsStorage.java:157-161 | a widget that left its old Z-index, placed at the Z-index freed by the shift, keeps the invariant with the spatial entries unchanged |
| ZOrder.ReindexKeepsIndexed | src/main/java/com/github/komarovd95/widgetstore/application/storage/inmemory/InMemoryWidgetsStorage.java:163-167 | replacing a widget at the same Z-index and swapping its spatial entry keeps the invariant; with equal boundaries the entries are unchanged |
| ZOrder.RemoveKeepsSpatial | src/main/java/com/github/komarovd95/widgetstore/application/storage/inmemory/InMemoryWidgetsStorage.java:208 | removing the entry of a removed widget keeps the spatial index in agreement |
| ZOrder.UpdateKeepsOtherBoundaries | src/main/java/com/github/komarovd95/widgetstore/application/storage/inmemory/InMemoryWidgetsStorage.java:156-167 | an update keeps the set of ids and changes no other widget's boundaries |
| ZOrder.InsertKeepsUnique | src/main/java/com/github/komarovd95/widgetstore/application/storage/inmemory/InMemoryWidgetsStorage.java:111-113 | after a creation at any Z-index, Z-indices stay unique, the new widget sits at its Z-index, and the ids are the old ones plus the new one |
| ZOrder.UpdateKeepsUnique | src/main/java/com/github/komarovd95/widgetstore/application/storage/inmemory/InMemoryWidgetsStorage.java:156-167 | after an update to any Z-index, Z-indices stay unique, the widget sits there with its new boundaries and timestamp, and the ids are unchanged |
| ZOrder.MoveDownScenario | src/test/java/com/github/komarovd95/widgetstore/application/storage/inmemory/InMemoryWidgetsStorageTest.java:344-385 | moving 1 to 0 among {0, 1, 2} lifts only the old 0, to 1; the old 2 keeps its Z-index and timestamp |
| ZOrder.ShiftStopsAtGapScenario | src/test/java/com/github/komarovd95/widgetstore/application/storage/inmemory/InMemoryWidgetsStorageTest.java:162-218 | creating at 0 over {0, 1, 3} lifts 0 and 1 and leaves 3, above the gap, untouched |
| ZOrder.ForegroundUnique | src/main/java/com/github/komarovd95/widgetstore/application/repository/InMemoryWidgetsRepository.java:56-58 | the foreground Z-index is determined by the stored widgets |
| ZOrder.UpdateAboveOthersKeepsOthers | src/main/java/com/github/komarovd95/widgetstore/application/storage/inmemory/InMemoryWidgetsStorage.java:156-162 | an update to a Z-index above every other widget shifts and stamps no other widget |
| ZOrder.DefaultUpdateReachesForeground | src/main/java/com/github/komarovd95/widgetstore/application/storage/inmemory/InMemoryWidgetsStorage.java:142-151 | with no Z requested, the widget ends strictly above every other widget, and no other widget is moved or stamped |
| ZOrder.CandidatesHaveDistinctZ | src/main/java/com/github/komarovd95/widgetstore/application/storage/inmemory/InMemoryWidgetsStorage.java:256 | with unique Z-indices, the candidates of a listing have distinct Z-indices, so the comparator by Z is a total order on them |
| ZOrder.TailByZ | src/main/java/com/github/komarovd95/widgetstore/application/storage/inmemory/InMemoryWidgetsStorage.java:271-281 | the tail of the sorted map above the cursor, cut to the limit, is the first `limit` widgets above the cursor by ascending Z-index |
| ZOrder.TailIsLowest | src/main/java/com/github/komarovd95/widgetstore/application/storage/inmemory/InMemoryWidgetsStorage.java:272-278 | the first n widgets of the ascending key walk above the cursor are the n lowest-Z widgets above it |
| ZOrder.BinarySearch | src/main/java/com/github/komarovd95/widgetstore/application/storage/inmemory/InMemoryWidgetsStorage.java:256 | it returns either an index holding the Z-index, or -(insertion point) - 1, where the buffer is below the Z-index before the insertion point and above it after |
| ZOrder.InsertAndTruncate | src/main/java/com/github/komarovd95/widgetstore/application/storage/inmemory/InMemoryWidgetsStorage.java:258-261 | after insertion and truncation the buffer grows by at most one and never exceeds the limit |
| ZOrder.InsertKeepsAscending | src/main/java/com/github/komarovd95/widgetstore/application/storage/inmemory/InMemoryWidgetsStorage.java:256-258 | inserting at the binary-search insertion point keeps the buffer strictly ascending, with the other items in place |
| ZOrder.InsertKeepsLowest | src/main/java/com/github/komarovd95/widgetstore/application/storage/inmemory/InMemoryWidgetsStorage.java:255-262 | one consumer step keeps the buffer equal to the first `limit` widgets among those seen, whether the widget is inserted or dropped |
| ZOrder.ConsumeHit | src/main/java/com/github/komarovd95/widgetstore/application/storage/inmemory/InMemoryWidgetsStorage.java:254-262 | one call of the search consumer keeps the buffer equal to the first `limit` candidates seen, with the widget counted only when it is above the cursor |
| ZOrder.MissingIsAbove | src/main/java/com/github/komarovd95/widgetstore/application/storage/inmemory/InMemoryWidgetsStorage.java:259-261 | a widget cut off by the truncation lies above every kept widget, and the buffer is then full |
| ZOrder.DivergingIsMissing | src/main/java/com/github/komarovd95/widgetstore/application/storage/inmemory/InMemoryWidgetsStorage.java:241-246 | where two valid listings first differ, the lower item is missing from the other listing |
| ZOrder.LowestByZUnique | src/main/java/com/github/komarovd95/widgetstore/application/storage/inmemory/InMemoryWidgetsStorage.java:238-240 | any two listings of the first n candidates are equal, so the region search and the Z walk return the same page |
| ZOrder.TopNByZ | src/main/java/com/github/komarovd95/widgetstore/application/storage/inmemory/InMemoryWidgetsStorage.java:250-269 | the consumer loop over the reported ids yields the first `limit` reported widgets above the cursor, ascending |
| ZOrder.AscendingHasDistinctElements | src/main/java/com/github/komarovd95/widgetstore/application/storage/inmemory/InMemoryWidgetsStorage.java:241 | a listing ascending by Z-index has no repeated widget |
| ZOrder.LowestCount | src/main/java/com/github/komarovd95/widgetstore/application/storage/inmemory/InMemoryWidgetsStorage.java:241 | the first n candidates number n, or all of them when there are fewer |
| ZOrder.CutPage | src/main/java/com/github/komarovd95/widgetstore/application/storage/inmemory/InMemoryWidgetsStorage.java:241-246 | at most `limit` items; a cursor exactly when more than `limit` came back, equal to the last kept item's Z-index; otherwise all items |
| ZOrder.CutPageOfLowest | src/main/java/com/github/komarovd95/widgetstore/application/storage/inmemory/InMemoryWidgetsStorage.java:236-246 | cutting the first `limit + 1` candidates gives the first `limit` candidates, with a cursor exactly when more than `limit` match |
| ZOrder.NextPageContinues | src/main/java/com/github/komarovd95/widgetstore/application/storage/inmemory/InMemoryWidgetsStorage.java:243 | listing above the returned cursor gives exactly the candidates not on the page |
| InMemoryStorage.ToWidget | src/main/java/com/github/komarovd95/widgetstore/application/storage/inmemory/InMemoryWidgetsStorage.java:338-345 | the snapshot carries all four current fields of the wrapper |
| InMemoryStorage.IsUpdateNotNeeded | src/main/java/com/github/komarovd95/widgetstore/application/storage/inmemory/InMemoryWidgetsStorage.java:193-196 | no update is needed exactly when the boundaries are equal and the Z-index is the same |
| InMemoryStorage.InMemoryWidgetsStorage.constructor | src/main/java/com/github/komarovd95/widgetstore/application/storage/inmemory/InMemoryWidgetsStorage.java:49-61 | a new storage is empty and satisfies the invariant |
| InMemoryStorage.InMemoryWidgetsStorage.NextSortingKeyForCreation | src/main/java/com/github/komarovd95/widgetstore/application/storage/inmemory/InMemoryWidgetsStorage.java:120-127 | 0 on an empty store; otherwise one above the highest occupied Z-index |
| InMemoryStorage.InMemoryWidgetsStorage.CreateWidget | src/main/java/com/github/komarovd95/widgetstore/application/storage/inmemory/InMemoryWidgetsStorage.java:97-118 | the widget has the given id, boundaries and time, and the requested Z-index or the next one; the store gains it after shifting the run there; the invariant holds |
| InMemoryStorage.InMemoryWidgetsStorage.UpdateWidget | src/main/java/com/github/komarovd95/widgetstore/application/storage/inmemory/InMemoryWidgetsStorage.java:133-171 | empty exactly for an unknown id, and then nothing changes; otherwise the key is the requested Z-index, else the widget's own Z-index if it holds the maximum, else the maximum + 1; if the boundaries and key equal the stored ones the stored widget is returned, timestamp included, and nothing changes; otherwise the result is the widget with the new boundaries, key and time and the new state is `Updated`; the invariant holds |
| InMemoryStorage.InMemoryWidgetsStorage.ApplyUpdate | src/main/java/com/github/komarovd95/widgetstore/application/storage/inmemory/InMemoryWidgetsStorage.java:156-169 | the widget is stamped, moved to the key if that differs, and re-indexed; the result is the widget with the new boundaries, key and time, the new state is `Updated`, and the invariant holds |
| InMemoryStorage.InMemoryWidgetsStorage.MoveWidget | src/main/java/com/github/komarovd95/widgetstore/application/storage/inmemory/InMemoryWidgetsStorage.java:157-162 | the widget leaves its old Z-index, the run at the new one is shifted, and the widget is put there; the invariant holds |
| InMemoryStorage.InMemoryWidgetsStorage.ReindexWidget | src/main/java/com/github/komarovd95/widgetstore/application/storage/inmemory/InMemoryWidgetsStorage.java:163-167 | the spatial entry with the old boundaries is replaced by one with the new boundaries, the widget takes its new state, and the invariant holds |
| InMemoryStorage.InMemoryWidgetsStorage.DeleteWidget | src/main/java/com/github/komarovd95/widgetstore/application/storage/inmemory/InMemoryWidgetsStorage.java:202-215 | the id is gone from all three structures; an unknown id changes nothing |
| InMemoryStorage.InMemoryWidgetsStorage.GetWidgetById | src/main/java/com/github/komarovd95/widgetstore/application/storage/inmemory/InMemoryWidgetsStorage.java:221-227 | present exactly when the id is live, and then equal to the stored widget |
| InMemoryStorage.InMemoryWidgetsStorage.GetWidgetsByZIndex | src/main/java/com/github/komarovd95/widgetstore/application/storage/inmemory/InMemoryWidgetsStorage.java:271-281 | the first `limit` widgets above the cursor, by ascending Z-index |
| InMemoryStorage.InMemoryWidgetsStorage.GetWidgetsBySpatialIndex | src/main/java/com/github/komarovd95/widgetstore/application/storage/inmemory/InMemoryWidgetsStorage.java:250-269 | the first `limit` widgets inside the region and above the cursor, by ascending Z-index |
| InMemoryStorage.InMemoryWidgetsStorage.GetWidgets | src/main/java/com/github/komarovd95/widgetstore/application/storage/inmemory/InMemoryWidgetsStorage.java:233-248 | the first `limit` matching widgets, ascending; a cursor exactly when more than `limit` match, equal to the last item's Z-index |
| Repository.ToImmutable | src/main/java/com/github/komarovd95/widgetstore/application/repository/InMemoryWidgetsRepository.java:245-252 | the snapshot carries all four current fields of the mutable widget |
| Repository.InMemoryWidgetsRepository.constructor | src/main/java/com/github/komarovd95/widgetstore/application/repository/InMemoryWidgetsRepository.java:40-50 | a new repository is empty and satisfies the invariant |
| Repository.InMemoryWidgetsRepository.GetCurrentForegroundZIndex | src/main/java/com/github/komarovd95/widgetstore/application/repository/InMemoryWidgetsRepository.java:56-58 | empty exactly when no widget is stored; otherwise the highest occupied Z-index |
| Repository.InMemoryWidgetsRepository.Insert | src/main/java/com/github/komarovd95/widgetstore/application/repository/InMemoryWidgetsRepository.java:64-75 | the run at the Z-index is shifted, the new widget is placed there, and the invariant holds |
| Repository.InMemoryWidgetsRepository.Update | src/main/java/com/github/komarovd95/widgetstore/application/repository/InMemoryWidgetsRepository.java:81-102 | with a new Z-index or new boundaries, the new state is `Updated` and the invariant holds; with neither, nothing changes |
| Repository.InMemoryWidgetsRepository.MoveWidget | src/main/java/com/github/komarovd95/widgetstore/application/repository/InMemoryWidgetsRepository.java:88-94 | the widget leaves its old Z-index, the run at the new one is shifted, and the moved and stamped widget is put there; the invariant holds |
| Repository.InMemoryWidgetsRepository.ReindexWidget | src/main/java/com/github/komarovd95/widgetstore/application/repository/InMemoryWidgetsRepository.java:95-101 | the spatial entry with the old boundaries is replaced by one with the new boundaries, the widget takes its new state, and the invariant holds |
| Repository.InMemoryWidgetsRepository.DeleteById | src/main/java/com/github/komarovd95/widgetstore/application/repository/InMemoryWidgetsRepository.java:127-137 | returns true exactly when the id was live; the id is gone afterwards; false means nothing changed |
| Repository.InMemoryWidgetsRepository.GetWidgetById | src/main/java/com/github/komarovd95/widgetstore/application/repository/InMemoryWidgetsRepository.java:143-147 | present exactly when the id is live, and then equal to the stored widget |
| Repository.InMemoryWidgetsRepository.GetWidgetsByZIndex | src/main/java/com/github/komarovd95/widgetstore/application/repository/InMemoryWidgetsRepository.java:180-190 | the first `limit` widgets above the cursor, by ascending Z-index |
| Repository.InMemoryWidgetsRepository.GetWidgetsBySpatialIndex | src/main/java/com/github/komarovd95/widgetstore/application/repository/InMemoryWidgetsRepository.java:159-178 | the first `limit` widgets inside the region and above the cursor, by ascending Z-index |
| Repository.InMemoryWidgetsRepository.GetWidgets | src/main/java/com/github/komarovd95/widgetstore/application/repository/InMemoryWidgetsRepository.java:153-157 | the first `limit` widgets inside the region (any widget when there is none) and above the cursor, ascending |
| Service.ResolveCreateZ | src/main/java/com/github/komarovd95/widgetstore/application/service/WidgetsService.java:78-83 | the requested Z-index if there is one; otherwise above the foreground |
| Service.ResolveUpdateZ | src/main/java/com/github/komarovd95/widgetstore/application/service/WidgetsService.java:128-133 | the requested Z-index if there is one; otherwise at or above the foreground, staying put exactly when the widget is the foreground |
| Service.UpdateIsNotNeeded | src/main/java/com/github/komarovd95/widgetstore/application/service/WidgetsService.java:156-158 | no update is needed exactly when the boundaries are equal and the Z-index is the same |
| Service.CreateWithoutZGoesOnTop | src/main/java/com/github/komarovd95/widgetstore/application/service/WidgetsService.java:78-83 | with no Z requested, the widget goes to 0 on an empty repository, and strictly above every stored widget otherwise, so nobody is shifted |
| Service.UpdateWithoutZGoesOnTop | src/main/java/com/github/komarovd95/widgetstore/application/service/WidgetsService.java:128-133 | with no Z requested, the widget ends strictly above every other widget, and no other widget changes |
| Service.ResolutionMatchesStorage | src/main/java/com/github/komarovd95/widgetstore/application/service/WidgetsService.java:128-133 | the service resolves Z-indices exactly as the in-memory storage does: max + 1, or the current Z-index when that is the max |
| Service.WidgetsService.constructor | src/main/java/com/github/komarovd95/widgetstore/application/service/WidgetsService.java:49-59 | the service wraps the given repository |
| Service.WidgetsService.CreateWidget | src/main/java/com/github/komarovd95/widgetstore/application/service/WidgetsService.java:73-100 | the widget has the given id, boundaries and time, and the resolved Z-index; the repository gains it after shifting the run there |
| Service.WidgetsService.UpdateWidget | src/main/java/com/github/komarovd95/widgetstore/application/service/WidgetsService.java:116-154 | empty exactly for an unknown id, with no write; otherwise the key is `ResolveUpdateZ` of the foreground; if `UpdateIsNotNeeded` the stored snapshot is returned with no write; otherwise the result is the copy with the new boundaries, key and time and the repository's new state is `Updated`, so other widgets keep their timestamps unless shifted |
| Service.WidgetsService.DeleteWidget | src/main/java/com/github/komarovd95/widgetstore/application/service/WidgetsService.java:170-181 | the id is gone afterwards; an unknown id has no side effects |
| Service.WidgetsService.GetWidgetById | src/main/java/com/github/komarovd95/widgetstore/application/service/WidgetsService.java:192-195 | present exactly when the id is live, and then equal to the stored widget |
| Service.WidgetsService.GetWidgets | src/main/java/com/github/komarovd95/widgetstore/application/service/WidgetsService.java:207-222 | fetching `limit + 1` and cutting gives the first `limit` matches; a cursor exactly when more than `limit` match, equal to the last item's Z-index |
| Scenarios.CreateIntoEmpty | src/test/java/com/github/komarovd95/widgetstore/application/storage/inmemory/InMemoryWidgetsStorageTest.java:37-57 | creating into an empty store shifts nobody, and the store holds just the new widget |
| Scenarios.CreateAboveForeground | src/test/java/com/github/komarovd95/widgetstore/application/storage/inmemory/InMemoryWidgetsStorageTest.java:59-88 | creating one above the only widget shifts nobody |
| Scenarios.CreateAtZeroPushesRun | src/test/java/com/github/komarovd95/widgetstore/application/storage/inmemory/InMemoryWidgetsStorageTest.java:117-160 | creating at 0 over {0, 1} lifts both widgets by one and stamps them |
| Scenarios.CreateTwoInStorage | src/test/java/com/github/komarovd95/widgetstore/application/storage/inmemory/InMemoryWidgetsStorageTest.java:128-142 | on an empty storage, a and b created without a Z-index go to 0 and 1 |
| Scenarios.ThreeCandidates | src/test/java/com/github/komarovd95/widgetstore/application/storage/inmemory/InMemoryWidgetsStorageTest.java:155 | with no region and no cursor every stored widget is a candidate |
| Scenarios.ThreeInOrder | src/test/java/com/github/komarovd95/widgetstore/application/storage/inmemory/InMemoryWidgetsStorageTest.java:155-159 | three widgets with ascending Z-indices, listed in that order, are the first n of themselves |
| Scenarios.ThreeDistinct | src/test/java/com/github/komarovd95/widgetstore/application/storage/inmemory/InMemoryWidgetsStorageTest.java:156 | three widgets with distinct Z-indices are three |
| Scenarios.ListingOfThree | src/test/java/com/github/komarovd95/widgetstore/application/storage/inmemory/InMemoryWidgetsStorageTest.java:155-159 | any listing of three candidates with ascending Z-indices is those three in that order |
| Scenarios.ListingAfterShift | src/test/java/com/github/komarovd95/widgetstore/application/storage/inmemory/InMemoryWidgetsStorageTest.java:155-159 | the state after the three creations lists as c at 0, a at 1, b at 2 |
| Scenarios.CreateAtOccupiedZShifts | src/test/java/com/github/komarovd95/widgetstore/application/storage/inmemory/InMemoryWidgetsStorageTest.java:117-160 | on a fresh storage: a and b go to 0 and 1; c at 0 pushes them to 1 and 2 with c's timestamp; the listing is c, a, b with no cursor |
| Scenarios.ForegroundOfTwo | src/main/java/com/github/komarovd95/widgetstore/application/repository/InMemoryWidgetsRepository.java:56-58 | with widgets at 0 and 1, the foreground is 1 |
| Scenarios.MoveToFreeTop | src/test/java/com/github/komarovd95/widgetstore/application/service/AbstractWidgetsServiceTest.java:244-285 | moving the widget at 0 to 2 over {0, 1} leaves the other widget untouched |
| Scenarios.CreateTwoThroughService | src/test/java/com/github/komarovd95/widgetstore/application/service/AbstractWidgetsServiceTest.java:249-250 | through the service, a and b created without a Z-index go to 0 and 1 |
| Scenarios.TwoCandidates | src/test/java/com/github/komarovd95/widgetstore/application/service/AbstractWidgetsServiceTest.java:281 | with no region and no cursor every stored widget is a candidate |
| Scenarios.ListingOfTwo | src/test/java/com/github/komarovd95/widgetstore/application/service/AbstractWidgetsServiceTest.java:281-284 | any listing of two candidates with ascending Z-indices is those two in that order |
| Scenarios.ListingAfterMove | src/test/java/com/github/komarovd95/widgetstore/application/service/AbstractWidgetsServiceTest.java:281-284 | the state after the update lists as b at 1, then a at 2 |
| Scenarios.UpdateWithoutZMovesToForeground | src/test/java/com/github/komarovd95/widgetstore/application/service/AbstractWidgetsServiceTest.java:244-285 | through the service: a and b at 0 and 1; updating a's boundaries with no Z moves it to 2 with the new time; the listing is b (unchanged), then a |

## Left out

- Locking and transactions. This covers `executeWithLock`, the lock timeout, the transactions services and the exclusive locks. Every operation is one atomic sequential step.
- `H2DatabaseWidgetsRepository`. It is SQL run by a database engine, and is not part of this model.
- The controller, API views, request validation and cursor encoding. They are HTTP, bean validation and JSON.
  - Their guarantees become preconditions: positive width and height of stored boundaries (`ValidGeometry`), and a positive page limit (`filter.limit > 0`). A limit of 0 would make the page cut read `pageItems.get(-1)`.
- The R-tree itself and its float conversion are not part of this model. The index is the set of its entries, with the same containment test on integers. The pruning of subtrees by `isOverlap` is not modelled, and neither is the traversal order; the stores do not depend on either.
- The id generator and the clock are parameters of the operations. The generated id is required to be fresh, and the time is a plain integer.
- Logging.
- `InMemoryStorage.InMemoryWidgetsStorage.CreateWidget`: does not model Java's 32-bit wrap-around of `z + 1`, `++entryKey.z` or `x + width`. Integers are unbounded, and the source leaves overflow unhandled.
- `Repository.InMemoryWidgetsRepository.Update`: requires the given snapshot to be the stored widget's current value. The source uses the snapshot's Z-index and boundaries to find the old key and entry, and the service always passes a snapshot read in the same transaction.
- `Repository.InMemoryWidgetsRepository.GetWidgets`: the limit is a natural number. A negative limit throws on the Z path (the stream's `limit`) and yields an empty list on the spatial path (`index < limit` never holds); neither is modelled.
- In-place mutation of the `TreeMap` keys and aliasing of the wrapper objects are not modelled as such:
  - the keys are rebuilt after the walk;
  - the two maps share a widget through its id rather than a reference. Nothing the stores do depends on the reference itself.
- The version-ledger paging cursor (`WidgetsPagingCursor`, `maxVersionsToStore`) is used by no listing code; the listing is a plain `z > cursor` scan.
- Region's build method is named `builder()` in the source. Here it is `Build`.
- `hashCode` and `toString` of the value types are not modelled.
