/**
 * Whole runs of the in-memory storage and of the service over a fresh store, following the
 * examples the repository's tests describe. Timestamps are 1, 2, 3, ... in call order and the
 * generated ids are "a", "b", "c".
 */
module Scenarios {
  import opened Wrappers
  import opened Regions
  import opened Widgets
  import opened PagedLists
  import opened StoreParameters
  import opened ZOrder
  import opened InMemoryStorage
  import Repository
  import Service

  /** The boundaries every widget of the runs starts with. */
  function DefaultBoundaries(): Region {
    Region(0, 0, 100, 100)
  }

  /** Listing three widgets with distinct Z-indices returns them in ascending order. */
  lemma ListingOfThree(byId: map<string, Widget>, x: Widget, y: Widget, z: Widget, items: seq<Widget>, limit: nat)
    requires x.z < y.z < z.z && 3 <= limit
    requires Candidates(byId, None, None) == {x, y, z}
    requires LowestByZ(items, Candidates(byId, None, None), limit)
    ensures items == [x, y, z]
    ensures |Candidates(byId, None, None)| == 3
  {
    ThreeInOrder(x, y, z, limit);
    LowestByZUnique(items, [x, y, z], {x, y, z}, limit);
    ThreeDistinct(x, y, z);
  }

  lemma ThreeInOrder(x: Widget, y: Widget, z: Widget, limit: nat)
    requires x.z < y.z < z.z && 3 <= limit
    ensures LowestByZ([x, y, z], {x, y, z}, limit)
  {
    assert forall w | w in {x, y, z} :: w in [x, y, z];
  }

  lemma ThreeDistinct(x: Widget, y: Widget, z: Widget)
    requires x.z < y.z < z.z
    ensures |{x, y, z}| == 3
  {
    assert {x, y, z} == {x, y} + {z};
    assert |{x, y}| == 2;
  }

  lemma CreateIntoEmpty(w: Widget, t: Instant)
    ensures Inserted(map[], w, t) == map[w.id := w]
    ensures ZValues(map[w.id := w]) == {w.z}
  {
    ShiftFromFreeKeyIsIdentity(map[], w.z, t);
    assert map[w.id := w][w.id] == w;
  }

  lemma CreateAboveForeground(a: Widget, b: Widget, t: Instant)
    requires a.id == "a" && b.id == "b" && b.z == a.z + 1
    ensures Inserted(map["a" := a], b, t) == map["a" := a, "b" := b]
  {
    assert ZValues(map["a" := a]) == {a.z} by {
      assert map["a" := a]["a"] == a;
    }
    ShiftFromFreeKeyIsIdentity(map["a" := a], b.z, t);
  }

  lemma CreateAtZeroPushesRun(a: Widget, b: Widget, c: Widget, t: Instant)
    requires a.id == "a" && b.id == "b" && c.id == "c"
    requires a.z == 0 && b.z == 1 && c.z == 0
    ensures Inserted(map["a" := a, "b" := b], c, t) == map["a" := Bump(a, t), "b" := Bump(b, t), "c" := c]
  {
    var m := map["a" := a, "b" := b];
    assert ZValues(m) == {0, 1} by {
      assert m["a"].z == 0 && m["b"].z == 1;
    }
    assert RunEnd({0, 1}, 0) == 2 by {
      assert {0, 1} - {0} == {1};
      assert {1} - {1} == {};
    }
  }

  lemma ThreeCandidates(a: Widget, b: Widget, c: Widget)
    ensures Candidates(map["a" := a, "b" := b, "c" := c], None, None) == {a, b, c}
  {
    var m := map["a" := a, "b" := b, "c" := c];
    assert m["a"] == a && m["b"] == b && m["c"] == c;
  }

  /** The state after the three creations lists as c, a, b. */
  lemma ListingAfterShift(m: map<string, Widget>, items: seq<Widget>, limit: nat)
    requires m == map["a" := Widget("a", DefaultBoundaries(), 1, 3),
                      "b" := Widget("b", DefaultBoundaries(), 2, 3),
                      "c" := Widget("c", DefaultBoundaries(), 0, 3)]
    requires 3 <= limit && LowestByZ(items, Candidates(m, None, None), limit)
    ensures items == [m["c"], m["a"], m["b"]]
    ensures |Candidates(m, None, None)| == 3
  {
    ThreeCandidates(m["a"], m["b"], m["c"]);
    ListingOfThree(m, m["c"], m["a"], m["b"], items, limit);
  }

  /** Creating a and b without a Z-index on an empty storage puts them at 0 and 1. */
  method CreateTwoInStorage(storage: InMemoryWidgetsStorage) returns (a: Widget, b: Widget)
    requires storage.Valid() && storage.widgetsByIds == map[]
    modifies storage, storage.spatialIndex
    ensures storage.Valid()
    ensures a == Widget("a", DefaultBoundaries(), 0, 1) && b == Widget("b", DefaultBoundaries(), 1, 2)
    ensures storage.widgetsByIds == map["a" := a, "b" := b]
  {
    a := storage.CreateWidget("a", StoreWidgetParameters(DefaultBoundaries(), None), 1);
    CreateIntoEmpty(a, 1);
    b := storage.CreateWidget("b", StoreWidgetParameters(DefaultBoundaries(), None), 2);
    CreateAboveForeground(a, b, 2);
  }

  /**
   * Creating a, b without a Z-index and then c at a's Z-index: c goes to 0 and pushes a to 1 and
   * b to 2, both stamped with c's timestamp; the listing is c, a, b on a single page.
   */
  method CreateAtOccupiedZShifts() returns (a: Option<Widget>, b: Option<Widget>, c: Option<Widget>, page: PagedList<Widget>)
    ensures a == Some(Widget("a", DefaultBoundaries(), 1, 3))
    ensures b == Some(Widget("b", DefaultBoundaries(), 2, 3))
    ensures c == Some(Widget("c", DefaultBoundaries(), 0, 3))
    ensures page == PagedList([c.value, a.value, b.value], None)
  {
    var storage := new InMemoryWidgetsStorage();
    var first, second := CreateTwoInStorage(storage);
    var third := storage.CreateWidget("c", StoreWidgetParameters(DefaultBoundaries(), Some(first.z)), 3);
    CreateAtZeroPushesRun(first, second, third, 3);
    a := storage.GetWidgetById("a");
    b := storage.GetWidgetById("b");
    c := storage.GetWidgetById("c");
    page := storage.GetWidgets(WidgetsFilter(None, None, 10));
    ListingAfterShift(storage.widgetsByIds, page.items, 10);
  }

  /** Listing two widgets with distinct Z-indices returns them in ascending order. */
  lemma ListingOfTwo(byId: map<string, Widget>, x: Widget, y: Widget, items: seq<Widget>, limit: nat)
    requires x.z < y.z && 2 <= limit
    requires Candidates(byId, None, None) == {x, y}
    requires LowestByZ(items, Candidates(byId, None, None), limit)
    ensures items == [x, y]
    ensures |Candidates(byId, None, None)| == 2
  {
    assert LowestByZ([x, y], {x, y}, limit);
    LowestByZUnique(items, [x, y], {x, y}, limit);
  }

  lemma ForegroundOfTwo(a: Widget, b: Widget, foreground: Option<int>)
    requires a.id == "a" && b.id == "b" && a.z == 0 && b.z == 1
    requires IsForeground(map["a" := a, "b" := b], foreground)
    ensures foreground == Some(1)
  {
    var m := map["a" := a, "b" := b];
    assert ZValues(m) == {0, 1} by {
      assert m["a"].z == 0 && m["b"].z == 1;
    }
  }

  lemma MoveToFreeTop(a: Widget, b: Widget, bounds: Region, t: Instant)
    requires a.id == "a" && b.id == "b" && a.z == 0 && b.z == 1
    ensures Updated(map["a" := a, "b" := b], "a", bounds, 2, t) == map["a" := Widget("a", bounds, 2, t), "b" := b]
  {
    var rest := map["a" := a, "b" := b] - {"a"};
    assert rest == map["b" := b];
    assert ZValues(rest) == {1} by {
      assert rest["b"] == b;
    }
    ShiftFromFreeKeyIsIdentity(rest, 2, t);
  }

  lemma TwoCandidates(a: Widget, b: Widget)
    ensures Candidates(map["a" := a, "b" := b], None, None) == {a, b}
  {
    var m := map["a" := a, "b" := b];
    assert m["a"] == a && m["b"] == b;
  }

  /** The state after the update lists as b, a. */
  lemma ListingAfterMove(m: map<string, Widget>, items: seq<Widget>, limit: nat)
    requires m == map["a" := Widget("a", Region(100, 100, 150, 150), 2, 3), "b" := Widget("b", DefaultBoundaries(), 1, 2)]
    requires 2 <= limit && LowestByZ(items, Candidates(m, None, None), limit)
    ensures items == [m["b"], m["a"]]
    ensures |Candidates(m, None, None)| == 2
  {
    TwoCandidates(m["a"], m["b"]);
    ListingOfTwo(m, m["b"], m["a"], items, limit);
  }

  /** Creating a and b without a Z-index through the service puts them at 0 and 1. */
  method CreateTwoThroughService(service: Service.WidgetsService) returns (a: Widget, b: Widget)
    requires service.Valid() && service.widgetsRepository.widgetsByIds == map[]
    modifies service.widgetsRepository, service.widgetsRepository.spatialIndex
    ensures service.Valid()
    ensures a == Widget("a", DefaultBoundaries(), 0, 1) && b == Widget("b", DefaultBoundaries(), 1, 2)
    ensures service.widgetsRepository.widgetsByIds == map["a" := a, "b" := b]
  {
    a := service.CreateWidget("a", StoreWidgetParameters(DefaultBoundaries(), None), 1);
    CreateIntoEmpty(a, 1);
    b := service.CreateWidget("b", StoreWidgetParameters(DefaultBoundaries(), None), 2);
    CreateAboveForeground(a, b, 2);
  }

  /**
   * Through the service: a and b are created without a Z-index (0 and 1), then a is updated with new
   * boundaries and no Z-index, so it moves one above the foreground to 2 and b is left untouched.
   */
  method UpdateWithoutZMovesToForeground() returns (updated: Option<Widget>, page: PagedList<Widget>)
    ensures updated == Some(Widget("a", Region(100, 100, 150, 150), 2, 3))
    ensures page == PagedList([Widget("b", DefaultBoundaries(), 1, 2), updated.value], None)
  {
    var repository := new Repository.InMemoryWidgetsRepository();
    var service := new Service.WidgetsService(repository);
    var first, second := CreateTwoThroughService(service);
    ForegroundOfTwo(first, second, repository.GetCurrentForegroundZIndex());
    var bounds := Region(100, 100, 150, 150);
    updated := service.UpdateWidget("a", StoreWidgetParameters(bounds, None), 3);
    MoveToFreeTop(first, second, bounds, 3);
    page := service.GetWidgets(WidgetsFilter(None, None, 10));
    ListingAfterMove(repository.widgetsByIds, page.items, 10);
  }
}
