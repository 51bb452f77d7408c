/**
 * What the in-memory storage and the in-memory repository share: the three structures they keep
 * (Z-index map, id map, spatial entries) and the invariant that ties them together, the shift of
 * the contiguous run of occupied Z-indices, and the listing by ascending Z-index.
 *
 * A store holds `byZ: map<int, string>` (the sorted map from Z-index to widget id) and
 * `byId: map<string, Widget>` (the current state of every live widget). The source keeps one mutable
 * wrapper per widget referenced from both maps; here the Z-index map refers to the wrapper by id.
 */
module ZOrder {
  import opened Wrappers
  import opened Regions
  import opened Widgets
  import opened SpatialIndex
  import opened PagedLists

  // ---------------------------------------------------------------------------------------------
  // Ordered navigation over the keys of the sorted map

  ghost function MinWitness(s: set<int>): (m: int)
    requires s != {}
    ensures m in s && forall x | x in s :: m <= x
    decreases |s|
  {
    var y := Any(s);
    if s == {y} then y
    else
      var m' := MinWitness(s - {y});
      assert forall x | x in s :: x == y || x in s - {y};
      if y < m' then y else m'
  }

  ghost function MaxWitness(s: set<int>): (m: int)
    requires s != {}
    ensures m in s && forall x | x in s :: x <= m
    decreases |s|
  {
    var y := Any(s);
    if s == {y} then y
    else
      var m' := MaxWitness(s - {y});
      assert forall x | x in s :: x == y || x in s - {y};
      if y > m' then y else m'
  }

  /** The first key of a non-empty key set. */
  function MinOf(s: set<int>): (m: int)
    requires s != {}
    ensures m in s && forall x | x in s :: m <= x
  {
    assert MinWitness(s) in s && forall x | x in s :: MinWitness(s) <= x;
    var m :| m in s && forall x | x in s :: m <= x; m
  }

  /** `lastKey()`: the last key of a non-empty key set. */
  function MaxOf(s: set<int>): (m: int)
    requires s != {}
    ensures m in s && forall x | x in s :: x <= m
  {
    assert MaxWitness(s) in s && forall x | x in s :: x <= MaxWitness(s);
    var m :| m in s && forall x | x in s :: x <= m; m
  }

  /** The keys in the order the sorted map iterates them. */
  function Ascending(s: set<int>): (r: seq<int>)
    ensures |r| == |s|
    ensures forall x :: x in r <==> x in s
    ensures forall i, j | 0 <= i < j < |r| :: r[i] < r[j]
    decreases |s|
  {
    if s == {} then []
    else
      var m := MinOf(s);
      [m] + Ascending(s - {m})
  }

  // ---------------------------------------------------------------------------------------------
  // The three structures and their invariant

  /** The occupied Z-indices. */
  function ZValues(byId: map<string, Widget>): (zs: set<int>)
    ensures forall id | id in byId :: byId[id].z in zs
  {
    set id | id in byId :: byId[id].z
  }

  /** No two live widgets share a Z-index. */
  ghost predicate ZUnique(byId: map<string, Widget>) {
    forall a, b | a in byId && b in byId && a != b :: byId[a].z != byId[b].z
  }

  /** The Z-index map and the id map describe the same live widgets at the same Z-indices. */
  ghost predicate Consistent(byZ: map<int, string>, byId: map<string, Widget>) {
    && (forall z | z in byZ :: byZ[z] in byId && byId[byZ[z]].z == z)
    && (forall id | id in byId :: byId[id].id == id && byId[id].z in byZ && byZ[byId[id].z] == id)
  }

  /** The spatial index holds exactly one entry per live widget, with its current boundaries. */
  ghost predicate SpatialAgrees(entries: set<Entry>, byId: map<string, Widget>) {
    && (forall e | e in entries :: e.id in byId && byId[e.id].boundaries == e.box)
    && (forall id | id in byId :: Entry(id, byId[id].boundaries) in entries)
  }

  ghost predicate GeometryValid(byId: map<string, Widget>) {
    forall id | id in byId :: ValidGeometry(byId[id].boundaries)
  }

  /** The invariant of a store. */
  ghost predicate Indexed(byZ: map<int, string>, byId: map<string, Widget>, entries: set<Entry>) {
    Consistent(byZ, byId) && SpatialAgrees(entries, byId) && GeometryValid(byId)
  }

  /** Z-uniqueness follows from the invariant, and the Z-index map's keys are the occupied Z-indices. */
  lemma ConsistentMeansUnique(byZ: map<int, string>, byId: map<string, Widget>)
    requires Consistent(byZ, byId)
    ensures ZUnique(byId)
    ensures byZ.Keys == ZValues(byId)
  {
    forall z | z in byZ ensures z in ZValues(byId) {
      assert byId[byZ[z]].z == z;
    }
  }

  /** The spatial entries have unique ids, and a search reports exactly the live widgets it contains. */
  lemma SpatialAgreesReports(entries: set<Entry>, byId: map<string, Widget>, region: Region)
    requires SpatialAgrees(entries, byId)
    ensures UniqueIds(entries)
    ensures forall id :: id in ContainedIds(entries, region) <==>
      id in byId && IsContained(region, byId[id].boundaries)
  {
    forall id | id in byId && IsContained(region, byId[id].boundaries)
      ensures id in ContainedIds(entries, region)
    {
      assert Entry(id, byId[id].boundaries) in entries;
    }
  }

  // ---------------------------------------------------------------------------------------------
  // Shifting the overlying widgets

  /**
   * The first unoccupied Z-index at or above k: the run k, k+1, ... of occupied Z-indices ends
   * just below it.
   */
  function RunEnd(occupied: set<int>, k: int): (e: int)
    ensures k <= e && e !in occupied
    ensures forall j | k <= j < e :: j in occupied
    decreases |occupied|
  {
    if k in occupied then
      var e := RunEnd(occupied - {k}, k + 1);
      forall j | k <= j < e ensures j in occupied {
        if j != k {
          assert j in occupied - {k};
        }
      }
      e
    else
      k
  }

  /** A widget pushed up by one Z-index at time t. */
  function Bump(w: Widget, t: Instant): Widget {
    w.(z := w.z + 1, modifiedAt := t)
  }

  /**
   * The widgets after shifting from `key` at time t: the contiguous run of occupied Z-indices that
   * starts at `key` moves up by one and is stamped; everything else keeps its Z-index and timestamp.
   */
  ghost function Shifted(byId: map<string, Widget>, key: int, t: Instant): map<string, Widget> {
    var e := RunEnd(ZValues(byId), key);
    map id | id in byId :: if key <= byId[id].z < e then Bump(byId[id], t) else byId[id]
  }

  /** A shift keeps Z-indices unique and frees `key`. */
  lemma ShiftKeepsUniqueAndFreesKey(byId: map<string, Widget>, key: int, t: Instant)
    requires ZUnique(byId)
    ensures Shifted(byId, key, t).Keys == byId.Keys
    ensures ZUnique(Shifted(byId, key, t))
    ensures key !in ZValues(Shifted(byId, key, t))
  {
    var s := Shifted(byId, key, t);
    var e := RunEnd(ZValues(byId), key);
    forall a, b | a in s && b in s && a != b ensures s[a].z != s[b].z {
      assert byId[a].z in ZValues(byId) && byId[b].z in ZValues(byId);
    }
  }

  /** A shift keeps the relative order of all widgets. */
  lemma ShiftKeepsOrder(byId: map<string, Widget>, key: int, t: Instant, a: string, b: string)
    requires a in byId && b in byId
    ensures byId[a].z < byId[b].z <==> Shifted(byId, key, t)[a].z < Shifted(byId, key, t)[b].z
  {
    assert byId[a].z in ZValues(byId) && byId[b].z in ZValues(byId);
  }

  /** A shift from a free Z-index moves nobody. */
  lemma ShiftFromFreeKeyIsIdentity(byId: map<string, Widget>, key: int, t: Instant)
    requires key !in ZValues(byId)
    ensures Shifted(byId, key, t) == byId
  {
  }

  /**
   * The keys of the sorted map after the walk has mutated the keys key .. e-1 of the run in place:
   * the run now sits at key+1 .. e and `key` is free.
   */
  function ShiftKeys(byZ: map<int, string>, key: int, e: int): (m: map<int, string>)
    requires key <= e && e !in byZ && forall j | key <= j < e :: j in byZ
    ensures key < e ==> key !in m
    ensures forall j | key < j <= e :: j in m && m[j] == byZ[j - 1]
    ensures forall j | j in byZ && !(key <= j < e) :: j in m && m[j] == byZ[j]
    ensures forall j | j in m :: j in byZ || (key < e && j == e)
  {
    if e == key then byZ
    else map j | j in (byZ.Keys - {key}) + {e} :: if key < j <= e then byZ[j - 1] else byZ[j]
  }

  /** One widget's state after a shift. */
  lemma ShiftedEntry(byId: map<string, Widget>, key: int, t: Instant, id: string)
    requires id in byId
    ensures id in Shifted(byId, key, t)
    ensures Shifted(byId, key, t)[id]
         == if key <= byId[id].z < RunEnd(ZValues(byId), key) then Bump(byId[id], t) else byId[id]
  {
  }

  /** The rebuilt key z names the widget that the walk of the run key .. e-1 leaves at z. */
  lemma ShiftKeySoundAt(byZ: map<int, string>, byId: map<string, Widget>, key: int, e: int, z: int)
    requires Consistent(byZ, byId)
    requires key <= e && e !in byZ && forall j | key <= j < e :: j in byZ
    requires z in ShiftKeys(byZ, key, e)
    ensures var id := ShiftKeys(byZ, key, e)[z];
      id in byId && (if key <= byId[id].z < e then byId[id].z + 1 else byId[id].z) == z
  {
    var m := ShiftKeys(byZ, key, e);
    if key < z <= e {
      assert m[z] == byZ[z - 1];
    } else {
      assert z in byZ && !(key <= z < e);
      assert m[z] == byZ[z];
    }
  }

  /** Every rebuilt key names a shifted widget sitting at that key. */
  lemma {:induction false} ShiftKeysSound(byZ: map<int, string>, byId: map<string, Widget>, key: int, t: Instant)
    requires Consistent(byZ, byId) && byZ.Keys == ZValues(byId)
    ensures var m := ShiftKeys(byZ, key, RunEnd(byZ.Keys, key));
      forall z | z in m :: m[z] in Shifted(byId, key, t) && Shifted(byId, key, t)[m[z]].z == z
  {
    var e := RunEnd(byZ.Keys, key);
    var m := ShiftKeys(byZ, key, e);
    forall z | z in m ensures m[z] in Shifted(byId, key, t) && Shifted(byId, key, t)[m[z]].z == z {
      ShiftKeySoundAt(byZ, byId, key, e, z);
      ShiftedEntry(byId, key, t, m[z]);
    }
  }

  /** The widget `id` sits, after the walk of the run key .. e-1, at a rebuilt key naming it. */
  lemma ShiftKeyCompleteAt(byZ: map<int, string>, byId: map<string, Widget>, key: int, e: int, id: string)
    requires Consistent(byZ, byId)
    requires key <= e && e !in byZ && forall j | key <= j < e :: j in byZ
    requires id in byId
    ensures var m := ShiftKeys(byZ, key, e);
      var z := if key <= byId[id].z < e then byId[id].z + 1 else byId[id].z;
      z in m && m[z] == id
  {
    var m := ShiftKeys(byZ, key, e);
    var z := byId[id].z;
    assert z in byZ && byZ[z] == id;
    if key <= z < e {
      assert m[z + 1] == id;
    } else {
      assert m[z] == id;
    }
  }

  /** Every shifted widget sits at a rebuilt key naming it. */
  lemma {:induction false} ShiftKeysComplete(byZ: map<int, string>, byId: map<string, Widget>, key: int, t: Instant)
    requires Consistent(byZ, byId) && byZ.Keys == ZValues(byId)
    ensures var m := ShiftKeys(byZ, key, RunEnd(byZ.Keys, key));
      forall id | id in Shifted(byId, key, t) ::
        Shifted(byId, key, t)[id].id == id && Shifted(byId, key, t)[id].z in m && m[Shifted(byId, key, t)[id].z] == id
  {
    var e := RunEnd(byZ.Keys, key);
    var m := ShiftKeys(byZ, key, e);
    var s := Shifted(byId, key, t);
    forall id | id in s ensures s[id].id == id && s[id].z in m && m[s[id].z] == id {
      ShiftKeyCompleteAt(byZ, byId, key, e, id);
      ShiftedEntry(byId, key, t, id);
    }
  }

  /** The rebuilt keys agree with the shifted widgets. */
  lemma ShiftKeysConsistent(byZ: map<int, string>, byId: map<string, Widget>, key: int, t: Instant)
    requires Consistent(byZ, byId)
    ensures Consistent(ShiftKeys(byZ, key, RunEnd(byZ.Keys, key)), Shifted(byId, key, t))
    ensures key !in ShiftKeys(byZ, key, RunEnd(byZ.Keys, key))
  {
    ConsistentMeansUnique(byZ, byId);
    ShiftKeysSound(byZ, byId, key, t);
    ShiftKeysComplete(byZ, byId, key, t);
  }

  /** One step of the walk: bumping the widget at `p` extends the bumped prefix of the run to p + 1. */
  lemma {:induction false} BumpNext(byId: map<string, Widget>, byId': map<string, Widget>, key: int, p: int,
                                   id: string, t: Instant)
    requires ZUnique(byId) && id in byId && byId[id].z == p && key <= p
    requires byId'.Keys == byId.Keys
    requires forall x | x in byId :: byId'[x] == if key <= byId[x].z < p then Bump(byId[x], t) else byId[x]
    ensures var b := byId'[id := Bump(byId'[id], t)];
      && b.Keys == byId.Keys
      && forall x | x in byId :: b[x] == if key <= byId[x].z < p + 1 then Bump(byId[x], t) else byId[x]
  {
    var b := byId'[id := Bump(byId'[id], t)];
    forall x | x in byId ensures b[x] == if key <= byId[x].z < p + 1 then Bump(byId[x], t) else byId[x] {
      if x != id {
        assert byId[x].z != p;
      }
    }
  }

  /** When the walk reaches the first free Z-index, the bumped widgets are exactly the shifted ones. */
  lemma {:induction false} WalkIsShift(byId: map<string, Widget>, byId': map<string, Widget>, key: int, e: int, t: Instant)
    requires e == RunEnd(ZValues(byId), key)
    requires byId'.Keys == byId.Keys
    requires forall x | x in byId :: byId'[x] == if key <= byId[x].z < e then Bump(byId[x], t) else byId[x]
    ensures byId' == Shifted(byId, key, t)
  {
  }

  /**
   * `shiftOverlyingWidgets(key, timestamp)`: walks the occupied keys key, key+1, ... and pushes
   * each widget up by one, stopping at the first gap. The source mutates the keys of the sorted map
   * in place during the walk (so that two entries briefly share a key); here the walk updates the
   * widgets and the keys are then rebuilt.
   */
  method ShiftOverlying(byZ: map<int, string>, byId: map<string, Widget>, key: int, t: Instant)
    returns (byZ': map<int, string>, byId': map<string, Widget>)
    requires Consistent(byZ, byId)
    ensures byId' == Shifted(byId, key, t)
    ensures Consistent(byZ', byId')
    ensures key !in byZ'
  {
    ConsistentMeansUnique(byZ, byId);
    ghost var e := RunEnd(byZ.Keys, key);
    byId' := byId;
    var previousZ := key;
    while previousZ in byZ
      invariant key <= previousZ <= e
      invariant forall j | key <= j < previousZ :: j in byZ
      invariant byId'.Keys == byId.Keys
      invariant forall id | id in byId ::
        byId'[id] == if key <= byId[id].z < previousZ then Bump(byId[id], t) else byId[id]
      decreases e - previousZ
    {
      var id := byZ[previousZ];
      BumpNext(byId, byId', key, previousZ, id, t);
      byId' := byId'[id := Bump(byId'[id], t)];
      previousZ := previousZ + 1;
    }
    assert previousZ == e;
    WalkIsShift(byId, byId', key, previousZ, t);
    byZ' := ShiftKeys(byZ, key, previousZ);
    ShiftKeysConsistent(byZ, byId, key, t);
  }

  // ---------------------------------------------------------------------------------------------
  // The state after a creation or an update

  /** The widgets after inserting a new widget `w` at its Z-index, shifting the run there first. */
  ghost function Inserted(byId: map<string, Widget>, w: Widget, t: Instant): map<string, Widget> {
    Shifted(byId, w.z, t)[w.id := w]
  }

  /**
   * The widgets after a performed update of `id` to `bounds` and `key` at time t: when the Z-index
   * changes, the widget leaves its old Z-index before the shift from `key`.
   */
  ghost function Updated(byId: map<string, Widget>, id: string, bounds: Region, key: int, t: Instant)
    : map<string, Widget>
    requires id in byId
  {
    var moved := Widget(id, bounds, key, t);
    if byId[id].z != key then Shifted(byId - {id}, key, t)[id := moved] else byId[id := moved]
  }

  /** An update changes the boundaries of no other widget, and keeps the set of ids. */
  lemma UpdateKeepsOtherBoundaries(byId: map<string, Widget>, id: string, bounds: Region, key: int, t: Instant)
    requires id in byId
    ensures Updated(byId, id, bounds, key, t).Keys == byId.Keys
    ensures forall other | other in byId && other != id ::
      Updated(byId, id, bounds, key, t)[other].boundaries == byId[other].boundaries
  {
    ShiftKeepsIdsAndBoundaries(byId - {id}, key, t);
  }

  /** Inserting at any Z-index keeps Z-indices unique, and the new widget sits at its Z-index. */
  lemma InsertKeepsUnique(byId: map<string, Widget>, w: Widget, t: Instant)
    requires ZUnique(byId) && w.id !in byId
    ensures ZUnique(Inserted(byId, w, t))
    ensures Inserted(byId, w, t)[w.id] == w
    ensures Inserted(byId, w, t).Keys == byId.Keys + {w.id}
  {
    ShiftKeepsUniqueAndFreesKey(byId, w.z, t);
    var s := Shifted(byId, w.z, t);
    forall id | id in s ensures s[id].z != w.z {
      assert s[id].z in ZValues(s);
    }
  }

  /** Updating to any Z-index keeps Z-indices unique, and the updated widget sits at that Z-index. */
  lemma UpdateKeepsUnique(byId: map<string, Widget>, id: string, bounds: Region, key: int, t: Instant)
    requires ZUnique(byId) && id in byId
    ensures ZUnique(Updated(byId, id, bounds, key, t))
    ensures Updated(byId, id, bounds, key, t)[id] == Widget(id, bounds, key, t)
    ensures Updated(byId, id, bounds, key, t).Keys == byId.Keys
  {
    if byId[id].z != key {
      InsertKeepsUnique(byId - {id}, Widget(id, bounds, key, t), t);
    }
  }

  /**
   * Moving 1 to 0 among Z-indices {0, 1, 2}: the moved widget leaves 1 before the shift, so the
   * run at 0 is just the old 0, which goes to 1, and the old 2 stays where it was.
   */
  lemma MoveDownScenario(a: Widget, b: Widget, c: Widget, bounds: Region, t: Instant)
    requires a == Widget("a", a.boundaries, 0, a.modifiedAt)
    requires b == Widget("b", b.boundaries, 1, b.modifiedAt)
    requires c == Widget("c", c.boundaries, 2, c.modifiedAt)
    ensures Updated(map["a" := a, "b" := b, "c" := c], "b", bounds, 0, t)
         == map["a" := Bump(a, t), "b" := Widget("b", bounds, 0, t), "c" := c]
  {
    var rest := map["a" := a, "b" := b, "c" := c] - {"b"};
    assert rest == map["a" := a, "c" := c];
    assert ZValues(rest) == {0, 2} by {
      assert rest["a"].z == 0 && rest["c"].z == 2;
    }
    assert RunEnd({0, 2}, 0) == 1 by {
      assert {0, 2} - {0} == {2};
    }
  }

  /**
   * Creating at 0 over {0, 1, 3}: the run 0, 1 moves up to 1, 2 and the widget at 3, above the
   * gap, keeps its Z-index and timestamp.
   */
  lemma ShiftStopsAtGapScenario(a: Widget, b: Widget, c: Widget, d: Widget, t: Instant)
    requires a == Widget("a", a.boundaries, 0, a.modifiedAt)
    requires b == Widget("b", b.boundaries, 1, b.modifiedAt)
    requires c == Widget("c", c.boundaries, 3, c.modifiedAt)
    requires d == Widget("d", d.boundaries, 0, t)
    ensures Inserted(map["a" := a, "b" := b, "c" := c], d, t)
         == map["a" := Bump(a, t), "b" := Bump(b, t), "c" := c, "d" := d]
  {
    var m := map["a" := a, "b" := b, "c" := c];
    assert ZValues(m) == {0, 1, 3} by {
      assert m["a"].z == 0 && m["b"].z == 1 && m["c"].z == 3;
    }
    assert RunEnd({0, 1, 3}, 0) == 2 by {
      assert {0, 1, 3} - {0} == {1, 3};
      assert {1, 3} - {1} == {3};
    }
  }

  // ---------------------------------------------------------------------------------------------
  // The invariant across the steps of a creation, an update and a deletion

  /** A shift changes only Z-indices and timestamps. */
  lemma ShiftKeepsIdsAndBoundaries(byId: map<string, Widget>, key: int, t: Instant)
    ensures Shifted(byId, key, t).Keys == byId.Keys
    ensures forall id | id in byId ::
      Shifted(byId, key, t)[id].id == byId[id].id && Shifted(byId, key, t)[id].boundaries == byId[id].boundaries
  {
  }

  /** Placing a fresh widget after the shift at its Z-index keeps the invariant and gives `Inserted`. */
  lemma {:induction false} PlaceNew(byZ: map<int, string>, byId: map<string, Widget>, entries: set<Entry>,
                                    byZ': map<int, string>, byId': map<string, Widget>, w: Widget, t: Instant)
    requires Indexed(byZ, byId, entries) && w.id !in byId && ValidGeometry(w.boundaries)
    requires byId' == Shifted(byId, w.z, t) && Consistent(byZ', byId') && w.z !in byZ'
    ensures Indexed(byZ'[w.z := w.id], byId'[w.id := w], entries + {Entry(w.id, w.boundaries)})
    ensures byId'[w.id := w] == Inserted(byId, w, t)
  {
    ShiftKeepsIdsAndBoundaries(byId, w.z, t);
    PlaceKeepsConsistent(byZ', byId', w);
    AddKeepsSpatial(entries, byId, byId'[w.id := w], w);
  }

  /** Changing no boundaries and no id keeps the spatial index in agreement. */
  lemma {:induction false} SameBoundariesKeepSpatial(entries: set<Entry>, byId: map<string, Widget>, byId': map<string, Widget>)
    requires SpatialAgrees(entries, byId) && GeometryValid(byId)
    requires byId'.Keys == byId.Keys
    requires forall id | id in byId :: byId'[id].boundaries == byId[id].boundaries
    ensures SpatialAgrees(entries, byId') && GeometryValid(byId')
  {
  }

  /**
   * Moving a widget that has left both maps to a Z-index freed by the shift keeps the invariant;
   * the spatial entries stay as they were.
   */
  lemma {:induction false} MoveKeepsIndexed(byZ: map<int, string>, byId: map<string, Widget>, entries: set<Entry>,
                                            byZ': map<int, string>, byId': map<string, Widget>, w: Widget, t: Instant)
    requires Indexed(byZ, byId, entries) && w.id in byId && w.boundaries == byId[w.id].boundaries
    requires byId' == Shifted(byId - {w.id}, w.z, t) && Consistent(byZ', byId') && w.z !in byZ'
    ensures Indexed(byZ'[w.z := w.id], byId'[w.id := w], entries)
  {
    ShiftKeepsIdsAndBoundaries(byId - {w.id}, w.z, t);
    PlaceKeepsConsistent(byZ', byId', w);
    SameBoundariesKeepSpatial(entries, byId, byId'[w.id := w]);
  }

  /**
   * Replacing a widget by one with the same id and Z-index, and its spatial entry by one with the
   * new boundaries, keeps the invariant (with equal boundaries the entries are unchanged).
   */
  lemma {:induction false} ReindexKeepsIndexed(byZ: map<int, string>, byId: map<string, Widget>, entries: set<Entry>, w: Widget)
    requires Indexed(byZ, byId, entries) && w.id in byId && byId[w.id].z == w.z && ValidGeometry(w.boundaries)
    ensures Indexed(byZ, byId[w.id := w], entries - {Entry(w.id, byId[w.id].boundaries)} + {Entry(w.id, w.boundaries)})
    ensures byId[w.id].boundaries == w.boundaries ==>
      entries - {Entry(w.id, byId[w.id].boundaries)} + {Entry(w.id, w.boundaries)} == entries
  {
    ReplaceKeepsConsistent(byZ, byId, w);
    ReindexKeepsSpatial(entries, byId, byId[w.id := w], w.id);
  }

  /** Taking a widget out of both maps keeps them consistent. */
  lemma {:induction false} RemoveKeepsConsistent(byZ: map<int, string>, byId: map<string, Widget>, id: string)
    requires Consistent(byZ, byId) && id in byId
    ensures Consistent(byZ - {byId[id].z}, byId - {id})
  {
    ConsistentMeansUnique(byZ, byId);
    forall z | z in byZ - {byId[id].z} ensures byZ[z] != id {
      assert byId[byZ[z]].z == z;
    }
  }

  /** Putting a widget at a free Z-index under a fresh id keeps both maps consistent. */
  lemma {:induction false} PlaceKeepsConsistent(byZ: map<int, string>, byId: map<string, Widget>, w: Widget)
    requires Consistent(byZ, byId) && w.id !in byId && w.z !in byZ
    ensures Consistent(byZ[w.z := w.id], byId[w.id := w])
  {
    forall z | z in byZ ensures byZ[z] != w.id {
      assert byZ[z] in byId;
    }
  }

  /** Replacing a widget by one with the same id and Z-index keeps both maps consistent. */
  lemma {:induction false} ReplaceKeepsConsistent(byZ: map<int, string>, byId: map<string, Widget>, w: Widget)
    requires Consistent(byZ, byId) && w.id in byId && byId[w.id].z == w.z
    ensures Consistent(byZ, byId[w.id := w])
  {
  }

  /** Re-indexing one widget under new boundaries keeps the spatial index in agreement. */
  lemma {:induction false} ReindexKeepsSpatial(entries: set<Entry>, byId: map<string, Widget>, byId': map<string, Widget>, id: string)
    requires SpatialAgrees(entries, byId) && id in byId
    requires byId'.Keys == byId.Keys
    requires forall other | other in byId && other != id :: byId'[other].boundaries == byId[other].boundaries
    ensures SpatialAgrees(entries - {Entry(id, byId[id].boundaries)} + {Entry(id, byId'[id].boundaries)}, byId')
  {
    SpatialAgreesReports(entries, byId, byId[id].boundaries);
  }

  /** Adding the entry of a fresh widget keeps the spatial index in agreement. */
  lemma {:induction false} AddKeepsSpatial(entries: set<Entry>, byId: map<string, Widget>, byId': map<string, Widget>, w: Widget)
    requires SpatialAgrees(entries, byId) && w.id !in byId
    requires byId'.Keys == byId.Keys + {w.id} && byId'[w.id] == w
    requires forall id | id in byId :: byId'[id].boundaries == byId[id].boundaries
    ensures SpatialAgrees(entries + {Entry(w.id, w.boundaries)}, byId')
  {
    forall e | e in entries ensures e.id != w.id {
      assert e.id in byId;
    }
  }

  /** Removing the entry of a removed widget keeps the spatial index in agreement. */
  lemma {:induction false} RemoveKeepsSpatial(entries: set<Entry>, byId: map<string, Widget>, id: string)
    requires SpatialAgrees(entries, byId) && id in byId
    ensures SpatialAgrees(entries - {Entry(id, byId[id].boundaries)}, byId - {id})
  {
    SpatialAgreesReports(entries, byId, byId[id].boundaries);
  }

  // ---------------------------------------------------------------------------------------------
  // Foreground placement

  /**
   * The current foreground Z-index, the one a creation with no Z-index goes above and an update
   * with no Z-index goes to.
   */
  ghost predicate IsForeground(byId: map<string, Widget>, foreground: Option<int>) {
    && (foreground.None? <==> byId == map[])
    && (foreground.Some? ==> foreground.value in ZValues(byId) && forall z | z in ZValues(byId) :: z <= foreground.value)
  }

  lemma {:induction false} ForegroundUnique(byId: map<string, Widget>, f1: Option<int>, f2: Option<int>)
    requires IsForeground(byId, f1) && IsForeground(byId, f2)
    ensures f1 == f2
  {
    if f1.Some? {
      assert f2.Some?;
      assert f1.value <= f2.value && f2.value <= f1.value;
    }
  }

  /** An update to a Z-index above every other widget leaves every other widget as it was. */
  lemma {:induction false} UpdateAboveOthersKeepsOthers(byId: map<string, Widget>, id: string, bounds: Region, key: int, t: Instant)
    requires id in byId
    requires forall other | other in byId && other != id :: byId[other].z < key
    ensures Updated(byId, id, bounds, key, t) - {id} == byId - {id}
  {
    var moved := Widget(id, bounds, key, t);
    var rest := byId - {id};
    if byId[id].z != key {
      assert key !in ZValues(rest) by {
        forall o | o in rest ensures rest[o].z != key {
          assert byId[o].z < key;
        }
      }
      ShiftFromFreeKeyIsIdentity(rest, key, t);
      assert Updated(byId, id, bounds, key, t) == rest[id := moved];
      assert rest[id := moved] - {id} == rest;
    } else {
      assert Updated(byId, id, bounds, key, t) == byId[id := moved];
      assert byId[id := moved] - {id} == rest;
    }
  }

  /**
   * An update with no Z-index resolves to the foreground when the widget is already there, and to
   * foreground + 1 otherwise; either way the widget ends up strictly above every other widget and
   * no other widget is shifted or stamped.
   */
  lemma DefaultUpdateReachesForeground(byId: map<string, Widget>, id: string, bounds: Region, top: int, t: Instant)
    requires ZUnique(byId) && id in byId
    requires IsForeground(byId, Some(top))
    ensures var key := if top == byId[id].z then top else top + 1;
      && Updated(byId, id, bounds, key, t) - {id} == byId - {id}
      && forall other | other in byId && other != id :: byId[other].z < key
  {
    var key := if top == byId[id].z then top else top + 1;
    forall other | other in byId && other != id ensures byId[other].z < key {
      assert byId[other].z in ZValues(byId);
    }
    UpdateAboveOthersKeepsOthers(byId, id, bounds, key, t);
  }

  // ---------------------------------------------------------------------------------------------
  // Listing by ascending Z-index

  /** A widget lies above the cursor (every widget does when there is none). */
  predicate Above(z: int, cursor: Option<int>) {
    cursor.None? || z > cursor.value
  }

  /** The widgets a listing may return: contained in the region if there is one, above the cursor. */
  ghost function Candidates(byId: map<string, Widget>, region: Option<Region>, cursor: Option<int>): set<Widget> {
    set id | id in byId
             && (region.None? || IsContained(region.value, byId[id].boundaries))
             && Above(byId[id].z, cursor)
      :: byId[id]
  }

  predicate StrictlyAscendingZ(s: seq<Widget>) {
    forall i, j | 0 <= i < j < |s| :: s[i].z < s[j].z
  }

  /** No two candidates share a Z-index. */
  ghost predicate DistinctZ(c: set<Widget>) {
    forall a, b | a in c && b in c && a.z == b.z :: a == b
  }

  /**
   * `r` is the first n candidates by ascending Z-index: strictly ascending, drawn from `c`, at
   * most n long, and any candidate left out lies above all of `r` while `r` is full.
   */
  ghost predicate LowestByZ(r: seq<Widget>, c: set<Widget>, n: nat) {
    && StrictlyAscendingZ(r)
    && |r| <= n
    && (forall i | 0 <= i < |r| :: r[i] in c)
    && (forall w | w in c && w !in r :: |r| == n && forall i | 0 <= i < |r| :: r[i].z < w.z)
  }

  lemma CandidatesHaveDistinctZ(byId: map<string, Widget>, region: Option<Region>, cursor: Option<int>)
    requires ZUnique(byId)
    ensures DistinctZ(Candidates(byId, region, cursor))
  {
  }

  /** `getWidgetsByZIndex(cursor, limit)`: the sorted map's tail above the cursor, cut to `limit`. */
  function TailByZ(byZ: map<int, string>, byId: map<string, Widget>, cursor: Option<int>, limit: nat)
    : (r: seq<Widget>)
    requires Consistent(byZ, byId)
    ensures LowestByZ(r, Candidates(byId, None, cursor), limit)
  {
    var keys := Ascending(set z | z in byZ && Above(z, cursor));
    var n := if |keys| < limit then |keys| else limit;
    assert forall i | 0 <= i < |keys| :: keys[i] in keys;
    var r := seq(n, i requires 0 <= i < n => byId[byZ[keys[i]]]);
    TailIsLowest(byZ, byId, cursor, limit, keys, r);
    r
  }

  lemma TailIsLowest(byZ: map<int, string>, byId: map<string, Widget>, cursor: Option<int>, limit: nat,
                     keys: seq<int>, r: seq<Widget>)
    requires Consistent(byZ, byId)
    requires forall z :: z in keys <==> z in byZ && Above(z, cursor)
    requires forall i, j | 0 <= i < j < |keys| :: keys[i] < keys[j]
    requires |r| == if |keys| < limit then |keys| else limit
    requires forall i | 0 <= i < |r| :: keys[i] in byZ && byZ[keys[i]] in byId && r[i] == byId[byZ[keys[i]]]
    ensures LowestByZ(r, Candidates(byId, None, cursor), limit)
  {
    var c := Candidates(byId, None, cursor);
    forall i | 0 <= i < |r| ensures r[i] in c && r[i].z == keys[i] {
      assert keys[i] in keys;
    }
    forall w | w in c && w !in r
      ensures |r| == limit && forall i | 0 <= i < |r| :: r[i].z < w.z
    {
      var id :| id in byId && Above(byId[id].z, cursor) && byId[id] == w;
      assert w.z in keys;
      var j :| 0 <= j < |keys| && keys[j] == w.z;
      assert byZ[w.z] == id;
      assert forall i | 0 <= i < |r| :: r[i] != w;
      assert |r| <= j;
    }
  }

  /**
   * `Collections.binarySearch(list, key, comparingInt(z))`: the index of an element with that
   * Z-index, or -(insertion point) - 1 when there is none.
   */
  method BinarySearch(buf: seq<Widget>, z: int) returns (r: int)
    requires StrictlyAscendingZ(buf)
    ensures 0 <= r ==> r < |buf| && buf[r].z == z
    ensures r < 0 ==> -r - 1 <= |buf|
                      && (forall i | 0 <= i < -r - 1 :: buf[i].z < z)
                      && (forall i | -r - 1 <= i < |buf| :: z < buf[i].z)
  {
    var low, high := 0, |buf| - 1;
    while low <= high
      invariant 0 <= low <= high + 1 <= |buf|
      invariant forall i | 0 <= i < low :: buf[i].z < z
      invariant forall i | high < i < |buf| :: z < buf[i].z
    {
      var mid := (low + high) / 2;
      if buf[mid].z < z {
        low := mid + 1;
      } else if buf[mid].z > z {
        high := mid - 1;
      } else {
        return mid;
      }
    }
    r := -(low + 1);
  }

  /** The buffer after `add(index, widget)` and cutting it back to `limit`. */
  function InsertAndTruncate(buf: seq<Widget>, index: nat, w: Widget, limit: nat): (r: seq<Widget>)
    requires index <= |buf|
    ensures |r| <= |buf| + 1 && |r| <= (if limit < |buf| + 1 then limit else |buf| + 1)
  {
    var b := buf[..index] + [w] + buf[index..];
    if |b| > limit then b[..limit] else b
  }

  /** Inserting at the position binary search reports keeps the buffer ascending. */
  lemma InsertKeepsAscending(buf: seq<Widget>, index: nat, w: Widget)
    requires StrictlyAscendingZ(buf) && index <= |buf|
    requires forall i | 0 <= i < index :: buf[i].z < w.z
    requires forall i | index <= i < |buf| :: w.z < buf[i].z
    ensures var b := buf[..index] + [w] + buf[index..];
      && |b| == |buf| + 1
      && (forall i | 0 <= i < index :: b[i] == buf[i])
      && b[index] == w
      && (forall i | index < i < |b| :: b[i] == buf[i - 1])
      && StrictlyAscendingZ(b)
  {
  }

  /** One step of the top-N selection keeps the buffer the first `limit` candidates seen so far. */
  lemma InsertKeepsLowest(buf: seq<Widget>, c: set<Widget>, limit: nat, w: Widget, index: nat)
    requires LowestByZ(buf, c, limit)
    requires forall x | x in c :: x.z != w.z
    requires index <= |buf|
    requires forall i | 0 <= i < index :: buf[i].z < w.z
    requires forall i | index <= i < |buf| :: w.z < buf[i].z
    ensures index < limit ==> LowestByZ(InsertAndTruncate(buf, index, w, limit), c + {w}, limit)
    ensures index >= limit ==> LowestByZ(buf, c + {w}, limit)
  {
    InsertKeepsAscending(buf, index, w);
    var b := buf[..index] + [w] + buf[index..];
    if index < limit {
      var r := InsertAndTruncate(buf, index, w, limit);
      assert r == if |b| > limit then b[..limit] else b;
      assert StrictlyAscendingZ(r);
      assert forall i | 0 <= i < |r| :: r[i] in c + {w} by {
        forall i | 0 <= i < |r| ensures r[i] in c + {w} {
          assert r[i] == b[i];
          if i < index {
            assert b[i] == buf[i];
          } else if i > index {
            assert b[i] == buf[i - 1];
          }
        }
      }
      forall x | x in c + {w} && x !in r
        ensures |r| == limit && forall i | 0 <= i < |r| :: r[i].z < x.z
      {
        MissingIsAbove(buf, b, r, c, limit, w, index, x);
      }
    }
  }

  lemma MissingIsAbove(buf: seq<Widget>, b: seq<Widget>, r: seq<Widget>, c: set<Widget>, limit: nat,
                       w: Widget, index: nat, x: Widget)
    requires LowestByZ(buf, c, limit) && index < limit && index <= |buf|
    requires |b| == |buf| + 1 && StrictlyAscendingZ(b)
    requires forall i | 0 <= i < index :: b[i] == buf[i]
    requires b[index] == w
    requires forall i | index < i < |b| :: b[i] == buf[i - 1]
    requires r == if |b| > limit then b[..limit] else b
    requires x in c + {w} && x !in r
    ensures |r| == limit && forall i | 0 <= i < |r| :: r[i].z < x.z
  {
    if x == w {
      // w is at `index`, inside the cut, so it cannot be missing
    } else if x in buf {
      var k :| 0 <= k < |buf| && buf[k] == x;
      var kb := if k < index then k else k + 1;
      assert b[kb] == x;
    } else {
      assert |buf| == limit && forall i | 0 <= i < |buf| :: buf[i].z < x.z;
      forall i | 0 <= i < |r| ensures r[i].z < x.z {
        if i < index {
          assert r[i] == buf[i];
        } else if i == index {
          assert r[i] == w && b[index + 1] == buf[index];
        } else {
          assert r[i] == buf[i - 1];
        }
      }
    }
  }

  /** Two sequences agreeing on a prefix: the first element past it that `r1` holds is not in `r2`. */
  lemma {:induction false} DivergingIsMissing(r1: seq<Widget>, r2: seq<Widget>, c: set<Widget>, n: nat, i: nat)
    requires LowestByZ(r1, c, n) && LowestByZ(r2, c, n)
    requires i < |r1| && i <= |r2| && r1[..i] == r2[..i]
    requires i < |r2| ==> r1[i].z < r2[i].z
    ensures r1[i] !in r2
  {
  }

  /** The first n candidates by Z-index are determined by the candidates: any two such listings agree. */
  lemma {:induction false} LowestByZUnique(r1: seq<Widget>, r2: seq<Widget>, c: set<Widget>, n: nat)
    requires LowestByZ(r1, c, n) && LowestByZ(r2, c, n)
    ensures r1 == r2
  {
    var i := 0;
    while i < |r1| && i < |r2| && r1[i] == r2[i]
      invariant 0 <= i <= |r1| && i <= |r2|
      invariant r1[..i] == r2[..i]
    {
      assert r1[..i + 1] == r1[..i] + [r1[i]] && r2[..i + 1] == r2[..i] + [r2[i]];
      i := i + 1;
    }
    if i < |r1| && i < |r2| {
      if r1[i].z < r2[i].z {
        DivergingIsMissing(r1, r2, c, n, i);
      } else {
        DivergingIsMissing(r2, r1, c, n, i);
      }
    } else if i < |r1| {
      DivergingIsMissing(r1, r2, c, n, i);
    } else if i < |r2| {
      DivergingIsMissing(r2, r1, c, n, i);
    } else {
      assert r1 == r1[..i] && r2 == r2[..i];
    }
  }

  /** The candidates among the reported ids. */
  ghost function HitCandidates(hits: seq<string>, byId: map<string, Widget>, cursor: Option<int>): set<Widget> {
    set id | id in hits && id in byId && Above(byId[id].z, cursor) :: byId[id]
  }

  /**
   * The consumer the spatial search calls with each reported widget: one above the cursor is put
   * at its binary-search insertion point, unless that lies past the limit, and the buffer is then
   * cut back to the limit.
   */
  method ConsumeHit(buf: seq<Widget>, ghost c: set<Widget>, limit: nat, widget: Widget, cursor: Option<int>)
    returns (next: seq<Widget>)
    requires LowestByZ(buf, c, limit)
    requires forall x | x in c :: x.z != widget.z
    ensures LowestByZ(next, if Above(widget.z, cursor) then c + {widget} else c, limit)
  {
    next := buf;
    if Above(widget.z, cursor) {
      var found := BinarySearch(buf, widget.z);
      assert found < 0;
      var index := -found - 1;
      InsertKeepsLowest(buf, c, limit, widget, index);
      if index < limit {
        next := buf[..index] + [widget] + buf[index..];
        if |next| > limit {
          next := next[..limit];
        }
      }
    }
  }

  /**
   * The top-N collection of the spatial search: each reported widget is handed to the consumer,
   * which keeps the buffer sorted by Z-index and never longer than `limit`.
   */
  method TopNByZ(hits: seq<string>, byId: map<string, Widget>, cursor: Option<int>, limit: nat)
    returns (buf: seq<Widget>)
    requires ZUnique(byId)
    requires forall i | 0 <= i < |hits| :: hits[i] in byId
    requires forall i, j | 0 <= i < j < |hits| :: hits[i] != hits[j]
    ensures LowestByZ(buf, HitCandidates(hits, byId, cursor), limit)
  {
    buf := [];
    var k := 0;
    while k < |hits|
      invariant 0 <= k <= |hits|
      invariant LowestByZ(buf, HitCandidates(hits[..k], byId, cursor), limit)
    {
      var c := HitCandidates(hits[..k], byId, cursor);
      var widget := byId[hits[k]];
      assert hits[..k + 1] == hits[..k] + [hits[k]];
      assert forall x | x in c :: x.z != widget.z by {
        forall x | x in c ensures x.z != widget.z {
          var id :| id in hits[..k] && id in byId && byId[id] == x;
        }
      }
      buf := ConsumeHit(buf, c, limit, widget, cursor);
      if Above(widget.z, cursor) {
        assert HitCandidates(hits[..k + 1], byId, cursor) == c + {widget};
      } else {
        assert HitCandidates(hits[..k + 1], byId, cursor) == c;
      }
      k := k + 1;
    }
    assert hits[..|hits|] == hits;
  }

  // ---------------------------------------------------------------------------------------------
  // Cutting a page

  /** The set of a sequence's elements. */
  ghost function Elements(s: seq<Widget>): set<Widget> {
    set w | w in s
  }

  lemma {:induction false} AscendingHasDistinctElements(s: seq<Widget>)
    requires StrictlyAscendingZ(s)
    ensures |Elements(s)| == |s|
  {
    if s != [] {
      AscendingHasDistinctElements(s[1..]);
      assert Elements(s) == {s[0]} + Elements(s[1..]);
      assert s[0] !in Elements(s[1..]);
    }
  }

  /** The first n candidates are all of them when there are fewer than n, and n otherwise. */
  lemma LowestCount(r: seq<Widget>, c: set<Widget>, n: nat)
    requires LowestByZ(r, c, n)
    ensures |r| == if |c| < n then |c| else n
  {
    AscendingHasDistinctElements(r);
    assert Elements(r) <= c;
    if exists w :: w in c && w !in r {
      var w :| w in c && w !in r;
      assert w !in Elements(r);
      assert c == Elements(r) + (c - Elements(r));
      assert w in c - Elements(r);
      assert |c - Elements(r)| >= 1;
    } else {
      assert Elements(r) == c;
    }
  }

  /**
   * The page cut: the items are fetched with `limit + 1`; when more than `limit` came back,
   * the page keeps the first `limit` and its cursor is the Z-index of the last of them.
   */
  function CutPage(items: seq<Widget>, limit: int): (page: PagedList<Widget>)
    requires limit > 0
    ensures |page.items| <= limit
    ensures page.cursor.Some? <==> |items| > limit
    ensures page.cursor.Some? ==> page.items == items[..limit] && page.cursor.value == items[limit - 1].z
    ensures page.cursor.None? ==> page.items == items
  {
    if |items| > limit then
      var pageItems := items[..limit];
      NonLastPage(pageItems, Some(pageItems[|pageItems| - 1].z)).value
    else
      LastPage(items)
  }

  /**
   * Cutting the first `limit + 1` candidates gives the first `limit` candidates, with a cursor
   * exactly when more than `limit` candidates exist, equal to the Z-index of the last item.
   */
  lemma CutPageOfLowest(items: seq<Widget>, c: set<Widget>, limit: nat)
    requires limit > 0
    requires LowestByZ(items, c, limit + 1)
    ensures LowestByZ(CutPage(items, limit).items, c, limit)
    ensures CutPage(items, limit).cursor.Some? <==> |c| > limit
    ensures CutPage(items, limit).cursor.Some? ==>
      CutPage(items, limit).cursor.value == CutPage(items, limit).items[limit - 1].z
  {
    LowestCount(items, c, limit + 1);
    var page := CutPage(items, limit);
    if |items| > limit {
      forall w | w in c && w !in page.items
        ensures |page.items| == limit && forall i | 0 <= i < |page.items| :: page.items[i].z < w.z
      {
        if w in items {
          var k :| 0 <= k < |items| && items[k] == w;
        }
      }
    }
  }

  /**
   * Paging with the returned cursor continues exactly where the page ended: a candidate above the
   * old cursor is either on the page or above the new cursor, never both.
   */
  lemma NextPageContinues(byId: map<string, Widget>, region: Option<Region>, cursor: Option<int>,
                          items: seq<Widget>, limit: nat)
    requires LowestByZ(items, Candidates(byId, region, cursor), limit) && |items| > 0
    ensures var next := Some(items[|items| - 1].z);
      && Candidates(byId, region, next) <= Candidates(byId, region, cursor)
      && forall w | w in Candidates(byId, region, cursor) ::
           (w in items) <==> w !in Candidates(byId, region, next)
  {
    var next := Some(items[|items| - 1].z);
    var all := Candidates(byId, region, cursor);
    forall w | w in Candidates(byId, region, next) ensures w in all {
      var id :| id in byId && byId[id] == w
                && (region.None? || IsContained(region.value, w.boundaries)) && Above(w.z, next);
      assert items[0] in all;
      var id0 :| id0 in byId && byId[id0] == items[0] && Above(items[0].z, cursor);
    }
    forall w | w in all ensures (w in items) <==> w !in Candidates(byId, region, next) {
      var id :| id in byId && byId[id] == w
                && (region.None? || IsContained(region.value, w.boundaries)) && Above(w.z, cursor);
      if w in items {
        var k :| 0 <= k < |items| && items[k] == w;
        assert w.z <= items[|items| - 1].z;
      } else {
        assert w.z > items[|items| - 1].z;
      }
    }
  }
}
