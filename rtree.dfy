/**
 * The spatial index. The R-tree itself is not part of this model: the index is the set of
 * (widget id, boundaries) entries it holds, and a search reports every entry contained in the
 * region, in an order the caller must not rely on.
 */
module SpatialIndex {
  import opened Regions

  datatype Entry = Entry(id: string, box: Region)

  /** The point (px, py) lies in the closed rectangle r, edges included. */
  predicate Covers(r: Region, px: int, py: int) {
    r.x <= px <= r.x + r.width && r.y <= py <= r.y + r.height
  }

  /**
   * The leaf test of the search: the box lies within the region; edges may touch. Every point of
   * the box is then a point of the region, and it suffices that the box's lower left and upper
   * right corners are.
   */
  predicate IsContained(region: Region, box: Region): (contained: bool)
    ensures contained ==> forall px, py | Covers(box, px, py) :: Covers(region, px, py)
    ensures Covers(region, box.x, box.y) && Covers(region, box.x + box.width, box.y + box.height) ==> contained
  {
    && region.x <= box.x
    && region.y <= box.y
    && region.x + region.width >= box.x + box.width
    && region.y + region.height >= box.y + box.height
  }

  /** The ids a search for `region` reports. */
  function ContainedIds(entries: set<Entry>, region: Region): (ids: set<string>)
    ensures forall e | e in entries && IsContained(region, e.box) :: e.id in ids
    ensures forall id | id in ids :: exists e | e in entries :: e.id == id && IsContained(region, e.box)
  {
    set e | e in entries && IsContained(region, e.box) :: e.id
  }

  /** At most one entry per widget id (what the stores maintain). */
  ghost predicate UniqueIds(entries: set<Entry>) {
    forall e1, e2 | e1 in entries && e2 in entries && e1.id == e2.id :: e1 == e2
  }

  /** Containment is non-strict: a region contains itself, so its own edges count. */
  lemma RegionContainsItself(r: Region)
    ensures IsContained(r, r)
  {
  }

  /** Containment is transitive, so a larger region reports everything a smaller one does. */
  lemma ContainmentIsTransitive(outer: Region, inner: Region, box: Region)
    requires IsContained(outer, inner) && IsContained(inner, box)
    ensures IsContained(outer, box)
  {
  }

  /** Region (0,0,100,150) holds the boxes at (0,0) and (0,50) of size 100x100, not the one at (50,50). */
  lemma TallRegionScenario()
    ensures IsContained(Region(0, 0, 100, 150), Region(0, 0, 100, 100))
    ensures IsContained(Region(0, 0, 100, 150), Region(0, 50, 100, 100))
    ensures !IsContained(Region(0, 0, 100, 150), Region(50, 50, 100, 100))
  {
  }

  /** Region (0,0,50,50) holds none of those three boxes. */
  lemma SmallRegionScenario()
    ensures !IsContained(Region(0, 0, 50, 50), Region(0, 0, 100, 100))
    ensures !IsContained(Region(0, 0, 50, 50), Region(0, 50, 100, 100))
    ensures !IsContained(Region(0, 0, 50, 50), Region(50, 50, 100, 100))
  {
  }

  /** After `add(id, b)` the id is reported for every region containing b. */
  lemma ReportedAfterAdd(entries: set<Entry>, id: string, b: Region, region: Region)
    requires IsContained(region, b)
    ensures id in ContainedIds(entries + {Entry(id, b)}, region)
  {
  }

  /** After `remove(id, b)` of the id's only entry the id is reported for no region. */
  lemma NotReportedAfterRemove(entries: set<Entry>, id: string, b: Region, region: Region)
    requires UniqueIds(entries) && Entry(id, b) in entries
    ensures id !in ContainedIds(entries - {Entry(id, b)}, region)
  {
  }

  /** Seeing one more entry reports at least the ids reported before. */
  lemma ContainedIdsGrow(seen: set<Entry>, e: Entry, region: Region)
    ensures ContainedIds(seen, region) <= ContainedIds(seen + {e}, region)
  {
    forall id | id in ContainedIds(seen, region) ensures id in ContainedIds(seen + {e}, region) {
      var e' :| e' in seen && IsContained(region, e'.box) && e'.id == id;
      assert e' in seen + {e};
    }
  }

  class WidgetRTree {
    /** The entries of the tree. */
    var entries: set<Entry>

    constructor ()
      ensures entries == {}
    {
      entries := {};
    }

    /** `add(id, boundaries)`. */
    method Add(id: string, boundaries: Region)
      modifies this
      ensures entries == old(entries) + {Entry(id, boundaries)}
    {
      entries := entries + {Entry(id, boundaries)};
    }

    /** `remove(id, boundaries)`: removing an absent entry leaves the tree as it was. */
    method Remove(id: string, boundaries: Region)
      modifies this
      ensures entries == old(entries) - {Entry(id, boundaries)}
    {
      entries := entries - {Entry(id, boundaries)};
    }

    /**
     * `contains(region, consumer)`: the ids handed to the consumer, in visiting order. Only ids of
     * contained entries are reported, every contained entry is reported, each entry once.
     */
    method Contains(region: Region) returns (ids: seq<string>)
      ensures forall i | 0 <= i < |ids| :: ids[i] in ContainedIds(entries, region)
      ensures forall id | id in ContainedIds(entries, region) :: id in ids
      ensures UniqueIds(entries) ==> forall i, j | 0 <= i < j < |ids| :: ids[i] != ids[j]
    {
      ids := [];
      var rest := entries;
      while rest != {}
        invariant rest <= entries
        invariant forall i | 0 <= i < |ids| :: ids[i] in ContainedIds(entries - rest, region)
        invariant forall e | e in entries - rest && IsContained(region, e.box) :: e.id in ids
        invariant UniqueIds(entries) ==> forall i, j | 0 <= i < j < |ids| :: ids[i] != ids[j]
        decreases rest
      {
        var e :| e in rest;
        assert entries - (rest - {e}) == (entries - rest) + {e};
        ContainedIdsGrow(entries - rest, e, region);
        if IsContained(region, e.box) {
          if UniqueIds(entries) {
            forall i | 0 <= i < |ids| ensures ids[i] != e.id {
              assert ids[i] in ContainedIds(entries - rest, region);
              var e' :| e' in entries - rest && IsContained(region, e'.box) && e'.id == ids[i];
            }
          }
          ids := ids + [e.id];
        }
        rest := rest - {e};
      }
      assert entries - rest == entries;
    }
  }
}
