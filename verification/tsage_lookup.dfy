/**
 * Region lookups of the tsage scene: the walk region under a point, the
 * scene region under a point, and the priority region for a priority level.
 * Region lists are sequences of `Region` objects; lookups change nothing.
 */
module Lookup {
  import opened Regions

  /** Every region in the list can answer `contains`. */
  ghost predicate AllValid(regions: seq<Region>)
    reads set r | r in regions
  {
    forall i :: 0 <= i < |regions| ==> regions[i].Valid()
  }

  /**
   * `WalkRegions::indexOf`: the 1-based index of the first region, not named
   * in `excluded`, that contains pt; -1 when there is none. A missing
   * exclusion list behaves as an empty one.
   */
  method WalkIndexOf(regions: seq<Region>, pt: Point, excluded: seq<int>) returns (r: int)
    requires AllValid(regions)
    ensures r == -1 || 1 <= r <= |regions|
    ensures r == -1 <==>
      (forall i :: 0 <= i < |regions| && (i + 1) !in excluded ==> !regions[i].Covers(pt))
    ensures r != -1 ==>
      && r !in excluded
      && regions[r - 1].Covers(pt)
      && (forall i :: 0 <= i < r - 1 && (i + 1) !in excluded ==> !regions[i].Covers(pt))
  {
    var idx := 0;
    while idx < |regions|
      invariant 0 <= idx <= |regions|
      invariant forall i :: 0 <= i < idx && (i + 1) !in excluded ==> !regions[i].Covers(pt)
    {
      if (idx + 1) !in excluded {
        var inside := regions[idx].Contains(pt);
        if inside {
          return idx + 1;
        }
      }
      idx := idx + 1;
    }
    return -1;
  }

  /**
   * `SceneRegions::indexOf`: the id of the first region that contains pt,
   * or 0 when none does.
   */
  method SceneIndexOf(regions: seq<Region>, pt: Point) returns (id: int)
    requires AllValid(regions)
    ensures (forall i :: 0 <= i < |regions| ==> !regions[i].Covers(pt)) ==> id == 0
    ensures (exists i :: 0 <= i < |regions| && regions[i].Covers(pt)) ==>
      exists i :: 0 <= i < |regions| && regions[i].Covers(pt) && id == regions[i].regionId &&
        forall j :: 0 <= j < i ==> !regions[j].Covers(pt)
  {
    var idx := 0;
    while idx < |regions|
      invariant 0 <= idx <= |regions|
      invariant forall j :: 0 <= j < idx ==> !regions[j].Covers(pt)
    {
      var inside := regions[idx].Contains(pt);
      if inside {
        return regions[idx].regionId;
      }
      idx := idx + 1;
    }
    return 0;
  }

  /** Region ids at or above this bound are never chosen by `find`. */
  const MinRegionIdStart := 9998
  const MaxPriority := 255

  datatype PriorityLookup =
    | DefaultRegion      // the list is empty: the placeholder region
    | Found(index: nat)  // position in the list of the chosen region
    | NoRegion           // the source's assertion fails

  function ClampPriority(priority: int): (p: int)
    ensures p <= MaxPriority
    ensures priority <= MaxPriority ==> p == priority
  {
    if priority > MaxPriority then MaxPriority else priority
  }

  /** A region id `find` will consider for priority p. */
  predicate Candidate(id: int, p: int) {
    ClampPriority(p) < id < MinRegionIdStart
  }

  /**
   * `ScenePriorities::find`: the region whose id is the smallest one above
   * the (clamped) priority, the first of equals; the placeholder for an
   * empty list; a failure when no id qualifies.
   */
  method FindPriority(regions: seq<Region>, priority: int) returns (r: PriorityLookup)
    ensures |regions| == 0 <==> r == DefaultRegion
    ensures r == NoRegion <==>
      |regions| > 0 && forall i :: 0 <= i < |regions| ==> !Candidate(regions[i].regionId, priority)
    ensures r.Found? ==>
      && r.index < |regions|
      && Candidate(regions[r.index].regionId, priority)
      && (forall j :: 0 <= j < r.index && Candidate(regions[j].regionId, priority) ==>
            regions[j].regionId > regions[r.index].regionId)
      && (forall j :: r.index < j < |regions| && Candidate(regions[j].regionId, priority) ==>
            regions[j].regionId >= regions[r.index].regionId)
  {
    if |regions| == 0 {
      return DefaultRegion;
    }
    var p := ClampPriority(priority);
    var minRegionId := MinRegionIdStart;
    var found: PriorityLookup := NoRegion;
    var idx := 0;
    while idx < |regions|
      invariant 0 <= idx <= |regions|
      invariant found == NoRegion || found.Found?
      invariant found == NoRegion ==> minRegionId == MinRegionIdStart
      invariant found == NoRegion <==>
        forall i :: 0 <= i < idx ==> !Candidate(regions[i].regionId, priority)
      invariant found.Found? ==>
        && found.index < idx
        && regions[found.index].regionId == minRegionId
        && Candidate(minRegionId, priority)
        && (forall j :: 0 <= j < found.index && Candidate(regions[j].regionId, priority) ==>
              regions[j].regionId > minRegionId)
        && (forall j :: found.index < j < idx && Candidate(regions[j].regionId, priority) ==>
              regions[j].regionId >= minRegionId)
    {
      var regionId := regions[idx].regionId;
      if regionId > p && regionId < minRegionId {
        minRegionId := regionId;
        found := Found(idx);
      }
      idx := idx + 1;
    }
    return found;
  }
}
