/** The intersection engine: permits are eroded inward by 1.0 unit, permits whose
    erosion is empty are dropped, and the rest are joined with the roads on the
    `intersects` predicate. The geometry library is an oracle. */
module Intersection {
  import opened Values
  import opened Records

  /** The geometry library as the join uses it: `buffer(-1.0)` and `intersects`. */
  datatype GeometryOps = GeometryOps(erode: Geom -> Geom, intersects: (Geom, Geom) -> bool)

  /** A row of the join: the index of a permit and the index of a road it hits. */
  datatype Candidate = Candidate(permit: nat, road: nat)

  /** `~geometry_buffered.is_empty`: the permit survives erosion. */
  predicate Survives(ops: GeometryOps, p: Permit) {
    !ops.erode(p.geom).IsEmpty()
  }

  /** The join predicate: a surviving permit whose eroded footprint intersects the road. */
  predicate Hit(ops: GeometryOps, permits: seq<Permit>, roads: seq<Road>, i: nat, j: nat)
    requires i < |permits| && j < |roads|
  {
    Survives(ops, permits[i]) && ops.intersects(ops.erode(permits[i].geom), roads[j].geom)
  }

  /** Candidates ordered by permit, then by road, with no repetition. */
  predicate Ordered(cs: seq<Candidate>) {
    forall a, b :: 0 <= a < b < |cs| ==>
      cs[a].permit < cs[b].permit || (cs[a].permit == cs[b].permit && cs[a].road < cs[b].road)
  }

  predicate InRange(cs: seq<Candidate>, numPermits: nat, numRoads: nat) {
    forall c :: c in cs ==> c.permit < numPermits && c.road < numRoads
  }

  /** The roads from index `j` on that permit `i` hits, in road order. */
  function RoadHits(ops: GeometryOps, permits: seq<Permit>, roads: seq<Road>, i: nat, j: nat): seq<Candidate>
    requires i < |permits| && j <= |roads|
    decreases |roads| - j
  {
    if j == |roads| then []
    else
      var rest := RoadHits(ops, permits, roads, i, j + 1);
      if Hit(ops, permits, roads, i, j) then [Candidate(i, j)] + rest else rest
  }

  /** `RoadHits` lists exactly the roads from `j` on that permit `i` hits, in
      increasing road order. */
  lemma {:induction false} RoadHitsSpec(ops: GeometryOps, permits: seq<Permit>, roads: seq<Road>, i: nat, j: nat)
    requires i < |permits| && j <= |roads|
    ensures var r := RoadHits(ops, permits, roads, i, j);
      && (forall c :: c in r ==> c.permit == i && j <= c.road < |roads| && Hit(ops, permits, roads, i, c.road))
      && (forall k :: j <= k < |roads| && Hit(ops, permits, roads, i, k) ==> Candidate(i, k) in r)
      && Ordered(r)
    decreases |roads| - j
  {
    if j < |roads| {
      RoadHitsSpec(ops, permits, roads, i, j + 1);
      var rest := RoadHits(ops, permits, roads, i, j + 1);
      if Hit(ops, permits, roads, i, j) {
        var r := [Candidate(i, j)] + rest;
        assert forall b :: 0 < b < |r| ==> r[b] in rest;
      }
    }
  }

  /** The join rows of the permits from index `i` on. */
  function JoinFrom(ops: GeometryOps, permits: seq<Permit>, roads: seq<Road>, i: nat): seq<Candidate>
    requires i <= |permits|
    decreases |permits| - i
  {
    if i == |permits| then []
    else RoadHits(ops, permits, roads, i, 0) + JoinFrom(ops, permits, roads, i + 1)
  }

  /** `JoinFrom` lists exactly the hits of the permits from `i` on, ordered by
      permit and then by road. */
  lemma {:induction false} JoinFromSpec(ops: GeometryOps, permits: seq<Permit>, roads: seq<Road>, i: nat)
    requires i <= |permits|
    ensures var r := JoinFrom(ops, permits, roads, i);
      && (forall c :: c in r ==> i <= c.permit < |permits| && c.road < |roads| && Hit(ops, permits, roads, c.permit, c.road))
      && (forall p, k :: i <= p < |permits| && 0 <= k < |roads| && Hit(ops, permits, roads, p, k) ==> Candidate(p, k) in r)
      && Ordered(r)
    decreases |permits| - i
  {
    if i < |permits| {
      RoadHitsSpec(ops, permits, roads, i, 0);
      JoinFromSpec(ops, permits, roads, i + 1);
      var here := RoadHits(ops, permits, roads, i, 0);
      var rest := JoinFrom(ops, permits, roads, i + 1);
      var r := here + rest;
      assert forall a :: 0 <= a < |here| ==> r[a] in here;
      assert forall b :: |here| <= b < |r| ==> r[b] in rest;
    }
  }

  /** `gpd.sjoin(valid_permits, roads, how="inner", predicate="intersects")`, with
      the permits whose erosion is empty left out beforehand. */
  function SpatialJoin(ops: GeometryOps, permits: seq<Permit>, roads: seq<Road>): (r: seq<Candidate>)
    ensures InRange(r, |permits|, |roads|)
  {
    JoinFromSpec(ops, permits, roads, 0);
    JoinFrom(ops, permits, roads, 0)
  }

  /** The join rows come ordered by permit and then by road, each pair once. */
  lemma SpatialJoinOrdered(ops: GeometryOps, permits: seq<Permit>, roads: seq<Road>)
    ensures Ordered(SpatialJoin(ops, permits, roads))
  {
    JoinFromSpec(ops, permits, roads, 0);
  }

  /** `valid_permits_mask.any()`: some permit survives erosion. */
  function AnySurvives(ops: GeometryOps, permits: seq<Permit>): (b: bool)
    ensures b <==> exists i :: 0 <= i < |permits| && Survives(ops, permits[i])
  {
    if permits == [] then false
    else
      TailShift(permits);
      Survives(ops, permits[0]) || AnySurvives(ops, permits[1..])
  }

  /** A non-empty join needs a permit that survives erosion; so with none, the
      join is empty. */
  lemma JoinNeedsSurvivor(ops: GeometryOps, permits: seq<Permit>, roads: seq<Road>)
    ensures SpatialJoin(ops, permits, roads) != [] ==> AnySurvives(ops, permits)
  {
    var r := SpatialJoin(ops, permits, roads);
    JoinFromSpec(ops, permits, roads, 0);
    if r != [] {
      assert r[0] in r;
      assert Survives(ops, permits[r[0].permit]);
    }
  }

  /** A pair is a join row exactly when the permit survives erosion and its eroded
      footprint intersects the road. */
  lemma SpatialJoinExactly(ops: GeometryOps, permits: seq<Permit>, roads: seq<Road>, i: nat, j: nat)
    ensures Candidate(i, j) in SpatialJoin(ops, permits, roads) <==>
      i < |permits| && j < |roads| && Hit(ops, permits, roads, i, j)
  {
    JoinFromSpec(ops, permits, roads, 0);
  }

  /** A permit whose inward buffer is empty takes part in no join row. */
  lemma ErodedAwayNeverJoined(ops: GeometryOps, permits: seq<Permit>, roads: seq<Road>, c: Candidate)
    requires c in SpatialJoin(ops, permits, roads)
    ensures Survives(ops, permits[c.permit])
  {
    JoinFromSpec(ops, permits, roads, 0);
  }
}
