/** Stage 1 of a run: the join rows are deduplicated by project number against
    the validated matches and the pending queue, gated by the municipality
    allow-list, and the survivors are appended to the pending queue. */
module Discovery {
  import opened Values
  import opened Naming
  import opened Snapshot
  import opened Records
  import opened Intersection

  /** `project_num in s`, for a raw project number and a set of stored numbers. */
  predicate Known(pn: Cell, s: set<JValue>) {
    KeyOf(pn).Some? && KeyOf(pn).value in s
  }

  /** `s.add(project_num)`. A number equal to no stored value (NaN) can match no
      later lookup, so adding it changes nothing observable. */
  function Remember(s: set<JValue>, pn: Cell): (r: set<JValue>)
    ensures KeyOf(pn).Some? ==> Known(pn, r)
    ensures s <= r
  {
    if KeyOf(pn).Some? then s + {KeyOf(pn).value} else s
  }

  /** The first test of the loop: the pair is passed over when its project number
      is falsy or already validated or pending. */
  predicate Skipped(pn: Cell, existing: set<JValue>, pendingNums: set<JValue>) {
    !CellTruthy(pn) || Known(pn, existing) || Known(pn, pendingNums)
  }

  /** The entry appended for a permit, a road and the permit's municipality. */
  function NewEntry(p: Permit, r: Road, municipality: string, now: string): FlatPending {
    FlatPending(municipality, PermitSnapshot(p), RoadSnapshot(r), p.geom.wkt, r.geom.wkt, now)
  }

  /** The entries the discovery loop appends for the join rows `cands`, given the
      numbers of the validated matches (`existing`) and of the pending entries. */
  function Discovered(permits: seq<Permit>, roads: seq<Road>, cands: seq<Candidate>,
                      existing: set<JValue>, pendingNums: set<JValue>,
                      municipalityOf: Geom -> string, now: string): seq<FlatPending>
    requires InRange(cands, |permits|, |roads|)
    decreases |cands|
  {
    if cands == [] then []
    else
      var c := cands[0];
      var p := permits[c.permit];
      var pn := ProjectNumber(p);
      assert forall x :: x in cands[1..] ==> x in cands;
      if Skipped(pn, existing, pendingNums) then
        Discovered(permits, roads, cands[1..], existing, pendingNums, municipalityOf, now)
      else if !IsAllowed(municipalityOf(p.geom)) then
        Discovered(permits, roads, cands[1..], existing, pendingNums, municipalityOf, now)
      else
        [NewEntry(p, roads[c.road], municipalityOf(p.geom), now)]
        + Discovered(permits, roads, cands[1..], existing, Remember(pendingNums, pn), municipalityOf, now)
  }

  /** Every raw project number of a join row compares equal to a JSON value
      (none is NaN, a timestamp or a geometry). */
  predicate Comparable(permits: seq<Permit>, cands: seq<Candidate>) {
    forall c :: c in cands && c.permit < |permits| ==> KeyOf(ProjectNumber(permits[c.permit])).Some?
  }

  /** The number stored in a new entry is the one its raw project number compares equal to. */
  lemma NewEntryNumber(p: Permit, r: Road, municipality: string, now: string)
    requires KeyOf(ProjectNumber(p)).Some?
    ensures PendingNumber(NewEntry(p, r, municipality, now)) == KeyOf(ProjectNumber(p)).value
  {
    var d := PermitSnapshot(p);
    assert ProjectNumberKey !in PermitGeometryColumns;
    assert Get(d, ProjectNumberKey) == CleanCell(ProjectNumber(p));
  }

  /** Every appended entry is built from one of the join rows: its permit has a
      truthy project number that was neither validated nor pending, and its
      municipality is the permit's and is on the allow-list. */
  lemma {:induction false} DiscoveredFromCandidates(permits: seq<Permit>, roads: seq<Road>,
      cands: seq<Candidate>, existing: set<JValue>, pendingNums: set<JValue>,
      municipalityOf: Geom -> string, now: string)
    requires InRange(cands, |permits|, |roads|)
    ensures forall e :: e in Discovered(permits, roads, cands, existing, pendingNums, municipalityOf, now) ==>
      IsAllowed(e.municipality) &&
      exists c :: c in cands &&
        e == NewEntry(permits[c.permit], roads[c.road], municipalityOf(permits[c.permit].geom), now) &&
        CellTruthy(ProjectNumber(permits[c.permit])) &&
        !Known(ProjectNumber(permits[c.permit]), existing) &&
        !Known(ProjectNumber(permits[c.permit]), pendingNums)
  {
    if cands != [] {
      assert forall x :: x in cands[1..] ==> x in cands;
      var c := cands[0];
      var p := permits[c.permit];
      var pn := ProjectNumber(p);
      if Skipped(pn, existing, pendingNums) || !IsAllowed(municipalityOf(p.geom)) {
        DiscoveredFromCandidates(permits, roads, cands[1..], existing, pendingNums, municipalityOf, now);
      } else {
        DiscoveredFromCandidates(permits, roads, cands[1..], existing, Remember(pendingNums, pn), municipalityOf, now);
      }
    }
  }

  /** Under comparable project numbers, the entries appended in one run have
      pairwise distinct, truthy project numbers, none validated or pending before. */
  lemma {:induction false} DiscoveredNumbersFresh(permits: seq<Permit>, roads: seq<Road>,
      cands: seq<Candidate>, existing: set<JValue>, pendingNums: set<JValue>,
      municipalityOf: Geom -> string, now: string)
    requires InRange(cands, |permits|, |roads|)
    requires Comparable(permits, cands)
    ensures var ns := PendingNumbers(Discovered(permits, roads, cands, existing, pendingNums, municipalityOf, now));
      NoDuplicates(ns) && forall v :: v in ns ==> Truthy(v) && v !in existing && v !in pendingNums
  {
    if cands != [] {
      assert forall x :: x in cands[1..] ==> x in cands;
      var c := cands[0];
      var p := permits[c.permit];
      var pn := ProjectNumber(p);
      if Skipped(pn, existing, pendingNums) || !IsAllowed(municipalityOf(p.geom)) {
        DiscoveredNumbersFresh(permits, roads, cands[1..], existing, pendingNums, municipalityOf, now);
      } else {
        var v := KeyOf(pn).value;
        var pending' := Remember(pendingNums, pn);
        DiscoveredNumbersFresh(permits, roads, cands[1..], existing, pending', municipalityOf, now);
        var head := NewEntry(p, roads[c.road], municipalityOf(p.geom), now);
        var tail := Discovered(permits, roads, cands[1..], existing, pending', municipalityOf, now);
        NewEntryNumber(p, roads[c.road], municipalityOf(p.geom), now);
        PendingNumbersCons(head, tail);
        var tns := PendingNumbers(tail);
        assert v !in tns;
        NoDuplicatesCons(v, tns);
      }
    }
  }

  /** Every join row with a truthy project number ends up accounted for: the
      number was validated or pending already, the municipality is not allowed,
      or the number is among those appended. */
  lemma {:induction false} DiscoveredCovers(permits: seq<Permit>, roads: seq<Road>,
      cands: seq<Candidate>, existing: set<JValue>, pendingNums: set<JValue>,
      municipalityOf: Geom -> string, now: string)
    requires InRange(cands, |permits|, |roads|)
    requires Comparable(permits, cands)
    ensures forall c :: c in cands ==>
      var pn := ProjectNumber(permits[c.permit]);
      !CellTruthy(pn) || Known(pn, existing) || Known(pn, pendingNums) ||
      !IsAllowed(municipalityOf(permits[c.permit].geom)) ||
      KeyOf(pn).value in PendingNumbers(Discovered(permits, roads, cands, existing, pendingNums, municipalityOf, now))
  {
    if cands != [] {
      assert forall x :: x in cands[1..] ==> x in cands;
      var c := cands[0];
      var p := permits[c.permit];
      var pn := ProjectNumber(p);
      if Skipped(pn, existing, pendingNums) || !IsAllowed(municipalityOf(p.geom)) {
        DiscoveredCovers(permits, roads, cands[1..], existing, pendingNums, municipalityOf, now);
      } else {
        var pending' := Remember(pendingNums, pn);
        DiscoveredCovers(permits, roads, cands[1..], existing, pending', municipalityOf, now);
        var head := NewEntry(p, roads[c.road], municipalityOf(p.geom), now);
        var tail := Discovered(permits, roads, cands[1..], existing, pending', municipalityOf, now);
        NewEntryNumber(p, roads[c.road], municipalityOf(p.geom), now);
        PendingNumbersCons(head, tail);
      }
    }
  }

  /** When every join row would be passed over, nothing is appended. */
  lemma {:induction false} NothingNewWhenCovered(permits: seq<Permit>, roads: seq<Road>,
      cands: seq<Candidate>, existing: set<JValue>, pendingNums: set<JValue>,
      municipalityOf: Geom -> string, now: string)
    requires InRange(cands, |permits|, |roads|)
    requires forall c :: c in cands ==>
      Skipped(ProjectNumber(permits[c.permit]), existing, pendingNums) || !IsAllowed(municipalityOf(permits[c.permit].geom))
    ensures Discovered(permits, roads, cands, existing, pendingNums, municipalityOf, now) == []
  {
    if cands != [] {
      assert forall x :: x in cands[1..] ==> x in cands;
      NothingNewWhenCovered(permits, roads, cands[1..], existing, pendingNums, municipalityOf, now);
    }
  }

  /** Idempotence: rerunning discovery on the same join rows appends nothing,
      once every number that was validated or pending, and every number the first
      pass appended, is validated or pending in the later run. */
  lemma DiscoveryIdempotent(permits: seq<Permit>, roads: seq<Road>,
      cands: seq<Candidate>, existing: set<JValue>, pendingNums: set<JValue>,
      existingLater: set<JValue>, pendingLater: set<JValue>,
      municipalityOf: Geom -> string, now: string, later: string)
    requires InRange(cands, |permits|, |roads|)
    requires Comparable(permits, cands)
    requires existing + pendingNums <= existingLater + pendingLater
    requires forall v :: v in PendingNumbers(Discovered(permits, roads, cands, existing, pendingNums, municipalityOf, now)) ==>
      v in existingLater + pendingLater
    ensures Discovered(permits, roads, cands, existingLater, pendingLater, municipalityOf, later) == []
  {
    DiscoveredCovers(permits, roads, cands, existing, pendingNums, municipalityOf, now);
    forall c | c in cands
      ensures Skipped(ProjectNumber(permits[c.permit]), existingLater, pendingLater) || !IsAllowed(municipalityOf(permits[c.permit].geom))
    {
      var pn := ProjectNumber(permits[c.permit]);
      if CellTruthy(pn) {
        assert KeyOf(pn).Some?;
        var v := KeyOf(pn).value;
        assert Known(pn, existing) || Known(pn, pendingNums) || !IsAllowed(municipalityOf(permits[c.permit].geom)) ||
          v in PendingNumbers(Discovered(permits, roads, cands, existing, pendingNums, municipalityOf, now));
      }
    }
    NothingNewWhenCovered(permits, roads, cands, existingLater, pendingLater, municipalityOf, later);
  }

  /** Rerunning discovery with a municipality lookup that answers differently
      (the lookup falls back to "Onbekend" when its service fails): once the
      first pass's numbers are known, every entry the second pass appends comes
      from a join row whose municipality the first lookup did not allow. */
  lemma RediscoveryNeedsNewMunicipality(permits: seq<Permit>, roads: seq<Road>,
      cands: seq<Candidate>, existing: set<JValue>, pendingNums: set<JValue>,
      existingLater: set<JValue>, pendingLater: set<JValue>,
      municipalityOf: Geom -> string, municipalityLater: Geom -> string, now: string, later: string)
    requires InRange(cands, |permits|, |roads|)
    requires Comparable(permits, cands)
    requires existing + pendingNums <= existingLater + pendingLater
    requires forall v :: v in PendingNumbers(Discovered(permits, roads, cands, existing, pendingNums, municipalityOf, now)) ==>
      v in existingLater + pendingLater
    ensures forall e :: e in Discovered(permits, roads, cands, existingLater, pendingLater, municipalityLater, later) ==>
      exists c :: c in cands &&
        e == NewEntry(permits[c.permit], roads[c.road], municipalityLater(permits[c.permit].geom), later) &&
        IsAllowed(municipalityLater(permits[c.permit].geom)) &&
        !IsAllowed(municipalityOf(permits[c.permit].geom))
  {
    var first := Discovered(permits, roads, cands, existing, pendingNums, municipalityOf, now);
    var second := Discovered(permits, roads, cands, existingLater, pendingLater, municipalityLater, later);
    DiscoveredCovers(permits, roads, cands, existing, pendingNums, municipalityOf, now);
    DiscoveredFromCandidates(permits, roads, cands, existingLater, pendingLater, municipalityLater, later);
    forall e | e in second
      ensures exists c :: (c in cands &&
                e == NewEntry(permits[c.permit], roads[c.road], municipalityLater(permits[c.permit].geom), later) &&
                IsAllowed(municipalityLater(permits[c.permit].geom)) &&
                !IsAllowed(municipalityOf(permits[c.permit].geom)))
    {
      var c :| c in cands &&
        e == NewEntry(permits[c.permit], roads[c.road], municipalityLater(permits[c.permit].geom), later) &&
        CellTruthy(ProjectNumber(permits[c.permit])) &&
        !Known(ProjectNumber(permits[c.permit]), existingLater) &&
        !Known(ProjectNumber(permits[c.permit]), pendingLater);
      assert IsAllowed(e.municipality);
      var pn := ProjectNumber(permits[c.permit]);
      assert KeyOf(pn).Some?;
      var v := KeyOf(pn).value;
      assert v !in existingLater + pendingLater;
      assert !Known(pn, existing) && !Known(pn, pendingNums);
      assert v !in PendingNumbers(first);
    }
  }

  /** Erosion exclusion: every entry discovered from the spatial join comes from
      a permit that survives erosion and a road its eroded footprint intersects. */
  lemma OnlySurvivingPermitsDiscovered(ops: GeometryOps, permits: seq<Permit>, roads: seq<Road>,
      existing: set<JValue>, pendingNums: set<JValue>, municipalityOf: Geom -> string, now: string)
    ensures forall e :: e in Discovered(permits, roads, SpatialJoin(ops, permits, roads), existing, pendingNums, municipalityOf, now) ==>
      (exists i, j :: 0 <= i < |permits| && 0 <= j < |roads| && Hit(ops, permits, roads, i, j) &&
         e == NewEntry(permits[i], roads[j], e.municipality, now))
  {
    var cands := SpatialJoin(ops, permits, roads);
    DiscoveredFromCandidates(permits, roads, cands, existing, pendingNums, municipalityOf, now);
    forall e | e in Discovered(permits, roads, cands, existing, pendingNums, municipalityOf, now)
      ensures (exists i, j :: 0 <= i < |permits| && 0 <= j < |roads| && Hit(ops, permits, roads, i, j) &&
                 e == NewEntry(permits[i], roads[j], e.municipality, now))
    {
      var c :| c in cands && e == NewEntry(permits[c.permit], roads[c.road], municipalityOf(permits[c.permit].geom), now);
      SpatialJoinExactly(ops, permits, roads, c.permit, c.road);
    }
  }

  /** The loop of the discovery stage over the join rows `cands`: the queue it
      leaves is the old queue followed by the discovered entries. */
  method DiscoverLoop(ops: GeometryOps, permits: seq<Permit>, roads: seq<Road>, cands: seq<Candidate>,
                      municipalityOf: Geom -> string, existing: set<JValue>, pendingNums: set<JValue>,
                      queue: seq<FlatPending>, now: string)
    returns (newQueue: seq<FlatPending>, newCount: nat)
    requires InRange(cands, |permits|, |roads|)
    ensures newQueue == queue + Discovered(permits, roads, cands, existing, pendingNums, municipalityOf, now)
    ensures |newQueue| == |queue| + newCount
  {
    var known := pendingNums;
    newQueue, newCount := queue, 0;
    for k := 0 to |cands|
      invariant InRange(cands[k..], |permits|, |roads|)
      invariant newQueue + Discovered(permits, roads, cands[k..], existing, known, municipalityOf, now)
             == queue + Discovered(permits, roads, cands, existing, pendingNums, municipalityOf, now)
      invariant |newQueue| == |queue| + newCount
    {
      ghost var rest := cands[k..];
      assert rest[0] == cands[k] && rest[1..] == cands[k + 1..];
      var c := cands[k];
      var p := permits[c.permit];
      var projectNum := ProjectNumber(p);
      if !CellTruthy(projectNum) || Known(projectNum, existing) || Known(projectNum, known) {
        continue;
      }
      var municipality := municipalityOf(p.geom);
      if !IsAllowed(municipality) {
        continue;
      }
      var r := roads[c.road];
      var permitData := CleanDataDict(PermitRow(p, ops.erode(p.geom)), PermitGeometryColumns);
      var roadData := CleanDataDict(RoadRow(r), RoadGeometryColumns);
      PermitSnapshotOfRow(p, ops.erode(p.geom));
      RoadSnapshotOfRow(r);
      var entry := FlatPending(municipality, permitData, roadData, p.geom.wkt, r.geom.wkt, now);
      assert entry == NewEntry(p, r, municipality, now);
      assert Discovered(permits, roads, rest, existing, known, municipalityOf, now)
          == [entry] + Discovered(permits, roads, cands[k + 1..], existing, Remember(known, projectNum), municipalityOf, now);
      newQueue := newQueue + [entry];
      known := Remember(known, projectNum);
      newCount := newCount + 1;
    }
  }

  /** The discovery stage of `main`, with its two guards (some permits fetched,
      some surviving erosion): the pending queue after the stage is the old queue
      followed by the discovered entries, and the count is the number appended. */
  method DiscoverNew(ops: GeometryOps, permits: seq<Permit>, roads: seq<Road>, municipalityOf: Geom -> string,
                     validated: seq<MatchRecord>, queue: seq<FlatPending>, now: string)
    returns (newQueue: seq<FlatPending>, newCount: nat)
    ensures newQueue == queue + Discovered(permits, roads, SpatialJoin(ops, permits, roads),
      (set v | v in MatchNumbers(validated)), (set v | v in PendingNumbers(queue)), municipalityOf, now)
    ensures |newQueue| == |queue| + newCount
  {
    var existing := set v | v in MatchNumbers(validated);
    var pendingNums := set v | v in PendingNumbers(queue);
    if |permits| > 0 && AnySurvives(ops, permits) {
      var cands := SpatialJoin(ops, permits, roads);
      newQueue, newCount := DiscoverLoop(ops, permits, roads, cands, municipalityOf, existing, pendingNums, queue, now);
    } else {
      JoinNeedsSurvivor(ops, permits, roads);
      newQueue, newCount := queue, 0;
    }
  }
}
