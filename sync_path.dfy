/** The synchronous path (`check_intersections_and_generate_maps`): the join rows
    are checked for publication on the spot, in join order, and every accepted
    row becomes a match record at once. There is no deduplication and no
    pending queue on this path. */
module SyncPath {
  import opened Values
  import opened Naming
  import opened Records
  import opened Intersection
  import opened Snapshot
  import opened Validation

  /** `str(permit_row.get('referentie_project') or project_num or count)`, on the
      raw cells of the permit row. */
  function SyncFileIdSource(reference: Cell, projectNum: Cell, count: nat): string {
    if CellTruthy(reference) then StrCell(reference)
    else if CellTruthy(projectNum) then StrCell(projectNum)
    else IntToString(count)
  }

  /** The map file is named after the reference code when it is truthy, else
      after the project number. */
  function RecordFileId(reference: Cell, projectNum: Cell): string {
    if CellTruthy(reference) then StrCell(reference) else StrCell(projectNum)
  }

  /** The counter fallback of the file id is dead code: a record is only written
      for a truthy project number, so the id never depends on the counter. */
  lemma CounterFallbackUnreached(reference: Cell, projectNum: Cell, count: nat)
    requires CellTruthy(projectNum)
    ensures SyncFileIdSource(reference, projectNum, count) == RecordFileId(reference, projectNum)
  {
  }

  /** A join row is accepted when its raw project number is truthy, the permit
      lies in an allowed municipality and the publication check answers. */
  predicate Accepted(permits: seq<Permit>, municipalityOf: Geom -> string, check: string -> Option<Dict>, c: Candidate)
    requires c.permit < |permits|
  {
    var p := permits[c.permit];
    var pn := ProjectNumber(p);
    CellTruthy(pn) && IsAllowed(municipalityOf(p.geom)) && Published(check(StrCell(pn)))
  }

  /** What the loop has in hand for an accepted join row: the join row itself,
      the permit and road rows, the permit's municipality and the publication
      record the check returned for its project number. */
  datatype AcceptedRow = AcceptedRow(join: Candidate, permit: Permit, road: Road, municipality: string, record: Dict)

  function RowOf(permits: seq<Permit>, roads: seq<Road>, municipalityOf: Geom -> string,
                 check: string -> Option<Dict>, c: Candidate): AcceptedRow
    requires c.permit < |permits| && c.road < |roads|
    requires Accepted(permits, municipalityOf, check, c)
  {
    var p := permits[c.permit];
    AcceptedRow(c, p, roads[c.road], municipalityOf(p.geom), check(StrCell(ProjectNumber(p))).value)
  }

  /** The accepted join rows, in join order. */
  function AcceptedRows(permits: seq<Permit>, roads: seq<Road>, cands: seq<Candidate>,
                        municipalityOf: Geom -> string, check: string -> Option<Dict>): (r: seq<AcceptedRow>)
    requires InRange(cands, |permits|, |roads|)
    ensures |r| <= |cands|
    decreases |cands|
  {
    if cands == [] then []
    else
      assert cands[0] in cands;
      assert forall x :: x in cands[1..] ==> x in cands;
      var rest := AcceptedRows(permits, roads, cands[1..], municipalityOf, check);
      if Accepted(permits, municipalityOf, check, cands[0])
      then [RowOf(permits, roads, municipalityOf, check, cands[0])] + rest
      else rest
  }

  /** A row is kept exactly when its join row is accepted, and it then holds that
      join row's permit, road, municipality and publication record. */
  lemma {:induction false} AcceptedRowsSpec(permits: seq<Permit>, roads: seq<Road>, cands: seq<Candidate>,
                                            municipalityOf: Geom -> string, check: string -> Option<Dict>)
    requires InRange(cands, |permits|, |roads|)
    ensures forall a :: a in AcceptedRows(permits, roads, cands, municipalityOf, check) ==>
      && a.join in cands
      && Accepted(permits, municipalityOf, check, a.join)
      && a == RowOf(permits, roads, municipalityOf, check, a.join)
    ensures forall c :: c in cands && Accepted(permits, municipalityOf, check, c) ==>
      RowOf(permits, roads, municipalityOf, check, c) in AcceptedRows(permits, roads, cands, municipalityOf, check)
    decreases |cands|
  {
    if cands != [] {
      var tail := cands[1..];
      assert forall x :: x in tail ==> x in cands;
      assert forall x :: x in cands ==> x == cands[0] || x in tail;
      AcceptedRowsSpec(permits, roads, tail, municipalityOf, check);
    }
  }

  /** The record written for an accepted join row with match id `count`: the
      cleaned permit snapshot with the inspection link and status, the road
      snapshot, the map file name, and no validation time. */
  function SyncRecord(a: AcceptedRow, count: nat): MatchRecord {
    var pn := ProjectNumber(a.permit);
    var linked := Set(PermitSnapshot(a.permit), "inzageloket_link", JStr(InzageBase + StrCell(pn)));
    var permitData := Set(linked, "inzage_status", Status(a.record));
    MatchRecord(count, a.municipality, permitData, RoadSnapshot(a.road),
                MapFilename(RecordFileId(GetCell(a.permit.attrs, ReferenceKey), pn)), None)
  }

  /** The records `build` makes of the rows `xs`, with match ids from `count` on. */
  function Numbered<T>(xs: seq<T>, count: nat, build: (T, nat) -> MatchRecord): (r: seq<MatchRecord>)
    ensures |r| == |xs|
    decreases |xs|
  {
    if xs == [] then [] else [build(xs[0], count)] + Numbered(xs[1..], count + 1, build)
  }

  /** The k-th record is the one of the k-th row, with match id `count + k`. */
  lemma {:induction false} NumberedAt<T>(xs: seq<T>, count: nat, build: (T, nat) -> MatchRecord, k: nat)
    requires k < |xs|
    ensures Numbered(xs, count, build)[k] == build(xs[k], count + k)
    decreases k
  {
    if k > 0 {
      NumberedAt(xs[1..], count + 1, build, k - 1);
    }
  }

  lemma NumberedCons<T>(x: T, t: seq<T>, count: nat, build: (T, nat) -> MatchRecord)
    ensures Numbered([x] + t, count, build) == [build(x, count)] + Numbered(t, count + 1, build)
  {
    assert ([x] + t)[1..] == t;
  }

  /** What a record of the synchronous path holds: the given match id, the
      inspection link built from the raw project number, the returned status,
      every other attribute of the cleaned permit snapshot, the cleaned project
      number, the road snapshot, no validation time, and a map file named after
      the reference code, or else the project number, never after the counter. */
  lemma SyncRecordContents(a: AcceptedRow, count: nat)
    requires CellTruthy(ProjectNumber(a.permit))
    ensures var m := SyncRecord(a, count);
      var pn := ProjectNumber(a.permit);
      var reference := GetCell(a.permit.attrs, ReferenceKey);
      && m.matchId == count
      && m.municipality == a.municipality
      && Lookup(m.permitData, "inzageloket_link") == Some(JStr(InzageBase + StrCell(pn)))
      && Lookup(m.permitData, "inzage_status") == Some(Status(a.record))
      && (forall k :: k != "inzageloket_link" && k != "inzage_status" ==>
            Lookup(m.permitData, k) == Lookup(PermitSnapshot(a.permit), k))
      && MatchNumber(m) == CleanCell(pn)
      && m.roadData == RoadSnapshot(a.road)
      && m.validatedAt.None?
      && m.mapFile == MapFilename(if CellTruthy(reference) then StrCell(reference) else StrCell(pn))
  {
    var d := PermitSnapshot(a.permit);
    var pn := ProjectNumber(a.permit);
    var link := JStr(InzageBase + StrCell(pn));
    var linked := Set(d, "inzageloket_link", link);
    var m := SyncRecord(a, count);
    assert m.permitData == Set(linked, "inzage_status", Status(a.record));
    SetOther(linked, "inzage_status", Status(a.record), "inzageloket_link");
    forall k | k != "inzageloket_link" && k != "inzage_status"
      ensures Lookup(m.permitData, k) == Lookup(d, k)
    {
      SetOther(linked, "inzage_status", Status(a.record), k);
      SetOther(d, "inzageloket_link", link, k);
    }
    assert ProjectNumberKey[0] != 'i';
    assert Get(d, ProjectNumberKey) == CleanCell(pn);
  }

  /** The records of the synchronous path are those of the accepted join rows, in
      join order, with match ids 0, 1, 2, ...; every record is of an allowed
      municipality and was answered by the publication check. */
  lemma SyncRecordsNumbered(permits: seq<Permit>, roads: seq<Road>, cands: seq<Candidate>,
                            municipalityOf: Geom -> string, check: string -> Option<Dict>)
    requires InRange(cands, |permits|, |roads|)
    ensures var rows := AcceptedRows(permits, roads, cands, municipalityOf, check);
      var ms := Numbered(rows, 0, SyncRecord);
      forall k :: 0 <= k < |ms| ==>
        && ms[k].matchId == k
        && rows[k].join in cands
        && rows[k].permit == permits[rows[k].join.permit]
        && Published(check(StrCell(ProjectNumber(rows[k].permit))))
        && IsAllowed(ms[k].municipality)
        && ms[k].municipality == municipalityOf(rows[k].permit.geom)
  {
    var rows := AcceptedRows(permits, roads, cands, municipalityOf, check);
    var ms := Numbered(rows, 0, SyncRecord);
    AcceptedRowsSpec(permits, roads, cands, municipalityOf, check);
    forall k | 0 <= k < |ms|
      ensures && ms[k].matchId == k
              && rows[k].join in cands
              && rows[k].permit == permits[rows[k].join.permit]
              && Published(check(StrCell(ProjectNumber(rows[k].permit))))
              && IsAllowed(ms[k].municipality)
              && ms[k].municipality == municipalityOf(rows[k].permit.geom)
    {
      assert rows[k] in rows;
      NumberedAt(rows, 0, SyncRecord, k);
    }
  }

  /** No deduplication: two records of the same permit (one per road it hits)
      carry the same project number and name the same map file, so the second
      map overwrites the first. */
  lemma SamePermitSameMapFile(permits: seq<Permit>, roads: seq<Road>, cands: seq<Candidate>,
                              municipalityOf: Geom -> string, check: string -> Option<Dict>, a: nat, b: nat)
    requires InRange(cands, |permits|, |roads|)
    requires var rows := AcceptedRows(permits, roads, cands, municipalityOf, check);
      a < b < |rows| && rows[a].join.permit == rows[b].join.permit
    ensures var ms := Numbered(AcceptedRows(permits, roads, cands, municipalityOf, check), 0, SyncRecord);
      ms[a].matchId != ms[b].matchId && ms[a].mapFile == ms[b].mapFile && MatchNumber(ms[a]) == MatchNumber(ms[b])
  {
    var rows := AcceptedRows(permits, roads, cands, municipalityOf, check);
    AcceptedRowsSpec(permits, roads, cands, municipalityOf, check);
    assert rows[a] in rows && rows[b] in rows;
    assert rows[a].permit == rows[b].permit;
    NumberedAt(rows, 0, SyncRecord, a);
    NumberedAt(rows, 0, SyncRecord, b);
    SyncRecordContents(rows[a], a);
    SyncRecordContents(rows[b], b);
  }

  lemma AcceptedRowsAt(permits: seq<Permit>, roads: seq<Road>, cands: seq<Candidate>,
                       municipalityOf: Geom -> string, check: string -> Option<Dict>, k: nat)
    requires InRange(cands, |permits|, |roads|)
    requires k < |cands|
    ensures cands[k] in cands && InRange(cands[k..], |permits|, |roads|) && InRange(cands[k + 1..], |permits|, |roads|)
    ensures AcceptedRows(permits, roads, cands[k..], municipalityOf, check)
         == if Accepted(permits, municipalityOf, check, cands[k])
            then [RowOf(permits, roads, municipalityOf, check, cands[k])] + AcceptedRows(permits, roads, cands[k + 1..], municipalityOf, check)
            else AcceptedRows(permits, roads, cands[k + 1..], municipalityOf, check)
  {
    var rest := cands[k..];
    assert rest[0] == cands[k] && rest[1..] == cands[k + 1..];
    assert forall x :: x in rest ==> x in cands;
    assert forall x :: x in cands[k + 1..] ==> x in cands;
  }

  /** The loop of `check_intersections_and_generate_maps` over the join rows
      `cands`: the records it collects are those of the accepted rows, numbered
      from 0, and the counter ends at their number. The map drawing is left out. */
  method SyncLoop(ops: GeometryOps, permits: seq<Permit>, roads: seq<Road>, cands: seq<Candidate>,
                  municipalityOf: Geom -> string, check: string -> Option<Dict>)
    returns (matches: seq<MatchRecord>, count: nat)
    requires InRange(cands, |permits|, |roads|)
    ensures matches == Numbered(AcceptedRows(permits, roads, cands, municipalityOf, check), 0, SyncRecord)
    ensures count == |matches|
  {
    matches, count := [], 0;
    for k := 0 to |cands|
      invariant count == |matches|
      invariant InRange(cands[k..], |permits|, |roads|)
      invariant matches + Numbered(AcceptedRows(permits, roads, cands[k..], municipalityOf, check), count, SyncRecord)
             == Numbered(AcceptedRows(permits, roads, cands, municipalityOf, check), 0, SyncRecord)
    {
      AcceptedRowsAt(permits, roads, cands, municipalityOf, check, k);
      var c := cands[k];
      var p := permits[c.permit];
      var r := roads[c.road];
      var permitData := CleanDataDict(PermitRow(p, ops.erode(p.geom)), PermitGeometryColumns);
      var roadData := CleanDataDict(RoadRow(r), RoadGeometryColumns);
      PermitSnapshotOfRow(p, ops.erode(p.geom));
      RoadSnapshotOfRow(r);
      var projectNum := ProjectNumber(p);
      if !CellTruthy(projectNum) {
        continue;
      }
      var municipality := municipalityOf(p.geom);
      if !IsAllowed(municipality) {
        continue;
      }
      var answer := check(StrCell(projectNum));
      if !(answer.Some? && |answer.value| > 0) {
        continue;
      }
      permitData := Set(permitData, "inzageloket_link", JStr(InzageBase + StrCell(projectNum)));
      permitData := Set(permitData, "inzage_status", Lookup(answer.value, "toestand").GetOr(JStr(Unknown)));
      var fileId := SyncFileIdSource(GetCell(p.attrs, ReferenceKey), projectNum, count);
      CounterFallbackUnreached(GetCell(p.attrs, ReferenceKey), projectNum, count);
      var record := MatchRecord(count, municipality, permitData, roadData, MapFilename(fileId), None);
      assert Accepted(permits, municipalityOf, check, c);
      ghost var row := RowOf(permits, roads, municipalityOf, check, c);
      assert record == SyncRecord(row, count);
      ghost var later := AcceptedRows(permits, roads, cands[k + 1..], municipalityOf, check);
      NumberedCons(row, later, count, SyncRecord);
      AppendAssoc(matches, record, Numbered(later, count + 1, SyncRecord));
      matches := matches + [record];
      count := count + 1;
    }
  }

  /** `check_intersections_and_generate_maps`: the spatial join, then the loop.
      The records returned (and written to `matches.json`) are those of the
      accepted join rows, numbered from 0. */
  method CheckIntersections(ops: GeometryOps, permits: seq<Permit>, roads: seq<Road>,
                            municipalityOf: Geom -> string, check: string -> Option<Dict>)
    returns (matches: seq<MatchRecord>, count: nat)
    ensures matches == Numbered(AcceptedRows(permits, roads, SpatialJoin(ops, permits, roads), municipalityOf, check), 0, SyncRecord)
    ensures count == |matches|
  {
    var cands := SpatialJoin(ops, permits, roads);
    matches, count := SyncLoop(ops, permits, roads, cands, municipalityOf, check);
  }
}
