/** The entities of the pipeline: permits and roads as fetched for one run, the
    two shapes of pending entry, and the match record. */
module Records {
  import opened Values
  import opened Snapshot

  /** A permit candidate: its attribute columns (among them `projectnummer` and,
      optionally, `referentie_project`) and its footprint polygon. */
  datatype Permit = Permit(attrs: Row, geom: Geom)

  /** A protected road segment: its attribute columns and its line geometry. */
  datatype Road = Road(attrs: Row, geom: Geom)

  /** A pending entry as discovery writes it: one permit and one road. */
  datatype FlatPending = FlatPending(
    municipality: string,
    permitData: Dict,
    roadData: Dict,
    permitGeomWkt: string,
    roadGeomWkt: string,
    discoveredAt: string)

  /** A pending entry in the grouped shape made by the migration: one permit
      with every road found for it. */
  datatype GroupedPending = GroupedPending(
    municipality: string,
    permitData: Dict,
    roadDataList: seq<Dict>,
    permitGeomWkt: string,
    roadGeomWkts: seq<string>,
    discoveredAt: string,
    numRoads: nat)

  /** A confirmed match. The synchronous path writes no validation time. */
  datatype MatchRecord = MatchRecord(
    matchId: nat,
    municipality: string,
    permitData: Dict,
    roadData: Dict,
    mapFile: string,
    validatedAt: Option<string>)

  const ProjectNumberKey: string := "projectnummer"
  const ReferenceKey: string := "referentie_project"

  /** Geometry columns of the permit frame, excluded from its snapshot. */
  const PermitGeometryColumns: seq<string> := ["geometry", "orig_geom", "geometry_buffered"]

  /** Geometry column of the road frame, excluded from its snapshot. */
  const RoadGeometryColumns: seq<string> := ["geometry"]

  /** The permit row as the loops see it: the attribute columns, then the active
      geometry, its copy `orig_geom` and the eroded `geometry_buffered`. */
  function PermitRow(p: Permit, eroded: Geom): Row {
    p.attrs + [("geometry", CGeom(p.geom)), ("orig_geom", CGeom(p.geom)), ("geometry_buffered", CGeom(eroded))]
  }

  /** The road row: the attribute columns, then the geometry. */
  function RoadRow(r: Road): Row {
    r.attrs + [("geometry", CGeom(r.geom))]
  }

  /** `permit_row.get('projectnummer')`: the raw project number, None when the column is absent. */
  function ProjectNumber(p: Permit): Cell {
    GetCell(p.attrs, ProjectNumberKey)
  }

  /** The permit's attribute snapshot: the cleaned attribute columns. The project
      number it stores is the cleaned raw one. */
  function PermitSnapshot(p: Permit): (d: Dict)
    ensures Get(d, ProjectNumberKey) == CleanCell(ProjectNumber(p))
  {
    assert ProjectNumberKey !in PermitGeometryColumns;
    CleanDataDictSpec(p.attrs, PermitGeometryColumns);
    CleanDataDict(p.attrs, PermitGeometryColumns)
  }

  /** The road's attribute snapshot: the cleaned attribute columns. */
  function RoadSnapshot(r: Road): Dict {
    CleanDataDict(r.attrs, RoadGeometryColumns)
  }

  /** `clean_data_dict(permit_row, ['geometry', 'orig_geom', 'geometry_buffered'])`
      on the full permit row is the snapshot: no geometry enters it. */
  lemma PermitSnapshotOfRow(p: Permit, eroded: Geom)
    ensures CleanDataDict(PermitRow(p, eroded), PermitGeometryColumns) == PermitSnapshot(p)
  {
    var row := PermitRow(p, eroded);
    ExcludedColumnsInvisible(p.attrs, row[|p.attrs|..], PermitGeometryColumns);
    assert row == p.attrs + row[|p.attrs|..];
  }

  /** `clean_data_dict(road_row, ['geometry'])` on the full road row is the snapshot. */
  lemma RoadSnapshotOfRow(r: Road)
    ensures CleanDataDict(RoadRow(r), RoadGeometryColumns) == RoadSnapshot(r)
  {
    var row := RoadRow(r);
    ExcludedColumnsInvisible(r.attrs, row[|r.attrs|..], RoadGeometryColumns);
    assert row == r.attrs + row[|r.attrs|..];
  }

  /** The project number stored in a pending entry (`item['permit_data'].get('projectnummer')`). */
  function PendingNumber(item: FlatPending): JValue {
    Get(item.permitData, ProjectNumberKey)
  }

  /** The project number stored in a match record. */
  function MatchNumber(m: MatchRecord): JValue {
    Get(m.permitData, ProjectNumberKey)
  }

  function PendingNumbers(queue: seq<FlatPending>): (ns: seq<JValue>)
    ensures |ns| == |queue|
    ensures forall i :: 0 <= i < |queue| ==> ns[i] == PendingNumber(queue[i])
  {
    if queue == [] then [] else [PendingNumber(queue[0])] + PendingNumbers(queue[1..])
  }

  function MatchNumbers(store: seq<MatchRecord>): (ns: seq<JValue>)
    ensures |ns| == |store|
    ensures forall i :: 0 <= i < |store| ==> ns[i] == MatchNumber(store[i])
  {
    if store == [] then [] else [MatchNumber(store[0])] + MatchNumbers(store[1..])
  }

  lemma PendingNumbersCons(head: FlatPending, tail: seq<FlatPending>)
    ensures PendingNumbers([head] + tail) == [PendingNumber(head)] + PendingNumbers(tail)
  {
    assert ([head] + tail)[1..] == tail;
  }

  lemma MatchNumbersCons(head: MatchRecord, tail: seq<MatchRecord>)
    ensures MatchNumbers([head] + tail) == [MatchNumber(head)] + MatchNumbers(tail)
  {
    assert ([head] + tail)[1..] == tail;
  }

  lemma MatchNumbersAppend(a: seq<MatchRecord>, b: seq<MatchRecord>)
    ensures MatchNumbers(a + b) == MatchNumbers(a) + MatchNumbers(b)
  {
    var l := MatchNumbers(a + b);
    var r := MatchNumbers(a) + MatchNumbers(b);
    assert forall i :: 0 <= i < |l| ==> l[i] == r[i];
  }

  lemma PendingNumbersAppend(a: seq<FlatPending>, b: seq<FlatPending>)
    ensures PendingNumbers(a + b) == PendingNumbers(a) + PendingNumbers(b)
  {
    var l := PendingNumbers(a + b);
    var r := PendingNumbers(a) + PendingNumbers(b);
    assert forall i :: 0 <= i < |l| ==> l[i] == r[i];
  }
}
