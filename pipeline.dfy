/** One run of `main`: load the match store and the pending queue, discover new
    intersections into the queue (saving it when something was added), then
    validate the whole queue and save both files. The permit fetch, the road
    load, the geometry library, the municipality lookup and the publication
    check are inputs; a failing fetch or road load ends the run before
    anything is written. */
module Pipeline {
  import opened Values
  import opened Naming
  import opened Records
  import opened Intersection
  import opened Discovery
  import opened Validation
  import opened Persist

  /** What stage 1 fetched: the recent permits and the protected roads. */
  datatype Fetched = Fetched(permits: seq<Permit>, roads: seq<Road>)

  /** The outside services a run asks: the geometry library, the municipality
      lookup and the publication check. */
  datatype Services = Services(ops: GeometryOps, municipalityOf: Geom -> string, check: string -> Option<Dict>)

  /** How each of the three saves of a run ends: the queue after discovery, the
      match store and the queue after validation. */
  datatype Writes = Writes(discovery: WriteOutcome, matches: WriteOutcome, pending: WriteOutcome)

  /** The two files a run reads and writes. */
  datatype Files = Files(matches: FileContent<seq<MatchRecord>>, pending: FileContent<seq<FlatPending>>)

  function Store(files: Files): seq<MatchRecord> {
    LoadJson(files.matches, Some([]))
  }

  function Queue(files: Files): seq<FlatPending> {
    LoadJson(files.pending, Some([]))
  }

  /** `existing_projectnums`. */
  function Existing(store: seq<MatchRecord>): set<JValue> {
    set v | v in MatchNumbers(store)
  }

  /** `pending_projectnums` as loaded. */
  function PendingSet(queue: seq<FlatPending>): set<JValue> {
    set v | v in PendingNumbers(queue)
  }

  /** The project numbers of the store and then of the queue. */
  function Numbers(store: seq<MatchRecord>, queue: seq<FlatPending>): seq<JValue> {
    MatchNumbers(store) + PendingNumbers(queue)
  }

  /** Each project number is held at most once across the store and the queue. */
  ghost predicate UniqueNumbers(store: seq<MatchRecord>, queue: seq<FlatPending>) {
    forall v :: multiset(Numbers(store, queue))[v] <= 1
  }

  /** The match ids of the store are 0, 1, 2, ... */
  predicate ConsecutiveIds(store: seq<MatchRecord>) {
    forall i :: 0 <= i < |store| ==> store[i].matchId == i
  }

  /** No permit has a project number that compares equal to nothing (NaN). */
  predicate NoNaNNumbers(permits: seq<Permit>) {
    forall p :: p in permits ==> KeyOf(ProjectNumber(p)).Some?
  }

  predicate AllWritten(writes: Writes) {
    writes.discovery == Written && writes.matches == Written && writes.pending == Written
  }

  /** The entries discovery appends in a run; none when stage 1 could not start. */
  function Found(files: Files, setup: Option<Fetched>, svc: Services, now: string): seq<FlatPending> {
    match setup
    case None => []
    case Some(f) =>
      Discovered(f.permits, f.roads, SpatialJoin(svc.ops, f.permits, f.roads),
                 Existing(Store(files)), PendingSet(Queue(files)), svc.municipalityOf, now)
  }

  /** The files after a run. */
  function Run(files: Files, setup: Option<Fetched>, svc: Services, writes: Writes,
               discoverNow: string, validateNow: string): Files
  {
    if setup.None? then files
    else
      var store := Store(files);
      var found := Found(files, setup, svc, discoverNow);
      var queue := Queue(files) + found;
      var pendingFile := if |found| > 0 then SaveJson(files.pending, queue, writes.discovery) else files.pending;
      if queue == [] then Files(files.matches, pendingFile)
      else
        var o := Validate(queue, |store|, svc.check, validateNow);
        Files(SaveJson(files.matches, store + o.promoted, writes.matches), SaveJson(pendingFile, o.stillPending, writes.pending))
  }

  /** `main`, stages 1 to 4. A run whose setup fails, or that finds nothing and
      has nothing pending, leaves both files as they were. */
  method RunPipeline(files: Files, setup: Option<Fetched>, svc: Services, writes: Writes,
                     discoverNow: string, validateNow: string)
    returns (after: Files)
    ensures after == Run(files, setup, svc, writes, discoverNow, validateNow)
    ensures setup.None? ==> after == files
    ensures Found(files, setup, svc, discoverNow) == [] && Queue(files) == [] ==> after == files
  {
    var validated := LoadJson(files.matches, Some([]));
    var queue := LoadJson(files.pending, Some([]));
    if setup.None? {
      return files;
    }
    var permits, roads := setup.value.permits, setup.value.roads;
    var newQueue, newCount := DiscoverNew(svc.ops, permits, roads, svc.municipalityOf, validated, queue, discoverNow);
    var pendingFile := files.pending;
    if newCount > 0 {
      pendingFile := SaveJson(pendingFile, newQueue, writes.discovery);
    }
    if newQueue == [] {
      return Files(files.matches, pendingFile);
    }
    var newStore, stillPending, newlyValidated := ValidatePending(newQueue, validated, svc.check, validateNow);
    after := Files(SaveJson(files.matches, newStore, writes.matches), SaveJson(pendingFile, stillPending, writes.pending));
  }

  /** A sequence without repetitions holds each value at most once. */
  lemma {:induction false} NoDuplicatesCount(s: seq<JValue>, v: JValue)
    requires NoDuplicates(s)
    ensures multiset(s)[v] <= 1
  {
    if s != [] {
      assert s == [s[0]] + s[1..];
      assert NoDuplicates(s[1..]) by {
        forall a, b | 0 <= a < b < |s[1..]| ensures s[1..][a] != s[1..][b] {
          assert s[1..][a] == s[a + 1] && s[1..][b] == s[b + 1];
        }
      }
      NoDuplicatesCount(s[1..], v);
      if s[0] == v {
        assert v !in s[1..] by {
          forall i | 0 <= i < |s[1..]| ensures s[1..][i] != v {
            assert s[1..][i] == s[i + 1];
          }
        }
      }
    }
  }

  lemma RunUnfold(files: Files, setup: Option<Fetched>, svc: Services, writes: Writes, discoverNow: string, validateNow: string)
    requires setup.Some? && AllWritten(writes)
    ensures var found := Found(files, setup, svc, discoverNow);
      var queue := Queue(files) + found;
      var after := Run(files, setup, svc, writes, discoverNow, validateNow);
      if queue == [] then Store(after) == Store(files) && Queue(after) == Queue(files)
      else
        var o := Validate(queue, |Store(files)|, svc.check, validateNow);
        Store(after) == Store(files) + o.promoted && Queue(after) == o.stillPending
  {
    var found := Found(files, setup, svc, discoverNow);
    var queue := Queue(files) + found;
    if queue != [] {
      var o := Validate(queue, |Store(files)|, svc.check, validateNow);
      var pendingFile := if |found| > 0 then SaveJson(files.pending, queue, Written) else files.pending;
      SaveThenLoad(files.matches, Store(files) + o.promoted, Some([]));
      SaveThenLoad(pendingFile, o.stillPending, Some([]));
    }
  }

  lemma MultisetRegroup(m: seq<JValue>, p: seq<JValue>, st: seq<JValue>, q: seq<JValue>, f: seq<JValue>)
    requires multiset(p) + multiset(st) == multiset(q + f)
    ensures multiset((m + p) + st) == multiset(m + q) + multiset(f)
  {
    calc {
      multiset((m + p) + st);
      multiset(m) + multiset(p) + multiset(st);
      multiset(m) + multiset(q + f);
      multiset(m) + multiset(q) + multiset(f);
      multiset(m + q) + multiset(f);
    }
  }

  /** A run whose saves all complete neither loses nor invents project numbers:
      those of the store and the queue afterwards are those before plus those of
      the newly discovered entries. */
  lemma RunConservesNumbers(files: Files, setup: Option<Fetched>, svc: Services, writes: Writes, discoverNow: string, validateNow: string)
    requires setup.Some? && AllWritten(writes)
    ensures var after := Run(files, setup, svc, writes, discoverNow, validateNow);
      multiset(Numbers(Store(after), Queue(after)))
        == multiset(Numbers(Store(files), Queue(files))) + multiset(PendingNumbers(Found(files, setup, svc, discoverNow)))
  {
    var found := Found(files, setup, svc, discoverNow);
    var queue := Queue(files) + found;
    var after := Run(files, setup, svc, writes, discoverNow, validateNow);
    RunUnfold(files, setup, svc, writes, discoverNow, validateNow);
    if queue != [] {
      var o := Validate(queue, |Store(files)|, svc.check, validateNow);
      PendingNumbersAppend(Queue(files), found);
      ValidateConservesNumbers(queue, |Store(files)|, svc.check, validateNow);
      MatchNumbersAppend(Store(files), o.promoted);
      assert Numbers(Store(after), Queue(after))
          == (MatchNumbers(Store(files)) + MatchNumbers(o.promoted)) + PendingNumbers(o.stillPending);
      MultisetRegroup(MatchNumbers(Store(files)), MatchNumbers(o.promoted), PendingNumbers(o.stillPending),
                      PendingNumbers(Queue(files)), PendingNumbers(found));
    } else {
      assert found == [];
    }
  }

  lemma FoundFresh(files: Files, setup: Option<Fetched>, svc: Services, discoverNow: string)
    requires setup.Some? && NoNaNNumbers(setup.value.permits)
    ensures var fs := PendingNumbers(Found(files, setup, svc, discoverNow));
      NoDuplicates(fs) && forall v :: v in fs ==> v !in Numbers(Store(files), Queue(files))
  {
    var f := setup.value;
    var cands := SpatialJoin(svc.ops, f.permits, f.roads);
    NoNaNComparable(f.permits, cands);
    DiscoveredNumbersFresh(f.permits, f.roads, cands, Existing(Store(files)), PendingSet(Queue(files)), svc.municipalityOf, discoverNow);
  }

  /** The deduplication invariant: when every save of a run completes and no
      fetched permit has a NaN project number, a store and queue that held each
      project number at most once still do after the run. */
  lemma RunKeepsNumbersUnique(files: Files, setup: Option<Fetched>, svc: Services, writes: Writes, discoverNow: string, validateNow: string)
    requires setup.Some? && AllWritten(writes) && NoNaNNumbers(setup.value.permits)
    requires UniqueNumbers(Store(files), Queue(files))
    ensures var after := Run(files, setup, svc, writes, discoverNow, validateNow);
      UniqueNumbers(Store(after), Queue(after))
  {
    var after := Run(files, setup, svc, writes, discoverNow, validateNow);
    var before := Numbers(Store(files), Queue(files));
    var fs := PendingNumbers(Found(files, setup, svc, discoverNow));
    RunConservesNumbers(files, setup, svc, writes, discoverNow, validateNow);
    FoundFresh(files, setup, svc, discoverNow);
    forall v ensures multiset(Numbers(Store(after), Queue(after)))[v] <= 1 {
      if v in fs {
        NoDuplicatesCount(fs, v);
        assert v !in before;
        assert multiset(before)[v] == 0;
      } else {
        assert multiset(fs)[v] == 0;
      }
    }
  }

  /** Match ids stay consecutive across a run whose saves complete: the promoted
      records continue the numbering of the store. */
  lemma RunKeepsIdsConsecutive(files: Files, setup: Option<Fetched>, svc: Services, writes: Writes, discoverNow: string, validateNow: string)
    requires setup.Some? && AllWritten(writes)
    requires ConsecutiveIds(Store(files))
    ensures ConsecutiveIds(Store(Run(files, setup, svc, writes, discoverNow, validateNow)))
  {
    var store := Store(files);
    var queue := Queue(files) + Found(files, setup, svc, discoverNow);
    RunUnfold(files, setup, svc, writes, discoverNow, validateNow);
    if queue != [] {
      var o := Validate(queue, |store|, svc.check, validateNow);
      ValidateIdsConsecutive(queue, |store|, svc.check, validateNow);
      var s := store + o.promoted;
      forall i | 0 <= i < |s| ensures s[i].matchId == i {
        if i >= |store| {
          assert s[i] == o.promoted[i - |store|];
        }
      }
    }
  }

  /** A number is among those of a store and a queue exactly when it is in
      `existing_projectnums` or `pending_projectnums`. */
  lemma NumbersAreKnown(store: seq<MatchRecord>, queue: seq<FlatPending>, v: JValue)
    ensures v in multiset(Numbers(store, queue)) <==> v in Existing(store) + PendingSet(queue)
  {
    assert v in multiset(Numbers(store, queue)) <==> v in Numbers(store, queue);
    assert v in Numbers(store, queue) <==> v in MatchNumbers(store) || v in PendingNumbers(queue);
  }

  /** Without NaN project numbers the join rows of any fetch are comparable. */
  lemma NoNaNComparable(permits: seq<Permit>, cands: seq<Candidate>)
    requires NoNaNNumbers(permits)
    ensures Comparable(permits, cands)
  {
    forall c | c in cands && c.permit < |permits|
      ensures KeyOf(ProjectNumber(permits[c.permit])).Some?
    {
      assert permits[c.permit] in permits;
    }
  }

  /** Running again on the same fetch, after a run whose saves all completed,
      discovers nothing: every number found the first time is validated or
      pending by then. */
  lemma RunIdempotent(files: Files, setup: Option<Fetched>, svc: Services, writes: Writes,
                      discoverNow: string, validateNow: string, laterNow: string)
    requires setup.Some? && AllWritten(writes) && NoNaNNumbers(setup.value.permits)
    ensures Found(Run(files, setup, svc, writes, discoverNow, validateNow), setup, svc, laterNow) == []
  {
    var f := setup.value;
    var after := Run(files, setup, svc, writes, discoverNow, validateNow);
    var cands := SpatialJoin(svc.ops, f.permits, f.roads);
    var existing, pendingNums := Existing(Store(files)), PendingSet(Queue(files));
    var existingLater, pendingLater := Existing(Store(after)), PendingSet(Queue(after));
    var found := Found(files, setup, svc, discoverNow);
    RunConservesNumbers(files, setup, svc, writes, discoverNow, validateNow);
    assert multiset(Numbers(Store(after), Queue(after)))
        == multiset(Numbers(Store(files), Queue(files))) + multiset(PendingNumbers(found));
    forall v | v in existing + pendingNums ensures v in existingLater + pendingLater {
      NumbersAreKnown(Store(files), Queue(files), v);
      NumbersAreKnown(Store(after), Queue(after), v);
    }
    forall v | v in PendingNumbers(found) ensures v in existingLater + pendingLater {
      assert v in multiset(PendingNumbers(found));
      NumbersAreKnown(Store(after), Queue(after), v);
    }
    NoNaNComparable(f.permits, cands);
    DiscoveryIdempotent(f.permits, f.roads, cands, existing, pendingNums, existingLater, pendingLater,
                        svc.municipalityOf, discoverNow, laterNow);
  }

  /** The next run may ask a municipality lookup that answers differently (the
      lookup falls back to "Onbekend" when its service fails). Whatever it then
      discovers on the same fetch comes from a join row whose municipality the
      earlier run's lookup did not allow. */
  lemma RunRediscoveryNeedsNewMunicipality(files: Files, setup: Option<Fetched>, svc: Services, writes: Writes,
                                           discoverNow: string, validateNow: string,
                                           later: Services, laterNow: string)
    requires setup.Some? && AllWritten(writes) && NoNaNNumbers(setup.value.permits)
    requires later.ops == svc.ops
    ensures var f := setup.value;
      var cands := SpatialJoin(svc.ops, f.permits, f.roads);
      forall e :: e in Found(Run(files, setup, svc, writes, discoverNow, validateNow), setup, later, laterNow) ==>
        exists c :: c in cands &&
          e == NewEntry(f.permits[c.permit], f.roads[c.road], later.municipalityOf(f.permits[c.permit].geom), laterNow) &&
          IsAllowed(later.municipalityOf(f.permits[c.permit].geom)) &&
          !IsAllowed(svc.municipalityOf(f.permits[c.permit].geom))
  {
    var f := setup.value;
    var after := Run(files, setup, svc, writes, discoverNow, validateNow);
    var cands := SpatialJoin(svc.ops, f.permits, f.roads);
    var existing, pendingNums := Existing(Store(files)), PendingSet(Queue(files));
    var existingLater, pendingLater := Existing(Store(after)), PendingSet(Queue(after));
    var found := Found(files, setup, svc, discoverNow);
    RunConservesNumbers(files, setup, svc, writes, discoverNow, validateNow);
    forall v | v in existing + pendingNums ensures v in existingLater + pendingLater {
      NumbersAreKnown(Store(files), Queue(files), v);
      NumbersAreKnown(Store(after), Queue(after), v);
    }
    forall v | v in PendingNumbers(found) ensures v in existingLater + pendingLater {
      assert v in multiset(PendingNumbers(found));
      NumbersAreKnown(Store(after), Queue(after), v);
    }
    NoNaNComparable(f.permits, cands);
    RediscoveryNeedsNewMunicipality(f.permits, f.roads, cands, existing, pendingNums, existingLater, pendingLater,
                                    svc.municipalityOf, later.municipalityOf, discoverNow, laterNow);
  }
}
