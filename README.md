# KaartKruising core in Dafny

KaartKruising watches for new environmental permits ("omgevingsvergunningen") in a
group of Flemish municipalities. It looks for permits whose area crosses one of
the local footpaths ("buurtwegen"). Every run of `kruising_checker.py` has two stages.

1. **Discovery.**
   - The run loads the validated matches (`matches.json`) and the pending queue (`pending_intersections.json`).
   - It shrinks each permit polygon by one metre. Permits that erode away entirely are dropped.
   - It spatially joins the survivors with the roads.
   - For each joined pair it checks that:
     - the permit has a truthy project number (`projectnummer`);
     - that number is in neither the validated store nor the queue;
     - the permit's municipality is on the allowed list.
   - A pair that passes is added to the queue as a cleaned snapshot of the permit and the road.
   - The queue is saved when anything was added.
2. **Validation.**
   - The run asks the public Inzageloket about every queued item.
   - A published item is enriched with a link and a status, and promoted into the store.
     - Its `match_id` is the store's length at that moment.
     - Its map file is named `match_<file id>.html`. The file id is the reference (`referentie_project`) or else the project number, with `/` turned into `-` and `:` dropped.
   - Items that are not published stay queued.
   - Both files are written at the end.

The helper `check_intersections_and_generate_maps` is a one-shot variant.

- It has no queue and no duplicate filter.
- It asks the Inzageloket at once.
- It numbers the accepted pairs from 0.

`convert_pending.py` migrates a flat pending queue into one entry per project number:

- the first item's permit data;
- the lists of road data and road geometries;
- `num_roads`.

## How the model is built

- **Values.** Pandas cells (`Cell`) and JSON values (`JValue`) are datatypes.
  - Python dicts keep their insertion order and are association lists.
  - `KeyOf` says which values Python's `==` and hashing can compare. NaN, for example, cannot be.
- **Outside services are function parameters.**
  - `GeometryOps` holds the one-metre erosion and the intersection test.
  - `municipalityOf` is the municipality lookup.
  - `check` is the Inzageloket query.
- **Files.**
  - A file is `Missing`, `Unreadable` or `Parsed`.
  - A write is `Written`, `OpenFailed` or `Interrupted`.
- **Pure and imperative parts.**
  - Pure parts, such as `clean_data_dict`, the file-id expression and the spatial join, are functions with lemmas.
  - The source's loops are methods, proved equal to specification functions.
  - The discovery loop is `DiscoverLoop`, against `Discovered`.
  - The validation loop is `ValidatePending`, against `Validate`.
  - The helper's loop is `SyncLoop`, against `Numbered(AcceptedRows(..))`.
  - The migration is `GroupByNumber` and `BuildGroupedQueue`, against `Converted`.
  - `RunPipeline` chains the stages.
  - The lemmas about the specification functions state what the source promises:
    - duplicates are never queued;
    - project numbers are conserved between the queue and the store;
    - match ids stay consecutive;
    - a second run discovers nothing new, given the same municipality lookup;
    - the migration loses no entry.

## Model

| member | source | states |
|---|---|---|
| Values.KeyOf | kruising_checker.py:418 | a value usable as a set key is the cleaned cell, with the same truthiness and `str`; NaN and NaT never are |
| Values.NatToString | kruising_checker.py:349 | `str(n)` is the decimal form of n: a non-empty string of digits whose value is n, with no leading zero unless n is 0 |
| Values.Lookup | kruising_checker.py:416 | `dict.get` finds a value exactly when the key is among the dict's keys |
| Values.LookupFirst | kruising_checker.py:416 | the value found is that of the first entry with the key; a missing key gives nothing |
| Values.Set | kruising_checker.py:467-468 | after item assignment the key maps to the new value |
| Values.SetSpec | kruising_checker.py:467-468 | item assignment leaves every other key's value unchanged; a new key goes at the end, an existing one keeps its place |
| Values.SetOther | kruising_checker.py:467-468 | item assignment does not change the value of any other key |
| Naming.IsAllowed | kruising_checker.py:20-25 | the allowed list of 19 municipalities; the fallback "Onbekend" is never allowed |
| Naming.InzageLink | kruising_checker.py:467 | the link always starts with the Inzageloket base URL, the number's text following it |
| Naming.ReplaceSlash | kruising_checker.py:474 | same length; every `/` becomes `-`, every other character is kept |
| Naming.RemoveColon | kruising_checker.py:474 | every `:` is dropped: the length falls by the number of colons, the characters left are exactly the input's other characters, and an input without `:` is unchanged |
| Naming.RemoveColonAppend | kruising_checker.py:474 | dropping colons works piece by piece over a concatenation, so the characters that stay keep their order |
| Naming.FileId | kruising_checker.py:474 | the file id has no `/` or `:`, is never longer, and is the id itself when the id is already safe |
| Naming.FileIdIdempotent | kruising_checker.py:474 | sanitising twice gives the same id as sanitising once |
| Naming.MapFilenameDeterminesFileId | kruising_checker.py:474-475 | two ids share a map file name exactly when their sanitised ids are equal |
| Naming.DistinctIdsShareMapFile | kruising_checker.py:474-475 | the different ids "A/1" and "A-1" are written to the same map file |
| Naming.MapFilenameOfTestPermit | test_run.py:41 | the test permit "P001_Match" gets the map file `match_P001_Match.html` |
| Persist.LoadJson | kruising_checker.py:30-38 | a parsed file yields its contents; a missing or unreadable one yields the default, `[]` when none is given |
| Persist.SaveJson | kruising_checker.py:40-48 | a completed write stores the data; a failed open leaves the file as it was; a write that fails mid-dump leaves a truncated, unreadable file |
| Persist.SaveThenLoad | kruising_checker.py:30-48 | loading after a completed save returns exactly the saved list |
| Persist.InterruptedSaveLosesHistory | kruising_checker.py:30-48 | after a save that fails mid-dump, the next load returns only the default: the old contents are gone |
| Snapshot.KeptColumns | kruising_checker.py:203 | a column is kept exactly when it is in the row and not excluded |
| Snapshot.CleanDataDict | kruising_checker.py:199-212 | the cleaned dict is never larger than the row |
| Snapshot.CleanDataDictSpec | kruising_checker.py:199-212 | the keys are the non-excluded columns in row order; an excluded key is absent; a timestamp becomes its ISO text and NaT the text "NaT", NaN becomes null, anything else is kept |
| Snapshot.CleanDataDictAppend | kruising_checker.py:203-212 | cleaning a row is cleaning each part and concatenating |
| Snapshot.CleanDataDictAllExcluded | kruising_checker.py:203 | a row whose columns are all excluded cleans to the empty dict |
| Snapshot.ExcludedColumnsInvisible | kruising_checker.py:428 | appending excluded columns (the geometry columns) does not change the snapshot |
| Records.PermitSnapshot | kruising_checker.py:428 | the permit snapshot carries the cleaned project number |
| Records.PermitSnapshotOfRow | kruising_checker.py:402-404 | the snapshot of the permit row with its three geometry columns equals the snapshot of its attributes |
| Records.RoadSnapshotOfRow | kruising_checker.py:431 | the road snapshot ignores the road geometry column |
| Records.PendingNumbers | kruising_checker.py:388 | one project number per queued item, in queue order |
| Records.MatchNumbers | kruising_checker.py:387 | one project number per stored match, in store order |
| Intersection.RoadHitsSpec | kruising_checker.py:411 | one permit's candidates are exactly its intersecting roads, in road order |
| Intersection.JoinFromSpec | kruising_checker.py:411 | the join from a permit onwards holds exactly the surviving, intersecting pairs, in permit then road order |
| Intersection.SpatialJoin | kruising_checker.py:402-411 | every joined pair indexes an existing permit and road |
| Intersection.SpatialJoinOrdered | kruising_checker.py:411 | the joined pairs come in permit order, then road order |
| Intersection.AnySurvives | kruising_checker.py:406-407 | true exactly when some permit survives the one-metre erosion |
| Intersection.JoinNeedsSurvivor | kruising_checker.py:406-411 | a non-empty join needs a surviving permit, so the `any()` guard skips only empty joins |
| Intersection.SpatialJoinExactly | kruising_checker.py:402-411 | a pair is joined exactly when the eroded permit is non-empty and intersects the road |
| Intersection.ErodedAwayNeverJoined | kruising_checker.py:404-406 | a permit that erodes away never appears in the join |
| Discovery.Remember | kruising_checker.py:441 | after `add`, a comparable number is known, and nothing known is forgotten |
| Discovery.NewEntryNumber | kruising_checker.py:428-440 | a new queue entry carries the permit's cleaned project number |
| Discovery.DiscoveredFromCandidates | kruising_checker.py:414-441 | every discovered entry comes from a joined pair with a truthy, unseen number in an allowed municipality |
| Discovery.DiscoveredNumbersFresh | kruising_checker.py:414-441 | discovered numbers are truthy, pairwise distinct, and in neither the store nor the queue |
| Discovery.DiscoveredCovers | kruising_checker.py:414-441 | every joined pair is skipped for a stated reason or its number is queued |
| Discovery.NothingNewWhenCovered | kruising_checker.py:418-425 | when every pair is skipped, nothing is discovered |
| Discovery.DiscoveryIdempotent | kruising_checker.py:386-446 | once the discovered numbers are known, rediscovery over the same join finds nothing, at any later time |
| Discovery.RediscoveryNeedsNewMunicipality | kruising_checker.py:414-425 | with a municipality lookup that answers differently, every entry a rediscovery appends comes from a join row the first lookup did not allow |
| Discovery.OnlySurvivingPermitsDiscovered | kruising_checker.py:402-441 | every discovered entry pairs a surviving permit with a road it intersects |
| Discovery.DiscoverLoop | kruising_checker.py:413-442 | the loop appends exactly the discovered entries to the queue and counts them |
| Discovery.DiscoverNew | kruising_checker.py:386-446 | discovery guarded by the empty and `any()` tests appends the discovered entries of the join, against the store's and queue's numbers |
| Validation.PublishedItems | kruising_checker.py:459-463 | the items selected are queue items the Inzageloket answers for |
| Validation.UnpublishedItems | kruising_checker.py:491-492 | the items selected are queue items it does not answer for |
| Validation.ValidateKeepsUnpublished | kruising_checker.py:455-492 | what stays pending is exactly the unpublished items, in queue order |
| Validation.PromoteAll | kruising_checker.py:482-489 | one match per published item |
| Validation.PromoteAllAt | kruising_checker.py:482-489 | the k-th promoted match is the k-th published item, with id base + k |
| Validation.ValidatePromotesPublished | kruising_checker.py:459-490 | the promoted matches are exactly the published items, promoted in order |
| Validation.ValidateIdsConsecutive | kruising_checker.py:483 | promoted match ids continue from the store's length without gaps |
| Validation.PublishedSplit | kruising_checker.py:459-492 | published and unpublished items add up to the queue |
| Validation.ValidatePartitions | kruising_checker.py:455-492 | promoted plus still-pending items add up to the queue |
| Validation.PromoteEnriches | kruising_checker.py:466-489 | a promoted match has the link, the status (or "Onbekend"), the other permit fields unchanged, the same number, municipality and road, and a map file named after the reference or the number, free of `/` and `:` |
| Validation.EnrichSetsLinkAndStatus | kruising_checker.py:467-468 | enrichment sets the link and the status, touches no other field, and keeps the number and the file id source |
| Validation.MapFilenameSafe | kruising_checker.py:474-475 | the map file name is `match_` + the sanitised id + `.html`, and its middle has no `/` or `:` |
| Validation.ValidateConservesNumbers | kruising_checker.py:455-492 | as multisets, the promoted numbers plus the still-pending numbers are the queue's numbers |
| Validation.ValidateHeadPublished | kruising_checker.py:463-490 | a published head item is promoted with the next id, and the rest is validated after it |
| Validation.ValidateHeadUnpublished | kruising_checker.py:491-492 | an unpublished head item stays first in the pending list |
| Validation.ValidatePending | kruising_checker.py:455-492 | the loop appends exactly the promoted matches to the store, returns the still-pending items, and counts the promotions |
| SyncPath.CounterFallbackUnreached | kruising_checker.py:349 | with a truthy project number the counter fallback of the file id is never used |
| SyncPath.AcceptedRows | kruising_checker.py:321-343 | no more accepted rows than joined pairs |
| SyncPath.AcceptedRowsSpec | kruising_checker.py:329-343 | the accepted rows are exactly the joined pairs with a truthy number, an allowed municipality and a published project |
| SyncPath.AcceptedRowsAt | kruising_checker.py:321-343 | one loop step: a pair is accepted or skipped, and the rest follows |
| SyncPath.Numbered | kruising_checker.py:353-362 | one record per accepted row |
| SyncPath.NumberedAt | kruising_checker.py:353-362 | the k-th record is built from the k-th row with id count + k |
| SyncPath.SyncRecordContents | kruising_checker.py:326-359 | a record has its id, the municipality, the link and status, otherwise the permit snapshot, the cleaned number, the road snapshot, no validation time, and a map file named after the reference or else the number |
| SyncPath.SyncRecordsNumbered | kruising_checker.py:319-362 | record k has id k and comes from a joined pair whose project is published and whose municipality is allowed |
| SyncPath.SamePermitSameMapFile | kruising_checker.py:349-361 | two accepted pairs of one permit get different ids but the same number and the same map file |
| SyncPath.SyncLoop | kruising_checker.py:319-362 | the loop returns exactly the numbered records of the accepted rows and their count |
| SyncPath.CheckIntersections | kruising_checker.py:297-369 | the helper returns exactly the numbered records of the accepted rows of the spatial join |
| Migration.GroupKeys | convert_pending.py:11-14 | no more groups than items |
| Migration.GroupOf | convert_pending.py:11-14 | every item in a group has the group's project number |
| Migration.GroupKeysMembers | convert_pending.py:11-14 | the group keys are exactly the queued project numbers |
| Migration.GroupKeysDistinct | convert_pending.py:11-14 | no project number is a key twice |
| Migration.GroupKeysFirstAppearance | convert_pending.py:18 | the groups come in the order in which their numbers first appear |
| Migration.GroupOfCount | convert_pending.py:11-14 | a group's size is how often its number occurs in the queue |
| Migration.GroupOfNonEmpty | convert_pending.py:11-14 | a group is non-empty exactly when its number is queued |
| Migration.GroupOfFirst | convert_pending.py:19 | a group's first item is the number's first occurrence in the queue |
| Migration.MakeGroupShape | convert_pending.py:19-33 | a grouped entry takes the first item's fields, and the road lists of every item in order, with `num_roads` their length |
| Migration.BuildGroups | convert_pending.py:17-33 | one grouped entry per key |
| Migration.BuildGroupsAt | convert_pending.py:18-33 | the i-th grouped entry is built from the i-th key's group |
| Migration.TotalRoadsIsSizeSum | convert_pending.py:32 | the `num_roads` of the entries add up to the sizes of their groups |
| Migration.GroupSizesAddUp | convert_pending.py:11-14 | the group sizes add up to the number of queued items |
| Migration.ConvertedCountsEveryEntry | convert_pending.py:10-33 | the `num_roads` of the migrated queue add up to the old queue's length |
| Migration.ConvertedEntry | convert_pending.py:18-33 | entry i has its key's number, the first item's fields, all the group's roads, and `num_roads` equal to the number's count |
| Migration.MultiRoadIffRepeated | convert_pending.py:40-42 | an entry has more than one road exactly when its number was queued more than once |
| Migration.ConvertedDistinct | convert_pending.py:10-33 | the migrated entries have pairwise distinct numbers, and cover exactly the queued numbers |
| Migration.GroupedStep | convert_pending.py:12-14 | one grouping step keeps the map equal to the groups of the items seen so far |
| Migration.GroupByNumber | convert_pending.py:10-14 | grouping succeeds exactly when every item has a project number, and then yields the keys and groups of the queue |
| Migration.BuildGroupedQueue | convert_pending.py:16-33 | the loop yields exactly the migrated queue |
| Migration.Migrate | convert_pending.py:10-33 | the migration yields the migrated queue, or nothing when an item lacks a project number |
| Pipeline.RunPipeline | kruising_checker.py:371-496 | the run's files are those of the two-stage run; a failed setup changes nothing; nothing found and nothing pending changes nothing |
| Pipeline.RunUnfold | kruising_checker.py:449-496 | with all writes completed, the store grows by the promoted matches and the queue becomes the still-pending items |
| Pipeline.RunConservesNumbers | kruising_checker.py:383-496 | as multisets, the numbers after a run are the numbers before it plus the discovered ones |
| Pipeline.FoundFresh | kruising_checker.py:386-446 | the discovered numbers are pairwise distinct and new to both files |
| Pipeline.RunKeepsNumbersUnique | kruising_checker.py:386-496 | no project number occurs twice across the store and the queue, before and after a run |
| Pipeline.RunKeepsIdsConsecutive | kruising_checker.py:483 | match ids remain 0, 1, 2, … across runs |
| Pipeline.NumbersAreKnown | kruising_checker.py:387-388 | a number occurs in the files exactly when it is in the duplicate sets built from them |
| Pipeline.NoNaNComparable | kruising_checker.py:418 | without NaN project numbers, every joined pair's number can be compared |
| Pipeline.RunIdempotent | kruising_checker.py:386-446 | right after a run, discovery over the same fetched data finds nothing |
| Pipeline.RunRediscoveryNeedsNewMunicipality | kruising_checker.py:386-446 | right after a run, whatever discovery with another municipality lookup finds on the same fetch comes from permits the run's lookup did not allow |

## Left out

- The WFS permit fetch, `load_local_roads`, the CRS conversion, the geometry library, `generate_map` and folium are not part of this model. Fetched permits and roads are inputs, and the erosion and intersection are the `GeometryOps` parameter.
- The municipality lookup is the parameter `municipalityOf`. Its HTTP request and its "Onbekend" fallback (kruising_checker.py:66-75) live inside that parameter. As a function it answers the same every time it is asked about one geometry (see the Discovery.DiscoverLoop and SyncPath.SyncLoop lines below).
- The Inzageloket query is the parameter `check`. Its requirement that the answer carry a `uuid`, and its exception handling (kruising_checker.py:77-100), live inside that parameter. How `requests` encodes a `None` project number is not modelled either.
- Clock readings are parameters. There is one `now` per stage, not one per item.
- Printing and the command-line arguments are left out.
- Discovery.Comparable: the duplicate-filter lemmas hold only when every project number can be compared (`NoNaNNumbers`). A NaN number is truthy, and Python's set membership for NaN depends on object identity. The model treats a NaN number as never found, so such a permit would be queued on every run.
- Values.KeyOf: Python's `True == 1` hash collisions are not modelled. Booleans and integers are different keys here.
- Migration.GroupKeys: groups on the JSON value with `true` and `1` as different keys. In the source's `defaultdict` (convert_pending.py:11-14) they are one key, so where the source makes one group of such items the model makes two. The same holds for `false` and `0`.
- Discovery.DiscoverLoop: within one run the municipality lookup gives the same answer for every join row of one permit, because `municipalityOf` is a function of the geometry. The source asks once per row (kruising_checker.py:422), and each ask can fail over to "Onbekend". So a run in which one row of a permit is skipped after a failed lookup while a later row of the same permit is queued, with a different road, is not represented.
- SyncPath.SyncLoop: the same holds on the sync path for the municipality lookup (kruising_checker.py:333) and for the Inzageloket check (kruising_checker.py:340). Both are asked once per join row, and the model answers alike for every row of one permit. A run in which a failure drops one of a permit's records but keeps another is not represented.
- Values.KeyOf: a project number that is a timestamp, NaT or geometry is never found in the duplicate sets. In Python, one added earlier in the same run is found again, by equality or by the identity of the NaT singleton. Project numbers are text in the fetched data.
- Floating-point cells other than NaN are not modelled. An integer column that pandas widens to float because of a missing value has no counterpart here: `Cell` holds integers only.
- Discovery.DiscoveryIdempotent: assumes both passes ask the same municipality lookup. The lookup falls back to "Onbekend" when its request fails (kruising_checker.py:66-75), so a permit skipped in one run can be queued in the next. Discovery.RediscoveryNeedsNewMunicipality states what holds then.
- Pipeline.RunIdempotent: assumes the next run asks the same municipality lookup, for the same reason. Pipeline.RunRediscoveryNeedsNewMunicipality states what holds when it does not.
- Validation.ValidatePending: assumes that map generation returns normally. At kruising_checker.py:479, `generate_map` is passed one geometry and one dict, where it zips two lists (kruising_checker.py:281). By reading, not executed, that raises a `TypeError`. The raise comes after the enrichment at :467-468 and before the append at :482 and the saves at :495-496, so the first published item would end the run with nothing promoted. The model follows the intended flow.
- Pipeline.RunPipeline: follows the intended flow of the validation stage and does not model the `generate_map` failure above. A run that ends there keeps only the queue saved after discovery.
- SyncPath.CheckIntersections: assumes that map generation returns normally. At kruising_checker.py:361 the same one-geometry call is made after the append at :353 and before the write at :365-366. The model returns the full list.
- Persist.SaveJson: a failure to create the directory (`os.makedirs`, kruising_checker.py:41-43) raises before the `try` and is not modelled.
- Pipeline.RunKeepsNumbersUnique: this and the other pipeline lemmas assume that every write completes (`AllWritten`). A discovery save followed by a failed final save leaves the queue holding items that may already be promoted. Only the per-write outcomes model this (`Persist.InterruptedSaveLosesHistory`).
- Records without `permit_data` are not modelled. Every record is typed, so the filter at kruising_checker.py:387-388 always passes.
- The `KeyError` for a record missing a key, and `wkt.loads` failures, are not modelled in the main program.
- The sync path has no duplicate filter. Two pairs of one permit give two records with the same map file (`SyncPath.SamePermitSameMapFile`). The model reproduces this and does not correct it.
- On the sync path, the write of `matches.json` (kruising_checker.py:365-366) is modelled only as the returned list.
- The sync path's counter fallback of the file id (`or count`, kruising_checker.py:349) is kept in `SyncFileIdSource`. `SyncPath.CounterFallbackUnreached` shows that it is dead code, since a falsy project number is skipped first.
- The migration's `KeyError` on an item without a project number is the `None` result of `Migration.Migrate`. The migration's file reading and writing are left out.
- The pending queue is written by the main program as flat entries, one per permit–road pair, and the model follows that code. Only `convert_pending.py` produces grouped entries, and its output goes to a separate file.
- Intersection.SpatialJoinOrdered: the order of the `sjoin` result is assumed to be permit order, then road order. The join's exact row order is not modelled beyond that.
- Naming.MapFilenameOfTestPermit states the file name as a concatenation. The joining with the output directory is not modelled.
