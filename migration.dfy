/** The migration of the pending queue from the flat shape (one entry per permit
    and road) to the grouped shape (one entry per project number, with all its
    roads). Entries are grouped by `permit_data['projectnummer']`; the groups
    come out in the order their project number first appears, and each group's
    roads in queue order. */
module Migration {
  import opened Values
  import opened Records

  /** `'projectnummer' in item['permit_data']`: without it the script stops with
      a KeyError before anything is written. */
  predicate HasNumber(item: FlatPending) {
    ProjectNumberKey in Keys(item.permitData)
  }

  /** The distinct project numbers of `items`, in order of first appearance (the
      key order of `grouped`). */
  function GroupKeys(items: seq<FlatPending>): (ks: seq<JValue>)
    ensures |ks| <= |items|
    decreases |items|
  {
    if items == [] then []
    else
      var ks := GroupKeys(items[..|items| - 1]);
      var k := PendingNumber(items[|items| - 1]);
      if k in ks then ks else ks + [k]
  }

  /** `grouped[k]`: the entries with project number `k`, in queue order. */
  function GroupOf(items: seq<FlatPending>, k: JValue): (g: seq<FlatPending>)
    ensures forall j :: 0 <= j < |g| ==> PendingNumber(g[j]) == k
    ensures |g| <= |items|
    decreases |items|
  {
    if items == [] then []
    else
      var init := items[..|items| - 1];
      var last := items[|items| - 1];
      var g := GroupOf(init, k);
      if PendingNumber(last) == k then g + [last] else g
  }

  /** The grouped entry of one group: the first entry's municipality, permit
      snapshot, permit geometry and discovery time, every entry's road snapshot
      and road geometry, and the group size. */
  function MakeGroup(group: seq<FlatPending>): GroupedPending
    requires group != []
  {
    var first := group[0];
    GroupedPending(first.municipality, first.permitData,
                   seq(|group|, i requires 0 <= i < |group| => group[i].roadData),
                   first.permitGeomWkt,
                   seq(|group|, i requires 0 <= i < |group| => group[i].roadGeomWkt),
                   first.discoveredAt, |group|)
  }

  /** A grouped entry lists its group's roads in order, as many as the group has. */
  lemma MakeGroupShape(group: seq<FlatPending>)
    requires group != []
    ensures var e := MakeGroup(group);
      && e.numRoads == |e.roadDataList| == |e.roadGeomWkts| == |group|
      && (forall j :: 0 <= j < |group| ==> e.roadDataList[j] == group[j].roadData && e.roadGeomWkts[j] == group[j].roadGeomWkt)
      && e.municipality == group[0].municipality && e.permitData == group[0].permitData
      && e.permitGeomWkt == group[0].permitGeomWkt && e.discoveredAt == group[0].discoveredAt
  {
  }

  lemma PendingNumbersSnoc(items: seq<FlatPending>)
    requires items != []
    ensures PendingNumbers(items) == PendingNumbers(items[..|items| - 1]) + [PendingNumber(items[|items| - 1])]
  {
    var init := items[..|items| - 1];
    var last := items[|items| - 1];
    assert items == init + [last];
    PendingNumbersAppend(init, [last]);
    assert PendingNumbers([last]) == [PendingNumber(last)];
  }

  lemma GroupKeysSnoc(items: seq<FlatPending>, x: FlatPending)
    ensures GroupKeys(items + [x]) ==
      if PendingNumber(x) in GroupKeys(items) then GroupKeys(items) else GroupKeys(items) + [PendingNumber(x)]
  {
    var items' := items + [x];
    assert items'[..|items'| - 1] == items && items'[|items'| - 1] == x;
  }

  /** The keys are exactly the project numbers of the queue. */
  lemma {:induction false} GroupKeysMembers(items: seq<FlatPending>)
    ensures forall k :: k in GroupKeys(items) <==> k in PendingNumbers(items)
    decreases |items|
  {
    if items != [] {
      var init := items[..|items| - 1];
      var x := items[|items| - 1];
      assert items == init + [x];
      GroupKeysMembers(init);
      GroupKeysSnoc(init, x);
      PendingNumbersSnoc(items);
    }
  }

  /** No key occurs twice. */
  lemma {:induction false} GroupKeysDistinct(items: seq<FlatPending>)
    ensures NoDuplicates(GroupKeys(items))
    decreases |items|
  {
    if items != [] {
      var init := items[..|items| - 1];
      var x := items[|items| - 1];
      assert items == init + [x];
      GroupKeysDistinct(init);
      GroupKeysSnoc(init, x);
      var ks0 := GroupKeys(init);
      var ks := GroupKeys(items);
      forall a, b | 0 <= a < b < |ks| ensures ks[a] != ks[b] {
        assert ks[a] == ks0[a] && ks0[a] in ks0;
        if b < |ks0| {
          assert ks[b] == ks0[b];
        }
      }
    }
  }

  lemma GroupOfSnoc(items: seq<FlatPending>, x: FlatPending, k: JValue)
    ensures GroupOf(items + [x], k) == GroupOf(items, k) + (if PendingNumber(x) == k then [x] else [])
  {
    var items' := items + [x];
    assert items'[..|items'| - 1] == items && items'[|items'| - 1] == x;
  }

  /** The group of a number is as long as the number's count in the queue. */
  lemma {:induction false} GroupOfCount(items: seq<FlatPending>, k: JValue)
    ensures |GroupOf(items, k)| == multiset(PendingNumbers(items))[k]
    decreases |items|
  {
    if items != [] {
      var init := items[..|items| - 1];
      var last := items[|items| - 1];
      GroupOfCount(init, k);
      PendingNumbersSnoc(items);
      assert GroupOf(items, k) == GroupOf(init, k) + (if PendingNumber(last) == k then [last] else []);
      assert multiset(PendingNumbers(items)) == multiset(PendingNumbers(init)) + multiset{PendingNumber(last)};
    }
  }

  /** A number has a non-empty group exactly when it occurs in the queue. */
  lemma GroupOfNonEmpty(items: seq<FlatPending>, k: JValue)
    ensures GroupOf(items, k) != [] <==> k in PendingNumbers(items)
  {
    GroupOfCount(items, k);
  }

  /** The grouped entries for the keys `ks`, in key order. */
  function BuildGroups(items: seq<FlatPending>, ks: seq<JValue>): (r: seq<GroupedPending>)
    requires forall k :: k in ks ==> k in PendingNumbers(items)
    ensures |r| == |ks|
    decreases |ks|
  {
    if ks == [] then []
    else
      GroupOfNonEmpty(items, ks[0]);
      [MakeGroup(GroupOf(items, ks[0]))] + BuildGroups(items, ks[1..])
  }

  lemma BuildGroupsCons(items: seq<FlatPending>, ks: seq<JValue>)
    requires forall k :: k in ks ==> k in PendingNumbers(items)
    requires ks != []
    ensures ks[0] in ks && GroupOf(items, ks[0]) != []
    ensures BuildGroups(items, ks) == [MakeGroup(GroupOf(items, ks[0]))] + BuildGroups(items, ks[1..])
  {
    assert ks[0] in ks;
    GroupOfNonEmpty(items, ks[0]);
  }

  /** The grouped queue the migration writes. */
  function Converted(items: seq<FlatPending>): seq<GroupedPending> {
    GroupKeysMembers(items);
    BuildGroups(items, GroupKeys(items))
  }

  /** The outcome of the migration: the grouped queue, or nothing (KeyError) when
      some entry has no project number. */
  function Convert(items: seq<FlatPending>): Option<seq<GroupedPending>> {
    if forall x :: x in items ==> HasNumber(x) then Some(Converted(items)) else None
  }

  /** The i-th grouped entry is the group of the i-th key. */
  lemma {:induction false} BuildGroupsAt(items: seq<FlatPending>, ks: seq<JValue>, i: nat)
    requires forall k :: k in ks ==> k in PendingNumbers(items)
    requires i < |ks|
    ensures ks[i] in ks && GroupOf(items, ks[i]) != []
    ensures BuildGroups(items, ks)[i] == MakeGroup(GroupOf(items, ks[i]))
    decreases i
  {
    assert ks[i] in ks;
    GroupOfNonEmpty(items, ks[i]);
    if i > 0 {
      assert ks[1..][i - 1] == ks[i];
      BuildGroupsAt(items, ks[1..], i - 1);
    }
  }

  function TotalRoads(groups: seq<GroupedPending>): nat {
    if groups == [] then 0 else groups[0].numRoads + TotalRoads(groups[1..])
  }

  /** The sizes of the groups of the keys `ks`, added up. */
  function SizeSum(items: seq<FlatPending>, ks: seq<JValue>): nat {
    if ks == [] then 0 else |GroupOf(items, ks[0])| + SizeSum(items, ks[1..])
  }

  lemma {:induction false} TotalRoadsIsSizeSum(items: seq<FlatPending>, ks: seq<JValue>)
    requires forall k :: k in ks ==> k in PendingNumbers(items)
    ensures TotalRoads(BuildGroups(items, ks)) == SizeSum(items, ks)
    decreases |ks|
  {
    if ks != [] {
      GroupOfNonEmpty(items, ks[0]);
      var r := BuildGroups(items, ks);
      assert r[1..] == BuildGroups(items, ks[1..]);
      TotalRoadsIsSizeSum(items, ks[1..]);
    }
  }

  /** Appending an entry grows the group of its number by one and leaves the
      others alone. */
  lemma {:induction false} SizeSumSnoc(items: seq<FlatPending>, x: FlatPending, ks: seq<JValue>)
    requires NoDuplicates(ks)
    ensures SizeSum(items + [x], ks) == SizeSum(items, ks) + (if PendingNumber(x) in ks then 1 else 0)
    decreases |ks|
  {
    if ks != [] {
      var items' := items + [x];
      assert items'[..|items'| - 1] == items && items'[|items'| - 1] == x;
      assert NoDuplicates(ks[1..]) by {
        forall a, b | 0 <= a < b < |ks[1..]| ensures ks[1..][a] != ks[1..][b] {
          assert ks[1..][a] == ks[a + 1] && ks[1..][b] == ks[b + 1];
        }
      }
      if PendingNumber(x) == ks[0] {
        assert PendingNumber(x) !in ks[1..] by {
          forall j | 0 <= j < |ks[1..]| ensures ks[1..][j] != ks[0] {
            assert ks[1..][j] == ks[j + 1];
          }
        }
      }
      assert PendingNumber(x) in ks <==> PendingNumber(x) == ks[0] || PendingNumber(x) in ks[1..];
      SizeSumSnoc(items, x, ks[1..]);
    }
  }

  lemma {:induction false} SizeSumAppendKey(items: seq<FlatPending>, ks: seq<JValue>, k: JValue)
    ensures SizeSum(items, ks + [k]) == SizeSum(items, ks) + |GroupOf(items, k)|
    decreases |ks|
  {
    if ks != [] {
      assert (ks + [k])[0] == ks[0] && (ks + [k])[1..] == ks[1..] + [k];
      SizeSumAppendKey(items, ks[1..], k);
    }
  }

  /** Every entry lands in exactly one group: the group sizes add up to the
      length of the queue. */
  lemma {:induction false} GroupSizesAddUp(items: seq<FlatPending>)
    ensures SizeSum(items, GroupKeys(items)) == |items|
    decreases |items|
  {
    if items != [] {
      var init := items[..|items| - 1];
      var last := items[|items| - 1];
      assert items == init + [last];
      var ks := GroupKeys(init);
      var k := PendingNumber(last);
      GroupSizesAddUp(init);
      GroupKeysDistinct(init);
      GroupKeysMembers(init);
      GroupKeysSnoc(init, last);
      SizeSumSnoc(init, last, ks);
      if k !in ks {
        SizeSumAppendKey(items, ks, k);
        GroupOfNonEmpty(init, k);
        assert GroupOf(items, k) == [last];
      }
    }
  }

  /** The `num_roads` of the grouped queue add up to the length of the old queue. */
  lemma ConvertedCountsEveryEntry(items: seq<FlatPending>)
    ensures TotalRoads(Converted(items)) == |items|
  {
    GroupKeysMembers(items);
    TotalRoadsIsSizeSum(items, GroupKeys(items));
    GroupSizesAddUp(items);
  }

  /** The shape of each grouped entry: it is the group of its key, so its
      `num_roads`, `road_data_list` and `road_geom_wkts` have the same length, at
      least 1, as many as the key's occurrences in the old queue; the two lists
      follow the group entry by entry; the single-valued fields and the
      project number are the first entry's. */
  lemma ConvertedEntry(items: seq<FlatPending>, i: nat)
    requires i < |Converted(items)|
    ensures var ks := GroupKeys(items);
      var g := GroupOf(items, ks[i]);
      var e := Converted(items)[i];
      && g != []
      && e.numRoads == |e.roadDataList| == |e.roadGeomWkts| == |g| >= 1
      && e.numRoads == multiset(PendingNumbers(items))[ks[i]]
      && (forall j :: 0 <= j < |g| ==> e.roadDataList[j] == g[j].roadData && e.roadGeomWkts[j] == g[j].roadGeomWkt)
      && e.municipality == g[0].municipality && e.permitData == g[0].permitData
      && e.permitGeomWkt == g[0].permitGeomWkt && e.discoveredAt == g[0].discoveredAt
      && Get(e.permitData, ProjectNumberKey) == ks[i]
  {
    var ks := GroupKeys(items);
    GroupKeysMembers(items);
    BuildGroupsAt(items, ks, i);
    GroupOfCount(items, ks[i]);
    var g := GroupOf(items, ks[i]);
    MakeGroupShape(g);
  }

  /** Projects with more than one road are exactly those whose number occurs more
      than once in the old queue. */
  lemma MultiRoadIffRepeated(items: seq<FlatPending>, i: nat)
    requires i < |Converted(items)|
    ensures Converted(items)[i].numRoads > 1 <==> multiset(PendingNumbers(items))[GroupKeys(items)[i]] > 1
  {
    ConvertedEntry(items, i);
  }

  /** The grouped entries have pairwise distinct project numbers, one per distinct
      number of the old queue, and there are no more of them than old entries. */
  lemma ConvertedDistinct(items: seq<FlatPending>)
    ensures |Converted(items)| <= |items|
    ensures forall a, b :: 0 <= a < b < |Converted(items)| ==>
      Get(Converted(items)[a].permitData, ProjectNumberKey) != Get(Converted(items)[b].permitData, ProjectNumberKey)
    ensures forall k :: k in PendingNumbers(items) <==>
      exists i :: 0 <= i < |Converted(items)| && Get(Converted(items)[i].permitData, ProjectNumberKey) == k
  {
    var ks := GroupKeys(items);
    var out := Converted(items);
    GroupKeysMembers(items);
    GroupKeysDistinct(items);
    forall i | 0 <= i < |out| ensures Get(out[i].permitData, ProjectNumberKey) == ks[i] {
      ConvertedEntry(items, i);
    }
    forall k | k in PendingNumbers(items)
      ensures exists i :: 0 <= i < |out| && Get(out[i].permitData, ProjectNumberKey) == k
    {
      var i :| 0 <= i < |ks| && ks[i] == k;
      assert Get(out[i].permitData, ProjectNumberKey) == k;
    }
  }

  /** The positions of the first occurrences in `items + [x]`, in terms of those
      in `items`. */
  lemma IndexOfPendingSnoc(items: seq<FlatPending>, x: FlatPending, k: JValue)
    requires k in PendingNumbers(items + [x])
    ensures PendingNumbers(items + [x]) == PendingNumbers(items) + [PendingNumber(x)]
    ensures IndexOf(PendingNumbers(items + [x]), k) ==
      if k in PendingNumbers(items) then IndexOf(PendingNumbers(items), k) else |items|
  {
    PendingNumbersAppend(items, [x]);
    assert PendingNumbers([x]) == [PendingNumber(x)];
    IndexOfSnoc(PendingNumbers(items), PendingNumber(x), k);
  }

  /** A group's first entry is the first entry of the old queue with its
      project number. */
  lemma {:induction false} GroupOfFirst(items: seq<FlatPending>, k: JValue)
    requires GroupOf(items, k) != []
    ensures k in PendingNumbers(items)
    ensures GroupOf(items, k)[0] == items[IndexOf(PendingNumbers(items), k)]
    decreases |items|
  {
    GroupOfNonEmpty(items, k);
    var init := items[..|items| - 1];
    var last := items[|items| - 1];
    assert items == init + [last];
    if GroupOf(init, k) != [] {
      GroupOfFirst(init, k);
      GroupOfFirstKept(init, last, k);
    } else {
      GroupOfFirstNew(init, last, k);
    }
  }

  lemma GroupOfFirstKept(init: seq<FlatPending>, last: FlatPending, k: JValue)
    requires GroupOf(init, k) != [] && k in PendingNumbers(init)
    requires GroupOf(init, k)[0] == init[IndexOf(PendingNumbers(init), k)]
    ensures k in PendingNumbers(init + [last])
    ensures GroupOf(init + [last], k)[0] == (init + [last])[IndexOf(PendingNumbers(init + [last]), k)]
  {
    GroupOfSnoc(init, last, k);
    PendingNumbersAppend(init, [last]);
    IndexOfPendingSnoc(init, last, k);
  }

  lemma GroupOfFirstNew(init: seq<FlatPending>, last: FlatPending, k: JValue)
    requires GroupOf(init, k) == []
    requires GroupOf(init + [last], k) != []
    ensures k in PendingNumbers(init + [last])
    ensures GroupOf(init + [last], k)[0] == (init + [last])[IndexOf(PendingNumbers(init + [last]), k)]
  {
    GroupOfSnoc(init, last, k);
    GroupOfNonEmpty(init, k);
    GroupOfNonEmpty(init + [last], k);
    IndexOfPendingSnoc(init, last, k);
  }

  /** First-appearance order: the keys of the grouped queue come in the order in
      which their project numbers first occur in the old queue. */
  lemma {:induction false} GroupKeysFirstAppearance(items: seq<FlatPending>)
    ensures forall k :: k in GroupKeys(items) ==> k in PendingNumbers(items)
    ensures var ks := GroupKeys(items);
      forall a, b :: 0 <= a < b < |ks| ==>
        IndexOf(PendingNumbers(items), ks[a]) < IndexOf(PendingNumbers(items), ks[b])
    decreases |items|
  {
    if items != [] {
      var init := items[..|items| - 1];
      var x := items[|items| - 1];
      assert items == init + [x];
      var ks0 := GroupKeys(init);
      GroupKeysSnoc(init, x);
      PendingNumbersSnoc(items);
      var ns0 := PendingNumbers(init);
      var ks := GroupKeys(items);
      GroupKeysMembers(init);
      GroupKeysMembers(items);
      GroupKeysFirstAppearance(init);
      forall a, b | 0 <= a < b < |ks|
        ensures IndexOf(PendingNumbers(items), ks[a]) < IndexOf(PendingNumbers(items), ks[b])
      {
        assert ks[a] == ks0[a] && ks0[a] in ks0;
        IndexOfSnoc(ns0, PendingNumber(x), ks[a]);
        IndexOfSnoc(ns0, PendingNumber(x), ks[b]);
        if b < |ks0| {
          assert ks[b] == ks0[b] && ks0[b] in ks0;
        } else {
          assert ks[b] !in ks0;
        }
      }
    }
  }

  /** The state of the first loop after the entries `items`: `keys` lists the
      project numbers seen so far in order of first appearance and `grouped`
      maps each of them to its entries. */
  ghost predicate GroupedSoFar(items: seq<FlatPending>, keys: seq<JValue>, grouped: map<JValue, seq<FlatPending>>) {
    && keys == GroupKeys(items)
    && (forall k :: k in grouped <==> k in keys)
    && (forall k :: k in grouped ==> grouped[k] == GroupOf(items, k))
  }

  /** One iteration of the first loop keeps `GroupedSoFar`. */
  lemma GroupedStep(items: seq<FlatPending>, x: FlatPending, keys: seq<JValue>, grouped: map<JValue, seq<FlatPending>>)
    requires GroupedSoFar(items, keys, grouped)
    ensures var k := PendingNumber(x);
      GroupedSoFar(items + [x],
                   if k in grouped then keys else keys + [k],
                   grouped[k := (if k in grouped then grouped[k] else []) + [x]])
  {
    GroupedKeysStep(items, x, keys, grouped);
    GroupKeysMembers(items);
    GroupedContentsStep(items, x, grouped);
  }

  lemma GroupedContentsStep(items: seq<FlatPending>, x: FlatPending, grouped: map<JValue, seq<FlatPending>>)
    requires forall k :: k in grouped ==> grouped[k] == GroupOf(items, k)
    requires forall k :: k in PendingNumbers(items) ==> k in grouped
    ensures var k := PendingNumber(x);
      var grouped' := grouped[k := (if k in grouped then grouped[k] else []) + [x]];
      forall k' :: k' in grouped' ==> grouped'[k'] == GroupOf(items + [x], k')
  {
    forall k' {
      GroupOfSnoc(items, x, k');
    }
    var k := PendingNumber(x);
    if k !in grouped {
      GroupOfNonEmpty(items, k);
    }
  }

  lemma GroupedKeysStep(items: seq<FlatPending>, x: FlatPending, keys: seq<JValue>, grouped: map<JValue, seq<FlatPending>>)
    requires keys == GroupKeys(items)
    requires forall k :: k in grouped <==> k in keys
    ensures var k := PendingNumber(x);
      var keys' := if k in grouped then keys else keys + [k];
      var grouped' := grouped[k := (if k in grouped then grouped[k] else []) + [x]];
      && keys' == GroupKeys(items + [x])
      && (forall k' :: k' in grouped' <==> k' in keys')
  {
    GroupKeysSnoc(items, x);
  }

  /** The first loop of the script: `grouped[project_num].append(item)` over the
      old queue, the keys of `grouped` kept in insertion order. An entry without
      a project number stops it (KeyError). */
  method GroupByNumber(oldPending: seq<FlatPending>)
    returns (ok: bool, keys: seq<JValue>, grouped: map<JValue, seq<FlatPending>>)
    ensures ok <==> forall x :: x in oldPending ==> HasNumber(x)
    ensures ok ==> GroupedSoFar(oldPending, keys, grouped)
  {
    keys, grouped := [], map[];
    for i := 0 to |oldPending|
      invariant forall x :: x in oldPending[..i] ==> HasNumber(x)
      invariant GroupedSoFar(oldPending[..i], keys, grouped)
    {
      var item := oldPending[i];
      var projectNum := Lookup(item.permitData, ProjectNumberKey);
      if projectNum.None? {
        assert item in oldPending && !HasNumber(item);
        return false, keys, grouped;
      }
      var k := projectNum.value;
      assert HasNumber(item) && k == PendingNumber(item);
      GroupedStep(oldPending[..i], item, keys, grouped);
      TakeSnoc(oldPending, i);
      assert forall x :: x in oldPending[..i + 1] ==> x in oldPending[..i] || x == item;
      var group := if k in grouped then grouped[k] else [];
      if k !in grouped {
        keys := keys + [k];
      }
      grouped := grouped[k := group + [item]];
    }
    assert oldPending[..|oldPending|] == oldPending;
    ok := true;
  }

  /** One iteration of the second loop: the entry built from the j-th key's group
      moves from the pending part to the built part. */
  lemma BuildStep(items: seq<FlatPending>, keys: seq<JValue>, j: nat, built: seq<GroupedPending>, entry: GroupedPending)
    requires forall k :: k in keys ==> k in PendingNumbers(items)
    requires j < |keys|
    requires built + BuildGroups(items, keys[j..]) == BuildGroups(items, keys)
    requires keys[j] in keys && GroupOf(items, keys[j]) != []
    requires entry == MakeGroup(GroupOf(items, keys[j]))
    ensures (built + [entry]) + BuildGroups(items, keys[j + 1..]) == BuildGroups(items, keys)
  {
    var rest := keys[j..];
    assert rest[0] == keys[j] && rest[1..] == keys[j + 1..];
    BuildGroupsCons(items, rest);
    AppendAssoc(built, entry, BuildGroups(items, keys[j + 1..]));
  }

  /** The second loop of the script: one grouped entry per key of `grouped`, in
      key order. */
  method BuildGroupedQueue(oldPending: seq<FlatPending>, keys: seq<JValue>, grouped: map<JValue, seq<FlatPending>>)
    returns (newPending: seq<GroupedPending>)
    requires GroupedSoFar(oldPending, keys, grouped)
    ensures newPending == Converted(oldPending)
  {
    newPending := [];
    assert keys[0..] == keys;
    GroupKeysMembers(oldPending);
    for j := 0 to |keys|
      invariant newPending + BuildGroups(oldPending, keys[j..]) == BuildGroups(oldPending, keys)
    {
      assert keys[j] in keys;
      GroupOfNonEmpty(oldPending, keys[j]);
      var items := grouped[keys[j]];
      var entry := MakeGroup(items);
      BuildStep(oldPending, keys, j, newPending, entry);
      newPending := newPending + [entry];
    }
  }

  /** The script: group, then build. An entry without a project number stops it
      with no output. */
  method Migrate(oldPending: seq<FlatPending>) returns (newPending: Option<seq<GroupedPending>>)
    ensures newPending == Convert(oldPending)
  {
    var ok, keys, grouped := GroupByNumber(oldPending);
    if !ok {
      return None;
    }
    var out := BuildGroupedQueue(oldPending, keys, grouped);
    return Some(out);
  }
}
