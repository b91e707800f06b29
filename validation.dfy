/** Stage 2 of a run (deferred validation): every pending entry, in queue order,
    is checked for publication; a published one is enriched and promoted to a
    match record with the next match id, the others stay pending unchanged. */
module Validation {
  import opened Values
  import opened Naming
  import opened Records

  /** `if inzage_data:` the publication check answered with a non-empty record. */
  predicate Published(answer: Option<Dict>) {
    answer.Some? && |answer.value| > 0
  }

  /** `inzage_data.get('toestand', 'Onbekend')`. */
  function Status(record: Dict): JValue {
    Lookup(record, "toestand").GetOr(JStr(Unknown))
  }

  /** `str(permit_data.get('referentie_project') or project_num)`: the id the map is named after. */
  function FileIdSource(permitData: Dict): string {
    var reference := Get(permitData, ReferenceKey);
    if Truthy(reference) then Str(reference) else Str(Get(permitData, ProjectNumberKey))
  }

  /** The permit snapshot with `inzageloket_link` and `inzage_status` set. */
  function Enrich(permitData: Dict, record: Dict): Dict {
    var linked := Set(permitData, "inzageloket_link", JStr(InzageLink(Get(permitData, ProjectNumberKey))));
    Set(linked, "inzage_status", Status(record))
  }

  /** The match record made of a published pending entry. */
  function Promote(item: FlatPending, record: Dict, id: nat, now: string): MatchRecord {
    var enriched := Enrich(item.permitData, record);
    MatchRecord(id, item.municipality, enriched, item.roadData, MapFilename(FileIdSource(enriched)), Some(now))
  }

  /** The publication answer for a pending entry, asked with `str(project_num)`. */
  function Answer(item: FlatPending, check: string -> Option<Dict>): Option<Dict> {
    check(Str(PendingNumber(item)))
  }

  datatype Outcome = Outcome(promoted: seq<MatchRecord>, stillPending: seq<FlatPending>)

  /** The validation loop over `queue` with the match store holding `base` records. */
  function Validate(queue: seq<FlatPending>, base: nat, check: string -> Option<Dict>, now: string): Outcome
    decreases |queue|
  {
    if queue == [] then Outcome([], [])
    else
      var item := queue[0];
      var answer := Answer(item, check);
      if Published(answer) then
        var rest := Validate(queue[1..], base + 1, check, now);
        Outcome([Promote(item, answer.value, base, now)] + rest.promoted, rest.stillPending)
      else
        var rest := Validate(queue[1..], base, check, now);
        Outcome(rest.promoted, [item] + rest.stillPending)
  }

  /** The published entries of a queue, in queue order. */
  function PublishedItems(queue: seq<FlatPending>, check: string -> Option<Dict>): (r: seq<FlatPending>)
    ensures forall x :: x in r ==> x in queue && Published(Answer(x, check))
  {
    if queue == [] then []
    else if Published(Answer(queue[0], check)) then [queue[0]] + PublishedItems(queue[1..], check)
    else PublishedItems(queue[1..], check)
  }

  /** The unpublished entries of a queue, in queue order. */
  function UnpublishedItems(queue: seq<FlatPending>, check: string -> Option<Dict>): (r: seq<FlatPending>)
    ensures forall x :: x in r ==> x in queue && !Published(Answer(x, check))
  {
    if queue == [] then []
    else if Published(Answer(queue[0], check)) then UnpublishedItems(queue[1..], check)
    else [queue[0]] + UnpublishedItems(queue[1..], check)
  }

  /** The entries that stay pending are the unpublished ones, in queue order. */
  lemma {:induction false} ValidateKeepsUnpublished(queue: seq<FlatPending>, base: nat, check: string -> Option<Dict>, now: string)
    ensures Validate(queue, base, check, now).stillPending == UnpublishedItems(queue, check)
  {
    if queue != [] {
      if Published(Answer(queue[0], check)) {
        ValidateKeepsUnpublished(queue[1..], base + 1, check, now);
      } else {
        ValidateKeepsUnpublished(queue[1..], base, check, now);
      }
    }
  }

  /** The records promoted from a run of published entries, with ids from `base` on. */
  function PromoteAll(items: seq<FlatPending>, base: nat, check: string -> Option<Dict>, now: string): (r: seq<MatchRecord>)
    requires forall x :: x in items ==> Published(Answer(x, check))
    ensures |r| == |items|
    decreases |items|
  {
    if items == [] then []
    else
      assert items[0] in items && Published(Answer(items[0], check));
      [Promote(items[0], Answer(items[0], check).value, base, now)] + PromoteAll(items[1..], base + 1, check, now)
  }

  /** The k-th record of `PromoteAll` is made of the k-th entry, with id `base + k`. */
  lemma {:induction false} PromoteAllAt(items: seq<FlatPending>, base: nat, check: string -> Option<Dict>, now: string, k: nat)
    requires forall x :: x in items ==> Published(Answer(x, check))
    requires k < |items|
    ensures PromoteAll(items, base, check, now)[k] == Promote(items[k], Answer(items[k], check).value, base + k, now)
    decreases k
  {
    if k > 0 {
      var tail := items[1..];
      assert tail[k - 1] == items[k];
      assert forall x :: x in tail ==> x in items;
      assert PromoteAll(items, base, check, now)[1..] == PromoteAll(tail, base + 1, check, now);
      PromoteAllAt(tail, base + 1, check, now, k - 1);
    }
  }

  /** Promotion follows the queue: the promoted records are made of the published
      entries, in queue order, with ids counting up from `base`. */
  lemma {:induction false} ValidatePromotesPublished(queue: seq<FlatPending>, base: nat, check: string -> Option<Dict>, now: string)
    ensures Validate(queue, base, check, now).promoted == PromoteAll(PublishedItems(queue, check), base, check, now)
    decreases |queue|
  {
    if queue != [] {
      var item := queue[0];
      if Published(Answer(item, check)) {
        ValidatePromotesPublished(queue[1..], base + 1, check, now);
        var pub := PublishedItems(queue, check);
        assert pub == [item] + PublishedItems(queue[1..], check);
        assert pub[0] == item && pub[1..] == PublishedItems(queue[1..], check);
      } else {
        ValidatePromotesPublished(queue[1..], base, check, now);
      }
    }
  }

  /** Match ids stay consecutive: the k-th promoted record has id `base + k`. */
  lemma ValidateIdsConsecutive(queue: seq<FlatPending>, base: nat, check: string -> Option<Dict>, now: string)
    ensures var o := Validate(queue, base, check, now);
      forall k :: 0 <= k < |o.promoted| ==> o.promoted[k].matchId == base + k
  {
    ValidatePromotesPublished(queue, base, check, now);
    var pub := PublishedItems(queue, check);
    forall k | 0 <= k < |pub|
      ensures PromoteAll(pub, base, check, now)[k].matchId == base + k
    {
      PromoteAllAt(pub, base, check, now, k);
    }
  }

  /** Every entry is published or not: the two filters split the queue. */
  lemma {:induction false} PublishedSplit(queue: seq<FlatPending>, check: string -> Option<Dict>)
    ensures |PublishedItems(queue, check)| + |UnpublishedItems(queue, check)| == |queue|
  {
    if queue != [] {
      PublishedSplit(queue[1..], check);
    }
  }

  /** Validation partitions the queue: promoted plus still pending is the queue's length. */
  lemma ValidatePartitions(queue: seq<FlatPending>, base: nat, check: string -> Option<Dict>, now: string)
    ensures var o := Validate(queue, base, check, now);
      |o.promoted| + |o.stillPending| == |queue|
  {
    ValidateKeepsUnpublished(queue, base, check, now);
    ValidatePromotesPublished(queue, base, check, now);
    PublishedSplit(queue, check);
  }

  /** Enrichment: the promoted snapshot holds the inspection link built from the
      project number and the returned status (`toestand`, else "Onbekend"); every
      other attribute is unchanged, the road snapshot and municipality are kept,
      and the map file is named after the reference code, or else the project
      number, sanitised. */
  lemma PromoteEnriches(item: FlatPending, record: Dict, id: nat, now: string)
    ensures var m := Promote(item, record, id, now);
      && m.matchId == id
      && Lookup(m.permitData, "inzageloket_link") == Some(JStr(InzageBase + Str(PendingNumber(item))))
      && Lookup(m.permitData, "inzage_status") == Some(if "toestand" in Keys(record) then Lookup(record, "toestand").value else JStr("Onbekend"))
      && (forall k :: k != "inzageloket_link" && k != "inzage_status" ==> Lookup(m.permitData, k) == Lookup(item.permitData, k))
      && MatchNumber(m) == PendingNumber(item)
      && m.municipality == item.municipality && m.roadData == item.roadData
      && m.mapFile == MapFilename(FileIdSource(item.permitData))
      && '/' !in m.mapFile[6..|m.mapFile| - 5] && ':' !in m.mapFile[6..|m.mapFile| - 5]
  {
    EnrichSetsLinkAndStatus(item.permitData, record);
    MapFilenameSafe(FileIdSource(item.permitData));
  }

  lemma EnrichSetsLinkAndStatus(permitData: Dict, record: Dict)
    ensures var e := Enrich(permitData, record);
      && Lookup(e, "inzageloket_link") == Some(JStr(InzageBase + Str(Get(permitData, ProjectNumberKey))))
      && Lookup(e, "inzage_status") == Some(if "toestand" in Keys(record) then Lookup(record, "toestand").value else JStr("Onbekend"))
      && (forall k :: k != "inzageloket_link" && k != "inzage_status" ==> Lookup(e, k) == Lookup(permitData, k))
      && Get(e, ProjectNumberKey) == Get(permitData, ProjectNumberKey)
      && FileIdSource(e) == FileIdSource(permitData)
  {
    var linked := Set(permitData, "inzageloket_link", JStr(InzageLink(Get(permitData, ProjectNumberKey))));
    var e := Set(linked, "inzage_status", Status(record));
    assert e == Enrich(permitData, record);
    SetOther(linked, "inzage_status", Status(record), "inzageloket_link");
    forall k | k != "inzageloket_link" && k != "inzage_status"
      ensures Lookup(e, k) == Lookup(permitData, k)
    {
      SetOther(linked, "inzage_status", Status(record), k);
      SetOther(permitData, "inzageloket_link", JStr(InzageLink(Get(permitData, ProjectNumberKey))), k);
    }
    assert ProjectNumberKey[0] != 'i' && ReferenceKey[0] != 'i';
  }

  /** The part of a map file name between `match_` and `.html` is the sanitised id. */
  lemma MapFilenameSafe(id: string)
    ensures var f := MapFilename(id);
      && |f| >= 11 && f[6..|f| - 5] == FileId(id)
      && '/' !in f[6..|f| - 5] && ':' !in f[6..|f| - 5]
  {
    var f := MapFilename(id);
    assert f == "match_" + FileId(id) + ".html";
    assert f[6..|f| - 5] == FileId(id);
  }

  /** Validation neither loses nor invents project numbers: those of the promoted
      records and of the entries still pending are, together, those of the queue. */
  lemma {:induction false} ValidateConservesNumbers(queue: seq<FlatPending>, base: nat, check: string -> Option<Dict>, now: string)
    ensures var o := Validate(queue, base, check, now);
      multiset(MatchNumbers(o.promoted)) + multiset(PendingNumbers(o.stillPending)) == multiset(PendingNumbers(queue))
  {
    if queue != [] {
      var item := queue[0];
      var answer := Answer(item, check);
      assert PendingNumbers(queue) == [PendingNumber(item)] + PendingNumbers(queue[1..]);
      if Published(answer) {
        ValidateConservesNumbers(queue[1..], base + 1, check, now);
        var rest := Validate(queue[1..], base + 1, check, now);
        var m := Promote(item, answer.value, base, now);
        PromoteEnriches(item, answer.value, base, now);
        MatchNumbersCons(m, rest.promoted);
      } else {
        ValidateConservesNumbers(queue[1..], base, check, now);
        var rest := Validate(queue[1..], base, check, now);
        PendingNumbersCons(item, rest.stillPending);
      }
    }
  }

  /** Validation of a queue whose head is published: the head is promoted with
      id `base` and the rest is validated from `base + 1`. */
  lemma ValidateHeadPublished(queue: seq<FlatPending>, base: nat, check: string -> Option<Dict>, now: string)
    requires queue != [] && Published(Answer(queue[0], check))
    ensures var after := Validate(queue[1..], base + 1, check, now);
      Validate(queue, base, check, now) ==
        Outcome([Promote(queue[0], Answer(queue[0], check).value, base, now)] + after.promoted, after.stillPending)
  {
  }

  /** Validation of a queue whose head is not published: the head stays pending. */
  lemma ValidateHeadUnpublished(queue: seq<FlatPending>, base: nat, check: string -> Option<Dict>, now: string)
    requires queue != [] && !Published(Answer(queue[0], check))
    ensures var after := Validate(queue[1..], base, check, now);
      Validate(queue, base, check, now) == Outcome(after.promoted, [queue[0]] + after.stillPending)
  {
  }

  /** The validation stage of `main`: the store gains the promoted records (ids
      continuing from its length), the queue is replaced by the entries still
      pending, and the count is the number promoted. */
  method ValidatePending(queue: seq<FlatPending>, store: seq<MatchRecord>, check: string -> Option<Dict>, now: string)
    returns (newStore: seq<MatchRecord>, stillPending: seq<FlatPending>, newlyValidated: nat)
    ensures newStore == store + Validate(queue, |store|, check, now).promoted
    ensures stillPending == Validate(queue, |store|, check, now).stillPending
    ensures |newStore| == |store| + newlyValidated
  {
    newStore, stillPending, newlyValidated := store, [], 0;
    for k := 0 to |queue|
      invariant |newStore| == |store| + newlyValidated
      invariant newStore + Validate(queue[k..], |newStore|, check, now).promoted
             == store + Validate(queue, |store|, check, now).promoted
      invariant stillPending + Validate(queue[k..], |newStore|, check, now).stillPending
             == Validate(queue, |store|, check, now).stillPending
    {
      ghost var rest := queue[k..];
      assert rest[0] == queue[k] && rest[1..] == queue[k + 1..];
      var item := queue[k];
      var projectNum := PendingNumber(item);
      var answer := check(Str(projectNum));
      if answer.Some? && |answer.value| > 0 {
        var permitData := Set(item.permitData, "inzageloket_link", JStr(InzageLink(projectNum)));
        permitData := Set(permitData, "inzage_status", Lookup(answer.value, "toestand").GetOr(JStr(Unknown)));
        var filename := MapFilename(FileIdSource(permitData));
        var record := MatchRecord(|newStore|, item.municipality, permitData, item.roadData, filename, Some(now));
        assert record == Promote(item, answer.value, |newStore|, now);
        ValidateHeadPublished(rest, |newStore|, check, now);
        AppendAssoc(newStore, record, Validate(queue[k + 1..], |newStore| + 1, check, now).promoted);
        newStore := newStore + [record];
        newlyValidated := newlyValidated + 1;
      } else {
        ValidateHeadUnpublished(rest, |newStore|, check, now);
        AppendAssoc(stillPending, item, Validate(queue[k + 1..], |newStore|, check, now).stillPending);
        stillPending := stillPending + [item];
      }
    }
  }
}
