// What YAML 1.1 merging makes of a mapping, in document order: which entries stay,
// what its merge keys offer, and in which order new keys appear.
module Yaml11Order {
  import opened Nodes
  import opened EntryLists
  import opened StrictMerge
  import opened Yaml11Merge

  // ----- What merge keys offer ---------------------------------------------------------------

  /** Everything the merge keys of a mapping offer, in document order, every payload
      merged on its own. */
  function Offers(entries: seq<Entry>, depth: nat): seq<Entry> {
    if entries == [] then []
    else
      var last := entries[|entries| - 1];
      Offers(entries[..|entries| - 1], depth) + if Merges(last) then Offered(last.1, depth) else []
  }

  function Offered(payload: Node, depth: nat): seq<Entry> {
    match payload.value
    case Mapping(source) => Value(Expand(source, depth + 1))
    case Sequence(items) => OfferedByItems(items, depth + 1)
    case _ => []
  }

  function OfferedByItems(items: seq<Node>, depth: nat): seq<Entry> {
    if items == [] then []
    else
      var last := items[|items| - 1];
      OfferedByItems(items[..|items| - 1], depth) + if last.value.Mapping? then Value(Expand(last.value.entries, depth)) else []
  }

  // ----- Lists with the same keys -----------------------------------------------------------------

  /** The same keys in the same order. */
  ghost predicate SameKeys(x: seq<Entry>, y: seq<Entry>) {
    |x| == |y| && forall i :: 0 <= i < |x| ==> ByIdentity(x[i].0, y[i].0)
  }

  lemma SameKeysKnow(x: seq<Entry>, y: seq<Entry>, a: Node, b: Node)
    requires SameKeys(x, y) && ByIdentity(a, b)
    ensures HasKey(ByIdentity, x, a) <==> HasKey(ByIdentity, y, b)
  {
    if HasKey(ByIdentity, x, a) {
      var i :| 0 <= i < |x| && ByIdentity(x[i].0, a);
      assert ByIdentity(y[i].0, b);
    }
    if HasKey(ByIdentity, y, b) {
      var i :| 0 <= i < |y| && ByIdentity(y[i].0, b);
      assert ByIdentity(x[i].0, a);
    }
  }

  // Updating a known key leaves the keys as they are.
  lemma UpsertOneKeys(x: seq<Entry>, y: seq<Entry>, e: Entry)
    requires SameKeys(x, y)
    ensures SameKeys(UpsertOne(x, e), AddMissing(ByIdentity, y, e))
  {
    SameKeysKnow(x, y, e.0, e.0);
    match FirstSame(x, e.0) {
      case Some(i) => assert HasKey(ByIdentity, x, e.0);
      case None => assert !HasKey(ByIdentity, x, e.0);
    }
  }

  lemma {:induction false} UpsertKeys(x: seq<Entry>, y: seq<Entry>, extra: seq<Entry>)
    requires SameKeys(x, y)
    ensures SameKeys(Upsert(x, extra), InsertMissing(ByIdentity, y, extra))
    decreases |extra|
  {
    hide SameKeys, ByIdentity, AddMissing, UpsertOne;
    if extra != [] {
      var init, last := extra[..|extra| - 1], extra[|extra| - 1];
      assert extra == init + [last];
      UpsertKeys(x, y, init);
      InsertLast(y, init, last);
      UpsertOneKeys(Upsert(x, init), InsertMissing(ByIdentity, y, init), last);
    }
  }

  lemma {:induction false} InsertSameKeys(x: seq<Entry>, y: seq<Entry>, more: seq<Entry>, alike: seq<Entry>)
    requires SameKeys(x, y) && SameKeys(more, alike)
    ensures SameKeys(InsertMissing(ByIdentity, x, more), InsertMissing(ByIdentity, y, alike))
    decreases |more|
  {
    hide ByIdentity, HasKey;
    if more != [] {
      SameKeysKnow(x, y, more[0].0, alike[0].0);
      InsertSameKeys(AddMissing(ByIdentity, x, more[0]), AddMissing(ByIdentity, y, alike[0]), more[1..], alike[1..]);
    }
  }

  lemma OnTheirOwn(own: seq<Entry>, more: seq<Entry>)
    ensures InsertMissing(ByIdentity, own, InsertMissing(ByIdentity, [], more)) == InsertMissing(ByIdentity, own, more)
  {
    hide ByIdentity, InsertMissing;
    IdentityIsEquivalence();
    InsertMissingFlattens(ByIdentity, own, [], more);
    NothingScans(own);
  }

  // ----- What is collected ----------------------------------------------------------------------

  lemma {:induction false} ItemsOffer(items: seq<Node>, depth: nat)
    requires (forall i :: 0 <= i < |items| ==> items[i].value.Mapping?) && ExpandList(items, depth).Ok?
    ensures ExpandList(items, depth).value == InsertMissing(ByIdentity, [], OfferedByItems(items, depth))
    ensures forall i :: 0 <= i < |items| ==> Expand(items[i].value.entries, depth).Ok?
    decreases |items|
  {
    hide Expand, ByIdentity, InsertMissing, InsertMissingChecked;
    if items == [] {
      NothingScans([]);
    } else {
      var init, last := items[..|items| - 1], items[|items| - 1];
      ItemsOffer(init, depth);
      var before, extra := ExpandList(init, depth).value, ExpandItem(last, depth).value;
      InsertionScans(before, extra);
      InsertMissingConcat(ByIdentity, [], OfferedByItems(init, depth), extra);
      assert forall i :: 0 <= i < |init| ==> init[i] == items[i];
    }
  }

  lemma PayloadOffers(merge: Entry, depth: nat)
    requires IsMergeEntry(merge) && Payload(merge, depth).Ok?
    ensures Payload(merge, depth).value == Offered(merge.1, depth)
         || Payload(merge, depth).value == InsertMissing(ByIdentity, [], Offered(merge.1, depth))
    ensures merge.1.value.Mapping? ==> Expand(merge.1.value.entries, depth + 1).Ok?
    ensures merge.1.value.Sequence? ==>
              forall i :: 0 <= i < |merge.1.value.items| ==> Expand(merge.1.value.items[i].value.entries, depth + 1).Ok?
  {
    hide Expand, ByIdentity;
    if merge.1.value.Sequence? { ItemsOffer(merge.1.value.items, depth + 1); }
  }

  // Taken in as a whole or without its repetitions, an offer adds the same keys.
  lemma UpsertOffer(x: seq<Entry>, y: seq<Entry>, offer: seq<Entry>, more: seq<Entry>)
    requires SameKeys(x, y) && (more == offer || more == InsertMissing(ByIdentity, [], offer))
    ensures SameKeys(Upsert(x, more), InsertMissing(ByIdentity, y, offer))
  {
    hide SameKeys, ByIdentity, InsertMissing;
    UpsertKeys(x, y, more);
    OnTheirOwn(y, offer);
  }

  lemma {:induction false} CollectOffers(entries: seq<Entry>, depth: nat)
    requires Collect(entries, depth).Ok?
    ensures Collect(entries, depth).value.explicit == Explicit(entries)
    ensures SameKeys(Collect(entries, depth).value.merged, InsertMissing(ByIdentity, [], Offers(entries, depth)))
    ensures forall i :: 0 <= i < |entries| && IsMergeEntry(entries[i]) ==> Payload(entries[i], depth).Ok?
    decreases |entries|
  {
    hide Payload, ByIdentity, SameKeys, InsertMissing, IsMergeKey, Mergeable, OverMappings, Offered, UpsertChecked, Upsert;
    if entries == [] {
      NothingOffered();
    } else {
      var init, last := entries[..|entries| - 1], entries[|entries| - 1];
      CollectOffers(init, depth);
      MergesExactly(last);
      assert forall i :: 0 <= i < |init| ==> init[i] == entries[i];
      if IsMergeEntry(last) {
        var merged, more := Collect(init, depth).value.merged, Payload(last, depth).value;
        CheckedUpsert(merged, more);
        PayloadOffers(last, depth);
        UpsertOffer(merged, InsertMissing(ByIdentity, [], Offers(init, depth)), Offered(last.1, depth), more);
        InsertMissingConcat(ByIdentity, [], Offers(init, depth), Offered(last.1, depth));
      } else {
        assert Offers(entries, depth) == Offers(init, depth) + [] == Offers(init, depth);
      }
    }
  }

  lemma NothingOffered()
    ensures SameKeys([], InsertMissing(ByIdentity, [], [])) && Offers([], 0) == []
  {
  }

  lemma SameSelf(x: seq<Entry>)
    ensures SameKeys(x, x)
  {
  }

  /** Expansion keeps the entries that do not merge in front, in order, and then has the
      keys its merge keys offer, each once, in the order they are first offered. */
  lemma ExpandsInOrder(entries: seq<Entry>, depth: nat)
    requires Expand(entries, depth).Ok?
    ensures Explicit(entries) <= Expand(entries, depth).value
    ensures SameKeys(Expand(entries, depth).value, InsertMissing(ByIdentity, Explicit(entries), Offers(entries, depth)))
  {
    hide ByIdentity, SameKeys, InsertMissing, Collect, Scans;
    CollectOffers(entries, depth);
    var split := Collect(entries, depth).value;
    InsertionScans(split.explicit, split.merged);
    InsertMissingExtends(ByIdentity, split.explicit, split.merged);
    SameSelf(split.explicit);
    InsertSameKeys(split.explicit, split.explicit, split.merged, InsertMissing(ByIdentity, [], Offers(entries, depth)));
    OnTheirOwn(split.explicit, Offers(entries, depth));
  }

  // ----- Which payloads are merged -------------------------------------------------------------------

  lemma {:induction false} OffersHold(entries: seq<Entry>, depth: nat, i: nat, e: Entry)
    requires i < |entries| && Merges(entries[i]) && e in Offered(entries[i].1, depth)
    ensures e in Offers(entries, depth)
    decreases |entries|
  {
    hide Merges, Offered;
    if i < |entries| - 1 { OffersHold(entries[..|entries| - 1], depth, i, e); }
  }

  lemma {:induction false} ItemsHold(items: seq<Node>, depth: nat, j: nat, e: Entry)
    requires j < |items| && items[j].value.Mapping? && e in Value(Expand(items[j].value.entries, depth))
    ensures e in OfferedByItems(items, depth)
    decreases |items|
  {
    hide Expand;
    if j < |items| - 1 { ItemsHold(items[..|items| - 1], depth, j, e); }
  }

  lemma {:induction false} ExplicitHolds(entries: seq<Entry>, i: nat)
    requires i < |entries| && !Merges(entries[i])
    ensures entries[i] in Explicit(entries)
    decreases |entries|
  {
    hide Merges;
    if i < |entries| - 1 { ExplicitHolds(entries[..|entries| - 1], i); }
  }

  lemma OfferIsKnown(entries: seq<Entry>, depth: nat, e: Entry)
    requires Expand(entries, depth).Ok? && e in Offers(entries, depth)
    ensures HasKey(ByIdentity, Expand(entries, depth).value, e.0)
  {
    hide ByIdentity, SameKeys, InsertMissing, Expand, HasKey;
    ExpandsInOrder(entries, depth);
    var all := InsertMissing(ByIdentity, Explicit(entries), Offers(entries, depth));
    InsertedKeys(Explicit(entries), Offers(entries, depth), e.0);
    HeldIsKnown(Explicit(entries) + Offers(entries, depth), e);
    KnownAlike(Expand(entries, depth).value, all, e.0);
  }

  lemma HeldIsKnown(entries: seq<Entry>, e: Entry)
    requires e in entries
    ensures HasKey(ByIdentity, entries, e.0)
  {
    var i :| 0 <= i < |entries| && entries[i] == e;
    assert ByIdentity(entries[i].0, e.0);
  }

  lemma KnownAlike(x: seq<Entry>, y: seq<Entry>, key: Node)
    requires SameKeys(x, y)
    ensures HasKey(ByIdentity, x, key) <==> HasKey(ByIdentity, y, key)
  {
    SameKeysKnow(x, y, key, key);
  }

  /** A merge key over a mapping, or over a list of any length that holds mappings only,
      is merged: the source expands, and its keys are keys of the result. */
  lemma MappingsAndListsAreMerged(entries: seq<Entry>, depth: nat, i: nat)
    requires Expand(entries, depth).Ok? && i < |entries| && IsMergeKey(entries[i].0)
    ensures match entries[i].1.value
            case Mapping(source) =>
              Expand(source, depth + 1).Ok?
              && forall e :: e in Expand(source, depth + 1).value ==> HasKey(ByIdentity, Expand(entries, depth).value, e.0)
            case Sequence(items) =>
              (forall item :: item in items ==> item.value.Mapping?) ==>
                forall j :: 0 <= j < |items| ==>
                  Expand(items[j].value.entries, depth + 1).Ok?
                  && forall e :: e in Expand(items[j].value.entries, depth + 1).value ==> HasKey(ByIdentity, Expand(entries, depth).value, e.0)
            case _ => true
  {
    hide ByIdentity, HasKey, IsMergeKey, Expand, Mergeable;
    if Merges(entries[i]) {
      MergesExactly(entries[i]);
      ExpandCollects(entries, depth);
      CollectOffers(entries, depth);
      PayloadOffers(entries[i], depth);
      match entries[i].1.value {
        case Mapping(source) =>
          forall e | e in Expand(source, depth + 1).value ensures HasKey(ByIdentity, Expand(entries, depth).value, e.0) {
            OffersHold(entries, depth, i, e);
            OfferIsKnown(entries, depth, e);
          }
        case Sequence(items) =>
          forall j, e | 0 <= j < |items| && e in Expand(items[j].value.entries, depth + 1).value
            ensures HasKey(ByIdentity, Expand(entries, depth).value, e.0)
          {
            ItemsHold(items, depth + 1, j, e);
            OffersHold(entries, depth, i, e);
            OfferIsKnown(entries, depth, e);
          }
      }
    }
  }

  lemma ExpandCollects(entries: seq<Entry>, depth: nat)
    requires Expand(entries, depth).Ok?
    ensures Collect(entries, depth).Ok?
  {
    hide Collect;
  }

  /** Every other entry stays as it is: one without a merge key, and a literal `<<`. */
  lemma OtherEntriesStay(entries: seq<Entry>, depth: nat, i: nat)
    requires Expand(entries, depth).Ok? && i < |entries|
    requires !IsMergeKey(entries[i].0)
          || match entries[i].1.value
             case Mapping(_) => false
             case Sequence(items) => exists item :: item in items && !item.value.Mapping?
             case _ => true
    ensures entries[i] in Expand(entries, depth).value
  {
    hide Expand, ByIdentity, SameKeys;
    ExpandsInOrder(entries, depth);
    ExplicitHolds(entries, i);
    var e := entries[i];
    var k :| 0 <= k < |Explicit(entries)| && Explicit(entries)[k] == e;
    assert Expand(entries, depth).value[k] == e;
  }
}
