// A condition on every key a merge may compare, and what it means for the strict
// merge when it keeps keys within the identity limit.
module NestedKeys {
  import opened Prelude
  import opened Nodes
  import opened EntryLists
  import opened StrictMerge

  type KeyTest = Node -> bool

  /** The keys of the entries, and those of everything their merge keys lead to. */
  ghost predicate KeysHold(ok: KeyTest, entries: seq<Entry>)
    decreases entries, 0
  {
    forall i :: 0 <= i < |entries| ==> EntryHolds(ok, entries[i])
  }

  ghost predicate EntryHolds(ok: KeyTest, e: Entry)
    decreases e, 0
  {
    && ok(e.0)
    && (IsMergeKey(e.0) ==>
          match e.1.value
          case Mapping(source) => KeysHold(ok, source)
          case Sequence(items) => ListHolds(ok, items)
          case _ => true)
  }

  ghost predicate ListHolds(ok: KeyTest, items: seq<Node>)
    decreases items, 0
  {
    forall i :: 0 <= i < |items| ==> ItemHolds(ok, items[i])
  }

  ghost predicate ItemHolds(ok: KeyTest, item: Node)
    decreases item, 0
  {
    item.value.Mapping? ==> KeysHold(ok, item.value.entries)
  }

  /** The keys of a flat list. */
  ghost predicate FlatKeysHold(ok: KeyTest, entries: seq<Entry>) {
    forall i :: 0 <= i < |entries| ==> ok(entries[i].0)
  }

  lemma FlatKeys(ok: KeyTest, entries: seq<Entry>)
    requires KeysHold(ok, entries)
    ensures FlatKeysHold(ok, entries)
  {
    assert forall i :: 0 <= i < |entries| ==> EntryHolds(ok, entries[i]);
  }

  ghost predicate FlatResultHolds(ok: KeyTest, r: Merged) {
    r.Ok? ==> FlatKeysHold(ok, r.value)
  }

  lemma KeysAfterInsertion(ok: KeyTest, entries: seq<Entry>, extra: seq<Entry>)
    requires FlatKeysHold(ok, entries) && FlatKeysHold(ok, extra)
    ensures FlatKeysHold(ok, InsertMissing(ByIdentity, entries, extra))
  {
    hide ByIdentity;
    InsertMissingTakesFrom(ByIdentity, entries, extra);
    var r := InsertMissing(ByIdentity, entries, extra);
    forall i | 0 <= i < |r| ensures ok(r[i].0) {
      assert r[i] in r;
    }
  }

  // ----- Every candidate has such a key ------------------------------------------------

  lemma {:induction false} CandidateKeys(ok: KeyTest, entries: seq<Entry>, depth: nat)
    requires KeysHold(ok, entries)
    ensures FlatResultHolds(ok, Candidates(entries, depth))
    decreases entries, 0
  {
    FlatKeys(ok, entries);
    match MergePosition(entries) {
      case None =>
      case Some(i) =>
        assert EntryHolds(ok, entries[i]);
        SourceCandidateKeys(ok, entries[i], depth);
    }
  }

  lemma {:induction false} SourceCandidateKeys(ok: KeyTest, merge: Entry, depth: nat)
    requires EntryHolds(ok, merge) && IsMergeKey(merge.0)
    ensures FlatResultHolds(ok, SourceCandidates(merge, depth))
    decreases merge, 0
  {
    match merge.1.value {
      case Mapping(source) => CandidateKeys(ok, source, depth + 1);
      case Sequence(items) => ListCandidateKeys(ok, items, depth + 1);
      case _ =>
    }
  }

  lemma {:induction false} ListCandidateKeys(ok: KeyTest, items: seq<Node>, depth: nat)
    requires ListHolds(ok, items)
    ensures FlatResultHolds(ok, ListCandidates(items, depth))
    decreases items, 1
  {
    if items != [] {
      assert ItemHolds(ok, items[0]);
      ItemCandidateKeys(ok, items[0], depth);
      ListCandidateKeys(ok, items[1..], depth);
    }
  }

  lemma {:induction false} ItemCandidateKeys(ok: KeyTest, item: Node, depth: nat)
    requires ItemHolds(ok, item)
    ensures FlatResultHolds(ok, ItemCandidates(item, depth))
    decreases item, 0
  {
    if item.value.Mapping? {
      CandidateKeys(ok, item.value.entries, depth);
    }
  }

  // ----- Within the identity limit no comparison fails -----------------------------------

  ghost predicate WithinLimit(ok: KeyTest) {
    forall key :: ok(key) ==> InLimit(key)
  }

  lemma {:induction false} ScansWithin(ok: KeyTest, own: seq<Entry>, added: seq<Entry>)
    requires WithinLimit(ok) && FlatKeysHold(ok, own) && FlatKeysHold(ok, added)
    ensures Scans(own, added)
    decreases |added|
  {
    hide ScanOk;
    if added != [] {
      var n := |added| - 1;
      ScansWithin(ok, own, added[..n]);
      ScanWithin(own + added[..n], added[n].0);
    }
  }

  // The checked insertion never fails on such keys, and keeps them.
  lemma CheckedInsertion(ok: KeyTest, entries: seq<Entry>, extra: seq<Entry>)
    requires WithinLimit(ok) && FlatKeysHold(ok, entries) && FlatKeysHold(ok, extra)
    ensures InsertMissingChecked(entries, extra) == Ok(InsertMissing(ByIdentity, entries, extra))
    ensures FlatKeysHold(ok, InsertMissing(ByIdentity, entries, extra))
  {
    ScansWithin(ok, entries, extra);
    InsertionScans(entries, extra);
    KeysAfterInsertion(ok, entries, extra);
  }

  // A failure is a failure of the candidates, and a result has such keys only.
  ghost predicate FailsAs(ok: KeyTest, c: Merged, r: Merged) {
    (r.Err? ==> c == r) && FlatResultHolds(ok, r)
  }

  /** Then the strict merge fails exactly as its candidates do. */
  lemma {:induction false} MergeFailsAsCandidates(ok: KeyTest, entries: seq<Entry>, depth: nat)
    requires WithinLimit(ok) && KeysHold(ok, entries)
    ensures FailsAs(ok, Candidates(entries, depth), MergeEntries(entries, depth))
    decreases entries, 0
  {
    FlatKeys(ok, entries);
    match MergePosition(entries) {
      case None =>
      case Some(i) =>
        assert EntryHolds(ok, entries[i]);
        SourceFailsAsCandidates(ok, RemoveAt(entries, i), entries[i], depth);
    }
  }

  lemma {:induction false} SourceFailsAsCandidates(ok: KeyTest, entries: seq<Entry>, merge: Entry, depth: nat)
    requires WithinLimit(ok) && FlatKeysHold(ok, entries) && EntryHolds(ok, merge) && IsMergeKey(merge.0)
    ensures FailsAs(ok, SourceCandidates(merge, depth), MergeSource(entries, merge, depth))
    decreases merge, 0
  {
    match merge.1.value {
      case Mapping(source) =>
        MergeFailsAsCandidates(ok, source, depth + 1);
        if MergeEntries(source, depth + 1).Ok? {
          CheckedInsertion(ok, entries, MergeEntries(source, depth + 1).value);
        }
      case Sequence(items) => ListFailsAsCandidates(ok, entries, items, depth + 1);
      case _ =>
    }
  }

  lemma {:induction false} ListFailsAsCandidates(ok: KeyTest, entries: seq<Entry>, items: seq<Node>, depth: nat)
    requires WithinLimit(ok) && FlatKeysHold(ok, entries) && ListHolds(ok, items)
    ensures FailsAs(ok, ListCandidates(items, depth), MergeList(entries, items, depth))
    decreases items, 1
  {
    if items != [] {
      assert ItemHolds(ok, items[0]);
      ItemFailsAsCandidates(ok, entries, items[0], depth);
      var next := MergeItem(entries, items[0], depth);
      MergeItemIsFlattening(entries, items[0], depth);
      if next.Ok? {
        ListFailsAsCandidates(ok, next.value, items[1..], depth);
      }
    }
  }

  lemma {:induction false} ItemFailsAsCandidates(ok: KeyTest, entries: seq<Entry>, item: Node, depth: nat)
    requires WithinLimit(ok) && FlatKeysHold(ok, entries) && ItemHolds(ok, item)
    ensures FailsAs(ok, ItemCandidates(item, depth), MergeItem(entries, item, depth))
    decreases item, 0
  {
    if item.value.Mapping? {
      MergeFailsAsCandidates(ok, item.value.entries, depth);
      if MergeEntries(item.value.entries, depth).Ok? {
        CheckedInsertion(ok, entries, MergeEntries(item.value.entries, depth).value);
      }
    }
  }
}
