// Merging of a whole document tree (src/ast.rs) under either policy, as a recursion.
// The worklist of `apply_merge_keys_in_node` takes the last queued value first, so the
// values of a node are merged from the last to the first.
module TreeMerge {
  import opened Prelude
  import opened Nodes
  import opened EntryLists
  import opened StrictMerge
  import Y = Yaml11Merge

  datatype MergePolicy = Strict | Yaml11Compatible

  /** `apply_merge_entries` at depth zero. */
  function ApplyMergeEntries(policy: MergePolicy, entries: seq<Entry>): Merged {
    match policy
    case Strict => MergeEntries(entries, 0)
    case Yaml11Compatible => Y.Expand(entries, 0)
  }

  /** The mapping of a visited node after its own merge; other nodes stay. */
  function VisitNode(policy: MergePolicy, n: Node): Result<Node, Error> {
    match n.value
    case Mapping(entries) =>
      (match ApplyMergeEntries(policy, entries)
       case Err(e) => Err(e)
       case Ok(merged) => Ok(n.(value := Mapping(merged))))
    case _ => Ok(n)
  }

  function MergeTree(policy: MergePolicy, n: Node): Result<Node, Error>
    decreases Nesting(n), 0, 0
  {
    VisitDoesNotNest(policy, n);
    match VisitNode(policy, n)
    case Err(e) => Err(e)
    case Ok(v) =>
      match v.value
      case Mapping(entries) =>
        (match MergeValues(policy, entries)
         case Err(e) => Err(e)
         case Ok(done) => Ok(v.(value := Mapping(done))))
      case Sequence(items) =>
        (match MergeItems(policy, items)
         case Err(e) => Err(e)
         case Ok(done) => Ok(v.(value := Sequence(done))))
      case Tagged(tag, span, inner) =>
        (match MergeTree(policy, inner)
         case Err(e) => Err(e)
         case Ok(done) => Ok(v.(value := Tagged(tag, span, done))))
      case _ => Ok(v)
  }

  function MergeValues(policy: MergePolicy, entries: seq<Entry>): (r: Merged)
    ensures r.Ok? ==> |r.value| == |entries| && forall i :: 0 <= i < |entries| ==> r.value[i].0 == entries[i].0
    decreases NestingEntries(entries), 1, |entries|
  {
    if entries == [] then Ok([])
    else
      var n := |entries| - 1;
      NestingOfEntry(entries, n);
      NestingOfSome(entries[..n], entries);
      match MergeTree(policy, entries[n].1)
      case Err(e) => Err(e)
      case Ok(last) =>
        match MergeValues(policy, entries[..n])
        case Err(e) => Err(e)
        case Ok(before) => Ok(before + [(entries[n].0, last)])
  }

  function MergeItems(policy: MergePolicy, items: seq<Node>): (r: Result<seq<Node>, Error>)
    ensures r.Ok? ==> |r.value| == |items|
    decreases NestingItems(items), 1, |items|
  {
    if items == [] then Ok([])
    else
      var n := |items| - 1;
      NestingOfItem(items, n);
      NestingOfFirst(items, n);
      match MergeTree(policy, items[n])
      case Err(e) => Err(e)
      case Ok(last) =>
        match MergeItems(policy, items[..n])
        case Err(e) => Err(e)
        case Ok(before) => Ok(before + [last])
  }

  lemma {:induction false} NestingOfFirst(items: seq<Node>, n: nat)
    requires n <= |items|
    ensures NestingItems(items[..n]) <= NestingItems(items)
  {
    if n > 0 {
      assert items[..n][1..] == items[1..][..n - 1];
      NestingOfFirst(items[1..], n - 1);
    }
  }

  // ----- Where merged entries come from ---------------------------------------------------

  // The entries of a merge source, and of the sources inside it.
  ghost predicate FromSources(e: Entry, merge: Node)
    decreases merge, 1
  {
    match merge.value
    case Mapping(source) => FromEntries(e, source)
    case Sequence(items) => exists i :: 0 <= i < |items| && FromItem(e, items[i])
    case _ => false
  }

  ghost predicate FromItem(e: Entry, item: Node)
    decreases item, 0
  {
    item.value.Mapping? && FromEntries(e, item.value.entries)
  }

  ghost predicate FromEntries(e: Entry, source: seq<Entry>)
    decreases source, 0
  {
    exists i :: 0 <= i < |source| && (source[i] == e || FromMergeEntry(e, source[i]))
  }

  ghost predicate FromMergeEntry(e: Entry, merge: Entry)
    decreases merge, 0
  {
    IsMergeKey(merge.0) && FromSources(e, merge.1)
  }

  lemma {:induction false} CheckedTakesFrom(entries: seq<Entry>, extra: seq<Entry>)
    requires InsertMissingChecked(entries, extra).Ok?
    ensures entries <= InsertMissingChecked(entries, extra).value
    ensures forall e :: e in InsertMissingChecked(entries, extra).value ==> e in entries || e in extra
    decreases extra
  {
    hide KeyPosition;
    if extra != [] {
      var position := KeyPosition(entries, extra[0].0).value;
      CheckedTakesFrom(if position.Some? then entries else entries + [extra[0]], extra[1..]);
    }
  }

  /** One level of strict merging keeps the own entries in front, unchanged, and
      adds nothing but entries of the merge source. */
  lemma {:induction false} MergeKeepsOwnAddsSources(entries: seq<Entry>, depth: nat)
    requires MergeEntries(entries, depth).Ok?
    ensures Own(entries) <= MergeEntries(entries, depth).value
    ensures forall e :: e in MergeEntries(entries, depth).value ==>
              e in Own(entries) || (MergePosition(entries).Some? && FromMergeEntry(e, entries[MergePosition(entries).value]))
    ensures forall e :: e in MergeEntries(entries, depth).value ==> FromEntries(e, entries)
    decreases entries, 1
  {
    var r := MergeEntries(entries, depth).value;
    match MergePosition(entries) {
      case None =>
      case Some(i) =>
        SourceAddsOwnEntries(RemoveAt(entries, i), entries[i], depth);
    }
    forall e | e in r ensures FromEntries(e, entries) {
      if e in Own(entries) {
        assert e in entries;
        var j :| 0 <= j < |entries| && entries[j] == e;
      }
    }
  }

  lemma {:induction false} SourceAddsOwnEntries(entries: seq<Entry>, merge: Entry, depth: nat)
    requires IsMergeKey(merge.0) && MergeSource(entries, merge, depth).Ok?
    ensures entries <= MergeSource(entries, merge, depth).value
    ensures forall e :: e in MergeSource(entries, merge, depth).value ==> e in entries || FromMergeEntry(e, merge)
    decreases merge, 0
  {
    match merge.1.value {
      case Mapping(source) =>
        MergeKeepsOwnAddsSources(source, depth + 1);
        CheckedTakesFrom(entries, MergeEntries(source, depth + 1).value);
      case Sequence(items) =>
        ListAddsItemEntries(entries, items, depth + 1);
    }
  }

  lemma {:induction false} ListAddsItemEntries(entries: seq<Entry>, items: seq<Node>, depth: nat)
    requires MergeList(entries, items, depth).Ok?
    ensures entries <= MergeList(entries, items, depth).value
    ensures forall e :: e in MergeList(entries, items, depth).value ==>
              e in entries || exists i :: 0 <= i < |items| && FromItem(e, items[i])
    decreases items, 1
  {
    hide FromItem;
    if items != [] {
      var next := MergeItem(entries, items[0], depth).value;
      ItemAddsItsEntries(entries, items[0], depth);
      ListAddsItemEntries(next, items[1..], depth);
      forall e | e in MergeList(entries, items, depth).value && e !in entries
        ensures exists i :: 0 <= i < |items| && FromItem(e, items[i])
      {
        if e !in next {
          var i :| 0 <= i < |items[1..]| && FromItem(e, items[1..][i]);
          assert FromItem(e, items[i + 1]);
        }
      }
    }
  }

  lemma {:induction false} ItemAddsItsEntries(entries: seq<Entry>, item: Node, depth: nat)
    requires MergeItem(entries, item, depth).Ok?
    ensures entries <= MergeItem(entries, item, depth).value
    ensures forall e :: e in MergeItem(entries, item, depth).value ==> e in entries || FromItem(e, item)
    decreases item, 0
  {
    MergeKeepsOwnAddsSources(item.value.entries, depth);
    CheckedTakesFrom(entries, MergeEntries(item.value.entries, depth).value);
  }

  // Everything taken from a source nests less deep than the source's mapping.
  lemma {:induction false} SourcesNestLess(e: Entry, source: seq<Entry>)
    requires FromEntries(e, source)
    ensures NestingEntry(e) <= NestingEntries(source)
    decreases source, 0
  {
    var i :| 0 <= i < |source| && (source[i] == e || FromMergeEntry(e, source[i]));
    NestingOfEntry(source, i);
    if source[i] != e {
      MergeEntryNestsLess(e, source[i]);
    }
  }

  lemma {:induction false} MergeEntryNestsLess(e: Entry, merge: Entry)
    requires FromMergeEntry(e, merge)
    ensures NestingEntry(e) <= NestingEntry(merge)
    decreases merge, 0
  {
    match merge.1.value {
      case Mapping(source) => SourcesNestLess(e, source);
      case Sequence(items) =>
        var i :| 0 <= i < |items| && FromItem(e, items[i]);
        NestingOfItem(items, i);
        ItemNestsLess(e, items[i]);
    }
  }

  lemma {:induction false} ItemNestsLess(e: Entry, item: Node)
    requires FromItem(e, item)
    ensures NestingEntry(e) <= Nesting(item)
    decreases item, 0
  {
    SourcesNestLess(e, item.value.entries);
  }

  // The same holds of YAML 1.1 merging.
  lemma UpdatedTakesFrom(before: seq<Entry>, i: nat, last: Entry)
    requires i < |before|
    ensures forall e :: e in before[i := last] ==> e in before || e == last
  {
  }

  lemma {:induction false} UpsertTakesFrom(entries: seq<Entry>, extra: seq<Entry>)
    requires Y.UpsertChecked(entries, extra).Ok?
    ensures forall e :: e in Y.UpsertChecked(entries, extra).value ==> e in entries || e in extra
    decreases |extra|
  {
    hide KeyPositionFrom;
    if extra != [] {
      var init, last := extra[..|extra| - 1], extra[|extra| - 1];
      assert extra == init + [last];
      UpsertTakesFrom(entries, init);
      var before := Y.UpsertChecked(entries, init).value;
      var position := KeyPosition(before, last.0).value;
      if position.Some? { UpdatedTakesFrom(before, position.value, last); }
    }
  }

  lemma FromMore(e: Entry, some: seq<Entry>, all: seq<Entry>)
    requires FromEntries(e, some) && some <= all
    ensures FromEntries(e, all)
  {
    hide FromMergeEntry;
    var i :| 0 <= i < |some| && (some[i] == e || FromMergeEntry(e, some[i]));
    assert all[i] == some[i];
  }

  lemma FromLast(e: Entry, entries: seq<Entry>)
    requires entries != [] && (entries[|entries| - 1] == e || FromMergeEntry(e, entries[|entries| - 1]))
    ensures FromEntries(e, entries)
  {
  }

  lemma {:induction false} CollectTakesFrom(entries: seq<Entry>, depth: nat)
    requires Y.Collect(entries, depth).Ok?
    ensures forall e :: e in Y.Collect(entries, depth).value.explicit || e in Y.Collect(entries, depth).value.merged ==> FromEntries(e, entries)
    decreases entries, 0
  {
    hide FromEntries, FromMergeEntry;
    if entries != [] {
      var init, last := entries[..|entries| - 1], entries[|entries| - 1];
      CollectTakesFrom(init, depth);
      var before, after := Y.Collect(init, depth).value, Y.Collect(entries, depth).value;
      if Y.IsMergeEntry(last) {
        PayloadTakesFrom(last, depth);
        UpsertTakesFrom(before.merged, Y.Payload(last, depth).value);
      }
      forall e | e in after.explicit || e in after.merged ensures FromEntries(e, entries) {
        if e in before.explicit || e in before.merged {
          FromMore(e, init, entries);
        } else {
          FromLast(e, entries);
        }
      }
    }
  }

  /** YAML 1.1 merging adds nothing but entries of merge sources either. */
  lemma {:induction false} ExpandTakesFrom(entries: seq<Entry>, depth: nat)
    requires Y.Expand(entries, depth).Ok?
    ensures forall e :: e in Y.Expand(entries, depth).value ==> FromEntries(e, entries)
    decreases entries, 1
  {
    hide FromEntries;
    CollectTakesFrom(entries, depth);
    var split := Y.Collect(entries, depth).value;
    CheckedTakesFrom(split.explicit, split.merged);
  }

  lemma {:induction false} PayloadTakesFrom(merge: Entry, depth: nat)
    requires Y.IsMergeEntry(merge) && Y.Payload(merge, depth).Ok?
    ensures forall e :: e in Y.Payload(merge, depth).value ==> FromMergeEntry(e, merge)
    decreases merge, 0
  {
    match merge.1.value {
      case Mapping(source) => ExpandTakesFrom(source, depth + 1);
      case Sequence(items) => ExpandedListTakesFrom(items, depth + 1);
    }
  }

  lemma {:induction false} ExpandedListTakesFrom(items: seq<Node>, depth: nat)
    requires forall i :: 0 <= i < |items| ==> items[i].value.Mapping?
    requires Y.ExpandList(items, depth).Ok?
    ensures forall e :: e in Y.ExpandList(items, depth).value ==> exists i :: 0 <= i < |items| && FromItem(e, items[i])
    decreases items, 1
  {
    hide FromItem;
    if items != [] {
      var n := |items| - 1;
      ExpandedListTakesFrom(items[..n], depth);
      ExpandedItemTakesFrom(items[n], depth);
      var before, extra := Y.ExpandList(items[..n], depth).value, Y.ExpandItem(items[n], depth).value;
      CheckedTakesFrom(before, extra);
      forall e | e in Y.ExpandList(items, depth).value ensures exists i :: 0 <= i < |items| && FromItem(e, items[i]) {
        if e in before {
          var i :| 0 <= i < n && FromItem(e, items[..n][i]);
          assert FromItem(e, items[i]);
        }
      }
    }
  }

  lemma {:induction false} ExpandedItemTakesFrom(item: Node, depth: nat)
    requires item.value.Mapping? && Y.ExpandItem(item, depth).Ok?
    ensures forall e :: e in Y.ExpandItem(item, depth).value ==> FromItem(e, item)
    decreases item, 0
  {
    ExpandTakesFrom(item.value.entries, depth);
  }

  lemma VisitDoesNotNest(policy: MergePolicy, n: Node)
    ensures VisitNode(policy, n).Ok? ==> Nesting(VisitNode(policy, n).value) <= Nesting(n)
    ensures VisitNode(policy, n).Ok? && !n.value.Mapping? ==> VisitNode(policy, n).value == n
  {
    hide MergeEntries, Y.Expand, FromEntries;
    if n.value.Mapping? && VisitNode(policy, n).Ok? {
      var entries, merged := n.value.entries, ApplyMergeEntries(policy, n.value.entries).value;
      match policy {
        case Strict => MergeKeepsOwnAddsSources(entries, 0);
        case Yaml11Compatible => ExpandTakesFrom(entries, 0);
      }
      forall e | e in merged ensures NestingEntry(e) <= NestingEntries(entries) {
        SourcesNestLess(e, entries);
      }
      NestingBound(merged, NestingEntries(entries));
    }
  }

  lemma {:induction false} NestingBound(entries: seq<Entry>, bound: nat)
    requires forall e :: e in entries ==> NestingEntry(e) <= bound
    ensures NestingEntries(entries) <= bound
  {
    if entries != [] {
      assert entries[0] in entries;
      NestingBound(entries[1..], bound);
    }
  }

  // ----- A merged tree has no merge keys left ---------------------------------------------------

  // Every mapping reachable through values holds at most one merge key.
  ghost predicate Single(n: Node)
    decreases n, 0
  {
    match n.value
    case Mapping(entries) => SingleEntries(entries)
    case Sequence(items) => forall i :: 0 <= i < |items| ==> Single(items[i])
    case Tagged(_, _, inner) => Single(inner)
    case _ => true
  }

  ghost predicate SingleEntries(entries: seq<Entry>)
    decreases entries, 0
  {
    && (forall i, j :: 0 <= i < j < |entries| ==> !(IsMergeKey(entries[i].0) && IsMergeKey(entries[j].0)))
    && (forall i :: 0 <= i < |entries| ==> SingleEntry(entries[i]))
  }

  ghost predicate SingleEntry(e: Entry)
    decreases e, 0
  {
    Single(e.1)
  }

  /** No mapping reachable through values holds a merge key. */
  ghost predicate MergeFree(n: Node)
    decreases n, 0
  {
    match n.value
    case Mapping(entries) => forall i :: 0 <= i < |entries| ==> MergeFreeEntry(entries[i])
    case Sequence(items) => forall i :: 0 <= i < |items| ==> MergeFree(items[i])
    case Tagged(_, _, inner) => MergeFree(inner)
    case _ => true
  }

  ghost predicate MergeFreeEntry(e: Entry)
    decreases e, 0
  {
    !IsMergeKey(e.0) && MergeFree(e.1)
  }

  lemma {:induction false} SourceValuesAreSingle(e: Entry, source: seq<Entry>)
    requires FromEntries(e, source) && SingleEntries(source)
    ensures Single(e.1)
    decreases source, 0
  {
    var i :| 0 <= i < |source| && (source[i] == e || FromMergeEntry(e, source[i]));
    assert SingleEntry(source[i]);
    if source[i] != e {
      MergeEntryValuesAreSingle(e, source[i]);
    }
  }

  lemma {:induction false} MergeEntryValuesAreSingle(e: Entry, merge: Entry)
    requires FromMergeEntry(e, merge) && SingleEntry(merge)
    ensures Single(e.1)
    decreases merge, 0
  {
    match merge.1.value {
      case Mapping(source) => SourceValuesAreSingle(e, source);
      case Sequence(items) =>
        var i :| 0 <= i < |items| && FromItem(e, items[i]);
        ItemValuesAreSingle(e, items[i]);
    }
  }

  lemma {:induction false} ItemValuesAreSingle(e: Entry, item: Node)
    requires FromItem(e, item) && Single(item)
    ensures Single(e.1)
    decreases item, 0
  {
    SourceValuesAreSingle(e, item.value.entries);
  }

  ghost predicate NoKeys(entries: seq<Entry>) {
    forall e :: e in entries ==> !IsMergeKey(e.0)
  }

  lemma {:induction false} MergeUsesEveryKey(entries: seq<Entry>, depth: nat)
    requires SingleEntries(entries) && MergeEntries(entries, depth).Ok?
    ensures NoKeys(MergeEntries(entries, depth).value)
    decreases entries, 1
  {
    match MergePosition(entries) {
      case None =>
      case Some(i) =>
        var own := RemoveAt(entries, i);
        forall e | e in own ensures !IsMergeKey(e.0) {
          var j :| 0 <= j < |own| && own[j] == e;
          RemoveAtIndex(entries, i, j);
        }
        assert SingleEntry(entries[i]);
        SourceUsesEveryKey(own, entries[i], depth);
    }
  }

  lemma {:induction false} SourceUsesEveryKey(entries: seq<Entry>, merge: Entry, depth: nat)
    requires NoKeys(entries) && SingleEntry(merge) && MergeSource(entries, merge, depth).Ok?
    ensures NoKeys(MergeSource(entries, merge, depth).value)
    decreases merge, 0
  {
    match merge.1.value {
      case Mapping(source) =>
        MergeUsesEveryKey(source, depth + 1);
        CheckedTakesFrom(entries, MergeEntries(source, depth + 1).value);
      case Sequence(items) =>
        ListUsesEveryKey(entries, items, depth + 1);
    }
  }

  lemma {:induction false} ListUsesEveryKey(entries: seq<Entry>, items: seq<Node>, depth: nat)
    requires NoKeys(entries) && MergeList(entries, items, depth).Ok?
    requires forall i :: 0 <= i < |items| ==> Single(items[i])
    ensures NoKeys(MergeList(entries, items, depth).value)
    decreases items, 1
  {
    if items != [] {
      ItemUsesEveryKey(entries, items[0], depth);
      ListUsesEveryKey(MergeItem(entries, items[0], depth).value, items[1..], depth);
    }
  }

  lemma {:induction false} ItemUsesEveryKey(entries: seq<Entry>, item: Node, depth: nat)
    requires NoKeys(entries) && Single(item) && MergeItem(entries, item, depth).Ok?
    ensures NoKeys(MergeItem(entries, item, depth).value)
    decreases item, 0
  {
    MergeUsesEveryKey(item.value.entries, depth);
    CheckedTakesFrom(entries, MergeEntries(item.value.entries, depth).value);
  }

  /** A merged tree has no merge key left, if no mapping started with two. */
  lemma {:induction false} MergedTreeIsMergeFree(n: Node)
    requires Single(n) && MergeTree(Strict, n).Ok?
    ensures MergeFree(MergeTree(Strict, n).value)
    decreases Nesting(n), 0, 0
  {
    VisitDoesNotNest(Strict, n);
    match n.value {
      case Mapping(entries) =>
        var merged := MergeEntries(entries, 0).value;
        MergeUsesEveryKey(entries, 0);
        MergeKeepsOwnAddsSources(entries, 0);
        forall i | 0 <= i < |merged| ensures Single(merged[i].1) && !IsMergeKey(merged[i].0) {
          assert merged[i] in merged;
          SourceValuesAreSingle(merged[i], entries);
        }
        MergedValuesAreMergeFree(merged);
      case Sequence(items) => MergedItemsAreMergeFree(items);
      case Tagged(_, _, inner) => MergedTreeIsMergeFree(inner);
      case _ =>
    }
  }

  lemma {:induction false} MergedValuesAreMergeFree(entries: seq<Entry>)
    requires MergeValues(Strict, entries).Ok?
    requires forall i :: 0 <= i < |entries| ==> Single(entries[i].1) && !IsMergeKey(entries[i].0)
    ensures forall i :: 0 <= i < |entries| ==> MergeFreeEntry(MergeValues(Strict, entries).value[i])
    decreases NestingEntries(entries), 1, |entries|
  {
    if entries != [] {
      var n := |entries| - 1;
      NestingOfEntry(entries, n);
      NestingOfSome(entries[..n], entries);
      MergedTreeIsMergeFree(entries[n].1);
      MergedValuesAreMergeFree(entries[..n]);
    }
  }

  lemma {:induction false} MergedItemsAreMergeFree(items: seq<Node>)
    requires MergeItems(Strict, items).Ok? && forall i :: 0 <= i < |items| ==> Single(items[i])
    ensures forall i :: 0 <= i < |items| ==> MergeFree(MergeItems(Strict, items).value[i])
    decreases NestingItems(items), 1, |items|
  {
    if items != [] {
      var n := |items| - 1;
      NestingOfItem(items, n);
      NestingOfFirst(items, n);
      MergedTreeIsMergeFree(items[n]);
      MergedItemsAreMergeFree(items[..n]);
    }
  }

  // ----- A tree merged by YAML 1.1 rules has no mergeable `<<` left --------------------------------

  /** No merge key with a mergeable payload is reachable through values. */
  ghost predicate Settled(n: Node)
    decreases n, 0
  {
    match n.value
    case Mapping(entries) => forall i :: 0 <= i < |entries| ==> SettledEntry(entries[i])
    case Sequence(items) => forall i :: 0 <= i < |items| ==> Settled(items[i])
    case Tagged(_, _, inner) => Settled(inner)
    case _ => true
  }

  ghost predicate SettledEntry(e: Entry)
    decreases e, 0
  {
    !Y.Merges(e) && Settled(e.1)
  }

  ghost predicate NoMergeEntries(entries: seq<Entry>) {
    forall e :: e in entries ==> !Y.IsMergeEntry(e)
  }

  lemma {:induction false} CollectUsesMergeEntries(entries: seq<Entry>, depth: nat)
    requires Y.Collect(entries, depth).Ok?
    ensures NoMergeEntries(Y.Collect(entries, depth).value.explicit) && NoMergeEntries(Y.Collect(entries, depth).value.merged)
    decreases entries, 0
  {
    hide IsMergeKey, Y.Mergeable;
    if entries != [] {
      var init, last := entries[..|entries| - 1], entries[|entries| - 1];
      CollectUsesMergeEntries(init, depth);
      if Y.IsMergeEntry(last) {
        PayloadUsesMergeEntries(last, depth);
        UpsertTakesFrom(Y.Collect(init, depth).value.merged, Y.Payload(last, depth).value);
      }
    }
  }

  lemma {:induction false} ExpandUsesMergeEntries(entries: seq<Entry>, depth: nat)
    requires Y.Expand(entries, depth).Ok?
    ensures NoMergeEntries(Y.Expand(entries, depth).value)
    decreases entries, 1
  {
    hide Y.IsMergeEntry;
    CollectUsesMergeEntries(entries, depth);
    var split := Y.Collect(entries, depth).value;
    CheckedTakesFrom(split.explicit, split.merged);
  }

  lemma {:induction false} PayloadUsesMergeEntries(merge: Entry, depth: nat)
    requires Y.IsMergeEntry(merge) && Y.Payload(merge, depth).Ok?
    ensures NoMergeEntries(Y.Payload(merge, depth).value)
    decreases merge, 0
  {
    match merge.1.value {
      case Mapping(source) => ExpandUsesMergeEntries(source, depth + 1);
      case Sequence(items) => ExpandedListUsesMergeEntries(items, depth + 1);
    }
  }

  lemma {:induction false} ExpandedListUsesMergeEntries(items: seq<Node>, depth: nat)
    requires forall i :: 0 <= i < |items| ==> items[i].value.Mapping?
    requires Y.ExpandList(items, depth).Ok?
    ensures NoMergeEntries(Y.ExpandList(items, depth).value)
    decreases items, 1
  {
    hide Y.IsMergeEntry;
    if items != [] {
      var n := |items| - 1;
      ExpandedListUsesMergeEntries(items[..n], depth);
      ExpandedItemUsesMergeEntries(items[n], depth);
      CheckedTakesFrom(Y.ExpandList(items[..n], depth).value, Y.ExpandItem(items[n], depth).value);
    }
  }

  lemma {:induction false} ExpandedItemUsesMergeEntries(item: Node, depth: nat)
    requires item.value.Mapping? && Y.ExpandItem(item, depth).Ok?
    ensures NoMergeEntries(Y.ExpandItem(item, depth).value)
    decreases item, 0
  {
    ExpandUsesMergeEntries(item.value.entries, depth);
  }

  // Merging inside a payload does not make it mergeable.
  lemma TreeKeepsKind(policy: MergePolicy, n: Node)
    requires MergeTree(policy, n).Ok?
    ensures MergeTree(policy, n).value.value.Mapping? == n.value.Mapping?
    ensures MergeTree(policy, n).value.value.Sequence? == n.value.Sequence?
    ensures n.value.Sequence? ==> MergeItems(policy, n.value.items).Ok? && MergeTree(policy, n).value.value.items == MergeItems(policy, n.value.items).value
  {
    hide MergeEntries, Y.Expand;
  }

  lemma {:induction false} ItemsKeepKind(policy: MergePolicy, items: seq<Node>)
    requires MergeItems(policy, items).Ok?
    ensures forall i :: 0 <= i < |items| ==> MergeItems(policy, items).value[i].value.Mapping? == items[i].value.Mapping?
    decreases |items|
  {
    hide MergeTree;
    if items != [] {
      var n := |items| - 1;
      ItemsKeepKind(policy, items[..n]);
      TreeKeepsKind(policy, items[n]);
      assert forall i :: 0 <= i < n ==> items[..n][i] == items[i];
    }
  }

  lemma TreeKeepsMergeable(policy: MergePolicy, n: Node)
    requires MergeTree(policy, n).Ok?
    ensures Y.Mergeable(MergeTree(policy, n).value) == Y.Mergeable(n)
  {
    hide MergeTree;
    TreeKeepsKind(policy, n);
    if n.value.Sequence? {
      ItemsKeepKind(policy, n.value.items);
    }
  }

  /** A tree merged by YAML 1.1 rules has no mergeable `<<` left in any mapping
      reachable through values, however many there were. */
  lemma {:induction false} Yaml11TreeIsSettled(n: Node)
    requires MergeTree(Yaml11Compatible, n).Ok?
    ensures Settled(MergeTree(Yaml11Compatible, n).value)
    decreases Nesting(n), 0, 0
  {
    hide Y.Expand, Y.IsMergeEntry;
    VisitDoesNotNest(Yaml11Compatible, n);
    match n.value {
      case Mapping(entries) =>
        ExpandUsesMergeEntries(entries, 0);
        ValuesAreSettled(Y.Expand(entries, 0).value);
      case Sequence(items) => ItemsAreSettled(items);
      case Tagged(_, _, inner) => Yaml11TreeIsSettled(inner);
      case _ =>
    }
  }

  lemma {:induction false} ValuesAreSettled(entries: seq<Entry>)
    requires MergeValues(Yaml11Compatible, entries).Ok? && NoMergeEntries(entries)
    ensures forall i :: 0 <= i < |entries| ==> SettledEntry(MergeValues(Yaml11Compatible, entries).value[i])
    decreases NestingEntries(entries), 1, |entries|
  {
    hide MergeTree, Settled, IsMergeKey, Y.Mergeable, Y.OverMappings;
    if entries != [] {
      var n := |entries| - 1;
      NestingOfEntry(entries, n);
      NestingOfSome(entries[..n], entries);
      Yaml11TreeIsSettled(entries[n].1);
      TreeKeepsMergeable(Yaml11Compatible, entries[n].1);
      assert entries[n] in entries;
      Y.MergesExactly((entries[n].0, MergeTree(Yaml11Compatible, entries[n].1).value));
      ValuesAreSettled(entries[..n]);
    }
  }

  lemma {:induction false} ItemsAreSettled(items: seq<Node>)
    requires MergeItems(Yaml11Compatible, items).Ok?
    ensures forall i :: 0 <= i < |items| ==> Settled(MergeItems(Yaml11Compatible, items).value[i])
    decreases NestingItems(items), 1, |items|
  {
    hide MergeTree, Settled;
    if items != [] {
      var n := |items| - 1;
      NestingOfItem(items, n);
      NestingOfFirst(items, n);
      Yaml11TreeIsSettled(items[n]);
      ItemsAreSettled(items[..n]);
    }
  }
}
