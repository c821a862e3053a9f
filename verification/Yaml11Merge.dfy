// YAML 1.1 merge-key expansion (src/ast.rs): every `<<` counts, later merge keys
// override earlier ones, and a payload that cannot be merged stays as an entry.
module Yaml11Merge {
  import opened Prelude
  import opened Nodes
  import opened KeyIdentity
  import opened EntryLists
  import opened StrictMerge
  import opened NestedKeys

  // ----- The operations ----------------------------------------------------------------

  /** A payload that merges: a mapping, or a list of mappings only. */
  predicate Mergeable(payload: Node) {
    match payload.value
    case Mapping(_) => true
    case Sequence(items) => forall i :: 0 <= i < |items| ==> items[i].value.Mapping?
    case _ => false
  }

  predicate IsMergeEntry(e: Entry) {
    IsMergeKey(e.0) && Mergeable(e.1)
  }

  /** A mapping, or a sequence of any length that holds nothing but mappings. */
  predicate OverMappings(payload: Node) {
    || payload.value.Mapping?
    || (payload.value.Sequence? && forall item :: item in payload.value.items ==> item.value.Mapping?)
  }

  /** A merge key over mappings, the kind of entry that YAML 1.1 merging expands. */
  predicate Merges(e: Entry) {
    IsMergeKey(e.0) && OverMappings(e.1)
  }

  lemma MergesExactly(e: Entry)
    ensures IsMergeEntry(e) <==> Merges(e)
  {
    hide IsMergeKey;
    if e.1.value.Sequence? {
      var items := e.1.value.items;
      assert forall i :: 0 <= i < |items| ==> items[i] in items;
    }
  }

  function UpsertChecked(entries: seq<Entry>, extra: seq<Entry>): Merged
    decreases |extra|
  {
    if extra == [] then Ok(entries)
    else match UpsertChecked(entries, extra[..|extra| - 1])
      case Err(e) => Err(e)
      case Ok(before) =>
        var last := extra[|extra| - 1];
        match KeyPosition(before, last.0)
        case Err(e) => Err(e)
        case Ok(position) => Ok(if position.Some? then before[position.value := last] else before + [last])
  }

  datatype Split = Split(explicit: seq<Entry>, merged: seq<Entry>)

  /** The two vectors of `apply_yaml11_merge_entries` after a prefix of its loop. */
  function Collect(entries: seq<Entry>, depth: nat): Result<Split, Error>
    decreases entries, 0
  {
    if entries == [] then Ok(Split([], []))
    else match Collect(entries[..|entries| - 1], depth)
      case Err(e) => Err(e)
      case Ok(before) =>
        var last := entries[|entries| - 1];
        if IsMergeEntry(last) then
          match Payload(last, depth)
          case Err(e) => Err(e)
          case Ok(source) =>
            match UpsertChecked(before.merged, source)
            case Err(e) => Err(e)
            case Ok(merged) => Ok(before.(merged := merged))
        else Ok(before.(explicit := before.explicit + [last]))
  }

  /** The result of `apply_yaml11_merge_entries`. */
  function Expand(entries: seq<Entry>, depth: nat): Merged
    decreases entries, 1
  {
    match Collect(entries, depth)
    case Err(e) => Err(e)
    case Ok(split) => InsertMissingChecked(split.explicit, split.merged)
  }

  /** `yaml11_merge_entries` of a mergeable payload; `merge` is its entry. */
  function Payload(merge: Entry, depth: nat): Merged
    requires Mergeable(merge.1)
    decreases merge, 0
  {
    if depth + 1 > MAX_DEPTH then Err(DepthExceeded)
    else match merge.1.value
      case Mapping(source) => Expand(source, depth + 1)
      case Sequence(items) => ExpandList(items, depth + 1)
  }

  function ExpandList(items: seq<Node>, depth: nat): Merged
    requires forall i :: 0 <= i < |items| ==> items[i].value.Mapping?
    decreases items, 1
  {
    if items == [] then Ok([])
    else match ExpandList(items[..|items| - 1], depth)
      case Err(e) => Err(e)
      case Ok(before) =>
        match ExpandItem(items[|items| - 1], depth)
        case Err(e) => Err(e)
        case Ok(extra) => InsertMissingChecked(before, extra)
  }

  function ExpandItem(item: Node, depth: nat): Merged
    requires item.value.Mapping?
    decreases item, 0
  {
    Expand(item.value.entries, depth)
  }

  method UpsertNodeEntries(entries: seq<Entry>, extra: seq<Entry>) returns (r: Merged)
    ensures r == UpsertChecked(entries, extra)
  {
    var current := entries;
    for i := 0 to |extra|
      invariant UpsertChecked(entries, extra[..i]) == Ok(current)
    {
      assert extra[..i + 1][..i] == extra[..i];
      match KeyPosition(current, extra[i].0) {
        case Err(e) =>
          UpsertFailsForGood(entries, extra, i + 1);
          return Err(e);
        case Ok(Some(index)) => current := current[index := extra[i]];
        case Ok(None) => current := current + [extra[i]];
      }
    }
    assert extra[..|extra|] == extra;
    return Ok(current);
  }

  lemma {:induction false} UpsertFailsForGood(entries: seq<Entry>, extra: seq<Entry>, i: nat)
    requires i <= |extra| && UpsertChecked(entries, extra[..i]).Err?
    ensures UpsertChecked(entries, extra) == UpsertChecked(entries, extra[..i])
    decreases |extra| - i
  {
    if i == |extra| {
      assert extra[..i] == extra;
    } else {
      assert extra[..i + 1][..i] == extra[..i];
      UpsertFailsForGood(entries, extra, i + 1);
    }
  }

  lemma {:induction false} CollectFailsForGood(entries: seq<Entry>, depth: nat, i: nat)
    requires i <= |entries| && Collect(entries[..i], depth).Err?
    ensures Collect(entries, depth) == Collect(entries[..i], depth)
    decreases |entries| - i
  {
    if i == |entries| {
      assert entries[..i] == entries;
    } else {
      assert entries[..i + 1][..i] == entries[..i];
      CollectFailsForGood(entries, depth, i + 1);
    }
  }

  lemma {:induction false} ListFailsForGood(items: seq<Node>, depth: nat, i: nat)
    requires forall i :: 0 <= i < |items| ==> items[i].value.Mapping?
    requires i <= |items| && ExpandList(items[..i], depth).Err?
    ensures ExpandList(items, depth) == ExpandList(items[..i], depth)
    decreases |items| - i
  {
    if i == |items| {
      assert items[..i] == items;
    } else {
      assert items[..i + 1][..i] == items[..i];
      ListFailsForGood(items, depth, i + 1);
    }
  }

  method ApplyYaml11MergeEntries(entries: seq<Entry>, depth: nat) returns (r: Merged)
    ensures r == Expand(entries, depth)
    decreases entries, 1
  {
    var explicit, merged := [], [];
    for i := 0 to |entries|
      invariant Collect(entries[..i], depth) == Ok(Split(explicit, merged))
    {
      assert entries[..i + 1][..i] == entries[..i];
      var e := entries[i];
      if IsMergeKey(e.0) && Mergeable(e.1) {
        var source := Yaml11MergeEntries(e, depth);
        if source.Err? {
          CollectFailsForGood(entries, depth, i + 1);
          return source;
        }
        var next := UpsertNodeEntries(merged, source.value);
        if next.Err? {
          CollectFailsForGood(entries, depth, i + 1);
          return next;
        }
        merged := next.value;
      } else {
        explicit := explicit + [e];
      }
    }
    assert entries[..|entries|] == entries;
    r := InsertMissingNodeEntries(explicit, merged);
  }

  method Yaml11MergeEntries(merge: Entry, depth: nat) returns (r: Merged)
    requires Mergeable(merge.1)
    ensures r == Payload(merge, depth)
    decreases merge, 0
  {
    var next_depth := depth + 1;
    if next_depth > MAX_DEPTH {
      return Err(DepthExceeded);
    }
    match merge.1.value {
      case Mapping(source) =>
        r := ApplyYaml11MergeEntries(source, next_depth);
      case Sequence(items) =>
        var merged := [];
        for i := 0 to |items|
          invariant ExpandList(items[..i], next_depth) == Ok(merged)
        {
          assert items[..i + 1][..i] == items[..i];
          var extra := ApplyYaml11MergeEntries(items[i].value.entries, next_depth);
          if extra.Err? {
            ListFailsForGood(items, next_depth, i + 1);
            return extra;
          }
          var next := InsertMissingNodeEntries(merged, extra.value);
          if next.Err? {
            ListFailsForGood(items, next_depth, i + 1);
            return next;
          }
          merged := next.value;
        }
        assert items[..|items|] == items;
        return Ok(merged);
    }
  }

  // ----- Failure: only chains of merges deeper than the budget ------------------------------

  /** The longest chain of mergeable `<<` payloads. */
  function MergeDepth(entries: seq<Entry>): nat
    decreases entries, 0
  {
    if entries == [] then 0
    else Max(MergeDepth(entries[..|entries| - 1]), EntryDepth(entries[|entries| - 1]))
  }

  function EntryDepth(e: Entry): nat
    decreases e, 0
  {
    if !Merges(e) then 0
    else match e.1.value
      case Mapping(source) => 1 + MergeDepth(source)
      case Sequence(items) => 1 + ListDepth(items)
  }

  function ListDepth(items: seq<Node>): nat
    decreases items, 1
  {
    if items == [] then 0
    else Max(ListDepth(items[..|items| - 1]), ItemDepth(items[|items| - 1]))
  }

  function ItemDepth(item: Node): nat
    decreases item, 0
  {
    if item.value.Mapping? then MergeDepth(item.value.entries) else 0
  }

  predicate TooDeep(depth: nat, chain: nat) {
    chain > 0 && depth + chain > MAX_DEPTH
  }

  // Failure is the depth error; chains past the budget fail, and when the keys are
  // within the identity limit nothing else does.
  ghost predicate FailsOnlyIf(deep: bool, within: bool, r: Merged) {
    && (r.Err? ==> r.error == DepthExceeded)
    && (deep ==> r.Err?)
    && (within && !deep ==> r.Ok? && FlatKeysHold(InLimit, r.value))
  }

  function Upsert(entries: seq<Entry>, extra: seq<Entry>): seq<Entry>
    decreases |extra|
  {
    if extra == [] then entries
    else UpsertOne(Upsert(entries, extra[..|extra| - 1]), extra[|extra| - 1])
  }

  function UpsertOne(entries: seq<Entry>, e: Entry): seq<Entry> {
    match FirstSame(entries, e.0)
    case Some(i) => entries[i := e]
    case None => entries + [e]
  }

  function FirstSame(entries: seq<Entry>, key: Node): (r: Option<nat>)
    ensures r.Some? ==> r.value < |entries| && ByIdentity(entries[r.value].0, key)
    ensures r.Some? ==> forall i :: 0 <= i < r.value ==> !ByIdentity(entries[i].0, key)
    ensures r.None? ==> forall i :: 0 <= i < |entries| ==> !ByIdentity(entries[i].0, key)
  {
    FirstSameFrom(entries, key, 0)
  }

  function FirstSameFrom(entries: seq<Entry>, key: Node, from: nat): (r: Option<nat>)
    requires from <= |entries|
    ensures r.Some? ==> from <= r.value < |entries| && ByIdentity(entries[r.value].0, key)
    ensures r.Some? ==> forall i :: from <= i < r.value ==> !ByIdentity(entries[i].0, key)
    ensures r.None? ==> forall i :: from <= i < |entries| ==> !ByIdentity(entries[i].0, key)
    decreases |entries| - from
  {
    if from == |entries| then None
    else if ByIdentity(entries[from].0, key) then Some(from)
    else FirstSameFrom(entries, key, from + 1)
  }

  // A lookup that succeeds finds the first entry of the key.
  lemma {:induction false} CheckedFirstSame(entries: seq<Entry>, key: Node, from: nat)
    requires from <= |entries|
    ensures KeyPositionFrom(entries, key, from).Ok? ==> KeyPositionFrom(entries, key, from) == Ok(FirstSameFrom(entries, key, from))
    decreases |entries| - from
  {
    if from < |entries| {
      IdentityFailsExactlyPastLimit(entries[from].0, 1, Some(MAX_DEPTH));
      IdentityFailsExactlyPastLimit(key, 1, Some(MAX_DEPTH));
      CheckedFirstSame(entries, key, from + 1);
    }
  }

  lemma {:induction false} CheckedUpsert(entries: seq<Entry>, extra: seq<Entry>)
    ensures match UpsertChecked(entries, extra)
            case Ok(updated) => updated == Upsert(entries, extra)
            case Err(e) => e == DepthExceeded
    decreases |extra|
  {
    if extra != [] {
      var before, key := Upsert(entries, extra[..|extra| - 1]), extra[|extra| - 1].0;
      CheckedUpsert(entries, extra[..|extra| - 1]);
      CheckedFirstSame(before, key, 0);
      PositionScans(before, key, 0);
    }
  }

  lemma {:induction false} UpsertWithinLimit(entries: seq<Entry>, extra: seq<Entry>)
    requires FlatKeysHold(InLimit, entries) && FlatKeysHold(InLimit, extra)
    ensures UpsertChecked(entries, extra).Ok? && FlatKeysHold(InLimit, Upsert(entries, extra))
    decreases |extra|
  {
    CheckedUpsert(entries, extra);
    if extra != [] {
      var before, key := Upsert(entries, extra[..|extra| - 1]), extra[|extra| - 1].0;
      UpsertWithinLimit(entries, extra[..|extra| - 1]);
      CheckedUpsert(entries, extra[..|extra| - 1]);
      PositionScans(before, key, 0);
      ScanWithin(before, key);
      assert before[0..] == before;
    }
  }

  lemma TooDeepLast(entries: seq<Entry>, depth: nat)
    requires entries != []
    ensures var init, last := entries[..|entries| - 1], entries[|entries| - 1];
            && (TooDeep(depth, MergeDepth(entries)) <==> TooDeep(depth, MergeDepth(init)) || TooDeep(depth, EntryDepth(last)))
            && (!IsMergeEntry(last) ==> !TooDeep(depth, EntryDepth(last)))
  {
    hide IsMergeEntry, Merges;
    MergesExactly(entries[|entries| - 1]);
  }

  ghost predicate CollectFailsOnlyIf(deep: bool, within: bool, r: Result<Split, Error>) {
    && (r.Err? ==> r.error == DepthExceeded)
    && (deep ==> r.Err?)
    && (within && !deep ==> r.Ok? && FlatKeysHold(InLimit, r.value.explicit) && FlatKeysHold(InLimit, r.value.merged))
  }

  lemma {:induction false} CollectFailsOnlyByDepth(entries: seq<Entry>, depth: nat)
    ensures CollectFailsOnlyIf(TooDeep(depth, MergeDepth(entries)), KeysHold(InLimit, entries), Collect(entries, depth))
    decreases entries, 0
  {
    hide InLimit, MergeDepth, EntryDepth, TooDeep;
    if entries != [] {
      var init, last := entries[..|entries| - 1], entries[|entries| - 1];
      assert KeysHold(InLimit, entries) ==> EntryHolds(InLimit, last);
      assert KeysHold(InLimit, entries) ==> KeysHold(InLimit, init);
      TooDeepLast(entries, depth);
      CollectFailsOnlyByDepth(init, depth);
      if IsMergeEntry(last) {
        PayloadFailsOnlyByDepth(last, depth);
        if Collect(init, depth).Ok? && Payload(last, depth).Ok? {
          var merged, source := Collect(init, depth).value.merged, Payload(last, depth).value;
          CheckedUpsert(merged, source);
          if FlatKeysHold(InLimit, merged) && FlatKeysHold(InLimit, source) {
            UpsertWithinLimit(merged, source);
          }
        }
      }
    } else {
      NothingIsDeep(depth);
    }
  }

  lemma NothingIsDeep(depth: nat)
    ensures !TooDeep(depth, MergeDepth([]))
  {
  }

  // An insertion fails by depth alone, and not on keys within the limit.
  lemma InsertionFailsOnlyByDepth(entries: seq<Entry>, extra: seq<Entry>)
    ensures FailsOnlyIf(false, FlatKeysHold(InLimit, entries) && FlatKeysHold(InLimit, extra), InsertMissingChecked(entries, extra))
  {
    InsertionScans(entries, extra);
    if FlatKeysHold(InLimit, entries) && FlatKeysHold(InLimit, extra) {
      CheckedInsertion(InLimit, entries, extra);
    }
  }

  /** YAML 1.1 merging fails with the depth error only; it does on every chain of merge
      keys past the budget, and on no other mapping with keys in the identity limit. */
  lemma {:induction false} ExpandFailsOnlyByDepth(entries: seq<Entry>, depth: nat)
    ensures FailsOnlyIf(TooDeep(depth, MergeDepth(entries)), KeysHold(InLimit, entries), Expand(entries, depth))
    decreases entries, 1
  {
    hide InLimit;
    CollectFailsOnlyByDepth(entries, depth);
    if Collect(entries, depth).Ok? {
      var split := Collect(entries, depth).value;
      InsertionFailsOnlyByDepth(split.explicit, split.merged);
    }
  }

  lemma {:induction false} PayloadFailsOnlyByDepth(merge: Entry, depth: nat)
    requires IsMergeEntry(merge)
    ensures FailsOnlyIf(TooDeep(depth, EntryDepth(merge)), EntryHolds(InLimit, merge), Payload(merge, depth))
    decreases merge, 0
  {
    match merge.1.value {
      case Mapping(source) => ExpandFailsOnlyByDepth(source, depth + 1);
      case Sequence(items) => ListFailsOnlyByDepth(items, depth + 1);
    }
  }

  lemma {:induction false} ListFailsOnlyByDepth(items: seq<Node>, depth: nat)
    requires forall i :: 0 <= i < |items| ==> items[i].value.Mapping?
    ensures FailsOnlyIf(TooDeep(depth, ListDepth(items)), ListHolds(InLimit, items), ExpandList(items, depth))
    decreases items, 1
  {
    hide InLimit;
    if items != [] {
      var init, last := items[..|items| - 1], items[|items| - 1];
      assert ListHolds(InLimit, items) ==> ListHolds(InLimit, init) && ItemHolds(InLimit, last);
      ListFailsOnlyByDepth(init, depth);
      ItemFailsOnlyByDepth(last, depth);
      if ExpandList(init, depth).Ok? && ExpandItem(last, depth).Ok? {
        InsertionFailsOnlyByDepth(ExpandList(init, depth).value, ExpandItem(last, depth).value);
      }
    }
  }

  lemma {:induction false} ItemFailsOnlyByDepth(item: Node, depth: nat)
    requires item.value.Mapping?
    ensures FailsOnlyIf(TooDeep(depth, ItemDepth(item)), ItemHolds(InLimit, item), ExpandItem(item, depth))
    decreases item, 0
  {
    ExpandFailsOnlyByDepth(item.value.entries, depth);
  }

  // ----- Precedence -----------------------------------------------------------------------

  /** The entries that stay: ordinary ones, and literal `<<` entries. */
  function Explicit(entries: seq<Entry>): seq<Entry> {
    if entries == [] then []
    else
      var last := entries[|entries| - 1];
      Explicit(entries[..|entries| - 1]) + if Merges(last) then [] else [last]
  }

  function LookupLast(entries: seq<Entry>, key: Node): Option<Entry> {
    if entries == [] then None
    else if ByIdentity(entries[|entries| - 1].0, key) then Some(entries[|entries| - 1])
    else LookupLast(entries[..|entries| - 1], key)
  }

  function Value(m: Merged): seq<Entry> {
    if m.Ok? then m.value else []
  }

  /** What one mergeable `<<` supplies for a key. A list supplies the entry of its
      first mapping that has the key; a mapping its own last one. */
  function Supplied(merge: Entry, depth: nat, key: Node): Option<Entry>
    requires OverMappings(merge.1)
  {
    match merge.1.value
    case Mapping(source) => LookupLast(Value(Expand(source, depth + 1)), key)
    case Sequence(items) => FirstInList(items, depth + 1, key)
  }

  function FirstInList(items: seq<Node>, depth: nat, key: Node): Option<Entry>
    requires forall item :: item in items ==> item.value.Mapping?
  {
    if items == [] then None
    else
      var found := Lookup(ByIdentity, Value(Expand(items[0].value.entries, depth)), key);
      if found.Some? then found else FirstInList(items[1..], depth, key)
  }

  /** The last mergeable `<<` that supplies the key decides. */
  function LastSupplied(entries: seq<Entry>, depth: nat, key: Node): Option<Entry> {
    if entries == [] then None
    else
      var last := entries[|entries| - 1];
      if Merges(last) && Supplied(last, depth, key).Some? then Supplied(last, depth, key)
      else LastSupplied(entries[..|entries| - 1], depth, key)
  }

  lemma {:induction false} LookupAfterUpdate(entries: seq<Entry>, i: nat, e: Entry, key: Node)
    requires i < |entries| && ByIdentity(entries[i].0, e.0)
    requires forall j :: 0 <= j < i ==> !ByIdentity(entries[j].0, e.0)
    ensures Lookup(ByIdentity, entries[i := e], key)
         == if ByIdentity(e.0, key) then Some(e) else Lookup(ByIdentity, entries, key)
  {
    if i > 0 {
      assert entries[i := e][1..] == entries[1..][i - 1 := e];
      LookupAfterUpdate(entries[1..], i - 1, e, key);
    } else {
      assert entries[i := e][1..] == entries[1..];
    }
  }

  lemma LookupAfterUpsertOne(entries: seq<Entry>, e: Entry, key: Node)
    ensures Lookup(ByIdentity, UpsertOne(entries, e), key)
         == if ByIdentity(e.0, key) then Some(e) else Lookup(ByIdentity, entries, key)
  {
    match FirstSame(entries, e.0) {
      case Some(i) => LookupAfterUpdate(entries, i, e, key);
      case None =>
        LookupConcat(ByIdentity, entries, [e], key);
        LookupFindsKey(ByIdentity, entries, key);
    }
  }

  // An upsert lets the new entries win, the last of them first.
  lemma {:induction false} LookupAfterUpsert(entries: seq<Entry>, extra: seq<Entry>, key: Node)
    ensures Lookup(ByIdentity, Upsert(entries, extra), key)
         == if LookupLast(extra, key).Some? then LookupLast(extra, key) else Lookup(ByIdentity, entries, key)
    decreases |extra|
  {
    if extra != [] {
      LookupAfterUpsert(entries, extra[..|extra| - 1], key);
      LookupAfterUpsertOne(Upsert(entries, extra[..|extra| - 1]), extra[|extra| - 1], key);
    }
  }

  // Without repeated keys, first and last agree.
  lemma {:induction false} LookupLastOfUnique(entries: seq<Entry>, key: Node)
    requires NewKeysFrom(ByIdentity, entries, 0)
    ensures LookupLast(entries, key) == Lookup(ByIdentity, entries, key)
    decreases |entries|
  {
    if entries != [] {
      var n := |entries| - 1;
      var init, last := entries[..n], entries[n];
      assert entries == init + [last];
      forall i, j | 0 <= i < j < n ensures !ByIdentity(init[i].0, init[j].0) {
        assert init[i] == entries[i] && init[j] == entries[j];
      }
      LookupLastOfUnique(init, key);
      LookupConcat(ByIdentity, init, [last], key);
      if ByIdentity(last.0, key) {
        LookupFindsKey(ByIdentity, init, key);
      }
    }
  }

  lemma {:induction false} ListSuppliesFirst(items: seq<Node>, depth: nat, key: Node)
    requires forall i :: 0 <= i < |items| ==> items[i].value.Mapping?
    requires ExpandList(items, depth).Ok?
    ensures Lookup(ByIdentity, ExpandList(items, depth).value, key) == FirstInList(items, depth, key)
    ensures NewKeysFrom(ByIdentity, ExpandList(items, depth).value, 0)
    decreases |items|
  {
    hide Expand, ByIdentity, InsertMissing, InsertMissingChecked, FirstInList, Lookup, Scans;
    if items == [] {
      NothingIsSupplied(depth, key);
    } else {
      var init, last := items[..|items| - 1], items[|items| - 1];
      ListSuppliesFirst(init, depth, key);
      var before, extra := ExpandList(init, depth).value, ExpandItem(last, depth).value;
      InsertionScans(before, extra);
      IdentityIsEquivalence();
      LookupAfterInsert(ByIdentity, before, extra, key);
      InsertMissingAddsNewKeys(ByIdentity, before, extra, 0);
      FirstInListOfPush(init, last, depth, key);
      assert items == init + [last];
    }
  }

  lemma NothingIsSupplied(depth: nat, key: Node)
    ensures FirstInList([], depth, key) == None && Lookup<Node, Node>(ByIdentity, [], key) == None
  {
  }

  lemma {:induction false} FirstInListOfPush(items: seq<Node>, last: Node, depth: nat, key: Node)
    requires last.value.Mapping? && forall i :: 0 <= i < |items| ==> items[i].value.Mapping?
    ensures FirstInList(items + [last], depth, key)
         == if FirstInList(items, depth, key).Some? then FirstInList(items, depth, key)
            else Lookup(ByIdentity, Value(Expand(last.value.entries, depth)), key)
    decreases |items|
  {
    if items == [] {
      assert items + [last] == [last];
    } else {
      assert (items + [last])[1..] == items[1..] + [last];
      FirstInListOfPush(items[1..], last, depth, key);
    }
  }

  lemma PayloadSupplies(merge: Entry, depth: nat, key: Node)
    requires IsMergeEntry(merge) && Payload(merge, depth).Ok?
    ensures LookupLast(Payload(merge, depth).value, key) == Supplied(merge, depth, key)
  {
    match merge.1.value {
      case Mapping(source) =>
      case Sequence(items) =>
        ListSuppliesFirst(items, depth + 1, key);
        LookupLastOfUnique(ExpandList(items, depth + 1).value, key);
    }
  }

  lemma {:induction false} CollectMeaning(entries: seq<Entry>, depth: nat, key: Node)
    requires Collect(entries, depth).Ok?
    ensures Collect(entries, depth).value.explicit == Explicit(entries)
    ensures Lookup(ByIdentity, Collect(entries, depth).value.merged, key) == LastSupplied(entries, depth, key)
    decreases |entries|
  {
    if entries != [] {
      var init, last := entries[..|entries| - 1], entries[|entries| - 1];
      CollectMeaning(init, depth, key);
      if IsMergeEntry(last) {
        PayloadSupplies(last, depth, key);
        CheckedUpsert(Collect(init, depth).value.merged, Payload(last, depth).value);
        LookupAfterUpsert(Collect(init, depth).value.merged, Payload(last, depth).value, key);
      }
    }
  }

  /** Precedence of YAML 1.1 merging: explicit entries stay in front and win, then
      the last mergeable `<<` that supplies the key; no other key is repeated. */
  lemma Yaml11Precedence(entries: seq<Entry>, depth: nat, key: Node)
    requires Expand(entries, depth).Ok?
    ensures var r := Expand(entries, depth).value;
            && Explicit(entries) <= r
            && NewKeysFrom(ByIdentity, r, |Explicit(entries)|)
            && Lookup(ByIdentity, r, key)
               == if Lookup(ByIdentity, Explicit(entries), key).Some? then Lookup(ByIdentity, Explicit(entries), key)
                  else LastSupplied(entries, depth, key)
  {
    CollectMeaning(entries, depth, key);
    var split := Collect(entries, depth).value;
    InsertionScans(split.explicit, split.merged);
    IdentityIsEquivalence();
    LookupAfterInsert(ByIdentity, split.explicit, split.merged, key);
    InsertMissingExtends(ByIdentity, split.explicit, split.merged);
    InsertMissingAddsNewKeys(ByIdentity, split.explicit, split.merged, |split.explicit|);
  }
}
