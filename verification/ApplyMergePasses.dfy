// What passes of `Value::apply_merge` achieve: progress, the fixed points, and
// the depth budget compared with the borrowed value path (src/de.rs).
module ApplyMergePasses {
  import opened Prelude
  import opened Values
  import opened EntryLists
  import opened ApplyMerge
  import N = Nodes

  // ----- Counting merge keys ---------------------------------------------------------------

  function OwnKeys(v: Value): nat {
    if v.Mapping? then CountKeys(v.entries) else 0
  }

  function CountKeys(entries: seq<Entry>): nat {
    if entries == [] then 0
    else CountKeys(entries[..|entries| - 1]) + if IsMergeKey(entries[|entries| - 1].0) then 1 else 0
  }

  /** The merge keys of all mappings reachable through values. */
  function MergeKeys(v: Value): nat
    decreases Size(v), 0, 0
  {
    SizeOfKids(v);
    OwnKeys(v) + SumKeys(Kids(v))
  }

  function SumKeys(values: seq<Value>): nat
    decreases SumSize(values), 1, |values|
  {
    if values == [] then 0 else SumKeys(values[..|values| - 1]) + MergeKeys(values[|values| - 1])
  }

  /** The merge keys of a list of entries and of their values. */
  function EntryKeys(entries: seq<Entry>): nat {
    CountKeys(entries) + SumKeys(ValuesOf(entries))
  }

  function KeysOf(e: Entry): nat {
    (if IsMergeKey(e.0) then 1 else 0) + MergeKeys(e.1)
  }

  lemma KeysOfPush(x: seq<Entry>, e: Entry)
    ensures EntryKeys(x + [e]) == EntryKeys(x) + KeysOf(e)
  {
    hide MergeKeys, IsMergeKey;
    var s := x + [e];
    assert s[..|x|] == x;
    assert ValuesOf(s)[..|x|] == ValuesOf(x);
  }

  lemma {:induction false} KeysOfConcat(x: seq<Entry>, y: seq<Entry>)
    ensures EntryKeys(x + y) == EntryKeys(x) + EntryKeys(y)
    decreases |y|
  {
    hide EntryKeys, KeysOf;
    if y == [] {
      assert x + y == x;
      assert EntryKeys(y) == 0 by { NoEntriesNoKeys(); }
    } else {
      var init, last := y[..|y| - 1], y[|y| - 1];
      assert x + y == (x + init) + [last] && y == init + [last];
      KeysOfConcat(x, init);
      KeysOfPush(x + init, last);
      KeysOfPush(init, last);
    }
  }

  lemma NoEntriesNoKeys()
    ensures EntryKeys([]) == 0
  {
  }

  lemma KeysOfOne(e: Entry)
    ensures EntryKeys([e]) == KeysOf(e)
  {
    hide EntryKeys, KeysOf;
    NoEntriesNoKeys();
    KeysOfPush([], e);
    assert [] + [e] == [e];
  }

  lemma {:induction false} KeysAfterMissing(entries: seq<Entry>, extra: seq<Entry>)
    ensures EntryKeys(InsertMissing(ValueEq, entries, extra)) <= EntryKeys(entries) + EntryKeys(extra)
    decreases extra
  {
    hide ValueEq, MergeKeys, EntryKeys;
    if extra != [] {
      KeysAfterMissing(AddMissing(ValueEq, entries, extra[0]), extra[1..]);
      KeysOfConcat(entries, [extra[0]]);
      KeysOfConcat([extra[0]], extra[1..]);
      assert extra == [extra[0]] + extra[1..];
    }
  }

  lemma {:induction false} KeysAfterList(entries: seq<Entry>, items: seq<Value>)
    requires MergeListInto(entries, items).Ok?
    ensures EntryKeys(MergeListInto(entries, items).value) <= EntryKeys(entries) + SumKeys(items)
    decreases |items|
  {
    hide ValueEq, InsertMissing;
    if items != [] {
      var source := items[0].entries;
      KeysAfterList(InsertMissing(ValueEq, entries, source), items[1..]);
      KeysAfterMissing(entries, source);
      SumKeysFront(items);
    }
  }

  lemma {:induction false} SumKeysFront(items: seq<Value>)
    requires items != []
    ensures SumKeys(items) == MergeKeys(items[0]) + SumKeys(items[1..])
    decreases |items|
  {
    hide MergeKeys;
    var n := |items| - 1;
    if n > 0 {
      SumKeysFront(items[..n]);
      assert items[..n][1..] == items[1..][..n - 1];
    } else {
      assert items[..0] == [] && items[1..] == [];
    }
  }

  lemma KeysAround(x: seq<Entry>, e: Entry, y: seq<Entry>)
    ensures EntryKeys(x + [e] + y) == EntryKeys(x + y) + KeysOf(e)
  {
    hide EntryKeys, KeysOf;
    KeysOfConcat(x, y);
    KeysOfConcat(x + [e], y);
    KeysOfConcat(x, [e]);
    KeysOfOne(e);
  }

  // A visit that merges removes at least the merge key it served.
  lemma VisitRemovesKey(depth: nat, v: Value)
    requires VisitValue(depth, v).Ok?
    ensures OwnKeys(v) > 0 ==> MergeKeys(VisitValue(depth, v).value.value) < MergeKeys(v)
    ensures OwnKeys(v) == 0 ==> VisitValue(depth, v) == Ok(Visit(v, 0))
  {
    hide RemoveAt, InsertMissing, MergeListInto, ValueEq, CountKeys, SumKeys, ValuesOf;
    if v.Mapping? {
      NoPositionNoKeys(v.entries);
      if MergePosition(v.entries).Some? {
        var entries, i := v.entries, MergePosition(v.entries).value;
        SplitAt(entries, i);
        KeysAround(entries[..i], entries[i], entries[i + 1..]);
        match entries[i].1 {
          case Mapping(source) => KeysAfterMissing(RemoveAt(entries, i), source);
          case Sequence(items) => KeysAfterList(RemoveAt(entries, i), items);
        }
      }
    }
  }

  lemma {:induction false} NoPositionNoKeys(entries: seq<Entry>)
    ensures CountKeys(entries) == 0 <==> forall i :: 0 <= i < |entries| ==> !IsMergeKey(entries[i].0)
    decreases |entries|
  {
    hide IsMergeKey;
    if entries != [] {
      var n := |entries| - 1;
      NoPositionNoKeys(entries[..n]);
      assert forall i :: 0 <= i < n ==> entries[..n][i] == entries[i];
    }
  }

  lemma {:induction false} CountIgnoresValues(entries: seq<Entry>, values: seq<Value>)
    requires |values| == |entries|
    ensures CountKeys(WithValues(entries, values)) == CountKeys(entries)
    decreases |entries|
  {
    hide IsMergeKey;
    if entries != [] {
      var n := |entries| - 1;
      CountIgnoresValues(entries[..n], values[..n]);
      assert WithValues(entries, values)[..n] == WithValues(entries[..n], values[..n]);
    }
  }

  lemma KeysWithKids(v: Value, kids: seq<Value>)
    requires |kids| == |Kids(v)|
    ensures MergeKeys(WithKids(v, kids)) == OwnKeys(v) + SumKeys(kids)
  {
    if v.Mapping? {
      CountIgnoresValues(v.entries, kids);
    }
  }

  /** A pass never adds merge keys; it removes some whenever there are any, and it
      changes nothing when there are none. */
  lemma {:induction false} PassMakesProgress(depth: nat, v: Value)
    ensures MergeKeys(v) == 0 ==> Apply(depth, v) == Ok(v)
    ensures Apply(depth, v).Ok? && MergeKeys(v) > 0 ==> MergeKeys(Apply(depth, v).value) < MergeKeys(v)
    decreases Size(v), 0, 0
  {
    hide VisitValue, Kids, WithKids, OwnKeys;
    var visited := VisitValue(depth, v);
    if visited.Ok? {
      var visit := visited.value;
      VisitRemovesKey(depth, v);
      VisitDoesNotGrow(depth, v);
      SizeOfKids(visit.value);
      KidsMakeProgress(visit, Kids(visit.value));
      WithKidsSame(visit.value);
      var kids := ApplyKids(visit, Kids(visit.value));
      if kids.Ok? {
        KeysWithKids(visit.value, kids.value);
      }
    } else {
      VisitFailsOnKeys(depth, v);
    }
  }

  lemma VisitFailsOnKeys(depth: nat, v: Value)
    requires VisitValue(depth, v).Err?
    ensures OwnKeys(v) > 0
  {
    NoPositionNoKeys(v.entries);
  }

  lemma {:induction false} KidsMakeProgress(visit: Visit, kids: seq<Value>)
    ensures SumKeys(kids) == 0 ==> ApplyKids(visit, kids) == Ok(kids)
    ensures ApplyKids(visit, kids).Ok? && SumKeys(kids) > 0 ==> SumKeys(ApplyKids(visit, kids).value) < SumKeys(kids)
    ensures ApplyKids(visit, kids).Ok? ==> SumKeys(ApplyKids(visit, kids).value) <= SumKeys(kids)
    decreases SumSize(kids), 1, |kids|
  {
    hide Apply, MergeKeys, KidDepth;
    if kids != [] {
      var n := |kids| - 1;
      PassMakesProgress(KidDepth(visit, n), kids[n]);
      KidsMakeProgress(visit, kids[..n]);
      assert kids[..n] + [kids[n]] == kids;
      var r := ApplyKids(visit, kids);
      if r.Ok? {
        assert r.value[..n] == ApplyKids(visit, kids[..n]).value;
      }
    }
  }

  /** A pass is the identity exactly on values without reachable merge keys. */
  lemma PassFixedPoints(v: Value)
    ensures Apply(0, v) == Ok(v) <==> MergeKeys(v) == 0
  {
    PassMakesProgress(0, v);
  }

  function Passes(n: nat, v: Value): Result<Value, Error> {
    if n == 0 then Ok(v)
    else match Apply(0, v)
      case Err(e) => Err(e)
      case Ok(w) => Passes(n - 1, w)
  }

  /** Repeating passes ends: as many as there are merge keys leave none, or fail. */
  lemma {:induction false} RepeatedPassesEnd(n: nat, v: Value)
    requires n >= MergeKeys(v) && Passes(n, v).Ok?
    ensures MergeKeys(Passes(n, v).value) == 0
    decreases n
  {
    hide MergeKeys, Apply;
    PassMakesProgress(0, v);
    if n > 0 {
      RepeatedPassesEnd(n - 1, Apply(0, v).value);
    }
  }

  const FIVE: Value := Number(Unsigned(5))
  const ONCE: Value := Mapping([(String("<<"), FIVE)])
  const TWICE: Value := Mapping([(String("<<"), ONCE)])

  lemma VisitTwice()
    ensures VisitValue(0, TWICE) == Ok(Visit(ONCE, 2))
    ensures VisitValue(0, ONCE) == Err(N.SourceIsScalar)
    ensures Kids(ONCE) == [FIVE] && MergeKeys(FIVE) == 0
  {
    hide ValueEq;
    assert RemoveAt(TWICE.entries, 0) == [];
    assert InsertMissing(ValueEq, [], ONCE.entries) == ONCE.entries;
  }

  /** One pass is not enough in general: `{<<: {<<: 5}}` passes once, then fails. */
  lemma SecondPassMayFail()
    ensures Apply(0, TWICE) == Ok(ONCE) && Apply(0, ONCE) == Err(N.SourceIsScalar)
  {
    hide VisitValue, ApplyKids, WithKids, Kids, MergeKeys;
    VisitTwice();
    NothingToMerge([FIVE]);
    KidsMakeProgress(Visit(ONCE, 2), [FIVE]);
    WithKidsSame(ONCE);
  }

  // ----- The borrowed path over values -----------------------------------------------------------

  /** `merged_value_ref_entries_at_depth`, with the plain entries when nothing merges. */
  function RefView(entries: seq<Entry>, depth: nat): Result<seq<Entry>, Error>
    decreases entries, 0
  {
    match MergePosition(entries)
    case None => Ok(entries)
    case Some(i) =>
      match RefMergeEntries(entries[i], depth)
      case Err(e) => Err(e)
      case Ok(extra) => Ok(InsertMissing(ValueEq, RemoveAt(entries, i), extra))
  }

  /** `value_ref_merge_entries`; `merge` is the merge entry of the mapping. */
  function RefMergeEntries(merge: Entry, depth: nat): Result<seq<Entry>, Error>
    decreases merge, 0
  {
    if depth + 1 > MAX_DEPTH then Err(N.DepthExceeded)
    else match merge.1
      case Mapping(source) => RefView(source, depth + 1)
      case Sequence(items) => RefList([], items, depth + 1)
      case Tagged(_, _) => Err(N.SourceIsTagged)
      case _ => Err(N.SourceIsScalar)
  }

  function RefList(entries: seq<Entry>, items: seq<Value>, depth: nat): Result<seq<Entry>, Error>
    decreases items, 1
  {
    if items == [] then Ok(entries)
    else match RefItem(items[0], depth)
      case Err(e) => Err(e)
      case Ok(extra) => RefList(InsertMissing(ValueEq, entries, extra), items[1..], depth)
  }

  function RefItem(item: Value, depth: nat): Result<seq<Entry>, Error>
    decreases item, 0
  {
    match item
    case Mapping(source) => RefView(source, depth)
    case Sequence(_) => Err(N.ListItemIsSequence)
    case Tagged(_, _) => Err(N.SourceIsTagged)
    case _ => Err(N.ListItemIsScalar)
  }

  // ----- Chains ---------------------------------------------------------------------------------

  // A chain of `n` plain `<<` mappings: every link has one merge key, the string
  // `<<`, whose value is the rest of the chain; all other values merge nothing.
  ghost predicate IsChain(n: nat, entries: seq<Entry>) {
    if n == 0 then EntryKeys(entries) == 0
    else
      && MergePosition(entries).Some?
      && var i := MergePosition(entries).value;
      && entries[i].0 == String("<<")
      && EntryKeys(RemoveAt(entries, i)) == 0
      && entries[i].1.Mapping?
      && IsChain(n - 1, entries[i].1.entries)
  }

  predicate ChainTooLong(n: nat, depth: nat) {
    n > 0 && depth + n > MAX_DEPTH
  }

  lemma EmptyChain(entries: seq<Entry>)
    requires IsChain(0, entries)
    ensures MergePosition(entries).None?
  {
    NoPositionNoKeys(entries);
  }

  lemma {:induction false} RefRejectsLongChains(n: nat, entries: seq<Entry>, depth: nat)
    requires IsChain(n, entries)
    ensures RefView(entries, depth).Err? <==> ChainTooLong(n, depth)
    ensures RefView(entries, depth).Err? ==> RefView(entries, depth).error == N.DepthExceeded
    decreases n
  {
    hide InsertMissing, IsMergeKey, EntryKeys;
    if n == 0 {
      EmptyChain(entries);
    } else {
      RefRejectsLongChains(n - 1, entries[MergePosition(entries).value].1.entries, depth + 1);
    }
  }

  lemma {:induction false} NoKeysInside(values: seq<Value>)
    requires SumKeys(values) == 0
    ensures forall i :: 0 <= i < |values| ==> MergeKeys(values[i]) == 0
    decreases |values|
  {
    hide MergeKeys;
    if values != [] {
      NoKeysInside(values[..|values| - 1]);
      assert forall i :: 0 <= i < |values| - 1 ==> values[..|values| - 1][i] == values[i];
    }
  }

  // With one kid that may merge, that kid decides whether the pass fails.
  lemma {:induction false} OneKidDecides(visit: Visit, kids: seq<Value>, m: nat)
    requires m < |kids| && forall i :: 0 <= i < |kids| && i != m ==> MergeKeys(kids[i]) == 0
    ensures ApplyKids(visit, kids).Err? <==> Apply(KidDepth(visit, m), kids[m]).Err?
    decreases |kids|
  {
    hide MergeKeys, Apply, KidDepth;
    var n := |kids| - 1;
    PassMakesProgress(KidDepth(visit, n), kids[n]);
    if m < n {
      OneKidDecides(visit, kids[..n], m);
    } else {
      NothingToMerge(kids[..n]);
      KidsMakeProgress(visit, kids[..n]);
    }
  }

  lemma {:induction false} NothingToMerge(kids: seq<Value>)
    requires forall i :: 0 <= i < |kids| ==> MergeKeys(kids[i]) == 0
    ensures SumKeys(kids) == 0
    decreases |kids|
  {
    hide MergeKeys;
    if kids != [] {
      NothingToMerge(kids[..|kids| - 1]);
    }
  }

  // The first entry with a key that is not there yet is inserted.
  lemma {:induction false} FirstOfKeyIsInserted(entries: seq<Entry>, extra: seq<Entry>, j: nat)
    requires j < |extra| && !HasKey(ValueEq, entries, extra[j].0)
    requires forall i :: 0 <= i < j ==> !ValueEq(extra[i].0, extra[j].0)
    ensures extra[j] in InsertMissing(ValueEq, entries, extra)
    decreases extra
  {
    hide ValueEq;
    var e := extra[0];
    var next := AddMissing(ValueEq, entries, e);
    if j == 0 {
      InsertMissingExtends(ValueEq, next, extra[1..]);
      assert next[|entries|] == e;
      assert e in next;
    } else {
      assert forall i :: 0 <= i < j - 1 ==> extra[1..][i] == extra[i + 1];
      FirstOfKeyIsInserted(next, extra[1..], j - 1);
    }
  }

  // Flattening one link: the residual link is the only merging left.
  lemma LinkAfterInsert(own: seq<Entry>, source: seq<Entry>, j: nat)
    requires EntryKeys(own) == 0 && MergePosition(source) == Some(j) && source[j].0 == String("<<")
    requires EntryKeys(RemoveAt(source, j)) == 0
    ensures var merged := InsertMissing(ValueEq, own, source);
            exists m :: 0 <= m < |merged| && merged[m] == source[j] && EntryKeys(RemoveAt(merged, m)) == 0
  {
    hide EntryKeys, InsertMissing, MergeKeys, CountKeys;
    var link, merged := source[j], InsertMissing(ValueEq, own, source);
    assert forall i :: 0 <= i < |own| ==> !IsMergeKey(own[i].0) by {
      hide *;
      EntryKeysZero(own);
    }
    FirstOfKeyIsInserted(own, source, j);
    var m :| 0 <= m < |merged| && merged[m] == link;
    SplitAt(source, j);
    SplitAt(merged, m);
    KeysAround(source[..j], link, source[j + 1..]);
    KeysAround(merged[..m], link, merged[m + 1..]);
    KeysAfterMissing(own, source);
  }

  lemma EntryKeysZero(entries: seq<Entry>)
    requires EntryKeys(entries) == 0
    ensures forall i :: 0 <= i < |entries| ==> !IsMergeKey(entries[i].0) && MergeKeys(entries[i].1) == 0
  {
    hide MergeKeys, IsMergeKey;
    NoPositionNoKeys(entries);
    NoKeysInside(ValuesOf(entries));
  }

  // The two links a visit consumes; the rest is queued two levels deeper.
  lemma PassOverTwoLinks(n: nat, entries: seq<Entry>, depth: nat) returns (rest: seq<Entry>)
    requires IsChain(n, entries) && n >= 2
    ensures IsChain(n - 2, rest)
    ensures Apply(depth, Mapping(entries)).Err? <==> (depth + 1 > MAX_DEPTH || Apply(depth + 2, Mapping(rest)).Err?)
  {
    hide InsertMissing, EntryKeys, RemoveAt, Apply, MergeKeys, ApplyKids, MergePosition, Kids;
    var i := MergePosition(entries).value;
    var own, source := RemoveAt(entries, i), entries[i].1.entries;
    assert IsChain(n - 1, source);
    var j := MergePosition(source).value;
    rest := source[j].1.entries;
    var merged := InsertMissing(ValueEq, own, source);
    ApplyOfLink(depth, entries);
    LinkAfterInsert(own, source, j);
    var m :| 0 <= m < |merged| && merged[m] == source[j] && EntryKeys(RemoveAt(merged, m)) == 0;
    OnlyLinkDecides(Visit(Mapping(merged), depth + 2), merged, m);
  }

  lemma PassOverLastLink(entries: seq<Entry>, depth: nat)
    requires IsChain(1, entries)
    ensures Apply(depth, Mapping(entries)).Err? <==> depth + 1 > MAX_DEPTH
  {
    hide InsertMissing, EntryKeys, RemoveAt, Apply, MergeKeys, ApplyKids;
    var i := MergePosition(entries).value;
    var own, source := RemoveAt(entries, i), entries[i].1.entries;
    assert IsChain(0, source);
    ApplyOfLink(depth, entries);
    KeysAfterMissing(own, source);
    var merged := InsertMissing(ValueEq, own, source);
    NoKeysNoFailure(Visit(Mapping(merged), depth + 2), merged);
  }

  lemma EmptyChainPasses(entries: seq<Entry>, depth: nat)
    requires IsChain(0, entries)
    ensures Apply(depth, Mapping(entries)).Ok?
  {
    hide Apply, SumKeys;
    PassMakesProgress(depth, Mapping(entries));
  }

  // A pass walks a chain two links at a time; from an even depth it fails
  // exactly on the chains that exceed the budget.
  lemma {:induction false} PassRejectsLongChains(n: nat, entries: seq<Entry>, depth: nat)
    requires IsChain(n, entries) && depth % 2 == 0
    ensures Apply(depth, Mapping(entries)).Err? <==> ChainTooLong(n, depth)
    decreases n
  {
    hide Apply, IsChain;
    if n == 0 {
      EmptyChainPasses(entries, depth);
    } else if n == 1 {
      PassOverLastLink(entries, depth);
    } else {
      var rest := PassOverTwoLinks(n, entries, depth);
      PassRejectsLongChains(n - 2, rest, depth + 2);
    }
  }

  lemma NoKeysNoFailure(visit: Visit, merged: seq<Entry>)
    requires visit.value == Mapping(merged) && EntryKeys(merged) == 0
    ensures ApplyKids(visit, Kids(visit.value)).Ok?
  {
    hide MergeKeys, ApplyKids;
    KidsMakeProgress(visit, Kids(visit.value));
  }

  lemma OnlyLinkDecides(visit: Visit, merged: seq<Entry>, m: nat)
    requires visit.value == Mapping(merged) && m < |merged| && IsMergeKey(merged[m].0)
    requires EntryKeys(RemoveAt(merged, m)) == 0
    ensures ApplyKids(visit, Kids(visit.value)).Err? <==> Apply(visit.residual_depth, merged[m].1).Err?
  {
    hide MergeKeys, Apply, ApplyKids, EntryKeys, IsMergeKey;
    var kids := ValuesOf(merged);
    EntryKeysZero(RemoveAt(merged, m));
    forall i | 0 <= i < |kids| && i != m ensures MergeKeys(kids[i]) == 0 {
      var k := if i < m then i else i - 1;
      RemoveAtIndex(merged, m, k);
      assert RemoveAt(merged, m)[k] == merged[i];
    }
    OneKidDecides(visit, kids, m);
  }

  lemma ApplyOfLink(depth: nat, entries: seq<Entry>)
    requires MergePosition(entries).Some? && entries[MergePosition(entries).value].1.Mapping?
    ensures var i := MergePosition(entries).value;
            var merged := Mapping(InsertMissing(ValueEq, RemoveAt(entries, i), entries[i].1.entries));
            Apply(depth, Mapping(entries)).Err? <==>
            (depth + 1 > MAX_DEPTH || ApplyKids(Visit(merged, depth + 2), Kids(merged)).Err?)
  {
    hide InsertMissing, RemoveAt, ApplyKids, Kids;
  }
}
