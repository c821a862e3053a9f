// One pass of `Value::apply_merge` over values whose mappings have at most one merge
// key: chains that fit pass, and what is simple stays simple.
module ApplyMergeExact {
  import opened Prelude
  import opened Values
  import opened EntryLists
  import opened ApplyMerge
  import opened ApplyMergePasses
  import opened ApplyMergeRepeats
  import opened ApplyMergeChains

  // ----- The values ---------------------------------------------------------------------------

  predicate NotAList(v: Value) {
    !v.Sequence?
  }

  /** At most one merge key, no list behind it, and no repeated key. */
  ghost predicate Simple(v: Value) {
    v.Mapping? ==> CountKeys(v.entries) <= 1 && PayloadsAre(NotAList)(v) && UniqueKeys(v.entries)
  }

  predicate ChainFits(v: Value) {
    Chain(v) <= MAX_DEPTH
  }

  // ----- Counting merge keys --------------------------------------------------------------------

  lemma {:induction false} CountConcat(x: seq<Entry>, y: seq<Entry>)
    ensures CountKeys(x + y) == CountKeys(x) + CountKeys(y)
    decreases |y|
  {
    hide IsMergeKey;
    if y == [] {
      assert x + y == x;
    } else {
      var n := |y| - 1;
      assert (x + y)[..|x| + n] == x + y[..n];
      CountConcat(x, y[..n]);
    }
  }

  lemma CountOne(e: Entry)
    ensures CountKeys([e]) == if IsMergeKey(e.0) then 1 else 0
  {
    hide IsMergeKey;
    assert [e][..0] == [];
  }

  lemma CountWithout(entries: seq<Entry>, i: nat)
    requires i < |entries|
    ensures CountKeys(entries) == CountKeys(RemoveAt(entries, i)) + if IsMergeKey(entries[i].0) then 1 else 0
  {
    hide IsMergeKey, CountKeys;
    SplitAt(entries, i);
    CountConcat(entries[..i] + [entries[i]], entries[i + 1..]);
    CountConcat(entries[..i], [entries[i]]);
    CountConcat(entries[..i], entries[i + 1..]);
    CountOne(entries[i]);
  }

  lemma {:induction false} CountAfterInsert(entries: seq<Entry>, extra: seq<Entry>)
    ensures CountKeys(InsertMissing(ValueEq, entries, extra)) <= CountKeys(entries) + CountKeys(extra)
    decreases |extra|
  {
    hide IsMergeKey, CountKeys, ValueEq;
    if extra != [] {
      CountAfterInsert(AddMissing(ValueEq, entries, extra[0]), extra[1..]);
      CountConcat(entries, [extra[0]]);
      CountConcat([extra[0]], extra[1..]);
      assert extra == [extra[0]] + extra[1..];
    }
  }

  // With one merge key, there is none elsewhere.
  lemma OnlyKey(entries: seq<Entry>, i: nat, j: nat)
    requires CountKeys(entries) <= 1 && i < |entries| && j < |entries| && i != j
    ensures !(IsMergeKey(entries[i].0) && IsMergeKey(entries[j].0))
  {
    hide IsMergeKey, CountKeys;
    CountWithout(entries, i);
    var rest := RemoveAt(entries, i);
    NoPositionNoKeys(rest);
    var k := if j < i then j else j - 1;
    RemoveAtIndex(entries, i, k);
    assert rest[k] == entries[j];
  }

  lemma OthersAreOrdinary(entries: seq<Entry>, i: nat)
    requires CountKeys(entries) <= 1 && i < |entries| && IsMergeKey(entries[i].0)
    ensures CountKeys(RemoveAt(entries, i)) == 0
    ensures forall e :: e in RemoveAt(entries, i) ==> !IsMergeKey(e.0)
  {
    hide IsMergeKey, CountKeys;
    CountWithout(entries, i);
    NoPositionNoKeys(RemoveAt(entries, i));
  }

  // ----- A visit that merges ---------------------------------------------------------------------

  // The visit of a simple mapping with a merge key joins two levels.
  lemma JoinedLevels(depth: nat, entries: seq<Entry>, i: nat)
    requires Simple(Mapping(entries)) && MergePosition(entries) == Some(i) && VisitValue(depth, Mapping(entries)).Ok?
    ensures i < |entries| && IsMergeKey(entries[i].0) && entries[i].1.Mapping?
    ensures VisitValue(depth, Mapping(entries))
         == Ok(Visit(Mapping(InsertMissing(ValueEq, RemoveAt(entries, i), entries[i].1.entries)), depth + 2))
    ensures depth + 1 <= MAX_DEPTH
    ensures forall e :: e in RemoveAt(entries, i) ==> !IsMergeKey(e.0)
  {
    hide InsertMissing, IsMergeKey, CountKeys;
    OthersAreOrdinary(entries, i);
    assert NotAList(entries[i].1);
  }

  // ----- Nothing to merge ------------------------------------------------------------------------

  lemma {:induction false} QuietIsEasy(v: Value)
    requires MergeKeys(v) == 0
    ensures MappingPayloads(v) && Everywhere(ChainFits, v)
    decreases Size(v)
  {
    hide IsMergeKey, Chain, CountKeys, SumKeys;
    NoKeysInside(Kids(v));
    forall i | 0 <= i < |Kids(v)|
      ensures KidIsSmaller(v, i) && MappingPayloads(Kids(v)[i]) && Everywhere(ChainFits, Kids(v)[i])
    {
      assert KidIsSmaller(v, i);
      QuietIsEasy(Kids(v)[i]);
    }
    if v.Mapping? {
      NoPositionNoKeys(v.entries);
      ChainIsLongest(v.entries, 0);
    }
    assert Chain(v) == 0 by { ChainOfQuiet(v); }
  }

  lemma ChainOfQuiet(v: Value)
    requires v.Mapping? ==> EntriesChain(v.entries) <= 0
    ensures Chain(v) == 0
  {
  }

  lemma KidOf(p: Test, v: Value, i: nat)
    requires Everywhere(p, v) && i < |Kids(v)|
    ensures Everywhere(p, Kids(v)[i]) && Size(Kids(v)[i]) < Size(v)
  {
    assert KidIsSmaller(v, i);
  }

  lemma EntryOf(p: Test, entries: seq<Entry>, e: Entry)
    requires Everywhere(p, Mapping(entries)) && e in entries
    ensures Everywhere(p, e.1) && Size(e.1) < Size(Mapping(entries))
  {
    var i :| 0 <= i < |entries| && entries[i] == e;
    KidOf(p, Mapping(entries), i);
  }

  // ----- A first pass succeeds exactly on chains that fit ---------------------------------------------

  ghost predicate DepthFits(depth: nat, chain: nat) {
    chain > 0 ==> depth + chain <= MAX_DEPTH
  }

  // Behind the residual merge key two links are gone.
  lemma TwoLinksLess(entries: seq<Entry>, i: nat, e: Entry)
    requires i < |entries| && IsMergeKey(entries[i].0) && entries[i].1.Mapping?
    requires e in entries[i].1.entries && IsMergeKey(e.0)
    ensures 2 + Chain(e.1) <= Chain(Mapping(entries))
  {
    hide IsMergeKey, EntriesChain;
    assert entries[i] in entries;
    LinkShortens(entries, entries[i]);
    LinkShortens(entries[i].1.entries, e);
  }

  predicate OneMergeKey(v: Value) {
    v.Mapping? ==> CountKeys(v.entries) <= 1
  }

  lemma JoinedKey(entries: seq<Entry>, i: nat, e: Entry)
    requires CountKeys(entries) <= 1 && i < |entries| && IsMergeKey(entries[i].0) && entries[i].1.Mapping?
    requires e in InsertMissing(ValueEq, RemoveAt(entries, i), entries[i].1.entries)
    ensures e in RemoveAt(entries, i) || e in entries[i].1.entries
    ensures IsMergeKey(e.0) ==> e in entries[i].1.entries
  {
    hide IsMergeKey, InsertMissing, CountKeys;
    OthersAreOrdinary(entries, i);
    InsertMissingTakesFrom(ValueEq, RemoveAt(entries, i), entries[i].1.entries);
  }

  lemma {:induction false} FittingPasses(depth: nat, v: Value)
    requires Everywhere(OneMergeKey, v) && MappingPayloads(v) && Everywhere(ChainFits, v) && DepthFits(depth, Chain(v))
    ensures Apply(depth, v).Ok?
    decreases Size(v), 0
  {
    hide Apply, Chain, Size, VisitValue, Everywhere;
    if v.Mapping? {
      FittingEntriesPass(depth, v.entries);
    } else {
      OtherPass(depth, v);
      forall i | 0 <= i < |Kids(v)| ensures Apply(0, Kids(v)[i]).Ok? {
        KidOf(OneMergeKey, v, i);
        KidOf(PayloadsAre(IsMapping), v, i);
        KidOf(ChainFits, v, i);
        Here(ChainFits, Kids(v)[i]);
        FittingPasses(0, Kids(v)[i]);
      }
    }
  }

  lemma Here(p: Test, v: Value)
    requires Everywhere(p, v)
    ensures p(v)
  {
  }

  lemma {:induction false} FittingEntriesPass(depth: nat, entries: seq<Entry>)
    requires var v := Mapping(entries);
             Everywhere(OneMergeKey, v) && MappingPayloads(v) && Everywhere(ChainFits, v) && DepthFits(depth, Chain(v))
    ensures Apply(depth, Mapping(entries)).Ok?
    decreases Size(Mapping(entries)), 0, 0
  {
    hide Apply, Chain, Size, VisitValue, IsMergeKey, Belongs, CountKeys, Everywhere, MergePosition;
    var payloads := PayloadsAre(IsMapping);
    Here(payloads, Mapping(entries));
    Here(OneMergeKey, Mapping(entries));
    VisitSucceeds(depth, entries);
    if MergePosition(entries).Some? { MergeKeyIsALink(entries); }
    MappingPass(depth, entries);
    VisitBelongs(payloads, depth, entries);
    VisitBelongs(ChainFits, depth, entries);
    VisitBelongs(OneMergeKey, depth, entries);
    var visit := VisitValue(depth, Mapping(entries)).value;
    var merged := visit.value.entries;
    forall i | 0 <= i < |merged| ensures EntryPass(visit.residual_depth, merged[i]).Ok? {
      var e := merged[i];
      assert e in merged;
      EntryIsEverywhere(payloads, e);
      EntryIsEverywhere(ChainFits, e);
      EntryIsEverywhere(OneMergeKey, e);
      Here(ChainFits, e.1);
      VisitedIsSmaller(depth, entries, i);
      if IsMergeKey(e.0) {
        ResidualKey(depth, entries, e);
        assert visit.residual_depth == depth + 2;
        FittingPasses(visit.residual_depth, e.1);
      } else {
        FittingPasses(0, e.1);
      }
    }
  }

  lemma ResidualKey(depth: nat, entries: seq<Entry>, e: Entry)
    requires CountKeys(entries) <= 1 && PayloadsAre(IsMapping)(Mapping(entries)) && VisitValue(depth, Mapping(entries)).Ok?
    requires VisitValue(depth, Mapping(entries)).value.value.Mapping? && e in VisitValue(depth, Mapping(entries)).value.value.entries
    requires IsMergeKey(e.0)
    ensures 2 + Chain(e.1) <= Chain(Mapping(entries)) && VisitValue(depth, Mapping(entries)).value.residual_depth == depth + 2
  {
    hide IsMergeKey, InsertMissing, CountKeys, Chain;
    VisitedEntry(depth, entries, e);
    var i := MergePosition(entries).value;
    assert IsMapping(entries[i].1);
    JoinedKey(entries, i, e);
    TwoLinksLess(entries, i, e);
  }

  /** If no mapping has two merge keys, every payload is a mapping and no chain is
      longer than 128, then any number of passes succeeds. */
  lemma FittingValuesPass(n: nat, v: Value)
    requires Everywhere(OneMergeKey, v) && MappingPayloads(v) && Everywhere(ChainFits, v)
    ensures Passes(n, v).Ok?
  {
    Here(ChainFits, v);
    FittingPasses(0, v);
    FirstPassDecides(n, v);
  }

  lemma VisitOfMapping(depth: nat, entries: seq<Entry>)
    requires VisitValue(depth, Mapping(entries)).Ok?
    ensures VisitValue(depth, Mapping(entries)).value.value.Mapping?
  {
    hide InsertMissing, IsMergeKey;
  }

  // ----- A pass keeps values simple --------------------------------------------------------------------

  lemma PassKeepsKind(depth: nat, v: Value)
    requires Apply(depth, v).Ok?
    ensures Apply(depth, v).value.Mapping? == v.Mapping? && Apply(depth, v).value.Sequence? == v.Sequence?
  {
    hide Apply;
    ApplyAt(depth, v);
  }

  lemma PassedMapping(depth: nat, entries: seq<Entry>)
    requires Apply(depth, Mapping(entries)).Ok?
    ensures Apply(depth, Mapping(entries)).value.Mapping? && VisitValue(depth, Mapping(entries)).Ok?
  {
    hide Apply, VisitValue;
    ApplyAt(depth, Mapping(entries));
    MappingPass(depth, entries);
  }

  lemma SameKeysSameCount(x: seq<Entry>, y: seq<Entry>)
    requires |x| == |y| && forall i :: 0 <= i < |x| ==> x[i].0 == y[i].0
    ensures CountKeys(x) == CountKeys(y)
    ensures MergePosition(x) == MergePosition(y)
    ensures UniqueKeys(x) ==> UniqueKeys(y)
  {
    hide IsMergeKey, ValueEq;
    CountIgnoresValues(x, ValuesOf(y));
    assert WithValues(x, ValuesOf(y)) == y;
    SamePosition(x, y);
  }

  lemma {:induction false} SamePosition(x: seq<Entry>, y: seq<Entry>)
    requires |x| == |y| && forall i :: 0 <= i < |x| ==> x[i].0 == y[i].0
    ensures MergePosition(x) == MergePosition(y)
  {
    hide IsMergeKey;
    if x != [] { SamePosition(x[1..], y[1..]); }
  }

  lemma JoinedIsSingle(entries: seq<Entry>, i: nat)
    requires Simple(Mapping(entries)) && MergePosition(entries) == Some(i) && entries[i].1.Mapping? && Simple(entries[i].1)
    ensures var merged := InsertMissing(ValueEq, RemoveAt(entries, i), entries[i].1.entries);
            CountKeys(merged) <= 1 && UniqueKeys(merged)
  {
    hide InsertMissing, IsMergeKey, ValueEq, CountKeys;
    var own, source := RemoveAt(entries, i), entries[i].1.entries;
    OthersAreOrdinary(entries, i);
    CountAfterInsert(own, source);
    forall a, b | 0 <= a < b < |own| ensures !ValueEq(own[a].0, own[b].0) {
      RemoveAtIndex(entries, i, a);
      RemoveAtIndex(entries, i, b);
    }
    InsertMissingAddsNewKeys(ValueEq, own, source, 0);
  }

  lemma PayloadIsSimple(entries: seq<Entry>, i: nat)
    requires Everywhere(Simple, Mapping(entries)) && i < |entries|
    ensures Everywhere(Simple, entries[i].1) && Simple(entries[i].1) && Size(entries[i].1) < Size(Mapping(entries))
  {
    hide Simple, Size;
    assert entries[i] in entries;
    EntryOf(Simple, entries, entries[i]);
    Here(Simple, entries[i].1);
  }

  lemma {:induction false} PassKeepsSimple(depth: nat, v: Value)
    requires Everywhere(Simple, v) && Apply(depth, v).Ok?
    ensures Everywhere(Simple, Apply(depth, v).value)
    decreases Size(v), 0
  {
    hide Apply, Size, VisitValue, Simple;
    if v.Mapping? {
      EntriesStaySimple(depth, v.entries);
    } else {
      OtherPass(depth, v);
      PassKeepsKind(depth, v);
      var r := Apply(depth, v).value;
      assert Simple(r) by { OthersAreSimple(r); }
      forall i | 0 <= i < |Kids(r)| ensures KidIsSmaller(r, i) && Everywhere(Simple, Kids(r)[i]) {
        KidOf(Simple, v, i);
        PassKeepsSimple(0, Kids(v)[i]);
      }
    }
  }

  lemma OthersAreSimple(v: Value)
    requires !v.Mapping?
    ensures Simple(v)
  {
  }

  lemma {:induction false} EntriesStaySimple(depth: nat, entries: seq<Entry>)
    requires Everywhere(Simple, Mapping(entries)) && Apply(depth, Mapping(entries)).Ok?
    ensures Everywhere(Simple, Apply(depth, Mapping(entries)).value)
    decreases Size(Mapping(entries)), 0, 0
  {
    hide Apply, Size, VisitValue, IsMergeKey, Everywhere, Simple, Belongs;
    PassedMapping(depth, entries);
    MappingPass(depth, entries);
    VisitBelongs(Simple, depth, entries);
    var visit := VisitValue(depth, Mapping(entries)).value;
    var merged, r := visit.value.entries, Apply(depth, Mapping(entries)).value.entries;
    forall e | e in r ensures Everywhere(Simple, e.1) {
      var i :| 0 <= i < |r| && r[i] == e;
      assert merged[i] in merged;
      EntryIsEverywhere(Simple, merged[i]);
      VisitedIsSmaller(depth, entries, i);
      assert EntryPass(visit.residual_depth, merged[i]).Ok?;
      PassKeepsSimple(if IsMergeKey(merged[i].0) then visit.residual_depth else 0, merged[i].1);
    }
    MappingStaysSimple(depth, entries);
    InMapping(Simple, r);
  }

  lemma MappingStaysSimple(depth: nat, entries: seq<Entry>)
    requires Everywhere(Simple, Mapping(entries)) && Apply(depth, Mapping(entries)).Ok?
    ensures Simple(Apply(depth, Mapping(entries)).value)
  {
    hide Apply, VisitValue, IsMergeKey, Everywhere, CountKeys, ValueEq;
    PassedMapping(depth, entries);
    VisitedIsSimple(depth, entries);
    MappingPass(depth, entries);
    var visit := VisitValue(depth, Mapping(entries)).value;
    var merged, r := visit.value.entries, Apply(depth, Mapping(entries)).value.entries;
    SameKeysSameCount(merged, r);
    forall j | 0 <= j < |r| && IsMergeKey(r[j].0) ensures NotAList(r[j].1) {
      assert EntryPass(visit.residual_depth, merged[j]).Ok?;
      PassKeepsKind(visit.residual_depth, merged[j].1);
    }
  }

  lemma VisitedIsSimple(depth: nat, entries: seq<Entry>)
    requires Everywhere(Simple, Mapping(entries)) && VisitValue(depth, Mapping(entries)).Ok?
    ensures VisitValue(depth, Mapping(entries)).value.value.Mapping? && Simple(VisitValue(depth, Mapping(entries)).value.value)
  {
    hide VisitValue, IsMergeKey, Everywhere, CountKeys, ValueEq, InsertMissing;
    VisitOfMapping(depth, entries);
    Here(Simple, Mapping(entries));
    match MergePosition(entries) {
      case None => ResidualDepth(depth, entries);
      case Some(i) =>
        JoinedLevels(depth, entries, i);
        PayloadIsSimple(entries, i);
        JoinedIsSingle(entries, i);
        var merged := InsertMissing(ValueEq, RemoveAt(entries, i), entries[i].1.entries);
        forall j | 0 <= j < |merged| && IsMergeKey(merged[j].0) ensures NotAList(merged[j].1) {
          assert merged[j] in merged;
          JoinedKey(entries, i, merged[j]);
          var k :| 0 <= k < |entries[i].1.entries| && entries[i].1.entries[k] == merged[j];
        }
    }
  }
}
