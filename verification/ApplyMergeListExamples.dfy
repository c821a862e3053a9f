// Small values on which a list makes `Value::apply_merge` and the borrowed path part,
// or does not.
module ApplyMergeListExamples {
  import opened Prelude
  import opened Values
  import opened EntryLists
  import opened ApplyMerge
  import opened ApplyMergePasses
  import opened ApplyMergeRepeats
  import opened ApplyMergeExact
  import opened ApplyMergeRounds
  import opened ApplyMergeTheorems
  import opened ApplyMergeFlat
  import opened ApplyMergeAccepted
  import opened ApplyMergeViews
  import opened ApplyMergeListChains

  const A_IS_TWO: Entry := (String("a"), Number(Unsigned(2)))
  const B_IS_TWO: Entry := (String("b"), Number(Unsigned(2)))

  /** `{<<: {...}}`, around one entry. */
  function MergingOne(e: Entry): Value {
    Mapping(Merging(Mapping([e])))
  }

  // `{<<: [{<<: {a: 1}}, {<<: {b: 2}}]}`
  const LIST_OF_MERGES: seq<Entry> := Merging(Sequence([MergingOne(A_IS_ONE), MergingOne(B_IS_TWO)]))
  // `{<<: [{<<: {a: 1}}, {a: 2}]}`
  const MERGE_BEFORE_OWN: seq<Entry> := Merging(Sequence([MergingOne(A_IS_ONE), Mapping([A_IS_TWO])]))

  // `{<<: {<<: [{<<: {a: 1}}, {<<: {b: 2}}]}}`
  const NESTED_LIST: seq<Entry> := Merging(Mapping(LIST_OF_MERGES))

  ghost predicate Leaf(e: Entry) {
    !IsMergeKey(e.0) && Valid(e.0) && e.1.Number?
  }

  lemma LeavesAreLeaves()
    ensures Leaf(A_IS_ONE) && Leaf(A_IS_TWO) && Leaf(B_IS_TWO)
  {
  }

  // ----- Values that fit -------------------------------------------------------------------------

  ghost predicate Fine(v: Value) {
    Everywhere(Plain, v) && Everywhere(KeysValid, v) && Everywhere(FitsLinks, v)
  }

  lemma LeafParts(e: Entry)
    requires Leaf(e)
    ensures Ordinary([e]) == [e] && Source([e]) == None && PlainKeys([e])
    ensures forall s :: Absorbed(s, [e]) == [e] && Residual(s, [e]) == None
  {
    hide IsMergeKey, Valid;
    CountOne(e);
    OrdinaryOnly([e]);
    forall s ensures Absorbed(s, [e]) == [e] && Residual(s, [e]) == None {
      NothingToTake(s, [e]);
    }
  }

  lemma LeafIsFine(e: Entry)
    requires Leaf(e)
    ensures Fine(Mapping([e])) && WaysMerge([e]) && Links([e]) == 0 && Flat([e]) == [e]
  {
    hide IsMergeKey, Valid;
    LeafParts(e);
    NumberHolds(Plain, e.1);
    NumberHolds(KeysValid, e.1);
    NumberHolds(FitsLinks, e.1);
    InMapping(Plain, [e]);
    InMapping(KeysValid, [e]);
    InMapping(FitsLinks, [e]);
    assert [e] + [] == [e];
  }

  lemma NumberHolds(t: Test, v: Value)
    requires v.Number? && t(v)
    ensures Everywhere(t, v)
  {
  }

  lemma MergingIsFine(payload: Value)
    requires Fine(payload) && PayloadMerges(payload) && LinksOfPayload(payload) < MAX_DEPTH
    ensures var entries := Merging(payload);
            Fine(Mapping(entries)) && WaysMerge(entries) && Links(entries) == 1 + LinksOfPayload(payload) && Flat(entries) == FlatPayload(payload)
  {
    hide Everywhere, PayloadMerges, LinksOfPayload, FlatPayload, Merging, Source, Ordinary;
    PartsOfMerging(payload);
    KeyIsValid(payload);
    MergingHolds(Plain, payload);
    MergingHolds(KeysValid, payload);
    MergingHolds(FitsLinks, payload);
    assert [] + FlatPayload(payload) == FlatPayload(payload);
  }

  lemma KeyIsValid(payload: Value)
    ensures ValidKeys(Merging(payload))
  {
  }

  lemma MergingOneIsFine(e: Entry)
    requires Leaf(e)
    ensures var entries := Merging(Mapping([e]));
            MergingOne(e) == Mapping(entries) && Fine(Mapping(entries)) && WaysMerge(entries) && Links(entries) == 1 && Flat(entries) == [e]
  {
    hide Fine, Leaf, Merging;
    LeafIsFine(e);
    MergingIsFine(Mapping([e]));
  }

  lemma PairIsFine(x: seq<Entry>, y: seq<Entry>)
    requires Fine(Mapping(x)) && Fine(Mapping(y)) && WaysMerge(x) && WaysMerge(y)
    ensures var list := Sequence([Mapping(x), Mapping(y)]);
            && Fine(list) && PayloadMerges(list) && LinksOfPayload(list) == Max(Links(x), Links(y)) && FlatPayload(list) == Flat(x) + Flat(y)
  {
    hide WaysMerge, Links, Flat;
    var items := [Mapping(x), Mapping(y)];
    PairHolds(Plain, items[0], items[1]);
    PairHolds(KeysValid, items[0], items[1]);
    PairHolds(FitsLinks, items[0], items[1]);
    LastItemParts(y);
    assert items[1..] == [Mapping(y)];
  }

  lemma LastItemParts(y: seq<Entry>)
    ensures var rest := [Mapping(y)];
            && (ItemsMerge(rest) <==> WaysMerge(y)) && LinksOfItems(rest) == Links(y) && FlatItems(rest) == Flat(y)
    ensures forall s :: LevelOfItems(s, [Mapping(y)]) == Absorbed(s, y) && NextOfItems(s, [Mapping(y)]) == Residual(s, y)
  {
    hide WaysMerge, Links, Flat, Absorbed, Residual;
    var rest := [Mapping(y)];
    assert rest[1..] == [] && Flat(y) + [] == Flat(y);
    assert ItemsMerge([]) && LinksOfItems([]) == 0 && FlatItems([]) == [];
    forall s ensures LevelOfItems(s, rest) == Absorbed(s, y) && NextOfItems(s, rest) == Residual(s, y) {
      assert LevelOfItems(s, []) == [] && NextOfItems(s, []) == None;
      assert Absorbed(s, y) + [] == Absorbed(s, y);
    }
  }

  lemma PairHolds(t: Test, x: Value, y: Value)
    requires Everywhere(t, x) && Everywhere(t, y) && t(Sequence([x, y]))
    ensures Everywhere(t, Sequence([x, y]))
  {
    var v := Sequence([x, y]);
    forall i | 0 <= i < |Kids(v)| ensures KidIsSmaller(v, i) && Everywhere(t, Kids(v)[i]) {
      assert KidIsSmaller(v, i);
    }
  }

  // ----- The rounds of a pair -----------------------------------------------------------------------

  lemma MergingOneRounds(e: Entry)
    requires Leaf(e)
    ensures var entries := Merging(Mapping([e]));
            && Absorbed(0, entries) == [] && Residual(0, entries) == Some(Mapping([e]))
            && Absorbed(1, entries) == [e] && Residual(1, entries) == None
  {
    hide Leaf, Merging, ValueEq, Ordinary, Source, InsertMissing;
    LeafParts(e);
    PartsOfMerging(Mapping([e]));
    InsertIntoNothing([e]);
  }

  lemma PairRounds(s: nat, x: seq<Entry>, y: seq<Entry>)
    ensures var list := Sequence([Mapping(x), Mapping(y)]);
            && Level(s, list) == Absorbed(s, x) + Absorbed(s, y)
            && Next(s, list) == if Residual(s, x).Some? then Residual(s, x) else Residual(s, y)
  {
    hide Absorbed, Residual;
    var items := [Mapping(x), Mapping(y)];
    LastItemParts(y);
    assert items[1..] == [Mapping(y)];
  }

  lemma FirstRound(payload: Value)
    ensures Absorbed(0, Merging(payload)) == [] && Residual(0, Merging(payload)) == Some(payload)
    ensures Absorbed(1, Merging(payload)) == InsertMissing(ValueEq, [], Level(0, payload)) && Residual(1, Merging(payload)) == Next(0, payload)
  {
    hide Merging, Ordinary, Source, InsertMissing, Level, Next;
    PartsOfMerging(payload);
  }

  lemma SecondRound(entries: seq<Entry>, payload: Value)
    requires Residual(1, entries) == Some(payload)
    ensures Absorbed(2, entries) == InsertMissing(ValueEq, Absorbed(1, entries), Level(1, payload)) && Residual(2, entries) == Next(1, payload)
  {
    hide InsertMissing, Level, Next;
  }

  // ----- What both paths return ---------------------------------------------------------------------

  ghost predicate Leaves(entries: seq<Entry>) {
    forall e :: e in entries ==> Leaf(e)
  }

  lemma NumberPasses(n: nat, v: Value)
    requires v.Number?
    ensures Passes(n, v) == Ok(v)
  {
    hide Passes;
    assert Kids(v) == [];
    assert MergeKeys(v) == 0;
    QuietPasses(n, v);
  }

  // Once only leaves are left, the passes are done.
  lemma PassesReach(n: nat, entries: seq<Entry>)
    requires Fine(Mapping(entries)) && Residual(n, entries) == None && Leaves(Absorbed(n, entries))
    ensures Passes(n, Mapping(entries)) == Ok(Mapping(Absorbed(n, entries)))
  {
    hide Passes, Everywhere, Absorbed, Residual, PlainKeys, IsMergeKey, Valid, CountKeys;
    FittingLinksPass(Mapping(entries));
    PassesAbsorb(n, entries);
    var r := Passes(n, Mapping(entries)).value.entries;
    SourceIn(r);
    OrdinaryOnly(r);
    forall i | 0 <= i < |r| ensures r[i] == Absorbed(n, entries)[i] {
      assert Absorbed(n, entries)[i] in Absorbed(n, entries);
      NumberPasses(n, Absorbed(n, entries)[i].1);
    }
    assert r == Absorbed(n, entries);
  }

  lemma ViewReaches(payload: Value)
    requires Fine(Mapping(Merging(payload))) && WaysMerge(Merging(payload)) && Links(Merging(payload)) <= MAX_DEPTH
    ensures RefView(Merging(payload), 0) == Ok(InsertMissing(ValueEq, [], FlatPayload(payload)))
  {
    hide Everywhere, Merging, WaysMerge, Links, FlatPayload, InsertMissing, Alike;
    PartsOfMerging(payload);
    RefViewExactly(Merging(payload), 0);
    RefViewIsFlat(Merging(payload), 0);
  }

  // ----- Keys of the examples -----------------------------------------------------------------------

  lemma TwoKeys(x: Entry, y: Entry)
    ensures InsertMissing(ValueEq, [], [x, y]) == if ValueEq(x.0, y.0) then [x] else [x, y]
    ensures InsertMissing(ValueEq, [x], [y]) == if ValueEq(x.0, y.0) then [x] else [x, y]
  {
    hide ValueEq;
    var none: seq<Entry> := [];
    assert [x, y][1..] == [y] && [y][1..] == [];
    assert !HasKey(ValueEq, none, x.0) && none + [x] == [x];
    assert [x][0] == x && (HasKey(ValueEq, [x], y.0) <==> ValueEq(x.0, y.0));
    assert [x] + [y] == [x, y];
    assert InsertMissing(ValueEq, none, [x, y]) == InsertMissing(ValueEq, [x], [y]);
    assert InsertMissing(ValueEq, [x], [y]) == InsertMissing(ValueEq, AddMissing(ValueEq, [x], y), []);
  }

  lemma KeysOfExamples()
    ensures ValueEq(A_IS_ONE.0, A_IS_TWO.0) && ValueEq(A_IS_TWO.0, A_IS_ONE.0) && !ValueEq(A_IS_ONE.0, B_IS_TWO.0)
  {
  }

  // ----- The examples ---------------------------------------------------------------------------------

  // The list of both merges, after each number of rounds.
  lemma ListOfMerges() returns (list: Value)
    ensures LIST_OF_MERGES == Merging(list) && Fine(Mapping(LIST_OF_MERGES)) && FlatPayload(list) == [A_IS_ONE, B_IS_TWO]
    ensures WaysMerge(LIST_OF_MERGES) && Links(LIST_OF_MERGES) == 2 && Flat(LIST_OF_MERGES) == [A_IS_ONE, B_IS_TWO]
    ensures Level(0, list) == [] && Next(0, list) == Some(Mapping([A_IS_ONE]))
    ensures Level(1, list) == [A_IS_ONE, B_IS_TWO] && Next(1, list) == None
  {
    hide Merging, Fine, WaysMerge, Links, Flat, Absorbed, Residual, Leaf;
    var x, y := Merging(Mapping([A_IS_ONE])), Merging(Mapping([B_IS_TWO]));
    list := Sequence([Mapping(x), Mapping(y)]);
    LeavesAreLeaves();
    MergingOneIsFine(A_IS_ONE);
    MergingOneIsFine(B_IS_TWO);
    PairIsFine(x, y);
    MergingIsFine(list);
    MergingOneRounds(A_IS_ONE);
    MergingOneRounds(B_IS_TWO);
    PairRounds(0, x, y);
    PairRounds(1, x, y);
    assert [A_IS_ONE] + [B_IS_TWO] == [A_IS_ONE, B_IS_TWO];
  }

  /** Where two items of a list merge, `apply_merge` loses what the second would bring:
      the second residual `<<` is dropped as a known key. */
  lemma ListsPart()
    ensures RefView(LIST_OF_MERGES, 0) == Ok([A_IS_ONE, B_IS_TWO])
    ensures Passes(2, Mapping(LIST_OF_MERGES)) == Ok(Mapping([A_IS_ONE])) && MergeKeys(Mapping([A_IS_ONE])) == 0
  {
    hide Passes, MergeKeys, Merging, Fine, WaysMerge, Links, Flat, Absorbed, Residual, Leaf, Level, Next, LIST_OF_MERGES;
    var list := ListOfMerges();
    LeavesAreLeaves();
    KeysOfExamples();
    OnlyAIsQuiet();
    TwoKeys(A_IS_ONE, B_IS_TWO);
    ViewReaches(list);
    FirstRound(list);
    SecondRound(LIST_OF_MERGES, Mapping([A_IS_ONE]));
    LeafParts(A_IS_ONE);
    LeafLevel(1, A_IS_ONE);
    InsertIntoNothing([]);
    InsertIntoNothing([A_IS_ONE]);
    PassesReach(2, LIST_OF_MERGES);
  }

  lemma LeafLevel(s: nat, e: Entry)
    requires Leaf(e)
    ensures Level(s, Mapping([e])) == [e] && Next(s, Mapping([e])) == None
  {
    hide Absorbed, Residual, Leaf;
    LeafParts(e);
  }

  /** One residual `<<` and nothing dropped, and still the values differ: the passes take
      in the own entries of all items before the payload of the first. */
  lemma LaterItemWins()
    ensures RefView(MERGE_BEFORE_OWN, 0) == Ok([A_IS_ONE])
    ensures Passes(2, Mapping(MERGE_BEFORE_OWN)) == Ok(Mapping([A_IS_TWO]))
  {
    hide Passes, Merging, Fine, WaysMerge, Links, Flat, Absorbed, Residual, Leaf, InsertMissing;
    var x, y := Merging(Mapping([A_IS_ONE])), [A_IS_TWO];
    var list := Sequence([Mapping(x), Mapping(y)]);
    LeavesAreLeaves();
    KeysOfExamples();
    MergingOneIsFine(A_IS_ONE);
    LeafIsFine(A_IS_TWO);
    PairIsFine(x, y);
    MergingIsFine(list);
    TwoKeys(A_IS_ONE, A_IS_TWO);
    TwoKeys(A_IS_TWO, A_IS_ONE);
    assert [A_IS_ONE] + [A_IS_TWO] == [A_IS_ONE, A_IS_TWO] && [] + [A_IS_TWO] == [A_IS_TWO];
    ViewReaches(list);
    MergingOneRounds(A_IS_ONE);
    LeafParts(A_IS_TWO);
    PairRounds(0, x, y);
    FirstRound(list);
    SecondRound(MERGE_BEFORE_OWN, Mapping([A_IS_ONE]));
    LeafLevel(1, A_IS_ONE);
    InsertIntoNothing([A_IS_TWO]);
    PassesReach(2, MERGE_BEFORE_OWN);
  }

  /** Behind one more link the list of merges agrees: by the time it is merged, its items
      have merged on their own. */
  lemma NestedListsAgree()
    ensures RefView(NESTED_LIST, 0) == Ok([A_IS_ONE, B_IS_TWO])
    ensures Passes(2, Mapping(NESTED_LIST)) == Ok(Mapping([A_IS_ONE, B_IS_TWO]))
  {
    hide Passes, Merging, Fine, WaysMerge, Links, Flat, Absorbed, Residual, Leaf, LIST_OF_MERGES;
    var list := ListOfMerges();
    var payload := Mapping(LIST_OF_MERGES);
    LeavesAreLeaves();
    KeysOfExamples();
    TwoKeys(A_IS_ONE, B_IS_TWO);
    MergingIsFine(payload);
    ViewReaches(payload);
    FirstRound(list);
    FirstRound(payload);
    SecondRound(NESTED_LIST, list);
    InsertIntoNothing([]);
    PassesReach(2, NESTED_LIST);
  }
}
