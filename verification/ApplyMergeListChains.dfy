// Lists start the depth budget of `Value::apply_merge` anew: chains of them that pass,
// and values whose later passes run out.
module ApplyMergeListChains {
  import opened Prelude
  import opened Values
  import opened EntryLists
  import opened ApplyMerge
  import opened ApplyMergePasses
  import opened ApplyMergeRepeats
  import opened ApplyMergeExact
  import opened ApplyMergeRounds
  import opened ApplyMergeTheorems
  import opened ApplyMergeSteps
  import opened ApplyMergeFlat
  import opened ApplyMergeViews
  import N = Nodes

  // ----- Lists reset the depth -------------------------------------------------------------------------

  predicate ListOfMappings(v: Value) {
    v.Sequence? && forall i :: 0 <= i < |v.items| ==> v.items[i].Mapping?
  }

  // What is left to merge is one of the payloads.
  lemma {:induction false} ResidualIsPayload(ok: Test, s: nat, entries: seq<Entry>)
    requires Everywhere(PayloadsAre(ok), Mapping(entries))
    ensures Residual(s, entries).Some? ==> ok(Residual(s, entries).value)
    decreases s, 0, 0
  {
    hide Everywhere, IsMergeKey, Source;
    if s == 0 {
      Here(PayloadsAre(ok), Mapping(entries));
      SourceIn(entries);
      if Source(entries).Some? {
        var e :| e in entries && IsMergeKey(e.0) && e.1 == Source(entries).value;
        var i :| 0 <= i < |entries| && entries[i] == e;
      }
    } else {
      AbsorbedParts(PayloadsAre(ok), s - 1, entries);
      if Residual(s - 1, entries).Some? { NextIsPayload(ok, s - 1, Residual(s - 1, entries).value); }
    }
  }

  lemma {:induction false} NextIsPayload(ok: Test, s: nat, payload: Value)
    requires Everywhere(PayloadsAre(ok), payload)
    ensures Next(s, payload).Some? ==> ok(Next(s, payload).value)
    decreases s, 2, 0
  {
    hide Everywhere, Residual;
    match payload {
      case Mapping(entries) => ResidualIsPayload(ok, s, entries);
      case Sequence(items) =>
        forall i | 0 <= i < |items| ensures Everywhere(PayloadsAre(ok), items[i]) { ItemIsPart(PayloadsAre(ok), items, i); }
        NextItemIsPayload(ok, s, items);
      case _ =>
    }
  }

  lemma {:induction false} NextItemIsPayload(ok: Test, s: nat, items: seq<Value>)
    requires forall i :: 0 <= i < |items| ==> Everywhere(PayloadsAre(ok), items[i])
    ensures NextOfItems(s, items).Some? ==> ok(NextOfItems(s, items).value)
    decreases s, 1, |items|
  {
    hide Everywhere, Residual;
    if items != [] {
      if items[0].Mapping? { ResidualIsPayload(ok, s, items[0].entries); }
      NextItemIsPayload(ok, s, items[1..]);
    }
  }

  lemma {:induction false} ListsSucceed(s: nat, v: Value)
    requires Everywhere(PayloadsAre(ListOfMappings), v)
    ensures Succeeds(s, v)
    decreases Size(v)
  {
    hide Size, Absorbed, Residual;
    var lists := PayloadsAre(ListOfMappings);
    if v.Mapping? {
      var entries := v.entries;
      ResidualIsPayload(ListOfMappings, s, entries);
      ResidualIsPayload(ListOfMappings, s + 1, entries);
      AbsorbedParts(lists, s + 1, entries);
      assert AbsorbedIsSmaller(s + 1, entries);
      forall e | e in Absorbed(s + 1, entries) ensures Succeeds(s, e.1) {
        assert Part(lists, e.1, Size(v));
        ListsSucceed(s, e.1);
      }
      if Residual(s + 1, entries).Some? { ListsSucceed(s, Residual(s + 1, entries).value); }
      SucceedsInParts(s, entries);
    } else {
      forall i | 0 <= i < |Kids(v)| ensures KidIsSmaller(v, i) && Succeeds(s, Kids(v)[i]) {
        KidOf(lists, v, i);
        ListsSucceed(s, Kids(v)[i]);
      }
    }
  }

  /** With lists of mappings as the only payloads, no pass ever fails, however long the
      chain of links is. */
  lemma ListsAlwaysPass(v: Value)
    requires Everywhere(Plain, v) && Everywhere(PayloadsAre(ListOfMappings), v)
    ensures EveryPassSucceeds(v)
  {
    hide Everywhere, Plain, Succeeds, MergeKeys;
    forall s: nat ensures Succeeds(s, v) { ListsSucceed(s, v); }
    assert AllSucceed(MergeKeys(v), v);
    EveryPassExactly(v);
  }

  // ----- A chain of lists ----------------------------------------------------------------------------

  /** A mapping that merges one payload and has nothing else. */
  function Merging(payload: Value): seq<Entry> {
    [(MERGE_KEY, payload)]
  }

  lemma PartsOfMerging(payload: Value)
    ensures PlainKeys(Merging(payload)) && Ordinary(Merging(payload)) == [] && Source(Merging(payload)) == Some(payload)
    ensures MergePosition(Merging(payload)) == Some(0) && RemoveAt(Merging(payload), 0) == []
  {
    OneMergeEntry((MERGE_KEY, payload));
    CountOne((MERGE_KEY, payload));
  }

  lemma MergingHolds(t: Test, payload: Value)
    requires t(Mapping(Merging(payload))) && Everywhere(t, payload)
    ensures Everywhere(t, Mapping(Merging(payload)))
  {
    hide Everywhere;
    InMapping(t, Merging(payload));
  }

  lemma OneItemHolds(t: Test, item: Value)
    requires t(Sequence([item])) && Everywhere(t, item)
    ensures Everywhere(t, Sequence([item]))
  {
    var v := Sequence([item]);
    assert Kids(v) == [item];
    assert KidIsSmaller(v, 0);
  }

  /** `{a: 1}` behind `n` merge keys, each with a list of one item. */
  function ListChain(n: nat): seq<Entry> {
    if n == 0 then [A_IS_ONE] else Merging(Sequence([Mapping(ListChain(n - 1))]))
  }

  lemma AIsPlain()
    ensures PlainKeys([A_IS_ONE]) && Ordinary([A_IS_ONE]) == [A_IS_ONE] && Source([A_IS_ONE]) == None
    ensures ValidKeys([A_IS_ONE])
  {
    CountOne(A_IS_ONE);
    OrdinaryOnly([A_IS_ONE]);
  }

  lemma AHolds(t: Test)
    requires t(Mapping([A_IS_ONE])) && t(A_IS_ONE.1)
    ensures Everywhere(t, Mapping([A_IS_ONE]))
  {
    InMapping(t, [A_IS_ONE]);
  }

  lemma {:induction false} ListChainHolds(n: nat)
    ensures Everywhere(Plain, Mapping(ListChain(n))) && Everywhere(KeysValid, Mapping(ListChain(n)))
    decreases n
  {
    hide Everywhere;
    if n == 0 {
      AIsPlain();
      AHolds(Plain);
      AHolds(KeysValid);
    } else {
      var below := Mapping(ListChain(n - 1));
      ListChainHolds(n - 1);
      OneItemHolds(Plain, below);
      OneItemHolds(KeysValid, below);
      PartsOfMerging(Sequence([below]));
      MergingHolds(Plain, Sequence([below]));
      MergingHolds(KeysValid, Sequence([below]));
    }
  }

  lemma {:induction false} ListChainLinks(n: nat)
    ensures WaysMerge(ListChain(n)) && Links(ListChain(n)) == n && Flat(ListChain(n)) == [A_IS_ONE]
    ensures n > 0 ==> Ordinary(ListChain(n)) == [] && FlatRest(Source(ListChain(n))) == [A_IS_ONE]
    decreases n
  {
    if n == 0 {
      AIsPlain();
    } else {
      ListChainLinks(n - 1);
      ListChainStep(ListChain(n - 1));
    }
  }

  lemma ListChainStep(below: seq<Entry>)
    requires WaysMerge(below)
    ensures var entries := Merging(Sequence([Mapping(below)]));
            && WaysMerge(entries) && Links(entries) == 1 + Links(below) && Flat(entries) == Flat(below)
            && Ordinary(entries) == [] && FlatRest(Source(entries)) == Flat(below)
  {
    hide Merging, Ordinary, Source;
    var items := [Mapping(below)];
    PartsOfMerging(Sequence(items));
    assert items[1..] == [] && FlatItems(items) == Flat(below) + [] == Flat(below);
    assert LinksOfItems(items) == Max(Links(below), LinksOfItems([]));
    assert ItemsMerge(items);
    assert [] + Flat(below) == Flat(below);
  }

  /** One pass halves the chain: it starts anew behind every list. */
  lemma {:induction false} PassHalves(n: nat)
    ensures Apply(0, Mapping(ListChain(n))) == Ok(Mapping(ListChain(n / 2)))
    decreases n
  {
    hide Apply, MergeKeys;
    if n == 0 {
      OnlyAIsQuiet();
      PassMakesProgress(0, Mapping([A_IS_ONE]));
    } else {
      ListChainVisit(n);
      MappingPass(0, ListChain(n));
      if n == 1 {
        OnlyAIsQuiet();
        PassMakesProgress(0, A_IS_ONE.1);
        assert EntryPass(2, A_IS_ONE) == Ok(A_IS_ONE.1);
        assert Apply(0, Mapping(ListChain(1))).value.entries == [A_IS_ONE];
      } else {
        var below := Mapping(ListChain(n - 2));
        PassHalves(n - 2);
        OneItemPass(2, below, Mapping(ListChain(n / 2 - 1)));
        assert EntryPass(2, ListChain(n - 1)[0]) == Apply(2, Sequence([below]));
        assert Apply(0, Mapping(ListChain(n))).value.entries == ListChain(n / 2);
      }
    }
  }

  lemma ListChainVisit(n: nat)
    requires n > 0
    ensures VisitValue(0, Mapping(ListChain(n))) == Ok(Visit(Mapping(ListChain(n - 1)), 2))
  {
    var below := ListChain(n - 1);
    var items := [Mapping(below)];
    PartsOfMerging(Sequence(items));
    InsertIntoNothing(below);
    assert items[1..] == [];
    assert MergeListInto([], items) == Ok(below);
  }

  lemma InsertIntoNothing(entries: seq<Entry>)
    requires |entries| <= 1
    ensures InsertMissing(ValueEq, [], entries) == entries
  {
    hide ValueEq;
    if entries != [] {
      assert entries[1..] == [] && [] + [entries[0]] == entries;
      var none: seq<Entry> := [];
      assert !HasKey(ValueEq, none, entries[0].0);
    }
  }

  lemma OneItemPass(depth: nat, item: Value, passed: Value)
    requires Apply(0, item) == Ok(passed)
    ensures Apply(depth, Sequence([item])) == Ok(Sequence([passed]))
  {
    hide Apply;
    var v := Sequence([item]);
    OtherPass(depth, v);
    assert Kids(v) == [item];
    PassKeepsKind(depth, v);
    assert Apply(depth, v).value.items == [passed];
  }

  lemma {:induction false} ListChainPasses(m: nat, n: nat)
    ensures Passes(m, Mapping(ListChain(n))).Ok?
    ensures m >= n ==> Passes(m, Mapping(ListChain(n))) == Ok(Mapping([A_IS_ONE]))
    decreases m
  {
    hide Apply;
    if m > 0 {
      PassHalves(n);
      ListChainPasses(m - 1, n / 2);
    }
  }

  /** Behind lists the paths differ on the depth budget: the borrowed path rejects a
      chain of more than 128 lists, `apply_merge` ends every chain as `{a: 1}`. */
  lemma ListChainsPart(n: nat)
    ensures RefView(ListChain(n), 0) == if n <= MAX_DEPTH then Ok([A_IS_ONE]) else Err(N.DepthExceeded)
    ensures EveryPassSucceeds(Mapping(ListChain(n))) && Passes(n, Mapping(ListChain(n))) == Ok(Mapping([A_IS_ONE]))
  {
    hide Everywhere, Passes, InsertMissing, Links, Source;
    ListChainHolds(n);
    ListChainLinks(n);
    RefViewExactly(ListChain(n), 0);
    if n <= MAX_DEPTH {
      RefViewIsFlat(ListChain(n), 0);
      if n == 0 {
        AIsPlain();
        NothingInserted([A_IS_ONE]);
      } else {
        InsertIntoNothing([A_IS_ONE]);
      }
    }
    forall m: nat ensures Passes(m, Mapping(ListChain(n))).Ok? { ListChainPasses(m, n); }
    ListChainPasses(n, n);
  }

  // ----- A later pass that runs out of depth ------------------------------------------------------------

  /** Two links, a list, two links, a list, and so on. */
  function Ladder(n: nat): seq<Entry> {
    if n == 0 then [] else Merging(Mapping(Merging(Rung(Ladder(n - 1)))))
  }

  function TwoLinks(below: seq<Entry>): seq<Entry> {
    Merging(Mapping(Merging(Mapping(below))))
  }

  function Rung(below: seq<Entry>): Value {
    Sequence([Mapping(TwoLinks(below))])
  }

  lemma EmptyHolds(t: Test)
    requires t(Mapping([]))
    ensures Everywhere(t, Mapping([]))
  {
    InMapping(t, []);
  }

  lemma {:induction false} LadderHolds(n: nat)
    ensures Everywhere(Plain, Mapping(Ladder(n))) && Everywhere(PayloadsAre(Mergeable), Mapping(Ladder(n)))
    decreases n
  {
    hide Everywhere, Mergeable;
    if n == 0 {
      EmptyHolds(Plain);
      EmptyHolds(PayloadsAre(Mergeable));
    } else {
      LadderHolds(n - 1);
      var below := Mapping(Ladder(n - 1));
      LinkHolds(below);
      LinkHolds(Mapping(Merging(below)));
      var step := Mapping(TwoLinks(Ladder(n - 1)));
      OneItemHolds(Plain, step);
      OneItemHolds(PayloadsAre(Mergeable), step);
      LinkHolds(Rung(Ladder(n - 1)));
      LinkHolds(Mapping(Merging(Rung(Ladder(n - 1)))));
    }
  }

  lemma LinkHolds(payload: Value)
    requires payload.Mapping? || exists source :: payload == Sequence([Mapping(source)])
    requires Everywhere(Plain, payload) && Everywhere(PayloadsAre(Mergeable), payload)
    ensures Everywhere(Plain, Mapping(Merging(payload))) && Everywhere(PayloadsAre(Mergeable), Mapping(Merging(payload)))
  {
    hide Everywhere;
    PartsOfMerging(payload);
    assert Mergeable(payload);
    MergingHolds(Plain, payload);
    MergingHolds(PayloadsAre(Mergeable), payload);
  }

  // The rounds of two links.
  lemma LinkRounds(q: Value)
    ensures var entries := Merging(Mapping(Merging(q)));
            && Residual(0, entries) == Some(Mapping(Merging(q)))
            && Absorbed(1, entries) == [] && Residual(1, entries) == Some(q)
            && Absorbed(2, entries) == InsertMissing(ValueEq, [], Level(1, q)) && Residual(2, entries) == Next(1, q)
  {
    hide ValueEq, Merging, Ordinary, Source;
    PartsOfMerging(q);
    PartsOfMerging(Mapping(Merging(q)));
    NothingInserted([]);
  }

  lemma RungRounds(below: seq<Entry>)
    ensures Level(1, Rung(below)) == [] && Next(1, Rung(below)) == Some(Mapping(below))
  {
    hide Absorbed, Residual, TwoLinks;
    LinkRounds(Mapping(below));
    var items := [Mapping(TwoLinks(below))];
    assert items[1..] == [] && LevelOfItems(1, items) == Absorbed(1, TwoLinks(below)) + [];
    assert TwoLinks(below) == Merging(Mapping(Merging(Mapping(below)))) by { TwoLinksAre(below); }
  }

  lemma TwoLinksAre(below: seq<Entry>)
    ensures TwoLinks(below) == Merging(Mapping(Merging(Mapping(below))))
  {
  }

  lemma NothingToRun(s: nat)
    ensures Run(s, []) == 0 && Succeeds(s, Mapping([]))
  {
    NothingToTake(s, []);
    NothingToTake(s + 1, []);
    SucceedsInParts(s, []);
  }

  lemma RunOnce(s: nat, entries: seq<Entry>)
    ensures Residual(s, entries).Some? ==>
              Run(s, entries) == 1 + (if Residual(s + 1, entries).Some? && Residual(s + 1, entries).value.Mapping?
                                      then Run(s, Residual(s + 1, entries).value.entries) else 0)
  {
    hide Residual;
    assert AbsorbedIsSmaller(s + 1, entries);
  }

  lemma OneItemSucceeds(s: nat, item: Value)
    ensures Succeeds(s, Sequence([item])) <==> Succeeds(s, item)
  {
    var v := Sequence([item]);
    assert Kids(v) == [item];
    assert KidIsSmaller(v, 0);
  }

  // In the first pass two links cost one visit, and a run goes on only below a mapping.
  lemma LinkSucceeds(q: Value)
    requires Succeeds(0, q) && (q.Mapping? ==> Run(0, q.entries) <= 1)
    ensures var entries := Merging(Mapping(Merging(q)));
            && Succeeds(0, Mapping(entries))
            && Run(0, entries) == 1 + if q.Mapping? then Run(0, q.entries) else 0
  {
    hide Absorbed, Residual, Merging, Succeeds, Run;
    var entries := Merging(Mapping(Merging(q)));
    LinkRounds(q);
    RunOnce(0, entries);
    SucceedsInParts(0, entries);
  }

  lemma {:induction false} FirstPassOfLadder(n: nat)
    ensures Succeeds(0, Mapping(Ladder(n))) && Run(0, Ladder(n)) <= 1
    decreases n
  {
    hide Merging, Succeeds, Run;
    if n == 0 {
      NothingToRun(0);
    } else {
      var below := Ladder(n - 1);
      FirstPassOfLadder(n - 1);
      LinkSucceeds(Mapping(below));
      OneItemSucceeds(0, Mapping(TwoLinks(below)));
      LinkSucceeds(Rung(below));
    }
  }

  lemma {:induction false} SecondPassOfLadder(n: nat)
    ensures Succeeds(1, Mapping(Ladder(n))) <==> 2 * n <= MAX_DEPTH
    ensures Run(1, Ladder(n)) == n
    decreases n
  {
    hide Absorbed, Residual, Merging, Succeeds, Run, TwoLinks;
    if n == 0 {
      NothingToRun(1);
    } else {
      var below := Ladder(n - 1);
      SecondPassOfLadder(n - 1);
      LinkRounds(Rung(below));
      RungRounds(below);
      NothingInserted([]);
      RunOnce(1, Ladder(n));
      SucceedsInParts(1, Ladder(n));
    }
  }

  lemma FirstTwoPasses(v: Value)
    requires Everywhere(Plain, v) && Succeeds(0, v)
    ensures Passes(1, v).Ok? && (Passes(2, v).Ok? <==> Succeeds(1, v))
  {
    hide Passes, Everywhere, Plain, Succeeds;
    assert AllSucceed(1, v);
    PassesExactly(1, v);
    NextSucceeds(1, v);
  }

  lemma OnlyDepthFails(v: Value)
    requires Everywhere(PayloadsAre(Mergeable), v)
    ensures Passes(2, v).Err? ==> Passes(2, v) == Err(N.DepthExceeded)
  {
    hide Passes, Everywhere;
    PassesFailOnlyByDepth(2, v);
  }

  /** A later pass can exhaust the depth budget that the first one never comes near: it
      counts the links between what the lists have left. */
  lemma LaterPassRunsOutOfDepth(n: nat)
    ensures Passes(1, Mapping(Ladder(n))).Ok?
    ensures Passes(2, Mapping(Ladder(n))).Ok? <==> 2 * n <= MAX_DEPTH
    ensures 2 * n > MAX_DEPTH ==> Passes(2, Mapping(Ladder(n))) == Err(N.DepthExceeded)
  {
    hide Passes, Everywhere, Succeeds, Ladder, Mergeable, Plain, Run;
    LadderHolds(n);
    FirstPassOfLadder(n);
    SecondPassOfLadder(n);
    FirstTwoPasses(Mapping(Ladder(n)));
    OnlyDepthFails(Mapping(Ladder(n)));
  }
}
