// Which values `Value::apply_merge` accepts, once and for ever: the payloads of
// their merge keys and the length of their chains decide.
module ApplyMergeChains {
  import opened Prelude
  import opened Values
  import opened EntryLists
  import opened ApplyMerge
  import opened ApplyMergePasses
  import opened ApplyMergeRepeats

  // ----- Chains ---------------------------------------------------------------------------------

  /** The longest chain of merge payloads from the value: each link a merge key of the
      mapping the link before leads to. */
  function Chain(v: Value): nat
    decreases Size(v), 1, 0
  {
    if v.Mapping? then EntriesChain(v.entries) else 0
  }

  function EntriesChain(entries: seq<Entry>): nat
    decreases SizeEntries(entries), 2, |entries|
  {
    if entries == [] then 0
    else
      var last := entries[|entries| - 1];
      assert SizeEntry(last) == Size(last.1);
      Max(EntriesChain(entries[..|entries| - 1]), if IsMergeKey(last.0) then 1 + Chain(last.1) else 0)
  }

  ghost predicate ChainsBelow(entries: seq<Entry>, bound: int) {
    forall e :: e in entries && IsMergeKey(e.0) ==> 1 + Chain(e.1) <= bound
  }

  lemma {:induction false} ChainIsLongest(entries: seq<Entry>, bound: nat)
    ensures EntriesChain(entries) <= bound <==> ChainsBelow(entries, bound)
    decreases |entries|
  {
    hide IsMergeKey, Chain;
    if entries != [] {
      var init, last := entries[..|entries| - 1], entries[|entries| - 1];
      ChainIsLongest(init, bound);
      assert entries == init + [last];
    }
  }

  lemma LinkShortens(entries: seq<Entry>, e: Entry)
    requires e in entries && IsMergeKey(e.0)
    ensures 1 + Chain(e.1) <= Chain(Mapping(entries))
  {
    ChainIsLongest(entries, EntriesChain(entries));
  }

  // ----- Mapping payloads: the first pass decides ----------------------------------------------------

  /** Every merge key has a mapping as payload. */
  ghost predicate MappingPayloads(v: Value) {
    Everywhere(PayloadsAre(IsMapping), v)
  }

  predicate ShortChain(v: Value) {
    2 * Chain(v) <= MAX_DEPTH
  }

  // Where a visited entry comes from: the mapping itself, or the mapping it merges.
  lemma VisitedEntry(depth: nat, entries: seq<Entry>, e: Entry)
    requires PayloadsAre(IsMapping)(Mapping(entries)) && VisitValue(depth, Mapping(entries)).Ok?
    requires VisitValue(depth, Mapping(entries)).value.value.Mapping? && e in VisitValue(depth, Mapping(entries)).value.value.entries
    ensures MergePosition(entries).None? ==> !IsMergeKey(e.0)
    ensures e in entries
         || (MergePosition(entries).Some?
             && var payload := entries[MergePosition(entries).value].1; payload.Mapping? && e in payload.entries)
  {
    hide InsertMissing, IsMergeKey;
    match MergePosition(entries) {
      case None =>
      case Some(i) =>
        assert IsMapping(entries[i].1);
        InsertMissingTakesFrom(ValueEq, RemoveAt(entries, i), entries[i].1.entries);
        if e !in entries[i].1.entries { TakenFromRest(entries, i, e); }
    }
  }

  lemma TakenFromRest(entries: seq<Entry>, i: nat, e: Entry)
    requires i < |entries| && e in RemoveAt(entries, i)
    ensures e in entries
  {
  }

  ghost predicate DepthAllows(depth: nat, chain: nat) {
    chain > 0 ==> depth + 2 * chain <= MAX_DEPTH + 1
  }

  // The chain behind a residual merge key is shorter by a link.
  lemma ResidualChain(depth: nat, entries: seq<Entry>, e: Entry)
    requires PayloadsAre(IsMapping)(Mapping(entries)) && VisitValue(depth, Mapping(entries)).Ok?
    requires VisitValue(depth, Mapping(entries)).value.value.Mapping? && e in VisitValue(depth, Mapping(entries)).value.value.entries
    requires IsMergeKey(e.0)
    ensures 1 + Chain(e.1) <= Chain(Mapping(entries)) && VisitValue(depth, Mapping(entries)).value.residual_depth == depth + 2
  {
    hide VisitValue, IsMergeKey;
    VisitedEntry(depth, entries, e);
    ResidualDepth(depth, entries);
    if e in entries {
      LinkShortens(entries, e);
    } else {
      var i := MergePosition(entries).value;
      assert entries[i] in entries;
      LinkShortens(entries, entries[i]);
      LinkShortens(entries[i].1.entries, e);
    }
  }

  lemma ResidualDepth(depth: nat, entries: seq<Entry>)
    requires VisitValue(depth, Mapping(entries)).Ok?
    ensures MergePosition(entries).Some? ==>
              VisitValue(depth, Mapping(entries)).value.residual_depth == depth + 2 && depth + 1 <= MAX_DEPTH
    ensures MergePosition(entries).None? ==> VisitValue(depth, Mapping(entries)) == Ok(Visit(Mapping(entries), 0))
  {
  }

  lemma EntryIsEverywhere(p: Test, e: Entry)
    requires Belongs(p, e)
    ensures Everywhere(p, e.1)
  {
    var source: seq<Entry> :| e in source && Everywhere(p, Mapping(source));
    InMapping(p, source);
  }

  lemma VisitSucceeds(depth: nat, entries: seq<Entry>)
    requires PayloadsAre(IsMapping)(Mapping(entries))
    ensures VisitValue(depth, Mapping(entries)).Ok? <==> (MergePosition(entries).Some? ==> depth + 1 <= MAX_DEPTH)
  {
    hide InsertMissing, IsMergeKey;
    if MergePosition(entries).Some? {
      assert IsMapping(entries[MergePosition(entries).value].1);
    }
  }

  lemma MergeKeyIsALink(entries: seq<Entry>)
    requires MergePosition(entries).Some?
    ensures Chain(Mapping(entries)) > 0
  {
    hide IsMergeKey;
    var e := entries[MergePosition(entries).value];
    assert e in entries;
    LinkShortens(entries, e);
  }

  // Chains short enough for the depth pass.
  lemma {:induction false} ShortPasses(depth: nat, v: Value)
    requires MappingPayloads(v) && Everywhere(ShortChain, v) && DepthAllows(depth, Chain(v))
    ensures Apply(depth, v).Ok?
    decreases Size(v), 0
  {
    hide Apply, Chain, VisitValue, Size;
    if v.Mapping? {
      ShortEntriesPass(depth, v.entries);
    } else {
      OtherPass(depth, v);
      forall i | 0 <= i < |Kids(v)| ensures Apply(0, Kids(v)[i]).Ok? {
        assert KidIsSmaller(v, i);
        ShortPasses(0, Kids(v)[i]);
      }
    }
  }

  lemma {:induction false} ShortEntriesPass(depth: nat, entries: seq<Entry>)
    requires MappingPayloads(Mapping(entries)) && Everywhere(ShortChain, Mapping(entries)) && DepthAllows(depth, Chain(Mapping(entries)))
    ensures Apply(depth, Mapping(entries)).Ok?
    decreases Size(Mapping(entries)), 0, 0
  {
    hide Apply, Chain, VisitValue, Size, IsMergeKey, Belongs, MergePosition;
    var payloads := PayloadsAre(IsMapping);
    assert payloads(Mapping(entries));
    VisitSucceeds(depth, entries);
    if MergePosition(entries).Some? { MergeKeyIsALink(entries); }
    MappingPass(depth, entries);
    VisitBelongs(payloads, depth, entries);
    VisitBelongs(ShortChain, depth, entries);
    var visit := VisitValue(depth, Mapping(entries)).value;
    var merged := visit.value.entries;
    forall i | 0 <= i < |merged| ensures EntryPass(visit.residual_depth, merged[i]).Ok? {
      var e := merged[i];
      assert e in merged;
      EntryIsEverywhere(payloads, e);
      EntryIsEverywhere(ShortChain, e);
      VisitedIsSmaller(depth, entries, i);
      if IsMergeKey(e.0) {
        ResidualChain(depth, entries, e);
      }
      ShortPasses(if IsMergeKey(e.0) then visit.residual_depth else 0, e.1);
    }
  }

  // A pass that succeeds leaves short chains.
  lemma {:induction false} PassShortens(depth: nat, v: Value)
    requires MappingPayloads(v) && Apply(depth, v).Ok?
    ensures Everywhere(ShortChain, Apply(depth, v).value) && DepthAllows(depth, Chain(Apply(depth, v).value))
    decreases Size(v), 0
  {
    hide Apply, VisitValue, Size, EntriesChain;
    if v.Mapping? {
      ApplyAt(depth, v);
      EntriesShorten(depth, v.entries);
    } else {
      OtherPass(depth, v);
      var r := Apply(depth, v).value;
      forall i | 0 <= i < |Kids(r)| ensures KidIsSmaller(r, i) && Everywhere(ShortChain, Kids(r)[i]) {
        assert KidIsSmaller(v, i);
        PassShortens(0, Kids(v)[i]);
      }
    }
  }

  lemma {:induction false} EntriesShorten(depth: nat, entries: seq<Entry>)
    requires MappingPayloads(Mapping(entries)) && Apply(depth, Mapping(entries)).Ok? && VisitValue(depth, Mapping(entries)).Ok?
    ensures var r := Apply(depth, Mapping(entries)).value;
            Everywhere(ShortChain, r) && DepthAllows(depth, Chain(r))
    decreases Size(Mapping(entries)), 0, 0
  {
    hide Apply, EntriesChain, VisitValue, Size, IsMergeKey, Belongs, MergePosition, Everywhere;
    var payloads := PayloadsAre(IsMapping);
    MappingPass(depth, entries);
    VisitBelongs(payloads, depth, entries);
    ResidualDepth(depth, entries);
    var visit := VisitValue(depth, Mapping(entries)).value;
    var merged, r := visit.value.entries, Apply(depth, Mapping(entries)).value.entries;
    var bound: nat := if depth <= MAX_DEPTH then (MAX_DEPTH + 1 - depth) / 2 else 0;
    forall e | e in r ensures Everywhere(ShortChain, e.1) && (IsMergeKey(e.0) ==> 1 + Chain(e.1) <= bound) {
      var i :| 0 <= i < |r| && r[i] == e;
      assert merged[i] in merged;
      EntryIsEverywhere(payloads, merged[i]);
      VisitedIsSmaller(depth, entries, i);
      PassShortens(if IsMergeKey(e.0) then visit.residual_depth else 0, merged[i].1);
      if IsMergeKey(e.0) {
        PayloadsHere(entries);
        ResidualChain(depth, entries, merged[i]);
        KeyMeansPosition(depth, entries, merged[i]);
      }
    }
    ChainIsLongest(r, bound);
    InMapping(ShortChain, r);
  }

  lemma PayloadsHere(entries: seq<Entry>)
    requires MappingPayloads(Mapping(entries))
    ensures PayloadsAre(IsMapping)(Mapping(entries))
  {
  }

  lemma KeyMeansPosition(depth: nat, entries: seq<Entry>, e: Entry)
    requires PayloadsAre(IsMapping)(Mapping(entries)) && VisitValue(depth, Mapping(entries)).Ok?
    requires VisitValue(depth, Mapping(entries)).value.value.Mapping? && e in VisitValue(depth, Mapping(entries)).value.value.entries
    requires IsMergeKey(e.0)
    ensures depth + 1 <= MAX_DEPTH
  {
    VisitedEntry(depth, entries, e);
    ResidualDepth(depth, entries);
  }

  /** If every merge key has a mapping as payload, any number of passes succeeds as soon
      as the first one does. */
  lemma {:induction false} FirstPassDecides(n: nat, v: Value)
    requires MappingPayloads(v) && Apply(0, v).Ok?
    ensures Passes(n, v).Ok? && MappingPayloads(Passes(n, v).value)
    decreases n
  {
    hide Everywhere, Apply, Chain;
    if n > 0 {
      var w := Apply(0, v).value;
      MappingIsStable();
      PassKeepsPayloads(IsMapping, 0, v);
      PassShortens(0, v);
      if n > 1 {
        ShortPasses(0, w);
        FirstPassDecides(n - 1, w);
      }
    }
  }
}
