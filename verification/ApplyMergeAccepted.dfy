// What the borrowed path accepts, repeated `Value::apply_merge` accepts.
module ApplyMergeAccepted {
  import opened Prelude
  import opened Values
  import opened ApplyMerge
  import opened ApplyMergePasses
  import opened ApplyMergeRepeats
  import opened ApplyMergeExact
  import opened ApplyMergeRounds
  import opened ApplyMergeTheorems
  import opened ApplyMergeSteps
  import opened ApplyMergeFlat

  /** The borrowed path accepts the mapping. */
  ghost predicate Accepted(v: Value) {
    v.Mapping? ==> RefView(v.entries, 0).Ok?
  }

  ghost predicate FitsLinks(v: Value) {
    v.Mapping? ==> WaysMerge(v.entries) && Links(v.entries) <= MAX_DEPTH
  }

  ghost predicate Shorter(payload: Option<Value>, links: int) {
    payload.Some? ==> Mergeable(payload.value) && PayloadMerges(payload.value) && LinksOfPayload(payload.value) <= links
  }

  // What is left after some passes hangs below the merge key, by two links after one.
  lemma {:induction false} ResidualIsShorter(s: nat, entries: seq<Entry>)
    requires WaysMerge(entries)
    ensures Shorter(Residual(s, entries), Links(entries) - 1)
    decreases s, 0, 0
  {
    hide Source, Mergeable, PayloadMerges, LinksOfPayload;
    if s == 0 {
      SourceIsShorter(entries);
    } else {
      ResidualIsShorter(s - 1, entries);
      if Residual(s - 1, entries).Some? { NextIsShorter(s - 1, Residual(s - 1, entries).value); }
    }
  }

  lemma SourceIsShorter(entries: seq<Entry>)
    requires WaysMerge(entries)
    ensures Shorter(Source(entries), Links(entries) - 1)
  {
    hide Source, Links;
    if Source(entries).Some? {
      MergingPayload(Source(entries).value);
      LinksOfSource(entries);
    }
  }

  lemma LinksOfSource(entries: seq<Entry>)
    requires Source(entries).Some?
    ensures Links(entries) == 1 + LinksOfPayload(Source(entries).value)
  {
    hide Source;
  }

  lemma MergingPayload(payload: Value)
    requires PayloadMerges(payload)
    ensures Mergeable(payload)
  {
    hide WaysMerge;
    if payload.Sequence? { MergingItems(payload.items); }
  }

  lemma {:induction false} MergingItems(items: seq<Value>)
    requires ItemsMerge(items)
    ensures forall i :: 0 <= i < |items| ==> items[i].Mapping?
  {
    hide WaysMerge;
    if items != [] { MergingItems(items[1..]); }
  }

  lemma {:induction false} NextIsShorter(s: nat, payload: Value)
    requires PayloadMerges(payload)
    ensures Shorter(Next(s, payload), LinksOfPayload(payload) - 1)
    decreases s, 2, 0
  {
    hide Residual, WaysMerge, Links, ItemsMerge, LinksOfItems, NextOfItems;
    match payload {
      case Mapping(entries) => ResidualIsShorter(s, entries);
      case Sequence(items) => NextItemIsShorter(s, items);
      case _ =>
    }
  }

  lemma {:induction false} NextItemIsShorter(s: nat, items: seq<Value>)
    requires ItemsMerge(items)
    ensures Shorter(NextOfItems(s, items), LinksOfItems(items) - 1)
    decreases s, 1, |items|
  {
    hide Residual, WaysMerge, Links;
    if items != [] {
      ResidualIsShorter(s, items[0].entries);
      NextItemIsShorter(s, items[1..]);
    }
  }

  lemma {:induction false} RunIsShort(s: nat, entries: seq<Entry>)
    requires WaysMerge(entries)
    ensures Run(s, entries) > 0 ==> 2 * Run(s, entries) <= Links(entries) + 1
    decreases Size(Mapping(entries))
  {
    hide Residual, WaysMerge, Links, Size;
    ResidualIsShorter(s, entries);
    var left := Residual(s, entries);
    if left.Some? {
      LeftIsLink(s, entries);
      NextIsShorter(s, left.value);
      ResidualFollows(s, entries);
      var next := Residual(s + 1, entries);
      if next.Some? && next.value.Mapping? {
        assert AbsorbedIsSmaller(s + 1, entries);
        RunIsShort(s, next.value.entries);
      }
    }
  }

  lemma ResidualFollows(s: nat, entries: seq<Entry>)
    requires Residual(s, entries).Some?
    ensures Residual(s + 1, entries) == Next(s, Residual(s, entries).value)
  {
  }

  lemma LeftIsLink(s: nat, entries: seq<Entry>)
    requires WaysMerge(entries) && Residual(s, entries).Some?
    ensures LinksOfPayload(Residual(s, entries).value) + 1 <= Links(entries)
  {
    ResidualIsShorter(s, entries);
  }

  lemma {:induction false} FittingLinksSucceed(s: nat, v: Value)
    requires Everywhere(FitsLinks, v)
    ensures Succeeds(s, v)
    decreases Size(v)
  {
    hide Size, Absorbed, Residual, Run, WaysMerge, Links, Mergeable;
    if v.Mapping? {
      var entries := v.entries;
      RunIsShort(s, entries);
      ResidualIsShorter(s, entries);
      AbsorbedParts(FitsLinks, s + 1, entries);
      assert AbsorbedIsSmaller(s + 1, entries);
      forall e | e in Absorbed(s + 1, entries) ensures Succeeds(s, e.1) {
        assert Part(FitsLinks, e.1, Size(v));
        FittingLinksSucceed(s, e.1);
      }
      if Residual(s + 1, entries).Some? { FittingLinksSucceed(s, Residual(s + 1, entries).value); }
      SucceedsInParts(s, entries);
    } else {
      forall i | 0 <= i < |Kids(v)| ensures KidIsSmaller(v, i) && Succeeds(s, Kids(v)[i]) {
        KidOf(FitsLinks, v, i);
        FittingLinksSucceed(s, Kids(v)[i]);
      }
    }
  }

  lemma FittingLinksPass(v: Value)
    requires Everywhere(Plain, v) && Everywhere(FitsLinks, v)
    ensures EveryPassSucceeds(v)
  {
    hide Everywhere, Plain, Succeeds, MergeKeys;
    forall s: nat ensures Succeeds(s, v) { FittingLinksSucceed(s, v); }
    assert AllSucceed(MergeKeys(v), v);
    EveryPassExactly(v);
  }

  lemma {:induction false} AcceptedFits(v: Value)
    requires Everywhere(Plain, v) && Everywhere(Accepted, v)
    ensures Everywhere(FitsLinks, v)
    decreases Size(v)
  {
    hide Size, Plain, WaysMerge, Links;
    forall i | 0 <= i < |Kids(v)| ensures KidIsSmaller(v, i) && Everywhere(FitsLinks, Kids(v)[i]) {
      KidOf(Plain, v, i);
      KidOf(Accepted, v, i);
      AcceptedFits(Kids(v)[i]);
    }
    if v.Mapping? { RefViewExactly(v.entries, 0); }
  }

  /** Where the borrowed path accepts every mapping of a value, any number of passes
      succeeds: the passes never count more links than it does. */
  lemma AcceptedPasses(v: Value)
    requires Everywhere(Plain, v) && Everywhere(Accepted, v)
    ensures EveryPassSucceeds(v)
  {
    hide Everywhere, Plain;
    AcceptedFits(v);
    FittingLinksPass(v);
  }
}
