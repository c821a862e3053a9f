// Exactly which passes of `Value::apply_merge` succeed, for values whose mappings hold
// at most one merge key, the plain `<<`: any payloads, lists and overridden entries.
module ApplyMergeSteps {
  import opened Prelude
  import opened Values
  import opened ApplyMerge
  import opened ApplyMergePasses
  import opened ApplyMergeRepeats
  import opened ApplyMergeExact
  import opened ApplyMergeRounds
  import opened ApplyMergeTheorems

  // ----- Sizes -------------------------------------------------------------------------------------

  const ANY: Test := v => true

  lemma {:induction false} AnyEverywhere(v: Value)
    ensures Everywhere(ANY, v)
    decreases Size(v)
  {
    hide Size, Kids;
    forall i | 0 <= i < |Kids(v)| ensures KidIsSmaller(v, i) && Everywhere(ANY, Kids(v)[i]) {
      assert KidIsSmaller(v, i);
      AnyEverywhere(Kids(v)[i]);
    }
  }

  ghost predicate AbsorbedIsSmaller(s: nat, entries: seq<Entry>)
    ensures AbsorbedIsSmaller(s, entries)
    ensures forall e :: e in Absorbed(s, entries) ==> Size(e.1) < Size(Mapping(entries))
    ensures Residual(s, entries).Some? ==> Size(Residual(s, entries).value) < Size(Mapping(entries))
  {
    AnyEverywhere(Mapping(entries));
    AbsorbedParts(ANY, s, entries);
    true
  }

  // ----- One pass ---------------------------------------------------------------------------------------

  /** The visits of pass `s + 1` that hand a mapping on to the next one, two merge keys
      deeper: a list that is reached whole ends the run. */
  ghost function Run(s: nat, entries: seq<Entry>): nat
    decreases Size(Mapping(entries))
  {
    if Residual(s, entries).None? then 0
    else
      var next := Residual(s + 1, entries);
      if next.Some? && next.value.Mapping? && AbsorbedIsSmaller(s + 1, entries) then 1 + Run(s, next.value.entries) else 1
  }

  /** Pass `s + 1` succeeds on what `s` passes have left: what it merges is mergeable,
      the runs fit the depth budget, and so for every value that is still there. */
  ghost predicate Succeeds(s: nat, v: Value)
    decreases Size(v)
  {
    match v
    case Mapping(entries) =>
      && AbsorbedIsSmaller(s + 1, entries)
      && (Residual(s, entries).Some? ==> Mergeable(Residual(s, entries).value))
      && 2 * Run(s, entries) <= MAX_DEPTH
      && (forall e :: e in Absorbed(s + 1, entries) ==> Succeeds(s, e.1))
      && (Residual(s + 1, entries).Some? ==> Succeeds(s, Residual(s + 1, entries).value))
    case _ => forall i :: 0 <= i < |Kids(v)| ==> KidIsSmaller(v, i) && Succeeds(s, Kids(v)[i])
  }

  ghost predicate RunFits(s: nat, depth: nat, v: Value) {
    v.Mapping? && Run(s, v.entries) > 0 ==> depth + 2 * Run(s, v.entries) <= MAX_DEPTH + 1
  }

  // A run in its own pass, from depth zero.
  lemma FreshRunFits(s: nat, v: Value)
    requires Succeeds(s, v)
    ensures RunFits(s, 0, v)
  {
    hide Run, Absorbed, Residual, Mergeable;
  }

  lemma PassesKeepMergeable(n: nat, v: Value)
    requires Passes(n, v).Ok?
    ensures Mergeable(Passes(n, v).value) == Mergeable(v)
  {
    hide Passes;
    PassesKeepKind(n, v);
    if v.Sequence? {
      PassesOfKids(n, v);
      var ws := Passes(n, v).value.items;
      assert Kids(v) == v.items && Kids(Passes(n, v).value) == ws;
      forall i | 0 <= i < |ws| ensures ws[i].Mapping? == v.items[i].Mapping? {
        PassesKeepKind(n, v.items[i]);
      }
    }
  }

  // A pass over a visited mapping succeeds part by part.
  lemma {:induction false} PartsDecide(residual_depth: nat, merged: seq<Entry>)
    ensures (forall i :: 0 <= i < |merged| ==> EntryPass(residual_depth, merged[i]).Ok?) ==>
              && (forall e :: e in Ordinary(merged) ==> Apply(0, e.1).Ok?)
              && (Source(merged).Some? ==> Apply(residual_depth, Source(merged).value).Ok?)
    ensures CountKeys(merged) <= 1 && (forall e :: e in Ordinary(merged) ==> Apply(0, e.1).Ok?)
            && (Source(merged).Some? ==> Apply(residual_depth, Source(merged).value).Ok?) ==>
              forall i :: 0 <= i < |merged| ==> EntryPass(residual_depth, merged[i]).Ok?
  {
    hide Apply, IsMergeKey, CountKeys, Ordinary, Source;
    if forall i :: 0 <= i < |merged| ==> EntryPass(residual_depth, merged[i]).Ok? {
      forall e | e in Ordinary(merged) ensures Apply(0, e.1).Ok? {
        OrdinaryIn(merged, e);
        var i :| 0 <= i < |merged| && merged[i] == e;
        assert EntryPass(residual_depth, merged[i]).Ok?;
      }
      SourceIn(merged);
      if Source(merged).Some? {
        var e :| e in merged && IsMergeKey(e.0) && e.1 == Source(merged).value;
        var i :| 0 <= i < |merged| && merged[i] == e;
        assert EntryPass(residual_depth, merged[i]).Ok?;
      }
    }
    if CountKeys(merged) <= 1 && (forall e :: e in Ordinary(merged) ==> Apply(0, e.1).Ok?)
       && (Source(merged).Some? ==> Apply(residual_depth, Source(merged).value).Ok?)
    {
      forall i | 0 <= i < |merged| ensures EntryPass(residual_depth, merged[i]).Ok? {
        OrdinaryIn(merged, merged[i]);
        if IsMergeKey(merged[i].0) {
          PartsOfMapping(merged);
          OnlyMergePosition(merged, i);
        }
      }
    }
  }

  /** On what `s` passes have left, the next pass succeeds exactly as `Succeeds` says. */
  lemma {:induction false} StepExactly(s: nat, depth: nat, v: Value)
    requires Everywhere(Plain, v) && Passes(s, v).Ok? && depth % 2 == 0
    ensures Apply(depth, Passes(s, v).value).Ok? <==> Succeeds(s, v) && RunFits(s, depth, v)
    decreases Size(v), 0
  {
    hide Passes, Apply, Plain, Size, Absorbed, Residual;
    PassesKeepKind(s, v);
    if v.Mapping? {
      MappingExactly(s, depth, v.entries);
    } else {
      PassesOfKids(s, v);
      var w := Passes(s, v).value;
      OtherPass(depth, w);
      forall i | 0 <= i < |Kids(v)| ensures Apply(0, Kids(w)[i]).Ok? <==> Succeeds(s, Kids(v)[i]) {
        KidOf(Plain, v, i);
        StepExactly(s, 0, Kids(v)[i]);
        if Succeeds(s, Kids(v)[i]) { FreshRunFits(s, Kids(v)[i]); }
      }
    }
  }

  lemma {:induction false} MappingExactly(s: nat, depth: nat, entries: seq<Entry>)
    requires Everywhere(Plain, Mapping(entries)) && Passes(s, Mapping(entries)).Ok? && depth % 2 == 0
    ensures Apply(depth, Passes(s, Mapping(entries)).value).Ok? <==> Succeeds(s, Mapping(entries)) && RunFits(s, depth, Mapping(entries))
    decreases Size(Mapping(entries)), 0, 0
  {
    hide Passes, Apply, Plain, PlainKeys, Size, Absorbed, Residual, VisitValue, Everywhere, PassedOn, Mergeable, EntryPass;
    var w := Passes(s, Mapping(entries)).value;
    PassesAbsorb(s, entries);
    VisitParts(depth, w.entries);
    if Residual(s, entries).Some? { PassesKeepMergeable(s, Residual(s, entries).value); }
    if VisitValue(depth, w).Ok? {
      VisitedExactly(s, depth, entries);
    } else {
      ApplyAt(depth, w);
    }
  }

  ghost predicate Left(s: nat, entries: seq<Entry>, merged: seq<Entry>) {
    && PlainKeys(merged)
    && PassedOn(s, Absorbed(s + 1, entries), Ordinary(merged))
    && SourcePassed(s, Residual(s + 1, entries), Source(merged))
  }

  lemma VisitLeaves(s: nat, depth: nat, entries: seq<Entry>) returns (merged: seq<Entry>, residual_depth: nat)
    requires Everywhere(Plain, Mapping(entries)) && Passes(s, Mapping(entries)).Ok?
    requires Passes(s, Mapping(entries)).value.Mapping? && VisitValue(depth, Passes(s, Mapping(entries)).value).Ok?
    ensures VisitValue(depth, Passes(s, Mapping(entries)).value) == Ok(Visit(Mapping(merged), residual_depth))
    ensures Left(s, entries, merged)
    ensures Residual(s, entries).Some? ==> residual_depth == depth + 2 && depth + 1 <= MAX_DEPTH && Mergeable(Residual(s, entries).value)
  {
    hide Passes, Plain, PlainKeys, Absorbed, Residual, Everywhere, PassedOn, Mergeable, VisitValue;
    var w := Passes(s, Mapping(entries)).value;
    PassesAbsorb(s, entries);
    VisitParts(depth, w.entries);
    ShallowVisit(0, depth, w);
    VisitStands(s, entries);
    merged, residual_depth := VisitValue(depth, w).value.value.entries, VisitValue(depth, w).value.residual_depth;
    if Residual(s, entries).Some? { PassesKeepMergeable(s, Residual(s, entries).value); }
  }

  lemma {:induction false} VisitedExactly(s: nat, depth: nat, entries: seq<Entry>)
    requires Everywhere(Plain, Mapping(entries)) && Passes(s, Mapping(entries)).Ok? && depth % 2 == 0
    requires Passes(s, Mapping(entries)).value.Mapping? && VisitValue(depth, Passes(s, Mapping(entries)).value).Ok?
    ensures Apply(depth, Passes(s, Mapping(entries)).value).Ok? <==> Succeeds(s, Mapping(entries)) && RunFits(s, depth, Mapping(entries))
    decreases Size(Mapping(entries)), 0, 0, 0
  {
    hide Passes, Apply, Plain, Size, Absorbed, Residual, VisitValue, Everywhere, Mergeable, EntryPass, CountKeys, Succeeds, RunFits, Run, Left,
         Source, Ordinary;
    var merged, residual_depth := VisitLeaves(s, depth, entries);
    MappingPass(depth, Passes(s, Mapping(entries)).value.entries);
    PartsDecide(residual_depth, merged);
    LeftIsPlain(s, entries, merged);
    AbsorbedExactly(s, entries, merged);
    SucceedsInParts(s, entries);
    if Residual(s, entries).Some? {
      RunStep(s, depth, entries);
      SourceExactly(s, residual_depth, entries, merged);
    } else {
      NothingLeftStays(s, entries);
    }
  }

  lemma LeftIsPlain(s: nat, entries: seq<Entry>, merged: seq<Entry>)
    requires Left(s, entries, merged)
    ensures CountKeys(merged) <= 1 && PassedOn(s, Absorbed(s + 1, entries), Ordinary(merged))
    ensures Source(merged).Some? == Residual(s + 1, entries).Some?
  {
    hide CountKeys, Absorbed, Residual, Ordinary, Source, PassedOn;
  }

  // The payload that is left, as deep as the visit queues it.
  lemma {:induction false} SourceExactly(s: nat, depth: nat, entries: seq<Entry>, merged: seq<Entry>)
    requires Everywhere(Plain, Mapping(entries)) && Left(s, entries, merged) && depth % 2 == 0
    ensures Source(merged).Some? == Residual(s + 1, entries).Some?
    ensures Source(merged).Some? ==>
              (Apply(depth, Source(merged).value).Ok?
               <==> Succeeds(s, Residual(s + 1, entries).value) && RunFits(s, depth, Residual(s + 1, entries).value))
    decreases Size(Mapping(entries)), 0, 0, 0, 0
  {
    hide Passes, Apply, Plain, PlainKeys, Size, Absorbed, Residual, Everywhere, Succeeds, RunFits, PassedOn, Source;
    AbsorbedParts(Plain, s + 1, entries);
    if Residual(s + 1, entries).Some? {
      StepExactly(s, depth, Residual(s + 1, entries).value);
    }
  }

  lemma SucceedsInParts(s: nat, entries: seq<Entry>)
    ensures Succeeds(s, Mapping(entries)) <==>
              && (Residual(s, entries).Some? ==> Mergeable(Residual(s, entries).value))
              && 2 * Run(s, entries) <= MAX_DEPTH
              && (forall e :: e in Absorbed(s + 1, entries) ==> Succeeds(s, e.1))
              && (Residual(s + 1, entries).Some? ==> Succeeds(s, Residual(s + 1, entries).value))
  {
    hide Absorbed, Residual, Run, Mergeable;
    assert AbsorbedIsSmaller(s + 1, entries);
  }

  lemma NothingLeftStays(s: nat, entries: seq<Entry>)
    requires Residual(s, entries).None?
    ensures Residual(s + 1, entries).None? && Run(s, entries) == 0
    ensures forall depth :: RunFits(s, depth, Mapping(entries))
  {
  }

  // A run grows by a visit and two links.
  lemma RunStep(s: nat, depth: nat, entries: seq<Entry>)
    requires Residual(s, entries).Some? && depth + 1 <= MAX_DEPTH && depth % 2 == 0
    ensures RunFits(s, depth, Mapping(entries)) <==>
              (Residual(s + 1, entries).Some? ==> RunFits(s, depth + 2, Residual(s + 1, entries).value))
    ensures RunFits(s, depth, Mapping(entries)) ==> 2 * Run(s, entries) <= MAX_DEPTH
  {
    hide Residual;
    assert AbsorbedIsSmaller(s + 1, entries);
  }

  // The ordinary entries that are left, each on its own.
  lemma {:induction false} AbsorbedExactly(s: nat, entries: seq<Entry>, merged: seq<Entry>)
    requires Everywhere(Plain, Mapping(entries)) && PassedOn(s, Absorbed(s + 1, entries), Ordinary(merged))
    ensures (forall e :: e in Ordinary(merged) ==> Apply(0, e.1).Ok?) <==> forall e :: e in Absorbed(s + 1, entries) ==> Succeeds(s, e.1)
    decreases Size(Mapping(entries)), 0, 0, 0, 0
  {
    hide Passes, Apply, Plain, Size, Absorbed, Everywhere, Ordinary, Succeeds;
    var raw, kept := Absorbed(s + 1, entries), Ordinary(merged);
    AbsorbedParts(Plain, s + 1, entries);
    forall i | 0 <= i < |raw| ensures Apply(0, kept[i].1).Ok? <==> Succeeds(s, raw[i].1) {
      assert raw[i] in raw && Part(Plain, raw[i].1, Size(Mapping(entries)));
      StepExactly(s, 0, raw[i].1);
      if Succeeds(s, raw[i].1) { FreshRunFits(s, raw[i].1); }
    }
    if forall e :: e in kept ==> Apply(0, e.1).Ok? {
      forall e | e in raw ensures Succeeds(s, e.1) {
        var i :| 0 <= i < |raw| && raw[i] == e;
        assert kept[i] in kept;
      }
    }
    if forall e :: e in raw ==> Succeeds(s, e.1) {
      forall e | e in kept ensures Apply(0, e.1).Ok? {
        var i :| 0 <= i < |kept| && kept[i] == e;
        assert raw[i] in raw;
      }
    }
  }

  // ----- Any number of passes ------------------------------------------------------------------------------

  ghost predicate AllSucceed(n: nat, v: Value) {
    forall s :: 0 <= s < n ==> Succeeds(s, v)
  }

  lemma NextSucceeds(n: nat, v: Value)
    requires Everywhere(Plain, v) && Passes(n, v).Ok?
    ensures Passes(n + 1, v).Ok? <==> Succeeds(n, v)
  {
    hide Passes, Apply, Plain, Everywhere, Succeeds;
    PassesLast(n, v);
    StepExactly(n, 0, v);
    if Succeeds(n, v) { FreshRunFits(n, v); }
  }

  /** `n` passes succeed exactly if each of them does, as the value itself tells. */
  lemma {:induction false} PassesExactly(n: nat, v: Value)
    requires Everywhere(Plain, v)
    ensures Passes(n, v).Ok? <==> AllSucceed(n, v)
    decreases n
  {
    hide Passes, Apply, Plain, Everywhere, Succeeds;
    if n == 0 {
      NoPass(v);
    } else {
      var m := n - 1;
      PassesExactly(m, v);
      PassesLast(m, v);
      if Passes(m, v).Ok? { NextSucceeds(m, v); }
      if AllSucceed(n, v) { assert AllSucceed(m, v) && Succeeds(m, v); }
      if AllSucceed(m, v) && Succeeds(m, v) { assert AllSucceed(n, v); }
    }
  }

  lemma NoPass(v: Value)
    ensures Passes(0, v) == Ok(v)
  {
  }

  // Without merge keys nothing changes any more.
  lemma {:induction false} QuietStays(m: nat, n: nat, v: Value)
    requires m <= n && Passes(m, v).Ok? && MergeKeys(Passes(m, v).value) == 0
    ensures Passes(n, v) == Passes(m, v)
    decreases n
  {
    hide Passes, Apply, MergeKeys;
    if m < n {
      QuietStays(m, n - 1, v);
      PassesLast(n - 1, v);
      PassMakesProgress(0, Passes(m, v).value);
    }
  }

  /** Every repeated pass succeeds exactly if `Succeeds` holds for as many rounds as the
      value has merge keys. */
  lemma EveryPassExactly(v: Value)
    requires Everywhere(Plain, v)
    ensures EveryPassSucceeds(v) <==> AllSucceed(MergeKeys(v), v)
  {
    hide Passes, Plain, Everywhere, Succeeds, MergeKeys;
    var k := MergeKeys(v);
    PassesExactly(k, v);
    if AllSucceed(k, v) {
      RepeatedPassesEnd(k, v);
      forall n: nat ensures Passes(n, v).Ok? {
        if n < k {
          assert AllSucceed(n, v);
          PassesExactly(n, v);
        } else {
          QuietStays(k, n, v);
        }
      }
    }
  }
}
