// When `Value::apply_merge` can be repeated: what a pass keeps, and which values
// every further pass accepts.
module ApplyMergeRepeats {
  import opened Prelude
  import opened Values
  import opened EntryLists
  import opened ApplyMerge
  import opened ApplyMergePasses
  import N = Nodes

  type Test = Value -> bool

  /** The value and everything reachable from it through values. */
  ghost predicate Everywhere(p: Test, v: Value)
    decreases Size(v)
  {
    && p(v)
    && forall i :: 0 <= i < |Kids(v)| ==> KidIsSmaller(v, i) && Everywhere(p, Kids(v)[i])
  }

  ghost predicate KidIsSmaller(v: Value, i: nat)
    requires i < |Kids(v)|
    ensures KidIsSmaller(v, i) && Size(Kids(v)[i]) < Size(v)
  {
    SizeOfKids(v);
    SizeOfKid(Kids(v), i);
    true
  }

  lemma InMapping(p: Test, entries: seq<Entry>)
    ensures Everywhere(p, Mapping(entries)) <==> p(Mapping(entries)) && forall e :: e in entries ==> Everywhere(p, e.1)
  {
    var v := Mapping(entries);
    if p(v) && forall e :: e in entries ==> Everywhere(p, e.1) {
      forall i | 0 <= i < |Kids(v)| ensures KidIsSmaller(v, i) && Everywhere(p, Kids(v)[i]) {
        assert entries[i] in entries;
      }
    }
    if Everywhere(p, v) {
      forall e | e in entries ensures Everywhere(p, e.1) {
        var i :| 0 <= i < |entries| && entries[i] == e;
        assert Everywhere(p, Kids(v)[i]);
      }
    }
  }

  // ----- One pass, kid by kid ----------------------------------------------------------------

  lemma {:induction false} ApplyKidsAt(visit: Visit, kids: seq<Value>)
    ensures ApplyKids(visit, kids).Ok? <==> forall i :: 0 <= i < |kids| ==> Apply(KidDepth(visit, i), kids[i]).Ok?
    ensures ApplyKids(visit, kids).Ok? ==>
              forall i :: 0 <= i < |kids| ==> ApplyKids(visit, kids).value[i] == Apply(KidDepth(visit, i), kids[i]).value
    ensures ApplyKids(visit, kids).Err? ==>
              exists i :: 0 <= i < |kids| && Apply(KidDepth(visit, i), kids[i]) == Err(ApplyKids(visit, kids).error)
    decreases |kids|
  {
    hide Apply, KidDepth;
    if kids != [] {
      var n := |kids| - 1;
      var init := kids[..n];
      ApplyKidsAt(visit, init);
      assert forall i :: 0 <= i < n ==> init[i] == kids[i];
      var last, before := Apply(KidDepth(visit, n), kids[n]), ApplyKids(visit, init);
      if last.Ok? && before.Err? {
        var i :| 0 <= i < |init| && Apply(KidDepth(visit, i), init[i]) == Err(before.error);
        assert Apply(KidDepth(visit, i), kids[i]) == Err(ApplyKids(visit, kids).error);
      }
    }
  }

  /** A pass visits the value, then passes over each kid of what the visit left. */
  lemma ApplyAt(depth: nat, v: Value)
    ensures Apply(depth, v).Ok? <==>
              && VisitValue(depth, v).Ok?
              && var visit := VisitValue(depth, v).value;
                 forall i :: 0 <= i < |Kids(visit.value)| ==> Apply(KidDepth(visit, i), Kids(visit.value)[i]).Ok?
    ensures Apply(depth, v).Ok? ==>
              && VisitValue(depth, v).Ok?
              && var visit := VisitValue(depth, v).value;
                 && |Kids(Apply(depth, v).value)| == |Kids(visit.value)|
                 && Apply(depth, v).value == WithKids(visit.value, Kids(Apply(depth, v).value))
                 && forall i :: 0 <= i < |Kids(visit.value)| ==>
                      Kids(Apply(depth, v).value)[i] == Apply(KidDepth(visit, i), Kids(visit.value)[i]).value
    ensures Apply(depth, v).Err? ==>
              || VisitValue(depth, v) == Err(Apply(depth, v).error)
              || (VisitValue(depth, v).Ok?
                  && var visit := VisitValue(depth, v).value;
                     exists i :: 0 <= i < |Kids(visit.value)|
                              && Apply(KidDepth(visit, i), Kids(visit.value)[i]) == Err(Apply(depth, v).error))
  {
    hide KidDepth, VisitValue, Kids, WithKids;
    if VisitValue(depth, v).Ok? {
      var visit := VisitValue(depth, v).value;
      ApplyKidsAt(visit, Kids(visit.value));
    }
  }

  function EntryPass(residual_depth: nat, e: Entry): Result<Value, Error> {
    Apply(if IsMergeKey(e.0) then residual_depth else 0, e.1)
  }

  /** A pass over a mapping keeps the keys its visit left and passes over their values. */
  lemma MappingPass(depth: nat, entries: seq<Entry>)
    requires VisitValue(depth, Mapping(entries)).Ok?
    ensures VisitValue(depth, Mapping(entries)).value.value.Mapping?
    ensures var visit := VisitValue(depth, Mapping(entries)).value;
            var merged, r := visit.value.entries, Apply(depth, Mapping(entries));
            && (r.Ok? <==> forall i :: 0 <= i < |merged| ==> EntryPass(visit.residual_depth, merged[i]).Ok?)
            && (r.Ok? ==> r.value.Mapping? && |r.value.entries| == |merged|
                          && forall i :: 0 <= i < |merged| ==>
                               r.value.entries[i] == (merged[i].0, EntryPass(visit.residual_depth, merged[i]).value))
            && (r.Err? ==> exists i :: 0 <= i < |merged| && EntryPass(visit.residual_depth, merged[i]) == Err(r.error))
  {
    hide Apply, IsMergeKey;
    ApplyAt(depth, Mapping(entries));
    var visit := VisitValue(depth, Mapping(entries)).value;
    var merged, r := visit.value.entries, Apply(depth, Mapping(entries));
    assert forall i :: 0 <= i < |merged| ==> EntryPass(visit.residual_depth, merged[i]) == Apply(KidDepth(visit, i), Kids(visit.value)[i]);
  }

  /** A pass over any other value passes over its kids. */
  lemma OtherPass(depth: nat, v: Value)
    requires !v.Mapping?
    ensures var r := Apply(depth, v);
            && (r.Ok? <==> forall i :: 0 <= i < |Kids(v)| ==> Apply(0, Kids(v)[i]).Ok?)
            && (r.Ok? ==> |Kids(r.value)| == |Kids(v)| && r.value == WithKids(v, Kids(r.value))
                          && forall i :: 0 <= i < |Kids(v)| ==> Kids(r.value)[i] == Apply(0, Kids(v)[i]).value)
            && (r.Err? ==> exists i :: 0 <= i < |Kids(v)| && Apply(0, Kids(v)[i]) == Err(r.error))
  {
    hide Apply, Kids, WithKids;
    ApplyAt(depth, v);
  }

  // ----- Payloads ------------------------------------------------------------------------------

  /** Every merge key of the mapping has a payload `ok` accepts. */
  ghost function PayloadsAre(ok: Test): Test {
    (v: Value) => v.Mapping? ==> forall i :: 0 <= i < |v.entries| && IsMergeKey(v.entries[i].0) ==> ok(v.entries[i].1)
  }

  predicate IsMapping(v: Value) {
    v.Mapping?
  }

  /** What `merge_mapping` takes: a mapping, or a list of mappings. */
  predicate Mergeable(v: Value) {
    v.Mapping? || (v.Sequence? && forall i :: 0 <= i < |v.items| ==> v.items[i].Mapping?)
  }

  // Passes keep accepted payloads, which are all mergeable.
  ghost predicate Stable(ok: Test) {
    && (forall v :: ok(v) ==> Mergeable(v))
    && (forall depth, v :: ok(v) && Apply(depth, v).Ok? ==> ok(Apply(depth, v).value))
  }

  lemma MappingIsStable()
    ensures Stable(IsMapping)
  {
    hide Apply;
    forall depth, v | IsMapping(v) && Apply(depth, v).Ok? ensures IsMapping(Apply(depth, v).value) {
      ApplyAt(depth, v);
    }
  }

  lemma MergeableIsStable()
    ensures Stable(Mergeable)
  {
    hide Apply;
    forall depth, v | Mergeable(v) && Apply(depth, v).Ok? ensures Mergeable(Apply(depth, v).value) {
      ApplyAt(depth, v);
      if v.Sequence? {
        var kids := Kids(Apply(depth, v).value);
        forall i | 0 <= i < |kids| ensures kids[i].Mapping? {
          ApplyAt(KidDepth(VisitValue(depth, v).value, i), v.items[i]);
        }
      }
    }
  }

  /** The entry belongs to a mapping on which `p` holds everywhere. */
  ghost predicate Belongs(p: Test, e: Entry) {
    exists source: seq<Entry> :: e in source && Everywhere(p, Mapping(source))
  }

  ghost predicate AllBelong(p: Test, entries: seq<Entry>) {
    forall e :: e in entries ==> Belongs(p, e)
  }

  lemma OwnBelong(p: Test, entries: seq<Entry>)
    requires Everywhere(p, Mapping(entries))
    ensures AllBelong(p, entries)
  {
    forall e | e in entries ensures Belongs(p, e) {
    }
  }

  lemma InsertedBelong(p: Test, entries: seq<Entry>, source: seq<Entry>)
    requires AllBelong(p, entries) && Everywhere(p, Mapping(source))
    ensures AllBelong(p, InsertMissing(ValueEq, entries, source))
  {
    hide Everywhere;
    OwnBelong(p, source);
    InsertMissingTakesFrom(ValueEq, entries, source);
  }

  lemma {:induction false} ListBelongs(p: Test, entries: seq<Entry>, items: seq<Value>)
    requires AllBelong(p, entries) && MergeListInto(entries, items).Ok?
    requires forall i :: 0 <= i < |items| ==> Everywhere(p, items[i])
    ensures AllBelong(p, MergeListInto(entries, items).value)
    decreases |items|
  {
    hide Everywhere, AllBelong;
    if items != [] {
      InsertedBelong(p, entries, items[0].entries);
      ListBelongs(p, InsertMissing(ValueEq, entries, items[0].entries), items[1..]);
    }
  }

  // What a visit leaves comes from mappings of the value.
  lemma VisitBelongs(p: Test, depth: nat, entries: seq<Entry>)
    requires Everywhere(p, Mapping(entries)) && VisitValue(depth, Mapping(entries)).Ok?
    ensures VisitValue(depth, Mapping(entries)).value.value.Mapping?
    ensures AllBelong(p, VisitValue(depth, Mapping(entries)).value.value.entries)
  {
    hide Everywhere, AllBelong, InsertMissing;
    OwnBelong(p, entries);
    if MergePosition(entries).Some? {
      var i := MergePosition(entries).value;
      RestBelongs(p, entries, i);
      PayloadEverywhere(p, entries, i);
      match entries[i].1 {
        case Mapping(source) => InsertedBelong(p, RemoveAt(entries, i), source);
        case Sequence(items) => ListBelongs(p, RemoveAt(entries, i), items);
      }
    }
  }

  lemma RestBelongs(p: Test, entries: seq<Entry>, i: nat)
    requires AllBelong(p, entries) && i < |entries|
    ensures AllBelong(p, RemoveAt(entries, i))
  {
    hide Belongs;
  }

  lemma PayloadEverywhere(p: Test, entries: seq<Entry>, i: nat)
    requires Everywhere(p, Mapping(entries)) && i < |entries|
    ensures Everywhere(p, entries[i].1)
    ensures entries[i].1.Sequence? ==> forall j :: 0 <= j < |entries[i].1.items| ==> Everywhere(p, entries[i].1.items[j])
  {
    InMapping(p, entries);
    assert entries[i] in entries;
    var v := entries[i].1;
    if v.Sequence? {
      assert Kids(v) == v.items;
    }
  }

  lemma PayloadOf(ok: Test, e: Entry)
    requires Belongs(PayloadsAre(ok), e)
    ensures Everywhere(PayloadsAre(ok), e.1) && (IsMergeKey(e.0) ==> ok(e.1))
  {
    hide IsMergeKey;
    var source: seq<Entry> :| e in source && Everywhere(PayloadsAre(ok), Mapping(source));
    InMapping(PayloadsAre(ok), source);
    var i :| 0 <= i < |source| && source[i] == e;
  }

  lemma VisitFailsByDepth(depth: nat, entries: seq<Entry>)
    requires PayloadsAre(Mergeable)(Mapping(entries))
    ensures VisitValue(depth, Mapping(entries)).Err? ==> VisitValue(depth, Mapping(entries)).error == N.DepthExceeded
  {
    hide InsertMissing, IsMergeKey;
    if MergePosition(entries).Some? {
      var i := MergePosition(entries).value;
      assert Mergeable(entries[i].1);
      if entries[i].1.Sequence? {
        ListOfMappingsMerges(RemoveAt(entries, i), entries[i].1.items);
      }
    }
  }

  lemma {:induction false} ListOfMappingsMerges(entries: seq<Entry>, items: seq<Value>)
    requires forall i :: 0 <= i < |items| ==> items[i].Mapping?
    ensures MergeListInto(entries, items).Ok?
    decreases |items|
  {
    hide InsertMissing;
    if items != [] { ListOfMappingsMerges(InsertMissing(ValueEq, entries, items[0].entries), items[1..]); }
  }

  // Success keeps the payloads accepted, failure is a matter of depth.
  ghost predicate KeepsPayloads(ok: Test, r: Result<Value, Error>) {
    match r
    case Ok(v) => Everywhere(PayloadsAre(ok), v)
    case Err(e) => e == N.DepthExceeded
  }

  lemma {:induction false} PassKeepsPayloads(ok: Test, depth: nat, v: Value)
    requires Stable(ok) && Everywhere(PayloadsAre(ok), v)
    ensures KeepsPayloads(ok, Apply(depth, v))
    decreases Size(v), 0
  {
    hide Apply, VisitValue, WithKids, Stable;
    if v.Mapping? {
      assert PayloadsAre(Mergeable)(v) by { PayloadsAreMergeable(ok, v); }
      VisitFailsByDepth(depth, v.entries);
      if VisitValue(depth, v).Ok? {
        EntriesKeepPayloads(ok, depth, v.entries);
      } else {
        ApplyAt(depth, v);
      }
    } else {
      KidsKeepPayloads(ok, depth, v);
    }
  }

  lemma PayloadsAreMergeable(ok: Test, v: Value)
    requires Stable(ok) && PayloadsAre(ok)(v)
    ensures PayloadsAre(Mergeable)(v)
  {
  }

  lemma {:induction false} EntriesKeepPayloads(ok: Test, depth: nat, entries: seq<Entry>)
    requires Stable(ok) && Everywhere(PayloadsAre(ok), Mapping(entries)) && VisitValue(depth, Mapping(entries)).Ok?
    ensures KeepsPayloads(ok, Apply(depth, Mapping(entries)))
    decreases Size(Mapping(entries)), 0, 0
  {
    hide Apply, VisitValue, IsMergeKey, Everywhere, Belongs, Size;
    var visit := VisitValue(depth, Mapping(entries)).value;
    MappingPass(depth, entries);
    VisitBelongs(PayloadsAre(ok), depth, entries);
    var merged, r := visit.value.entries, Apply(depth, Mapping(entries));
    forall i | 0 <= i < |merged|
      ensures KeepsPayloads(ok, EntryPass(visit.residual_depth, merged[i]))
      ensures IsMergeKey(merged[i].0) && EntryPass(visit.residual_depth, merged[i]).Ok? ==>
                ok(EntryPass(visit.residual_depth, merged[i]).value)
    {
      assert merged[i] in merged;
      PayloadOf(ok, merged[i]);
      VisitedIsSmaller(depth, entries, i);
      PassKeepsPayloads(ok, if IsMergeKey(merged[i].0) then visit.residual_depth else 0, merged[i].1);
    }
    if r.Ok? {
      InMapping(PayloadsAre(ok), r.value.entries);
    }
  }

  lemma VisitedIsSmaller(depth: nat, entries: seq<Entry>, i: nat)
    requires VisitValue(depth, Mapping(entries)).Ok? && VisitValue(depth, Mapping(entries)).value.value.Mapping?
    requires i < |VisitValue(depth, Mapping(entries)).value.value.entries|
    ensures Size(VisitValue(depth, Mapping(entries)).value.value.entries[i].1) < Size(Mapping(entries))
  {
    hide VisitValue, Size;
    var w := VisitValue(depth, Mapping(entries)).value.value;
    VisitDoesNotGrow(depth, Mapping(entries));
    SizeOfKids(w);
    SizeOfKid(Kids(w), i);
  }

  lemma {:induction false} KidsKeepPayloads(ok: Test, depth: nat, v: Value)
    requires Stable(ok) && Everywhere(PayloadsAre(ok), v) && !v.Mapping?
    ensures KeepsPayloads(ok, Apply(depth, v))
    decreases Size(v), 0, 0
  {
    hide Apply, Stable, Size;
    OtherPass(depth, v);
    var r := Apply(depth, v);
    forall i | 0 <= i < |Kids(v)| ensures KeepsPayloads(ok, Apply(0, Kids(v)[i])) {
      assert KidIsSmaller(v, i);
      PassKeepsPayloads(ok, 0, Kids(v)[i]);
    }
    if r.Ok? {
      forall i | 0 <= i < |Kids(r.value)| ensures KidIsSmaller(r.value, i) && Everywhere(PayloadsAre(ok), Kids(r.value)[i]) {
        assert KeepsPayloads(ok, Apply(0, Kids(v)[i]));
      }
    }
  }

  /** If every merge key has a mapping or a list of mappings as payload, no repeated
      pass fails but for the depth budget. */
  lemma {:induction false} PassesFailOnlyByDepth(n: nat, v: Value)
    requires Everywhere(PayloadsAre(Mergeable), v)
    ensures KeepsPayloads(Mergeable, Passes(n, v))
    decreases n
  {
    hide Everywhere, Apply;
    if n > 0 {
      MergeableIsStable();
      PassKeepsPayloads(Mergeable, 0, v);
      if Apply(0, v).Ok? { PassesFailOnlyByDepth(n - 1, Apply(0, v).value); }
    }
  }
}
