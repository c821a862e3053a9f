// What one pass of `Value::apply_merge` (src/ast.rs) leaves of a whole value, however
// many merge keys its mappings hold, and where it fails.
module ApplyMergeTree {
  import opened Prelude
  import opened Values
  import opened EntryLists
  import opened ApplyMerge
  import opened ApplyMergeRepeats
  import opened ApplyMergeRounds
  import T = MergedTree
  import N = Nodes

  type Place = T.Place
  type Faults = T.Faults

  // ----- The value after one pass -----------------------------------------------------------------

  /** The entries of a mapping after its own merge: without its first merge key, and then
      the entries of the mappings behind that key whose keys are missing. */
  function PassLevel(entries: seq<Entry>): seq<Entry> {
    match MergePosition(entries)
    case None => entries
    case Some(i) => InsertMissing(ValueEq, entries[..i] + entries[i + 1..], Incoming(entries[i].1))
  }

  /** `r` is the value `v` with the first merge key of every mapping expanded by one link,
      from the outside in; everything else stays as it is. */
  ghost predicate IsPassed(v: Value, r: Value)
    decreases r, 0
  {
    match v
    case Mapping(entries) => r.Mapping? && EntriesPassed(PassLevel(entries), r.entries)
    case Sequence(items) =>
      r.Sequence? && |r.items| == |items| && forall i :: 0 <= i < |items| ==> IsPassed(items[i], r.items[i])
    case Tagged(tag, inner) => r.Tagged? && r.tag == tag && IsPassed(inner, r.value)
    case _ => r == v
  }

  ghost predicate EntriesPassed(level: seq<Entry>, r: seq<Entry>)
    decreases r, 0
  {
    |r| == |level| && forall i :: 0 <= i < |r| ==> EntryPassed(level[i], r[i])
  }

  ghost predicate EntryPassed(e: Entry, r: Entry)
    decreases r, 0
  {
    r.0 == e.0 && IsPassed(e.1, r.1)
  }

  // ----- Where it fails ----------------------------------------------------------------------------

  /** What is wrong with the first item that is no mapping. */
  ghost predicate BadItems(items: seq<Value>, e: Error) {
    exists k :: 0 <= k < |items| && BadItem(items[k], e) && forall j :: 0 <= j < k ==> items[j].Mapping?
  }

  predicate BadItem(item: Value, e: Error) {
    !item.Mapping? && e == if item.Sequence? then N.ListItemIsSequence else if item.Tagged? then N.SourceIsTagged else N.ListItemIsScalar
  }

  ghost predicate BadPayload(payload: Value, e: Error) {
    if payload.Sequence? then BadItems(payload.items, e)
    else !payload.Mapping? && e == if payload.Tagged? then N.SourceIsTagged else N.SourceIsScalar
  }

  /** A mapping's own merge fails: its links are used up, or its payload cannot be merged. */
  ghost predicate OwnFault(depth: nat, v: Value, e: Error) {
    && v.Mapping? && MergePosition(v.entries).Some?
    && if depth >= MAX_DEPTH then e == N.DepthExceeded else BadPayload(v.entries[MergePosition(v.entries).value].1, e)
  }

  function After(v: Value): Value {
    if v.Mapping? then Mapping(PassLevel(v.entries)) else v
  }

  /** Behind a merge key that is left the links go on, two from here. */
  function DepthAt(depth: nat, v: Value, k: nat): nat {
    if After(v).Mapping? && k < |After(v).entries| && IsMergeKey(After(v).entries[k].0) then depth + 2 else 0
  }

  /** The own merge of the mapping at the place fails. */
  ghost predicate PassFault(depth: nat, v: Value, place: Place, e: Error)
    decreases |place|, 1
  {
    if exists f :: OwnFault(depth, v, f) then place == [] && OwnFault(depth, v, e)
    else KidFault(depth, v, Kids(After(v)), place, e)
  }

  ghost predicate KidFault(depth: nat, v: Value, kids: seq<Value>, place: Place, e: Error)
    decreases |place|, 0
  {
    place != [] && place[0] < |kids| && PassFault(DepthAt(depth, v, place[0]), kids[place[0]], place[1..], e)
  }

  // ----- A mapping's own merge -----------------------------------------------------------------------

  lemma {:induction false} ListFault(own: seq<Entry>, items: seq<Value>, e: Error)
    ensures BadItems(items, e) <==> MergeListInto(own, items) == Err(e)
    decreases |items|
  {
    hide InsertMissing;
    if items == [] {
    } else if items[0].Mapping? {
      var rest := items[1..];
      ListFault(InsertMissing(ValueEq, own, items[0].entries), rest, e);
      if BadItems(rest, e) {
        var k :| 0 <= k < |rest| && BadItem(rest[k], e) && forall j :: 0 <= j < k ==> rest[j].Mapping?;
        assert items[k + 1] == rest[k];
        assert forall j :: 0 < j < k + 1 ==> items[j] == rest[j - 1];
      }
      if BadItems(items, e) {
        var k :| 0 <= k < |items| && BadItem(items[k], e) && forall j :: 0 <= j < k ==> items[j].Mapping?;
        assert rest[k - 1] == items[k];
      }
    } else if BadItem(items[0], e) {
      assert BadItems(items, e);
    }
  }

  lemma PayloadFault(own: seq<Entry>, payload: Value, e: Error)
    ensures BadPayload(payload, e) <==> MergeInto(own, payload) == Err(e)
  {
    hide MergeListInto, BadItems, InsertMissing;
    if payload.Sequence? { ListFault(own, payload.items, e); }
  }

  /** What a visit does. */
  lemma VisitExactly(depth: nat, v: Value)
    ensures forall e :: OwnFault(depth, v, e) <==> VisitValue(depth, v) == Err(e)
    ensures VisitValue(depth, v).Ok? ==> VisitValue(depth, v).value.value == After(v)
    ensures VisitValue(depth, v).Ok? ==> forall k: nat :: KidDepth(VisitValue(depth, v).value, k) == DepthAt(depth, v, k)
  {
    hide BadPayload, InsertMissing, MergeInto, IsMergeKey, Mergeable, Incoming;
    if v.Mapping? && MergePosition(v.entries).Some? {
      var i := MergePosition(v.entries).value;
      var own, payload := RemoveAt(v.entries, i), v.entries[i].1;
      MergeInserts(own, payload);
      forall e ensures BadPayload(payload, e) <==> MergeInto(own, payload) == Err(e) {
        PayloadFault(own, payload, e);
      }
    }
  }

  lemma KidsAreSmaller(depth: nat, v: Value)
    requires VisitValue(depth, v).Ok?
    ensures SumSize(Kids(After(v))) < Size(v)
  {
    hide VisitValue, After, Size, SumSize, Kids;
    VisitExactly(depth, v);
    VisitDoesNotGrow(depth, v);
    SizeOfKids(After(v));
  }

  // The recursion, kid by kid.
  lemma PassByLevels(depth: nat, v: Value)
    ensures forall e :: OwnFault(depth, v, e) ==> Apply(depth, v) == Err(e)
    ensures (forall e :: !OwnFault(depth, v, e)) ==>
              && VisitValue(depth, v).Ok?
              && var kids := ApplyKids(VisitValue(depth, v).value, Kids(After(v)));
                 && (kids.Ok? ==> Apply(depth, v) == Ok(WithKids(After(v), kids.value)))
                 && (kids.Err? ==> Apply(depth, v) == Err(kids.error))
  {
    hide OwnFault, VisitValue, ApplyKids, Kids, WithKids, After, DepthAt;
    VisitExactly(depth, v);
    if VisitValue(depth, v).Err? { assert OwnFault(depth, v, VisitValue(depth, v).error); }
  }

  lemma {:induction false} KidsPassed(depth: nat, v: Value, kids: seq<Value>)
    requires VisitValue(depth, v).Ok? && ApplyKids(VisitValue(depth, v).value, kids).Ok? && SumSize(kids) < Size(v)
    ensures forall i :: 0 <= i < |kids| ==> IsPassed(kids[i], ApplyKids(VisitValue(depth, v).value, kids).value[i])
    decreases Size(v), 0, |kids|
  {
    hide Apply, IsPassed, VisitValue, KidDepth, Size;
    if kids != [] {
      var n := |kids| - 1;
      KidsPassed(depth, v, kids[..n]);
      PassIsPassed(KidDepth(VisitValue(depth, v).value, n), kids[n]);
    }
  }

  /** A pass that succeeds leaves exactly that. */
  lemma {:induction false} PassIsPassed(depth: nat, v: Value)
    requires Apply(depth, v).Ok?
    ensures IsPassed(v, Apply(depth, v).value)
    decreases Size(v), 1
  {
    hide Apply, OwnFault, VisitValue, ApplyKids, Size, SumSize, PassLevel, IsPassed;
    PassByLevels(depth, v);
    KidsAreSmaller(depth, v);
    KidsPassed(depth, v, Kids(After(v)));
    WithPassedKids(v, ApplyKids(VisitValue(depth, v).value, Kids(After(v))).value);
  }

  lemma WithPassedKids(v: Value, kids: seq<Value>)
    requires |kids| == |Kids(After(v))| && forall i :: 0 <= i < |kids| ==> IsPassed(Kids(After(v))[i], kids[i])
    ensures IsPassed(v, WithKids(After(v), kids))
  {
    hide PassLevel;
    if v.Mapping? {
      var level := PassLevel(v.entries);
      forall i | 0 <= i < |level| ensures EntryPassed(level[i], WithValues(level, kids)[i]) {
        assert IsPassed(Kids(After(v))[i], kids[i]);
      }
    }
  }

  // ----- Failures ---------------------------------------------------------------------------------------

  ghost function FaultsOf(depth: nat, v: Value): Faults {
    (p, e) => PassFault(depth, v, p, e)
  }

  ghost function FaultsOfKids(depth: nat, v: Value, kids: seq<Value>): Faults {
    (p, e) => KidFault(depth, v, kids, p, e)
  }

  lemma KidsAreInitAndLast(depth: nat, v: Value, kids: seq<Value>)
    requires kids != []
    ensures var n := |kids| - 1;
            T.InitAndLast(FaultsOfKids(depth, v, kids[..n]), FaultsOf(DepthAt(depth, v, n), kids[n]), n, FaultsOfKids(depth, v, kids))
  {
    hide PassFault, DepthAt;
  }

  lemma {:induction false} KidsReport(depth: nat, v: Value, kids: seq<Value>)
    requires VisitValue(depth, v).Ok? && SumSize(kids) < Size(v)
    ensures T.Reports(ApplyKids(VisitValue(depth, v).value, kids), FaultsOfKids(depth, v, kids))
    decreases Size(v), 0, |kids|
  {
    hide Apply, PassFault, T.Reports, T.InitAndLast, VisitValue, Size, KidDepth, DepthAt;
    var visit := VisitValue(depth, v).value;
    if kids == [] {
      T.NothingReported(ApplyKids(visit, kids), FaultsOfKids(depth, v, kids));
    } else {
      var n := |kids| - 1;
      VisitExactly(depth, v);
      var at := DepthAt(depth, v, n);
      LastFaultIsReported(at, kids[n]);
      KidsAreInitAndLast(depth, v, kids);
      var init, last, all := FaultsOfKids(depth, v, kids[..n]), FaultsOf(at, kids[n]), FaultsOfKids(depth, v, kids);
      if Apply(at, kids[n]).Err? {
        T.LastReports(Apply(at, kids[n]), init, last, n, all, ApplyKids(visit, kids));
      } else {
        KidsReport(depth, v, kids[..n]);
        T.NoneReported(Apply(at, kids[n]), last);
        T.InitReports(ApplyKids(visit, kids[..n]), init, last, n, all, ApplyKids(visit, kids));
      }
    }
  }

  /** A pass fails exactly if the own merge of a mapping fails that values lead to, and
      reports the last such mapping. */
  lemma {:induction false} LastFaultIsReported(depth: nat, v: Value)
    ensures T.Reports(Apply(depth, v), FaultsOf(depth, v))
    decreases Size(v), 1
  {
    hide Apply, OwnFault, KidFault, T.Reports, VisitValue, ApplyKids, Size, SumSize, After, Kids;
    PassByLevels(depth, v);
    if e :| OwnFault(depth, v, e) {
      OwnFaultIsReported(depth, v, e);
    } else {
      KidsAreSmaller(depth, v);
      KidsReport(depth, v, Kids(After(v)));
      T.ReportsAlike(ApplyKids(VisitValue(depth, v).value, Kids(After(v))), FaultsOfKids(depth, v, Kids(After(v))), Apply(depth, v), FaultsOf(depth, v));
    }
  }

  lemma OwnFaultIsReported(depth: nat, v: Value, e: Error)
    requires OwnFault(depth, v, e) && Apply(depth, v) == Err(e)
    ensures T.Reports(Apply(depth, v), FaultsOf(depth, v))
  {
    hide Apply, VisitValue, OwnFault;
    VisitExactly(depth, v);
    assert T.IsLast(FaultsOf(depth, v), [], e);
  }
}
