// Repeating `Value::apply_merge`: which values every pass accepts.
module ApplyMergeTheorems {
  import opened Prelude
  import opened Values
  import opened EntryLists
  import opened ApplyMerge
  import opened ApplyMergePasses
  import opened ApplyMergeRepeats
  import opened ApplyMergeChains
  import opened ApplyMergeExact
  import N = Nodes

  // ----- What a value shows -----------------------------------------------------------------------

  ghost predicate EntryIsSmaller(entries: seq<Entry>, i: nat)
    requires i < |entries|
    ensures EntryIsSmaller(entries, i) && Size(entries[i].1) <= SizeEntries(entries)
  {
    SizeWithout(entries, i);
    true
  }

  /** Along the chain of merges from every mapping that shows, payloads are mappings and
      the depth stays within the budget; an entry shows if no level above has its key. */
  ghost predicate Shown(v: Value)
    decreases Size(v), 0
  {
    if v.Mapping? then LevelsShown([], v.entries, 0)
    else forall i :: 0 <= i < |Kids(v)| ==> KidIsSmaller(v, i) && Shown(Kids(v)[i])
  }

  ghost predicate Visible(above: seq<Entry>, e: Entry) {
    !HasKey(ValueEq, above, e.0)
  }

  // The levels of one chain; `above` holds the entries of the levels passed.
  ghost predicate LevelsShown(above: seq<Entry>, entries: seq<Entry>, depth: nat)
    decreases SizeEntries(entries), 1
  {
    && (forall i :: 0 <= i < |entries| && !IsMergeKey(entries[i].0) && Visible(above, entries[i]) ==>
          EntryIsSmaller(entries, i) && Shown(entries[i].1))
    && match MergePosition(entries)
       case None => true
       case Some(i) =>
         EntryIsSmaller(entries, i)
         && (Visible(above, entries[i]) ==>
               && depth + 1 <= MAX_DEPTH && entries[i].1.Mapping?
               && LevelsShown(above + RemoveAt(entries, i), entries[i].1.entries, depth + 1))
  }

  ghost predicate OrdinaryShown(above: seq<Entry>, entries: seq<Entry>) {
    forall e :: e in entries && !IsMergeKey(e.0) && Visible(above, e) ==> Shown(e.1)
  }

  lemma ShownEntry(above: seq<Entry>, entries: seq<Entry>, depth: nat)
    requires LevelsShown(above, entries, depth)
    ensures OrdinaryShown(above, entries)
  {
    hide Shown, Visible, IsMergeKey;
  }

  lemma ShownLevel(above: seq<Entry>, entries: seq<Entry>, depth: nat, i: nat)
    requires LevelsShown(above, entries, depth) && MergePosition(entries) == Some(i) && Visible(above, entries[i])
    ensures depth + 1 <= MAX_DEPTH && entries[i].1.Mapping?
    ensures LevelsShown(above + RemoveAt(entries, i), entries[i].1.entries, depth + 1)
  {
    hide Shown, Visible, IsMergeKey;
  }

  lemma LastLevelShown(above: seq<Entry>, entries: seq<Entry>, depth: nat)
    requires OrdinaryShown(above, entries)
    requires MergePosition(entries).Some? ==> !Visible(above, entries[MergePosition(entries).value])
    ensures LevelsShown(above, entries, depth)
  {
    hide Shown, Visible, IsMergeKey;
    forall i | 0 <= i < |entries| && !IsMergeKey(entries[i].0) && Visible(above, entries[i])
      ensures EntryIsSmaller(entries, i) && Shown(entries[i].1)
    {
      assert entries[i] in entries;
    }
  }

  lemma NextLevelShown(above: seq<Entry>, entries: seq<Entry>, depth: nat, i: nat)
    requires OrdinaryShown(above, entries) && MergePosition(entries) == Some(i)
    requires depth + 1 <= MAX_DEPTH && entries[i].1.Mapping?
    requires LevelsShown(above + RemoveAt(entries, i), entries[i].1.entries, depth + 1)
    ensures LevelsShown(above, entries, depth)
  {
    hide Shown, Visible, IsMergeKey;
    forall i | 0 <= i < |entries| && !IsMergeKey(entries[i].0) && Visible(above, entries[i])
      ensures EntryIsSmaller(entries, i) && Shown(entries[i].1)
    {
      assert entries[i] in entries;
    }
  }

  lemma {:induction false} QuietIsShown(v: Value)
    requires MergeKeys(v) == 0
    ensures Shown(v)
    decreases Size(v)
  {
    hide IsMergeKey, CountKeys, SumKeys, Visible, LevelsShown;
    NoKeysInside(Kids(v));
    forall i | 0 <= i < |Kids(v)| ensures KidIsSmaller(v, i) && Shown(Kids(v)[i]) {
      assert KidIsSmaller(v, i);
      QuietIsShown(Kids(v)[i]);
    }
    if v.Mapping? {
      NoPositionNoKeys(v.entries);
      forall e | e in v.entries ensures Shown(e.1) {
        var i :| 0 <= i < |v.entries| && v.entries[i] == e;
        assert Shown(Kids(v)[i]);
      }
      LastLevelShown([], v.entries, 0);
    }
  }

  // ----- What shows after a pass showed before -------------------------------------------------------

  ghost predicate KeysWithin(some: seq<Entry>, all: seq<Entry>) {
    forall key :: HasKey(ValueEq, some, key) ==> HasKey(ValueEq, all, key)
  }

  lemma BesideKey(r: seq<Entry>, j: nat, key: Value) returns (x: nat)
    requires j < |r| && HasKey(ValueEq, RemoveAt(r, j), key)
    ensures x < |r| && x != j && ValueEq(r[x].0, key)
  {
    hide ValueEq;
    var rest := RemoveAt(r, j);
    var y :| 0 <= y < |rest| && ValueEq(rest[y].0, key);
    RemoveAtIndex(r, j, y);
    x := if y < j then y else y + 1;
  }

  lemma KeyOfLevels(own: seq<Entry>, source: seq<Entry>, k: nat, e: Entry, key: Value)
    requires k < |source| && IsMergeKey(source[k].0) && !IsMergeKey(e.0) && ValueEq(e.0, key)
    requires e in InsertMissing(ValueEq, own, source)
    ensures HasKey(ValueEq, own, key) || HasKey(ValueEq, RemoveAt(source, k), key)
  {
    hide ValueEq, IsMergeKey, InsertMissing;
    InsertMissingTakesFrom(ValueEq, own, source);
    if e !in own {
      var rest := RemoveAt(source, k);
      StaysAfterRemoval(e, source, k);
      var y :| 0 <= y < |rest| && rest[y] == e;
    }
  }

  // The keys beside the residual merge key are keys of the two levels, merge keys aside.
  lemma JoinedKeysWithin(low: seq<Entry>, above: seq<Entry>, entries: seq<Entry>, i: nat, r: seq<Entry>, j: nat, k: nat)
    requires KeysWithin(low, above)
    requires Simple(Mapping(entries)) && MergePosition(entries) == Some(i) && entries[i].1.Mapping? && Simple(entries[i].1)
    requires MergePosition(entries[i].1.entries) == Some(k)
    requires var merged := InsertMissing(ValueEq, RemoveAt(entries, i), entries[i].1.entries);
             && |r| == |merged| && j < |merged| && merged[j] == entries[i].1.entries[k]
             && forall x :: 0 <= x < |r| ==> r[x].0 == merged[x].0
    ensures KeysWithin(low + RemoveAt(r, j), above + RemoveAt(entries, i) + RemoveAt(entries[i].1.entries, k))
  {
    hide InsertMissing, IsMergeKey, ValueEq, CountKeys, HasKey;
    var own, source := RemoveAt(entries, i), entries[i].1.entries;
    var merged := InsertMissing(ValueEq, own, source);
    JoinedIsSingle(entries, i);
    var beside, rest := RemoveAt(r, j), RemoveAt(source, k);
    forall key | HasKey(ValueEq, low + beside, key) ensures HasKey(ValueEq, above + own + rest, key) {
      HasKeyConcat(ValueEq, low, beside, key);
      HasKeyConcat(ValueEq, above + own, rest, key);
      HasKeyConcat(ValueEq, above, own, key);
      if HasKey(ValueEq, beside, key) {
        var x := BesideKey(r, j, key);
        OnlyKey(merged, x, j);
        assert merged[x] in merged;
        KeyOfLevels(own, source, k, merged[x], key);
      }
    }
  }

  // A visible key of the source is inserted.
  lemma VisibleIsKept(above: seq<Entry>, own: seq<Entry>, source: seq<Entry>, e: Entry)
    requires UniqueKeys(source) && e in source && Visible(above + own, e)
    ensures e in InsertMissing(ValueEq, own, source) && Visible(above, e)
  {
    hide ValueEq, InsertMissing;
    var j :| 0 <= j < |source| && source[j] == e;
    HasKeyConcat(ValueEq, above, own, e.0);
    FirstOfKeyIsInserted(own, source, j);
  }

  lemma {:induction false} ShownBefore(v: Value)
    requires Everywhere(Simple, v) && Apply(0, v).Ok? && Shown(Apply(0, v).value)
    ensures Shown(v)
    decreases Size(v), 2, 0
  {
    hide Apply, Size, VisitValue, Simple, LevelsShown;
    if v.Mapping? {
      PassedMapping(0, v.entries);
      LevelsBefore([], [], 0, 0, v.entries);
    } else {
      OtherPass(0, v);
      PassKeepsKind(0, v);
      var r := Apply(0, v).value;
      forall i | 0 <= i < |Kids(v)| ensures KidIsSmaller(v, i) && Shown(Kids(v)[i]) {
        KidOf(Simple, v, i);
        assert Shown(Kids(r)[i]);
        ShownBefore(Kids(v)[i]);
      }
    }
  }

  // An entry the visit left, visible after the pass.
  lemma {:induction false} VisitedShown(low: seq<Entry>, depth: nat, entries: seq<Entry>, e: Entry)
    requires Everywhere(Simple, Mapping(entries)) && Apply(depth, Mapping(entries)).Ok? && Apply(depth, Mapping(entries)).value.Mapping?
    requires OrdinaryShown(low, Apply(depth, Mapping(entries)).value.entries) && VisitValue(depth, Mapping(entries)).Ok?
    requires VisitValue(depth, Mapping(entries)).value.value.Mapping? && e in VisitValue(depth, Mapping(entries)).value.value.entries
    requires !IsMergeKey(e.0) && Visible(low, e)
    ensures Shown(e.1)
    decreases Size(Mapping(entries)), 1, 0
  {
    hide Apply, Size, VisitValue, IsMergeKey, Everywhere, Simple, Belongs, Shown;
    var visit := VisitValue(depth, Mapping(entries)).value;
    var merged, r := visit.value.entries, Apply(depth, Mapping(entries)).value.entries;
    MappingPass(depth, entries);
    VisitBelongs(Simple, depth, entries);
    var i :| 0 <= i < |merged| && merged[i] == e;
    EntryIsEverywhere(Simple, e);
    VisitedIsSmaller(depth, entries, i);
    assert EntryPass(visit.residual_depth, merged[i]).Ok?;
    assert r[i] in r && r[i] == (e.0, Apply(0, e.1).value);
    ShownBefore(e.1);
  }

  // The levels of `entries` from those of its pass, one for two.
  lemma {:induction false} LevelsBefore(low: seq<Entry>, above: seq<Entry>, count: nat, depth: nat, entries: seq<Entry>)
    requires Everywhere(Simple, Mapping(entries)) && depth % 2 == 0 && KeysWithin(low, above)
    requires Apply(depth, Mapping(entries)).Ok? && Apply(depth, Mapping(entries)).value.Mapping?
    requires LevelsShown(low, Apply(depth, Mapping(entries)).value.entries, count)
    ensures LevelsShown(above, entries, depth)
    decreases Size(Mapping(entries)), 1, 2
  {
    hide Apply, Size, VisitValue, IsMergeKey, Everywhere, Simple, InsertMissing, MergePosition, Shown, LevelsShown, HasKey;
    PassedMapping(depth, entries);
    VisitOfMapping(depth, entries);
    ShownEntry(low, Apply(depth, Mapping(entries)).value.entries, count);
    match MergePosition(entries) {
      case None =>
        ResidualDepth(depth, entries);
        forall e | e in entries && !IsMergeKey(e.0) && Visible(above, e) ensures Shown(e.1) {
          VisitedShown(low, depth, entries, e);
        }
        LastLevelShown(above, entries, depth);
      case Some(i) =>
        Here(Simple, Mapping(entries));
        JoinedLevels(depth, entries, i);
        forall e | e in entries && !IsMergeKey(e.0) && Visible(above, e) ensures Shown(e.1) {
          StaysAfterRemoval(e, entries, i);
          InsertMissingExtends(ValueEq, RemoveAt(entries, i), entries[i].1.entries);
          VisitedShown(low, depth, entries, e);
        }
        SourceBefore(low, above, count, depth, entries, i);
        NextLevelShown(above, entries, depth, i);
    }
  }

  lemma {:induction false} SourceBefore(low: seq<Entry>, above: seq<Entry>, count: nat, depth: nat, entries: seq<Entry>, i: nat)
    requires Everywhere(Simple, Mapping(entries)) && depth % 2 == 0 && KeysWithin(low, above)
    requires Apply(depth, Mapping(entries)).Ok? && Apply(depth, Mapping(entries)).value.Mapping?
    requires LevelsShown(low, Apply(depth, Mapping(entries)).value.entries, count)
    requires VisitValue(depth, Mapping(entries)).Ok? && MergePosition(entries) == Some(i)
    ensures i < |entries| && entries[i].1.Mapping? && LevelsShown(above + RemoveAt(entries, i), entries[i].1.entries, depth + 1)
    decreases Size(Mapping(entries)), 1, 1
  {
    hide Apply, Size, VisitValue, IsMergeKey, Everywhere, InsertMissing, MergePosition, Shown, LevelsShown, CountKeys, HasKey;
    Here(Simple, Mapping(entries));
    JoinedLevels(depth, entries, i);
    PayloadIsSimple(entries, i);
    ShownEntry(low, Apply(depth, Mapping(entries)).value.entries, count);
    var own, source := RemoveAt(entries, i), entries[i].1.entries;
    forall e | e in source && !IsMergeKey(e.0) && Visible(above + own, e) ensures Shown(e.1) {
      VisibleIsKept(above, own, source, e);
      VisitedShown(low, depth, entries, e);
    }
    if MergePosition(source).Some? && Visible(above + own, source[MergePosition(source).value]) {
      ResidualBefore(low, above, count, depth, entries, i, MergePosition(source).value);
      NextLevelShown(above + own, source, depth + 1, MergePosition(source).value);
    } else {
      LastLevelShown(above + own, source, depth + 1);
    }
  }

  // Where the residual merge key is after the pass.
  lemma ResidualAt(depth: nat, entries: seq<Entry>, i: nat, k: nat) returns (j: nat)
    requires Simple(Mapping(entries)) && Apply(depth, Mapping(entries)).Ok? && Apply(depth, Mapping(entries)).value.Mapping?
    requires VisitValue(depth, Mapping(entries)).Ok? && MergePosition(entries) == Some(i)
    requires i < |entries| && entries[i].1.Mapping? && Simple(entries[i].1) && MergePosition(entries[i].1.entries) == Some(k)
    requires entries[i].1.entries[k] in InsertMissing(ValueEq, RemoveAt(entries, i), entries[i].1.entries)
    ensures var merged := InsertMissing(ValueEq, RemoveAt(entries, i), entries[i].1.entries);
            var r := Apply(depth, Mapping(entries)).value.entries;
            && j < |r| == |merged| && merged[j] == entries[i].1.entries[k] && MergePosition(r) == Some(j)
            && Apply(depth + 2, merged[j].1) == Ok(r[j].1) && forall x :: 0 <= x < |r| ==> r[x].0 == merged[x].0
  {
    hide Apply, VisitValue, IsMergeKey, InsertMissing, MergePosition, CountKeys, HasKey, ValueEq;
    JoinedLevels(depth, entries, i);
    MappingPass(depth, entries);
    var source := entries[i].1.entries;
    var merged, r := InsertMissing(ValueEq, RemoveAt(entries, i), source), Apply(depth, Mapping(entries)).value.entries;
    j :| 0 <= j < |merged| && merged[j] == source[k];
    JoinedIsSingle(entries, i);
    SameKeysSameCount(merged, r);
    assert EntryPass(depth + 2, merged[j]).Ok? && r[j] == (merged[j].0, EntryPass(depth + 2, merged[j]).value);
    OnlyMergePosition(r, j);
  }

  // The pass went through it two levels deeper.
  lemma {:induction false} ResidualBefore(low: seq<Entry>, above: seq<Entry>, count: nat, depth: nat, entries: seq<Entry>, i: nat, k: nat)
    requires Everywhere(Simple, Mapping(entries)) && depth % 2 == 0 && KeysWithin(low, above)
    requires Apply(depth, Mapping(entries)).Ok? && Apply(depth, Mapping(entries)).value.Mapping?
    requires LevelsShown(low, Apply(depth, Mapping(entries)).value.entries, count)
    requires VisitValue(depth, Mapping(entries)).Ok? && MergePosition(entries) == Some(i)
    requires i < |entries| && entries[i].1.Mapping? && MergePosition(entries[i].1.entries) == Some(k)
    requires Visible(above + RemoveAt(entries, i), entries[i].1.entries[k])
    ensures depth + 2 <= MAX_DEPTH && entries[i].1.entries[k].1.Mapping?
    ensures LevelsShown(above + RemoveAt(entries, i) + RemoveAt(entries[i].1.entries, k), entries[i].1.entries[k].1.entries, depth + 2)
    decreases Size(Mapping(entries)), 1, 0
  {
    hide Apply, Size, VisitValue, IsMergeKey, Everywhere, InsertMissing, MergePosition, LevelsShown, CountKeys, HasKey, RemoveAt, ValueEq, UniqueKeys;
    Here(Simple, Mapping(entries));
    JoinedLevels(depth, entries, i);
    PayloadIsSimple(entries, i);
    PayloadIsSimple(entries[i].1.entries, k);
    var own, source := RemoveAt(entries, i), entries[i].1.entries;
    var r := Apply(depth, Mapping(entries)).value.entries;
    VisibleIsKept(above, own, source, source[k]);
    var j := ResidualAt(depth, entries, i, k);
    ShownLevel(low, r, count, j);
    PassKeepsKind(depth + 2, source[k].1);
    JoinedKeysWithin(low, above, entries, i, r, j, k);
    LevelsBefore(low + RemoveAt(r, j), above + own + RemoveAt(source, k), count + 1, depth + 2, source[k].1.entries);
  }

  lemma OnlyMergePosition(entries: seq<Entry>, j: nat)
    requires CountKeys(entries) <= 1 && j < |entries| && IsMergeKey(entries[j].0)
    ensures MergePosition(entries) == Some(j)
  {
    hide IsMergeKey, CountKeys;
    var i := MergePosition(entries).value;
    if i != j { OnlyKey(entries, i, j); }
  }

  // ----- Necessary, sufficient, exact -----------------------------------------------------------------

  ghost predicate EveryPassSucceeds(v: Value) {
    forall n: nat :: Passes(n, v).Ok?
  }

  lemma FirstOfPasses(v: Value)
    ensures Passes(1, v) == Apply(0, v)
  {
    hide Apply;
    if Apply(0, v).Ok? { assert Passes(0, Apply(0, v).value) == Ok(Apply(0, v).value); }
  }

  lemma {:induction false} ShownBeforePasses(n: nat, v: Value)
    requires Everywhere(Simple, v) && Passes(n, v).Ok? && Shown(Passes(n, v).value)
    ensures Shown(v)
    decreases n
  {
    hide Apply, Everywhere, Simple, Shown;
    if n > 0 {
      PassKeepsSimple(0, v);
      ShownBeforePasses(n - 1, Apply(0, v).value);
      ShownBefore(v);
    }
  }

  /** On simple values every pass can succeed only if, wherever an entry shows, payloads
      are mappings and the chain of merges fits the budget. */
  lemma EveryPassNeedsShown(v: Value)
    requires Everywhere(Simple, v) && EveryPassSucceeds(v)
    ensures Shown(v)
  {
    hide Apply, Everywhere, Simple, Passes, Shown;
    var n := MergeKeys(v);
    assert Passes(n, v).Ok?;
    RepeatedPassesEnd(n, v);
    QuietIsShown(Passes(n, v).value);
    ShownBeforePasses(n, v);
  }

  /** With mappings as payloads, however many merge keys there are, all passes succeed
      exactly if the first one does. */
  lemma EveryPassFollowsTheFirst(v: Value)
    requires MappingPayloads(v)
    ensures EveryPassSucceeds(v) <==> Apply(0, v).Ok?
  {
    hide Apply, Everywhere, Passes;
    FirstOfPasses(v);
    if Apply(0, v).Ok? {
      forall n: nat ensures Passes(n, v).Ok? {
        FirstPassDecides(n, v);
      }
    }
  }

  /** An ordinary entry whose value holds nothing a pass could fail on. */
  ghost predicate Harmless(e: Entry) {
    !IsMergeKey(e.0) && MappingPayloads(e.1) && Everywhere(ChainFits, e.1)
  }

  /** Down the chain of merges, every overridden entry is harmless. */
  ghost predicate HidesHarmless(above: seq<Entry>, entries: seq<Entry>)
    decreases SizeEntries(entries)
  {
    && (forall e :: e in entries && !Visible(above, e) ==> Harmless(e))
    && match MergePosition(entries)
       case None => true
       case Some(i) =>
         EntryIsSmaller(entries, i)
         && (entries[i].1.Mapping? ==> HidesHarmless(above + RemoveAt(entries, i), entries[i].1.entries))
  }

  ghost predicate HidesNoFailure(v: Value) {
    v.Mapping? ==> HidesHarmless([], v.entries)
  }

  lemma PayloadsOfEntries(entries: seq<Entry>)
    requires forall e :: e in entries ==> MappingPayloads(e.1) && (IsMergeKey(e.0) ==> e.1.Mapping?)
    ensures MappingPayloads(Mapping(entries))
  {
    hide IsMergeKey;
    forall i | 0 <= i < |entries| && IsMergeKey(entries[i].0) ensures IsMapping(entries[i].1) {
      assert entries[i] in entries;
    }
    InMapping(PayloadsAre(IsMapping), entries);
  }

  // What shows and what is hidden is all there is.
  lemma {:induction false} ShownIsFine(v: Value)
    requires Everywhere(Simple, v) && Everywhere(HidesNoFailure, v) && Shown(v)
    ensures MappingPayloads(v) && Everywhere(ChainFits, v)
    decreases Size(v), 0
  {
    hide Size, Simple, LevelsShown, Chain, HidesHarmless, IsMergeKey;
    if v.Mapping? {
      Here(HidesNoFailure, v);
      LevelsAreFine([], v.entries, 0);
    } else {
      forall i | 0 <= i < |Kids(v)|
        ensures KidIsSmaller(v, i) && MappingPayloads(Kids(v)[i]) && Everywhere(ChainFits, Kids(v)[i])
      {
        KidOf(Simple, v, i);
        KidOf(HidesNoFailure, v, i);
        ShownIsFine(Kids(v)[i]);
      }
      assert Chain(v) == 0 by { ChainOfQuiet(v); }
    }
  }

  lemma {:induction false} LevelsAreFine(above: seq<Entry>, entries: seq<Entry>, depth: nat)
    requires Everywhere(Simple, Mapping(entries)) && Everywhere(HidesNoFailure, Mapping(entries))
    requires HidesHarmless(above, entries) && LevelsShown(above, entries, depth) && depth <= MAX_DEPTH
    ensures MappingPayloads(Mapping(entries)) && Everywhere(ChainFits, Mapping(entries))
    ensures DepthFits(depth, Chain(Mapping(entries)))
    decreases Size(Mapping(entries)), 0, 0
  {
    hide Size, EntriesChain, IsMergeKey, Everywhere, Simple, MergePosition, Shown, LevelsShown, HidesHarmless, Visible;
    ShownEntry(above, entries, depth);
    forall e | e in entries
      ensures MappingPayloads(e.1) && Everywhere(ChainFits, e.1)
      ensures IsMergeKey(e.0) ==> e.1.Mapping? && 1 + Chain(e.1) <= MAX_DEPTH - depth
    {
      EntryOf(Simple, entries, e);
      EntryOf(HidesNoFailure, entries, e);
      HiddenIsHarmless(above, entries, e);
      if IsMergeKey(e.0) {
        var i := KeyAtPosition(entries, e);
        ShownLevel(above, entries, depth, i);
        HidesBelow(above, entries, i);
        LevelsAreFine(above + RemoveAt(entries, i), e.1.entries, depth + 1);
      } else if Visible(above, e) {
        ShownIsFine(e.1);
      }
    }
    PayloadsOfEntries(entries);
    ChainIsLongest(entries, MAX_DEPTH - depth);
    InMapping(ChainFits, entries);
  }

  lemma HiddenIsHarmless(above: seq<Entry>, entries: seq<Entry>, e: Entry)
    requires HidesHarmless(above, entries) && e in entries
    ensures Visible(above, e) || Harmless(e)
  {
    hide Visible, Harmless;
  }

  lemma HidesBelow(above: seq<Entry>, entries: seq<Entry>, i: nat)
    requires HidesHarmless(above, entries) && MergePosition(entries) == Some(i) && entries[i].1.Mapping?
    ensures HidesHarmless(above + RemoveAt(entries, i), entries[i].1.entries)
  {
    hide Visible, Harmless;
  }

  lemma KeyAtPosition(entries: seq<Entry>, e: Entry) returns (i: nat)
    requires Everywhere(Simple, Mapping(entries)) && e in entries && IsMergeKey(e.0)
    ensures MergePosition(entries) == Some(i) && i < |entries| && entries[i] == e
  {
    hide IsMergeKey, CountKeys, MergePosition;
    Here(Simple, Mapping(entries));
    i :| 0 <= i < |entries| && entries[i] == e;
    OnlyMergePosition(entries, i);
  }

  lemma {:induction false} SimpleIsSingle(v: Value)
    requires Everywhere(Simple, v)
    ensures Everywhere(OneMergeKey, v)
    decreases Size(v)
  {
    hide CountKeys, IsMergeKey, Size;
    forall i | 0 <= i < |Kids(v)| ensures KidIsSmaller(v, i) && Everywhere(OneMergeKey, Kids(v)[i]) {
      KidOf(Simple, v, i);
      SimpleIsSingle(Kids(v)[i]);
    }
  }

  /** On simple values whose overridden entries are harmless, every number of passes
      succeeds exactly if every payload of a merge key is a mapping and no chain of
      them is longer than 128. */
  lemma EveryPassSucceedsExactly(v: Value)
    requires Everywhere(Simple, v) && Everywhere(HidesNoFailure, v)
    ensures EveryPassSucceeds(v) <==> MappingPayloads(v) && Everywhere(ChainFits, v)
  {
    hide Apply, Everywhere, Simple, Passes, Shown, HidesNoFailure;
    if EveryPassSucceeds(v) {
      EveryPassNeedsShown(v);
      ShownIsFine(v);
    }
    if MappingPayloads(v) && Everywhere(ChainFits, v) {
      SimpleIsSingle(v);
      forall n: nat ensures Passes(n, v).Ok? {
        FittingValuesPass(n, v);
      }
    }
  }

  // ----- Chains of plain mappings ------------------------------------------------------------------

  lemma {:induction false} ChainPayloads(n: nat, entries: seq<Entry>)
    requires IsChain(n, entries)
    ensures MappingPayloads(Mapping(entries))
    decreases n
  {
    hide IsMergeKey, EntryKeys, Everywhere, MergePosition;
    if n == 0 {
      QuietMapping(entries);
    } else {
      var i := MergePosition(entries).value;
      ChainPayloads(n - 1, entries[i].1.entries);
      forall e | e in entries ensures MappingPayloads(e.1) && (IsMergeKey(e.0) ==> e.1.Mapping?) {
        if e != entries[i] {
          StaysAfterRemoval(e, entries, i);
          QuietEntry(RemoveAt(entries, i), e);
        }
      }
      PayloadsOfEntries(entries);
    }
  }

  lemma QuietEntry(entries: seq<Entry>, e: Entry)
    requires EntryKeys(entries) == 0 && e in entries
    ensures !IsMergeKey(e.0) && MappingPayloads(e.1)
  {
    hide IsMergeKey, MergeKeys, Everywhere;
    EntryKeysZero(entries);
    QuietIsEasy(e.1);
  }

  lemma QuietMapping(entries: seq<Entry>)
    requires EntryKeys(entries) == 0
    ensures MappingPayloads(Mapping(entries))
  {
    QuietIsEasy(Mapping(entries));
  }

  /** Both value paths accept the chains of up to 128 links, and reject the longer ones
      with the depth error. */
  lemma ChainsAreRejectedAlike(n: nat, entries: seq<Entry>)
    requires IsChain(n, entries)
    ensures n <= MAX_DEPTH ==> Apply(0, Mapping(entries)).Ok? && RefView(entries, 0).Ok?
    ensures n > MAX_DEPTH ==> Apply(0, Mapping(entries)) == Err(N.DepthExceeded) && RefView(entries, 0) == Err(N.DepthExceeded)
  {
    hide Apply, IsChain, Everywhere;
    PassRejectsLongChains(n, entries, 0);
    RefRejectsLongChains(n, entries, 0);
    ChainPayloads(n, entries);
    MappingIsStable();
    PassKeepsPayloads(IsMapping, 0, Mapping(entries));
  }

  // ----- What hidden entries do ------------------------------------------------------------------------

  const A_IS_ONE: Entry := (String("a"), Number(Unsigned(1)))
  // `{a: {<<: 5}}`
  const A_MERGES_FIVE: Value := Mapping([(String("a"), ONCE)])
  // `{a: 1, <<: {a: {<<: 5}}}`
  const UNSEEN: Value := Mapping([A_IS_ONE, (String("<<"), A_MERGES_FIVE)])
  // `{a: 1, <<: {<<: {a: {<<: 5}}}}`
  const SEEN_ONCE: Value := Mapping([A_IS_ONE, (String("<<"), Mapping([(String("<<"), A_MERGES_FIVE)]))])

  lemma VisitHidden(depth: nat, source: seq<Entry>)
    requires depth == 0
    ensures VisitValue(depth, Mapping([A_IS_ONE, (String("<<"), Mapping(source))]))
         == Ok(Visit(Mapping(InsertMissing(ValueEq, [A_IS_ONE], source)), 2))
  {
    hide ValueEq, InsertMissing;
    var entries := [A_IS_ONE, (String("<<"), Mapping(source))];
    assert entries[1..] == [entries[1]];
    assert MergePosition([entries[1]]) == Some(0);
    assert RemoveAt(entries, 1) == [A_IS_ONE];
  }

  lemma OnlyAIsQuiet()
    ensures MergeKeys(Mapping([A_IS_ONE])) == 0 && MergeKeys(A_IS_ONE.1) == 0
  {
    var v := Mapping([A_IS_ONE]);
    assert MergeKeys(A_IS_ONE.1) == 0 by { assert Kids(A_IS_ONE.1) == []; }
    assert !IsMergeKey(A_IS_ONE.0);
    CountOne(A_IS_ONE);
    assert Kids(v) == [A_IS_ONE.1] && [A_IS_ONE.1][..0] == [];
    assert SumKeys(Kids(v)) == 0;
  }

  // The key `a` is there already.
  lemma AIsHidden(value: Value)
    ensures InsertMissing(ValueEq, [A_IS_ONE], [(String("a"), value)]) == [A_IS_ONE]
  {
    var source := [(String("a"), value)];
    assert ValueEq(A_IS_ONE.0, source[0].0);
    assert [A_IS_ONE][0] == A_IS_ONE && HasKey(ValueEq, [A_IS_ONE], source[0].0);
    assert AddMissing(ValueEq, [A_IS_ONE], source[0]) == [A_IS_ONE];
    assert source[1..] == [];
  }

  lemma UnseenPasses()
    ensures Apply(0, UNSEEN) == Ok(Mapping([A_IS_ONE]))
  {
    hide VisitValue, MergeKeys, Apply, ApplyKids;
    var source := A_MERGES_FIVE.entries;
    VisitHidden(0, source);
    AIsHidden(ONCE);
    MappingPass(0, UNSEEN.entries);
    OnlyAIsQuiet();
    PassMakesProgress(0, A_IS_ONE.1);
    assert EntryPass(2, A_IS_ONE) == Ok(A_IS_ONE.1);
    assert Apply(0, UNSEEN).value.entries == [A_IS_ONE];
  }

  lemma UnseenIsNotMapped()
    ensures !MappingPayloads(UNSEEN)
  {
    hide IsMergeKey;
    if MappingPayloads(UNSEEN) {
      KidOf(PayloadsAre(IsMapping), UNSEEN, 1);
      KidOf(PayloadsAre(IsMapping), A_MERGES_FIVE, 0);
      OnceIsNotMapped();
    }
  }

  lemma OnceIsNotMapped()
    ensures !Everywhere(PayloadsAre(IsMapping), ONCE)
  {
    assert IsMergeKey(ONCE.entries[0].0) && !IsMapping(ONCE.entries[0].1);
  }

  lemma SeenOnceFails()
    ensures Apply(0, SEEN_ONCE).Err?
  {
    hide VisitValue, MergeKeys, Apply, ApplyKids;
    var source := [(String("<<"), A_MERGES_FIVE)];
    var merged := [A_IS_ONE, (String("<<"), A_MERGES_FIVE)];
    VisitHidden(0, source);
    assert source[1..] == [];
    assert [A_IS_ONE] + [source[0]] == merged;
    assert InsertMissing(ValueEq, [A_IS_ONE], source) == merged;
    MappingPass(0, SEEN_ONCE.entries);
    assert EntryPass(2, merged[1]) == Apply(2, A_MERGES_FIVE);
    MergesFiveFails(2);
  }

  lemma MergesFiveFails(depth: nat)
    ensures Apply(depth, A_MERGES_FIVE).Err?
  {
    hide Apply, ApplyKids;
    var entries := A_MERGES_FIVE.entries;
    MappingPass(depth, entries);
    assert VisitValue(depth, A_MERGES_FIVE) == Ok(Visit(A_MERGES_FIVE, 0));
    SecondPassMayFail();
    assert EntryPass(0, entries[0]) == Apply(0, ONCE);
  }

  /** An overridden entry that merges may never be visited, or be visited once and fail
      the pass: its payload decides nothing by itself. */
  lemma HiddenMergesDecideNothing()
    ensures EveryPassSucceeds(UNSEEN) && !MappingPayloads(UNSEEN)
    ensures RefView(SEEN_ONCE.entries, 0) == Ok([A_IS_ONE]) && !EveryPassSucceeds(SEEN_ONCE)
  {
    hide Apply, MergeKeys;
    UnseenPasses();
    UnseenIsNotMapped();
    OnlyAIsQuiet();
    forall n: nat ensures Passes(n, UNSEEN).Ok? {
      if n > 0 { QuietPasses(n - 1, Mapping([A_IS_ONE])); }
    }
    SeenOnceFails();
    FirstOfPasses(SEEN_ONCE);
    SeenOnceView();
  }

  lemma {:induction false} QuietPasses(n: nat, v: Value)
    requires MergeKeys(v) == 0
    ensures Passes(n, v) == Ok(v)
    decreases n
  {
    hide Apply, MergeKeys;
    PassMakesProgress(0, v);
    if n > 0 { QuietPasses(n - 1, v); }
  }

  lemma SeenOnceView()
    ensures RefView(SEEN_ONCE.entries, 0) == Ok([A_IS_ONE])
  {
    var entries := SEEN_ONCE.entries;
    var source, inner := entries[1].1.entries, A_MERGES_FIVE.entries;
    assert entries[1..] == [entries[1]];
    assert MergePosition([entries[1]]) == Some(0);
    assert RemoveAt(entries, 1) == [A_IS_ONE] && RemoveAt(source, 0) == [];
    assert MergePosition(inner) == None;
    assert RefView(inner, 2) == Ok(inner);
    assert RefMergeEntries(source[0], 1) == Ok(inner);
    assert inner[1..] == [] && [] + [inner[0]] == inner;
    assert InsertMissing(ValueEq, [], inner) == inner;
    assert RefView(source, 1) == Ok(inner);
    assert RefMergeEntries(entries[1], 0) == Ok(inner);
    AIsHidden(ONCE);
  }
}
