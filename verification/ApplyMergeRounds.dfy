// What repeated passes of `Value::apply_merge` have taken into a mapping, round by
// round, for values whose mappings hold at most one merge key, the plain `<<`.
module ApplyMergeRounds {
  import opened Prelude
  import opened Values
  import opened EntryLists
  import opened ApplyMerge
  import opened ApplyMergePasses
  import opened ApplyMergeRepeats
  import opened ApplyMergeExact

  const MERGE_KEY: Value := String("<<")

  ghost predicate PlainKeys(entries: seq<Entry>) {
    CountKeys(entries) <= 1 && forall e :: e in entries && IsMergeKey(e.0) ==> e.0 == MERGE_KEY
  }

  /** At most one merge key, the plain string `<<`; whatever its payload. */
  ghost predicate Plain(v: Value) {
    v.Mapping? ==> PlainKeys(v.entries)
  }

  // ----- The parts of a mapping ----------------------------------------------------------------

  function Ordinary(entries: seq<Entry>): seq<Entry> {
    if entries == [] then []
    else if IsMergeKey(entries[0].0) then Ordinary(entries[1..])
    else [entries[0]] + Ordinary(entries[1..])
  }

  /** The payload of the merge key. */
  function Source(entries: seq<Entry>): Option<Value> {
    if entries == [] then None
    else if IsMergeKey(entries[0].0) then Some(entries[0].1)
    else Source(entries[1..])
  }

  lemma {:induction false} OrdinaryConcat(x: seq<Entry>, y: seq<Entry>)
    ensures Ordinary(x + y) == Ordinary(x) + Ordinary(y)
    ensures Source(x + y) == if Source(x).Some? then Source(x) else Source(y)
  {
    hide IsMergeKey;
    if x == [] {
      assert x + y == y;
    } else {
      assert (x + y)[1..] == x[1..] + y;
      OrdinaryConcat(x[1..], y);
    }
  }

  lemma {:induction false} OrdinaryOnly(entries: seq<Entry>)
    requires forall e :: e in entries ==> !IsMergeKey(e.0)
    ensures Ordinary(entries) == entries && Source(entries) == None
  {
    hide IsMergeKey;
    if entries != [] {
      var rest := entries[1..];
      assert entries[0] in entries;
      forall e | e in rest ensures !IsMergeKey(e.0) {
        var i :| 0 <= i < |rest| && rest[i] == e;
        assert entries[i + 1] in entries;
      }
      OrdinaryOnly(rest);
      assert entries == [entries[0]] + rest;
    }
  }

  lemma {:induction false} OrdinaryIn(entries: seq<Entry>, e: Entry)
    ensures e in Ordinary(entries) <==> e in entries && !IsMergeKey(e.0)
  {
    hide IsMergeKey;
    if entries != [] {
      OrdinaryIn(entries[1..], e);
      assert entries == [entries[0]] + entries[1..];
    }
  }

  lemma PartsAround(x: seq<Entry>, e: Entry, y: seq<Entry>)
    requires IsMergeKey(e.0) && forall o :: o in x + y ==> !IsMergeKey(o.0)
    ensures Ordinary(x + [e] + y) == x + y && Source(x + [e] + y) == Some(e.1)
  {
    hide IsMergeKey, Ordinary, Source;
    assert forall o :: o in x ==> o in x + y;
    assert forall o :: o in y ==> o in x + y;
    OrdinaryOnly(x);
    OrdinaryOnly(y);
    OneMergeEntry(e);
    OrdinaryConcat(x, [e]);
    OrdinaryConcat(x + [e], y);
    assert x + [] == x;
  }

  // The two views of a mapping with one merge key.
  lemma PartsOfMapping(entries: seq<Entry>)
    requires CountKeys(entries) <= 1
    ensures match MergePosition(entries)
            case None => Source(entries) == None && Ordinary(entries) == entries
            case Some(i) => Source(entries) == Some(entries[i].1) && Ordinary(entries) == RemoveAt(entries, i)
  {
    hide IsMergeKey, CountKeys, Ordinary, Source, RemoveAt;
    match MergePosition(entries) {
      case None => OrdinaryOnly(entries);
      case Some(i) =>
        OthersAreOrdinary(entries, i);
        SplitAt(entries, i);
        PartsAround(entries[..i], entries[i], entries[i + 1..]);
    }
  }

  lemma OneMergeEntry(e: Entry)
    requires IsMergeKey(e.0)
    ensures Ordinary([e]) == [] && Source([e]) == Some(e.1)
  {
    assert [e][1..] == [];
  }

  // ----- Inserting a list that holds merge keys -----------------------------------------------------

  ghost predicate MergeKeysArePlain(entries: seq<Entry>) {
    forall e :: e in entries && IsMergeKey(e.0) ==> e.0 == MERGE_KEY
  }

  // Ordinary keys and the merge key do not meet.
  lemma {:induction false} KnownOrdinary(entries: seq<Entry>, key: Value)
    requires MergeKeysArePlain(entries)
    ensures !IsMergeKey(key) ==> (HasKey(ValueEq, entries, key) <==> HasKey(ValueEq, Ordinary(entries), key))
    ensures HasKey(ValueEq, entries, MERGE_KEY) <==> Source(entries).Some?
  {
    if entries != [] {
      KnownOrdinary(entries[1..], key);
      assert entries == [entries[0]] + entries[1..];
      HasKeyConcat(ValueEq, [entries[0]], entries[1..], key);
      HasKeyConcat(ValueEq, [entries[0]], entries[1..], MERGE_KEY);
      HasKeyConcat(ValueEq, [entries[0]], Ordinary(entries[1..]), key);
      KnownInOne(entries[0], key);
    }
  }

  lemma KnownInOne(e: Entry, key: Value)
    requires IsMergeKey(e.0) ==> e.0 == MERGE_KEY
    ensures HasKey(ValueEq, [e], key) <==> ValueEq(e.0, key)
    ensures HasKey(ValueEq, [e], MERGE_KEY) <==> IsMergeKey(e.0)
    ensures IsMergeKey(e.0) && ValueEq(e.0, key) ==> IsMergeKey(key)
  {
    assert [e][0] == e;
  }

  /** Insertion keeps the first merge key and treats ordinary entries on their own. */
  lemma {:induction false} InsertParts(own: seq<Entry>, more: seq<Entry>)
    requires PlainKeys(own) && MergeKeysArePlain(more)
    ensures var r := InsertMissing(ValueEq, own, more);
            && PlainKeys(r)
            && Ordinary(r) == InsertMissing(ValueEq, Ordinary(own), Ordinary(more))
            && Source(r) == if Source(own).Some? then Source(own) else Source(more)
    decreases |more|
  {
    hide ValueEq, IsMergeKey, CountKeys, HasKey, Ordinary, Source;
    if more == [] {
      NoParts();
    } else {
      var e, rest := more[0], more[1..];
      assert e in more;
      AddPart(own, e);
      InsertParts(AddMissing(ValueEq, own, e), rest);
      assert more == [e] + rest;
      OrdinaryConcat([e], rest);
      InsertMissingConcat(ValueEq, Ordinary(own), Ordinary([e]), Ordinary(rest));
    }
  }

  lemma NoParts()
    ensures Ordinary([]) == [] && Source([]) == None
  {
  }

  lemma AddPart(own: seq<Entry>, e: Entry)
    requires PlainKeys(own) && (IsMergeKey(e.0) ==> e.0 == MERGE_KEY)
    ensures var r := AddMissing(ValueEq, own, e);
            && PlainKeys(r)
            && Ordinary(r) == InsertMissing(ValueEq, Ordinary(own), Ordinary([e]))
            && Source(r) == if Source(own).Some? then Source(own) else Source([e])
  {
    hide ValueEq, IsMergeKey, CountKeys, HasKey;
    KnownOrdinary(own, e.0);
    OrdinaryConcat(own, [e]);
    CountConcat(own, [e]);
    CountOne(e);
    PartsOfMapping(own);
    NoPositionNoKeys(own);
    PartsOfOne(e);
    AddOne(Ordinary(own), e);
  }

  lemma PartsOfOne(e: Entry)
    ensures Ordinary([e]) == if IsMergeKey(e.0) then [] else [e]
    ensures Source([e]) == if IsMergeKey(e.0) then Some(e.1) else None
  {
    assert [e][1..] == [];
  }

  lemma AddOne(entries: seq<Entry>, e: Entry)
    ensures InsertMissing(ValueEq, entries, [e]) == AddMissing(ValueEq, entries, e)
    ensures InsertMissing(ValueEq, entries, []) == entries
  {
    hide ValueEq, HasKey;
    assert [e][1..] == [];
    assert InsertMissing(ValueEq, AddMissing(ValueEq, entries, e), []) == AddMissing(ValueEq, entries, e);
  }

  // ----- What passes take in ---------------------------------------------------------------------------

  /** The ordinary entries of a mapping after `s` passes, as the value had them: in every
      pass it takes in what its payload has become by then. */
  function Absorbed(s: nat, entries: seq<Entry>): seq<Entry>
    decreases s, 0, 0
  {
    if s == 0 then Ordinary(entries)
    else match Residual(s - 1, entries)
      case None => Absorbed(s - 1, entries)
      case Some(payload) => InsertMissing(ValueEq, Absorbed(s - 1, entries), Level(s - 1, payload))
  }

  /** The payload that is left after `s` passes, as the value had it. */
  function Residual(s: nat, entries: seq<Entry>): Option<Value>
    decreases s, 0, 0
  {
    if s == 0 then Source(entries)
    else match Residual(s - 1, entries)
      case None => None
      case Some(payload) => Next(s - 1, payload)
  }

  /** What a payload passes on when it is merged after `s` passes of its own. */
  function Level(s: nat, payload: Value): seq<Entry>
    decreases s, 2, 0
  {
    match payload
    case Mapping(entries) => Absorbed(s, entries)
    case Sequence(items) => LevelOfItems(s, items)
    case _ => []
  }

  // A list passes on what every item has taken in by then.
  function LevelOfItems(s: nat, items: seq<Value>): seq<Entry>
    decreases s, 1, |items|
  {
    if items == [] then []
    else (if items[0].Mapping? then Absorbed(s, items[0].entries) else []) + LevelOfItems(s, items[1..])
  }

  /** What it leaves to merge. */
  function Next(s: nat, payload: Value): Option<Value>
    decreases s, 2, 0
  {
    match payload
    case Mapping(entries) => Residual(s, entries)
    case Sequence(items) => NextOfItems(s, items)
    case _ => None
  }

  // A list leaves only what its first item that still merges does.
  function NextOfItems(s: nat, items: seq<Value>): Option<Value>
    decreases s, 1, |items|
  {
    if items == [] then None
    else if items[0].Mapping? && Residual(s, items[0].entries).Some? then Residual(s, items[0].entries)
    else NextOfItems(s, items[1..])
  }

  // ----- Passes, one after the other --------------------------------------------------------------------

  lemma {:induction false} PassesLast(n: nat, v: Value)
    ensures Passes(n + 1, v) == match Passes(n, v) case Err(e) => Err(e) case Ok(w) => Apply(0, w)
    decreases n
  {
    hide Apply;
    if n > 0 && Apply(0, v).Ok? { PassesLast(n - 1, Apply(0, v).value); }
    if n == 0 && Apply(0, v).Ok? { assert Passes(0, Apply(0, v).value) == Ok(Apply(0, v).value); }
  }

  /** The depth decides whether a pass fails, and nothing else. */
  lemma {:induction false} DepthOnlyFails(low: nat, depth: nat, v: Value)
    requires low <= depth && Apply(depth, v).Ok?
    ensures Apply(low, v) == Apply(depth, v)
    decreases Size(v)
  {
    hide Apply, VisitValue, Kids, WithKids;
    ApplyAt(depth, v);
    ApplyAt(low, v);
    ShallowVisit(low, depth, v);
    var deep, shallow := VisitValue(depth, v).value, VisitValue(low, v).value;
    var kids := Kids(deep.value);
    forall i | 0 <= i < |kids| ensures Apply(KidDepth(shallow, i), kids[i]) == Apply(KidDepth(deep, i), kids[i]) {
      VisitDoesNotGrow(depth, v);
      SizeOfKids(deep.value);
      SizeOfKid(kids, i);
      DepthOnlyFails(KidDepth(shallow, i), KidDepth(deep, i), kids[i]);
    }
    assert Kids(Apply(low, v).value) == Kids(Apply(depth, v).value);
  }

  lemma ShallowVisit(low: nat, depth: nat, v: Value)
    requires low <= depth && VisitValue(depth, v).Ok?
    ensures VisitValue(low, v).Ok? && VisitValue(low, v).value.value == VisitValue(depth, v).value.value
    ensures VisitValue(low, v).value.residual_depth <= VisitValue(depth, v).value.residual_depth
  {
    hide InsertMissing, IsMergeKey, MergeInto;
  }

  lemma {:induction false} PassesKeepKind(n: nat, v: Value)
    requires Passes(n, v).Ok?
    ensures Passes(n, v).value.Mapping? == v.Mapping? && Passes(n, v).value.Sequence? == v.Sequence?
    decreases n
  {
    hide Apply;
    if n > 0 {
      PassKeepsKind(0, v);
      PassesKeepKind(n - 1, Apply(0, v).value);
    }
  }

  // Any value that is no mapping is passed kid by kid.
  lemma {:induction false} PassesOfKids(n: nat, v: Value)
    requires !v.Mapping? && Passes(n, v).Ok?
    ensures !Passes(n, v).value.Mapping? && |Kids(Passes(n, v).value)| == |Kids(v)|
    ensures forall i :: 0 <= i < |Kids(v)| ==> Passes(n, Kids(v)[i]) == Ok(Kids(Passes(n, v).value)[i])
    decreases n
  {
    hide Apply, Kids;
    PassesKeepKind(n, v);
    if n > 0 {
      OtherPass(0, v);
      PassKeepsKind(0, v);
      PassesOfKids(n - 1, Apply(0, v).value);
    }
  }

  // ----- Parts of a value -----------------------------------------------------------------------------------

  ghost predicate Part(t: Test, v: Value, bound: nat) {
    Everywhere(t, v) && Size(v) < bound
  }

  ghost predicate EntryParts(t: Test, entries: seq<Entry>, bound: nat) {
    forall e :: e in entries ==> Part(t, e.1, bound)
  }

  ghost predicate PartOrNone(t: Test, v: Option<Value>, bound: nat) {
    v.Some? ==> Part(t, v.value, bound)
  }

  lemma {:induction false} SourceIn(entries: seq<Entry>)
    ensures Source(entries).Some? ==> exists e :: e in entries && IsMergeKey(e.0) && e.1 == Source(entries).value
    ensures Source(entries).None? ==> forall e :: e in entries ==> !IsMergeKey(e.0)
  {
    hide IsMergeKey;
    if entries != [] {
      SourceIn(entries[1..]);
      assert entries == [entries[0]] + entries[1..];
      assert entries[0] in entries;
    }
  }

  lemma PartsOfPart(t: Test, v: Value, entries: seq<Entry>, next: Option<Value>, bound: nat)
    requires Part(t, v, bound) && EntryParts(t, entries, Size(v)) && PartOrNone(t, next, Size(v))
    ensures EntryParts(t, entries, bound) && PartOrNone(t, next, bound)
  {
    hide Everywhere, Size;
  }

  lemma InsertedParts(t: Test, own: seq<Entry>, more: seq<Entry>, bound: nat)
    requires EntryParts(t, own, bound) && EntryParts(t, more, bound)
    ensures EntryParts(t, InsertMissing(ValueEq, own, more), bound)
  {
    hide Part, ValueEq, InsertMissing;
    InsertMissingTakesFrom(ValueEq, own, more);
  }

  /** What is taken in, and what is left, was inside the mapping. */
  lemma {:induction false} AbsorbedParts(t: Test, s: nat, entries: seq<Entry>)
    requires Everywhere(t, Mapping(entries))
    ensures EntryParts(t, Absorbed(s, entries), Size(Mapping(entries)))
    ensures PartOrNone(t, Residual(s, entries), Size(Mapping(entries)))
    decreases s, 0, 0
  {
    hide Everywhere, Size, Source, Ordinary, EntryParts, InsertMissing, Level, Next;
    if s == 0 {
      OwnParts(t, entries);
    } else {
      AbsorbedParts(t, s - 1, entries);
      match Residual(s - 1, entries) {
        case None =>
        case Some(p) =>
          LevelParts(t, s - 1, p);
          PartsOfPart(t, p, Level(s - 1, p), Next(s - 1, p), Size(Mapping(entries)));
          InsertedParts(t, Absorbed(s - 1, entries), Level(s - 1, p), Size(Mapping(entries)));
      }
    }
  }

  lemma OwnParts(t: Test, entries: seq<Entry>)
    requires Everywhere(t, Mapping(entries))
    ensures EntryParts(t, Ordinary(entries), Size(Mapping(entries)))
    ensures PartOrNone(t, Source(entries), Size(Mapping(entries)))
  {
    hide Everywhere, Size, IsMergeKey, Source, Ordinary;
    forall e | e in Ordinary(entries) ensures Part(t, e.1, Size(Mapping(entries))) {
      OrdinaryIn(entries, e);
      EntryOf(t, entries, e);
    }
    SourceIn(entries);
    if Source(entries).Some? {
      var e :| e in entries && IsMergeKey(e.0) && e.1 == Source(entries).value;
      EntryOf(t, entries, e);
    }
  }

  lemma {:induction false} LevelParts(t: Test, s: nat, payload: Value)
    requires Everywhere(t, payload)
    ensures EntryParts(t, Level(s, payload), Size(payload)) && PartOrNone(t, Next(s, payload), Size(payload))
    decreases s, 2, 0
  {
    hide Everywhere, Size, Absorbed, Residual;
    match payload {
      case Mapping(entries) => AbsorbedParts(t, s, entries);
      case Sequence(items) =>
        forall i | 0 <= i < |items| ensures Part(t, items[i], Size(payload)) {
          ItemIsPart(t, items, i);
        }
        ItemParts(t, s, items, Size(payload));
      case _ =>
    }
  }

  lemma ItemIsPart(t: Test, items: seq<Value>, i: nat)
    requires Everywhere(t, Sequence(items)) && i < |items|
    ensures Part(t, items[i], Size(Sequence(items)))
  {
    KidOf(t, Sequence(items), i);
  }

  lemma {:induction false} ItemParts(t: Test, s: nat, items: seq<Value>, bound: nat)
    requires forall i :: 0 <= i < |items| ==> Part(t, items[i], bound)
    ensures EntryParts(t, LevelOfItems(s, items), bound) && PartOrNone(t, NextOfItems(s, items), bound)
    decreases s, 1, |items|
  {
    hide Everywhere, Size, Absorbed, Residual;
    if items != [] {
      if items[0].Mapping? { AbsorbedParts(t, s, items[0].entries); }
      ItemParts(t, s, items[1..], bound);
    }
  }

  // ----- The round theorem -------------------------------------------------------------------------------------

  /** The same keys, and every value after `n` passes. */
  ghost predicate PassedOn(n: nat, x: seq<Entry>, y: seq<Entry>) {
    |x| == |y| && forall i :: 0 <= i < |x| ==> x[i].0 == y[i].0 && Passes(n, x[i].1) == Ok(y[i].1)
  }

  ghost predicate SourcePassed(n: nat, x: Option<Value>, y: Option<Value>) {
    x.Some? == y.Some? && (x.Some? ==> Passes(n, x.value) == Ok(y.value))
  }

  /** `w` is the mapping after `n` passes, part by part. */
  ghost predicate Stands(n: nat, entries: seq<Entry>, w: Value) {
    && w.Mapping? && PlainKeys(w.entries)
    && PassedOn(n, Absorbed(n, entries), Ordinary(w.entries))
    && SourcePassed(n, Residual(n, entries), Source(w.entries))
  }

  lemma SameKnown(x: seq<Entry>, y: seq<Entry>, key: Value)
    requires |x| == |y| && forall i :: 0 <= i < |x| ==> x[i].0 == y[i].0
    ensures HasKey(ValueEq, x, key) <==> HasKey(ValueEq, y, key)
  {
    hide ValueEq;
    if HasKey(ValueEq, x, key) {
      var i :| 0 <= i < |x| && ValueEq(x[i].0, key);
      assert ValueEq(y[i].0, key);
    }
    if HasKey(ValueEq, y, key) {
      var i :| 0 <= i < |y| && ValueEq(y[i].0, key);
      assert ValueEq(x[i].0, key);
    }
  }

  // Insertion looks at keys only.
  lemma {:induction false} PassedOnInsert(n: nat, x: seq<Entry>, x': seq<Entry>, y: seq<Entry>, y': seq<Entry>)
    requires PassedOn(n, x, x') && PassedOn(n, y, y')
    ensures PassedOn(n, InsertMissing(ValueEq, x, y), InsertMissing(ValueEq, x', y'))
    decreases |y|
  {
    hide Passes, HasKey, ValueEq;
    if y != [] {
      SameKnown(x, x', y[0].0);
      PassedOnInsert(n, AddMissing(ValueEq, x, y[0]), AddMissing(ValueEq, x', y'[0]), y[1..], y'[1..]);
    }
  }

  lemma PassedOnConcat(n: nat, x: seq<Entry>, x': seq<Entry>, y: seq<Entry>, y': seq<Entry>)
    requires PassedOn(n, x, x') && PassedOn(n, y, y')
    ensures PassedOn(n, x + y, x' + y')
  {
    hide Passes;
  }

  function EntriesOfItems(items: seq<Value>): seq<Entry> {
    if items == [] then []
    else (if items[0].Mapping? then items[0].entries else []) + EntriesOfItems(items[1..])
  }

  /** The entries `merge_mapping` is called with, one mapping after the other. */
  function Incoming(payload: Value): seq<Entry> {
    match payload
    case Mapping(entries) => entries
    case Sequence(items) => EntriesOfItems(items)
    case _ => []
  }

  lemma {:induction false} ListInserts(own: seq<Entry>, items: seq<Value>)
    ensures MergeListInto(own, items).Ok? <==> forall i :: 0 <= i < |items| ==> items[i].Mapping?
    ensures MergeListInto(own, items).Ok? ==> MergeListInto(own, items) == Ok(InsertMissing(ValueEq, own, EntriesOfItems(items)))
    decreases |items|
  {
    hide ValueEq;
    if items != [] && items[0].Mapping? {
      var source := items[0].entries;
      ListInserts(InsertMissing(ValueEq, own, source), items[1..]);
      InsertMissingConcat(ValueEq, own, source, EntriesOfItems(items[1..]));
    }
  }

  lemma MergeInserts(own: seq<Entry>, payload: Value)
    ensures MergeInto(own, payload).Ok? <==> Mergeable(payload)
    ensures Mergeable(payload) ==> MergeInto(own, payload) == Ok(InsertMissing(ValueEq, own, Incoming(payload)))
  {
    hide InsertMissing, MergeListInto, EntriesOfItems;
    if payload.Sequence? { ListInserts(own, payload.items); }
  }

  /** What a visit leaves of a mapping. */
  lemma VisitParts(depth: nat, entries: seq<Entry>)
    requires PlainKeys(entries)
    ensures VisitValue(depth, Mapping(entries)).Ok? <==>
              (Source(entries).Some? ==> depth + 1 <= MAX_DEPTH && Mergeable(Source(entries).value))
    ensures Source(entries).None? ==> VisitValue(depth, Mapping(entries)) == Ok(Visit(Mapping(entries), 0)) && Ordinary(entries) == entries
    ensures Source(entries).Some? && VisitValue(depth, Mapping(entries)).Ok? ==>
              VisitValue(depth, Mapping(entries))
              == Ok(Visit(Mapping(InsertMissing(ValueEq, Ordinary(entries), Incoming(Source(entries).value))), depth + 2))
  {
    hide InsertMissing, IsMergeKey, CountKeys, Incoming, Ordinary, Source, MergeInto, Mergeable;
    PartsOfMapping(entries);
    if MergePosition(entries).Some? {
      var i := MergePosition(entries).value;
      MergeInserts(RemoveAt(entries, i), entries[i].1);
    }
  }

  // The kids of a visited mapping, part by part.
  ghost predicate Passed(x: seq<Entry>, y: seq<Entry>) {
    |x| == |y| && forall i :: 0 <= i < |x| ==> x[i].0 == y[i].0 && Apply(0, x[i].1) == Ok(y[i].1)
  }

  lemma {:induction false} PartsPassed(residual_depth: nat, merged: seq<Entry>, r: seq<Entry>)
    requires |r| == |merged|
    requires forall i :: 0 <= i < |r| ==> EntryPass(residual_depth, merged[i]) == Ok(r[i].1) && r[i].0 == merged[i].0
    ensures Passed(Ordinary(merged), Ordinary(r))
    ensures Source(merged).Some? == Source(r).Some?
    ensures Source(merged).Some? ==> Apply(residual_depth, Source(merged).value) == Ok(Source(r).value)
    decreases |merged|
  {
    hide Apply, IsMergeKey;
    if merged != [] {
      assert EntryPass(residual_depth, merged[0]) == Ok(r[0].1);
      PartsPassed(residual_depth, merged[1..], r[1..]);
    }
  }

  lemma KeysStayPlain(merged: seq<Entry>, r: seq<Entry>)
    requires PlainKeys(merged) && |r| == |merged| && forall i :: 0 <= i < |r| ==> r[i].0 == merged[i].0
    ensures PlainKeys(r)
  {
    hide IsMergeKey, CountKeys;
    SameKeysSameCount(merged, r);
    forall e | e in r && IsMergeKey(e.0) ensures e.0 == MERGE_KEY {
      var i :| 0 <= i < |r| && r[i] == e;
      assert merged[i] in merged;
    }
  }

  lemma OncePassed(n: nat, x: seq<Entry>, y: seq<Entry>, z: seq<Entry>)
    requires PassedOn(n, x, y) && Passed(y, z)
    ensures PassedOn(n + 1, x, z)
  {
    hide Passes, Apply;
    forall i | 0 <= i < |x| ensures x[i].0 == z[i].0 && Passes(n + 1, x[i].1) == Ok(z[i].1) {
      PassesLast(n, x[i].1);
    }
  }

  lemma SourceOncePassed(n: nat, depth: nat, x: Option<Value>, y: Option<Value>, z: Option<Value>)
    requires SourcePassed(n, x, y) && y.Some? == z.Some? && (y.Some? ==> Apply(depth, y.value) == Ok(z.value))
    ensures SourcePassed(n + 1, x, z)
  {
    hide Passes, Apply;
    if x.Some? {
      DepthOnlyFails(0, depth, y.value);
      PassesLast(n, x.value);
    }
  }

  /** After `n` passes a mapping has taken in `Absorbed`, and what is left to merge is
      the payload `Residual`, after as many passes of its own. */
  lemma {:induction false} PassesAbsorb(n: nat, entries: seq<Entry>)
    requires Everywhere(Plain, Mapping(entries)) && Passes(n, Mapping(entries)).Ok?
    ensures Stands(n, entries, Passes(n, Mapping(entries)).value)
    decreases n, 0, 0
  {
    hide Passes, Everywhere, PlainKeys, Apply;
    if n == 0 {
      NothingPassed(entries);
    } else {
      PassesLast(n - 1, Mapping(entries));
      PassesAbsorb(n - 1, entries);
      RoundStands(n - 1, entries);
    }
  }

  lemma NothingPassed(entries: seq<Entry>)
    requires Everywhere(Plain, Mapping(entries))
    ensures Stands(0, entries, Mapping(entries)) && Passes(0, Mapping(entries)) == Ok(Mapping(entries))
  {
    hide PlainKeys;
  }

  // One pass more.
  lemma {:induction false} RoundStands(n: nat, entries: seq<Entry>)
    requires Everywhere(Plain, Mapping(entries)) && Passes(n + 1, Mapping(entries)).Ok? && Passes(n, Mapping(entries)).Ok?
    requires Stands(n, entries, Passes(n, Mapping(entries)).value)
    ensures Stands(n + 1, entries, Passes(n + 1, Mapping(entries)).value)
    decreases n, 4, 0
  {
    hide Passes, Everywhere, PlainKeys, Apply, PassedOn, Passed, VisitValue, Incoming, Level, Next, Mergeable, InsertMissing, SourcePassed;
    var w := Passes(n, Mapping(entries)).value;
    PassesLast(n, Mapping(entries));
    PassedMapping(0, w.entries);
    VisitParts(0, w.entries);
    MappingPass(0, w.entries);
    var r := Apply(0, w).value.entries;
    var visit := VisitValue(0, w).value;
    VisitStands(n, entries);
    var merged := visit.value.entries;
    assert forall i :: 0 <= i < |r| ==> EntryPass(visit.residual_depth, merged[i]) == Ok(r[i].1) && r[i].0 == merged[i].0;
    PartsPassed(visit.residual_depth, merged, r);
    KeysStayPlain(merged, r);
    OncePassed(n, Absorbed(n + 1, entries), Ordinary(merged), Ordinary(r));
    SourceOncePassed(n, visit.residual_depth, Residual(n + 1, entries), Source(merged), Source(r));
  }

  // What the visit of that pass leaves.
  lemma {:induction false} VisitStands(n: nat, entries: seq<Entry>)
    requires Everywhere(Plain, Mapping(entries)) && Passes(n, Mapping(entries)).Ok?
    requires Stands(n, entries, Passes(n, Mapping(entries)).value)
    requires VisitValue(0, Passes(n, Mapping(entries)).value).Ok?
    ensures var v := VisitValue(0, Passes(n, Mapping(entries)).value).value.value;
            && v.Mapping? && PlainKeys(v.entries)
            && PassedOn(n, Absorbed(n + 1, entries), Ordinary(v.entries))
            && SourcePassed(n, Residual(n + 1, entries), Source(v.entries))
    decreases n, 3, 0
  {
    hide Passes, Everywhere, PlainKeys, PassedOn, VisitValue, Incoming, Level, Next, Mergeable, InsertMissing;
    var w := Passes(n, Mapping(entries)).value;
    VisitParts(0, w.entries);
    if Source(w.entries).Some? {
      var p, q := Residual(n, entries).value, Source(w.entries).value;
      AbsorbedParts(Plain, n, entries);
      LevelStands(n, p, q);
      OwnIsPlain(w.entries);
      InsertParts(Ordinary(w.entries), Incoming(q));
      PassedOnInsert(n, Absorbed(n, entries), Ordinary(w.entries), Level(n, p), Ordinary(Incoming(q)));
    }
  }

  lemma OwnIsPlain(entries: seq<Entry>)
    ensures PlainKeys(Ordinary(entries)) && Source(Ordinary(entries)) == None && Ordinary(Ordinary(entries)) == Ordinary(entries)
  {
    hide IsMergeKey, CountKeys, Ordinary, Source;
    var own := Ordinary(entries);
    forall e | e in own ensures !IsMergeKey(e.0) {
      OrdinaryIn(entries, e);
    }
    OrdinaryOnly(own);
    NoPositionNoKeys(own);
  }

  // A payload that is merged brings its level and leaves what is next.
  lemma {:induction false} LevelStands(n: nat, p: Value, q: Value)
    requires Everywhere(Plain, p) && Passes(n, p) == Ok(q) && Mergeable(q)
    ensures MergeKeysArePlain(Incoming(q)) && PassedOn(n, Level(n, p), Ordinary(Incoming(q)))
    ensures SourcePassed(n, Next(n, p), Source(Incoming(q)))
    decreases n, 2, 0
  {
    hide Passes, Everywhere, PassedOn, SourcePassed, Absorbed, Residual, Ordinary, Source, EntriesOfItems, LevelOfItems, NextOfItems;
    PassesKeepKind(n, p);
    match q {
      case Mapping(_) => PassesAbsorb(n, p.entries);
      case Sequence(ws) =>
        PassesOfKids(n, p);
        assert Kids(p) == p.items && Kids(q) == ws;
        forall i | 0 <= i < |ws| ensures Everywhere(Plain, p.items[i]) {
          ItemIsPart(Plain, p.items, i);
        }
        ItemsStand(n, p.items, ws);
    }
  }

  lemma {:induction false} ItemsStand(n: nat, items: seq<Value>, ws: seq<Value>)
    requires |items| == |ws| && forall i :: 0 <= i < |items| ==> Everywhere(Plain, items[i]) && Passes(n, items[i]) == Ok(ws[i])
    requires forall i :: 0 <= i < |ws| ==> ws[i].Mapping?
    ensures MergeKeysArePlain(EntriesOfItems(ws)) && PassedOn(n, LevelOfItems(n, items), Ordinary(EntriesOfItems(ws)))
    ensures SourcePassed(n, NextOfItems(n, items), Source(EntriesOfItems(ws)))
    decreases n, 1, |items|
  {
    hide Passes, Everywhere, Absorbed, Residual, IsMergeKey, CountKeys;
    if items != [] {
      PassesKeepKind(n, items[0]);
      PassesAbsorb(n, items[0].entries);
      ItemsStand(n, items[1..], ws[1..]);
      OrdinaryConcat(ws[0].entries, EntriesOfItems(ws[1..]));
      PassedOnConcat(n, Absorbed(n, items[0].entries), Ordinary(ws[0].entries), LevelOfItems(n, items[1..]), Ordinary(EntriesOfItems(ws[1..])));
    }
  }
}
