// `Value::apply_merge`, repeated to the end, against the borrowed value path: what
// each of them returns, and exactly when they agree.
module ApplyMergeViews {
  import opened Prelude
  import opened Values
  import opened EntryLists
  import opened ApplyMerge
  import opened ApplyMergePasses
  import opened ApplyMergeRepeats
  import opened ApplyMergeChains
  import opened ApplyMergeExact
  import opened ApplyMergeRounds
  import opened ApplyMergeFlat
  import opened ApplyMergeAccepted

  // ----- The end of the passes -----------------------------------------------------------------------

  /** What the passes from `s + 1` to `n` take in: in each the level of the payload that
      is left, after as many passes of its own. */
  function Tail(s: nat, n: nat, payload: Option<Value>): seq<Entry>
    decreases n - s
  {
    if s >= n || payload.None? then [] else Level(s, payload.value) + Tail(s + 1, n, Next(s, payload.value))
  }

  function TailRest(s: nat, n: nat, payload: Option<Value>): Option<Value>
    decreases n - s
  {
    if s >= n || payload.None? then payload else TailRest(s + 1, n, Next(s, payload.value))
  }

  lemma {:induction false} AbsorbedTail(s: nat, n: nat, entries: seq<Entry>)
    requires s <= n
    ensures Absorbed(n, entries) == InsertMissing(ValueEq, Absorbed(s, entries), Tail(s, n, Residual(s, entries)))
    ensures Residual(n, entries) == TailRest(s, n, Residual(s, entries))
    decreases n - s
  {
    hide ValueEq, Level, Next, InsertMissing;
    if s == n || Residual(s, entries).None? {
      NothingInserted(Absorbed(s, entries));
      if s < n {
        AbsorbedTail(s + 1, n, entries);
        NothingInserted(Absorbed(s + 1, entries));
      }
    } else {
      var p := Residual(s, entries).value;
      AbsorbedTail(s + 1, n, entries);
      InsertMissingConcat(ValueEq, Absorbed(s, entries), Level(s, p), Tail(s + 1, n, Next(s, p)));
    }
  }

  /** Enough passes for the mapping, all of them successful. */
  ghost predicate Ended(n: nat, entries: seq<Entry>) {
    Everywhere(Plain, Mapping(entries)) && n >= MergeKeys(Mapping(entries)) && Passes(n, Mapping(entries)).Ok?
  }

  /** Repeated to the end, `apply_merge` leaves the mapping's own entries and then, pass
      by pass, what each takes in of the payload that is left; every missing key once,
      every value passed to the end itself. */
  lemma PassesEnd(n: nat, entries: seq<Entry>)
    requires Ended(n, entries)
    ensures Passes(n, Mapping(entries)).value.Mapping?
    ensures PassedOn(n, Absorbed(n, entries), Passes(n, Mapping(entries)).value.entries)
    ensures Absorbed(n, entries) == InsertMissing(ValueEq, Ordinary(entries), Tail(0, n, Source(entries)))
    ensures Residual(n, entries) == None && TailRest(0, n, Source(entries)) == None
  {
    hide Passes, Everywhere, MergeKeys, Absorbed, Residual, Tail, TailRest, InsertMissing, PassedOn, PlainKeys;
    PassesAbsorb(n, entries);
    RepeatedPassesEnd(n, Mapping(entries));
    NothingLeft(Passes(n, Mapping(entries)).value.entries);
    AbsorbedTail(0, n, entries);
    AtFirst(entries);
  }

  lemma AtFirst(entries: seq<Entry>)
    ensures Absorbed(0, entries) == Ordinary(entries) && Residual(0, entries) == Source(entries)
  {
  }

  lemma NothingLeft(entries: seq<Entry>)
    requires MergeKeys(Mapping(entries)) == 0
    ensures Ordinary(entries) == entries && Source(entries) == None
  {
    NoPositionNoKeys(entries);
    forall e | e in entries ensures !IsMergeKey(e.0) {
      var i :| 0 <= i < |entries| && entries[i] == e;
    }
    OrdinaryOnly(entries);
  }

  // ----- Lists in which only the last item merges ------------------------------------------------------

  /** A list behind the mapping's merge key in which at most the last item merges. */
  predicate CalmHere(v: Value) {
    v.Mapping? && Source(v.entries).Some? ==> CalmList(Source(v.entries).value)
  }

  predicate CalmList(payload: Value) {
    payload.Sequence? ==>
      forall i :: 0 <= i < |payload.items| - 1 && payload.items[i].Mapping? ==> Source(payload.items[i].entries).None?
  }

  ghost predicate Calm(payload: Value) {
    CalmList(payload) && Everywhere(CalmHere, payload) && Everywhere(KeysValid, payload)
  }

  ghost predicate CalmRest(payload: Option<Value>) {
    payload.Some? ==> Calm(payload.value)
  }

  lemma AlikeSelf(x: seq<Entry>)
    requires ValidKeys(x)
    ensures Alike(x, x)
  {
  }

  lemma {:induction false} NothingToTake(s: nat, entries: seq<Entry>)
    requires Source(entries).None?
    ensures Absorbed(s, entries) == Ordinary(entries) && Residual(s, entries).None?
    decreases s
  {
    hide Ordinary, Source;
    if s > 0 { NothingToTake(s - 1, entries); }
  }

  lemma CalmSource(entries: seq<Entry>)
    requires Everywhere(CalmHere, Mapping(entries)) && Everywhere(KeysValid, Mapping(entries))
    ensures CalmRest(Source(entries))
  {
    hide Everywhere, Source, CalmList;
    Here(CalmHere, Mapping(entries));
    AbsorbedParts(CalmHere, 0, entries);
    AbsorbedParts(KeysValid, 0, entries);
    AtFirst(entries);
  }

  // Passes move candidates from what is left to what is taken in, and no more.
  lemma {:induction false} CalmRound(s: nat, entries: seq<Entry>)
    requires Everywhere(CalmHere, Mapping(entries)) && Everywhere(KeysValid, Mapping(entries))
    ensures Alike(Absorbed(s, entries) + FlatRest(Residual(s, entries)), Flat(entries))
    ensures CalmRest(Residual(s, entries))
    decreases s, 0, 0
  {
    hide Everywhere, Calm, Alike, ValueEq, Flat, FlatPayload, Level, Next, InsertMissing;
    if s == 0 {
      CalmSource(entries);
      MappingFlatIsValid(entries);
      FlatParts(entries);
    } else {
      CalmRound(s - 1, entries);
      var x := Absorbed(s - 1, entries);
      match Residual(s - 1, entries) {
        case None =>
        case Some(p) =>
          CalmLevel(s - 1, p);
          RoundIsAlike(x, Level(s - 1, p), FlatRest(Next(s - 1, p)), FlatPayload(p), Flat(entries));
      }
    }
  }

  lemma MappingFlatIsValid(entries: seq<Entry>)
    requires Everywhere(KeysValid, Mapping(entries))
    ensures ValidKeys(Flat(entries))
  {
    hide Everywhere, Flat;
    FlatIsValid(Mapping(entries));
  }

  lemma FlatParts(entries: seq<Entry>)
    requires ValidKeys(Flat(entries))
    ensures Flat(entries) == Ordinary(entries) + FlatRest(Source(entries))
    ensures Alike(Absorbed(0, entries) + FlatRest(Residual(0, entries)), Flat(entries))
  {
    hide ValidKeys, FlatPayload, Ordinary, Source;
  }

  lemma RoundIsAlike(x: seq<Entry>, level: seq<Entry>, rest: seq<Entry>, payload: seq<Entry>, flat: seq<Entry>)
    requires Alike(x + payload, flat) && Alike(level + rest, payload)
    ensures Alike(InsertMissing(ValueEq, x, level) + rest, flat)
  {
    hide ValidKeys, InsertMissing, ValueEq;
    ValidConcat(x, payload);
    ValidConcat(level, rest);
    AlikeInserted(x, level);
    AlikeSelf(rest);
    AlikeConcat(InsertMissing(ValueEq, x, level), x + level, rest, rest);
    AlikeSelf(x);
    AlikeConcat(x, x, level + rest, payload);
    assert x + level + rest == x + (level + rest);
  }

  lemma {:induction false} CalmLevel(s: nat, payload: Value)
    requires Calm(payload)
    ensures Alike(Level(s, payload) + FlatRest(Next(s, payload)), FlatPayload(payload)) && CalmRest(Next(s, payload))
    decreases s, 2, 0
  {
    hide Everywhere, Alike, Absorbed, Residual, Flat, FlatItems, LevelOfItems, NextOfItems;
    match payload {
      case Mapping(entries) => CalmRound(s, entries);
      case Sequence(items) =>
        forall i | 0 <= i < |items| ensures Everywhere(CalmHere, items[i]) && Everywhere(KeysValid, items[i]) {
          ItemIsPart(CalmHere, items, i);
          ItemIsPart(KeysValid, items, i);
        }
        CalmItems(s, items);
      case _ =>
        NothingIsAlike();
        assert Level(s, payload) + FlatRest(Next(s, payload)) == [];
    }
  }

  ghost predicate ItemsAlike(s: nat, items: seq<Value>) {
    Alike(LevelOfItems(s, items) + FlatRest(NextOfItems(s, items)), FlatItems(items)) && CalmRest(NextOfItems(s, items))
  }

  lemma {:induction false} CalmItems(s: nat, items: seq<Value>)
    requires forall i :: 0 <= i < |items| ==> Everywhere(CalmHere, items[i]) && Everywhere(KeysValid, items[i])
    requires forall i :: 0 <= i < |items| - 1 && items[i].Mapping? ==> Source(items[i].entries).None?
    ensures ItemsAlike(s, items)
    decreases s, 1, |items|
  {
    hide Everywhere, ItemsAlike, Alike, CalmRest, Absorbed, Residual, Flat, FlatRest, Source;
    if items == [] {
      NoItemsAlike(s);
    } else {
      var rest := items[1..];
      assert items == [items[0]] + rest;
      CalmItems(s, rest);
      if items[0].Mapping? {
        CalmRound(s, items[0].entries);
        if rest == [] {
          assert items == [items[0]];
          LastItem(s, items[0].entries);
        } else {
          QuietFront(s, items[0].entries, rest);
        }
      } else {
        OtherFront(s, items[0], rest);
      }
    }
  }

  lemma NoItemsAlike(s: nat)
    ensures ItemsAlike(s, [])
  {
    NothingIsAlike();
  }

  lemma OtherFront(s: nat, item: Value, rest: seq<Value>)
    requires !item.Mapping? && ItemsAlike(s, rest)
    ensures ItemsAlike(s, [item] + rest)
  {
    hide Alike, CalmRest, FlatRest;
    assert ([item] + rest)[1..] == rest;
    assert [] + LevelOfItems(s, rest) == LevelOfItems(s, rest) && [] + FlatItems(rest) == FlatItems(rest);
  }

  lemma QuietFront(s: nat, entries: seq<Entry>, rest: seq<Value>)
    requires Source(entries).None? && ItemsAlike(s, rest)
    requires Alike(Absorbed(s, entries) + FlatRest(Residual(s, entries)), Flat(entries))
    ensures ItemsAlike(s, [Mapping(entries)] + rest)
  {
    hide Alike, CalmRest, FlatRest, Absorbed, Residual, Flat, Source;
    var items := [Mapping(entries)] + rest;
    assert items[1..] == rest;
    QuietItem(s, entries, LevelOfItems(s, rest) + FlatRest(NextOfItems(s, rest)), FlatItems(rest));
    assert LevelOfItems(s, items) + FlatRest(NextOfItems(s, items))
        == Absorbed(s, entries) + (LevelOfItems(s, rest) + FlatRest(NextOfItems(s, rest)));
  }

  lemma LastItem(s: nat, entries: seq<Entry>)
    requires Alike(Absorbed(s, entries) + FlatRest(Residual(s, entries)), Flat(entries)) && CalmRest(Residual(s, entries))
    ensures ItemsAlike(s, [Mapping(entries)])
  {
    hide Alike, Absorbed, Residual, Flat, FlatPayload, Calm;
    var items := [Mapping(entries)];
    assert items[1..] == [];
    assert LevelOfItems(s, []) == [] && NextOfItems(s, []) == None && FlatItems([]) == [];
    assert Absorbed(s, entries) + [] == Absorbed(s, entries) && Flat(entries) + [] == Flat(entries);
    assert NextOfItems(s, items) == Residual(s, entries);
  }

  lemma QuietItem(s: nat, entries: seq<Entry>, x: seq<Entry>, y: seq<Entry>)
    requires Source(entries).None? && Alike(x, y)
    requires Alike(Absorbed(s, entries) + FlatRest(Residual(s, entries)), Flat(entries))
    ensures Alike(Absorbed(s, entries) + x, Flat(entries) + y) && Residual(s, entries).None?
  {
    hide Alike, Flat;
    NothingToTake(s, entries);
    assert Absorbed(s, entries) + [] == Absorbed(s, entries);
    AlikeConcat(Absorbed(s, entries), Flat(entries), x, y);
  }

  lemma {:induction false} CalmTail(s: nat, n: nat, payload: Option<Value>)
    requires CalmRest(payload)
    ensures Alike(Tail(s, n, payload) + FlatRest(TailRest(s, n, payload)), FlatRest(payload))
    decreases n - s
  {
    hide Calm, Alike, FlatPayload, Level, Next;
    if s >= n || payload.None? {
      RestIsValid(payload);
      assert [] + FlatRest(payload) == FlatRest(payload);
      AlikeSelf(FlatRest(payload));
    } else {
      var p := payload.value;
      CalmLevel(s, p);
      CalmTail(s + 1, n, Next(s, p));
      var tail, rest := Tail(s + 1, n, Next(s, p)), FlatRest(TailRest(s + 1, n, Next(s, p)));
      TailStep(Level(s, p), tail + rest, FlatRest(Next(s, p)), FlatPayload(p));
      assert Level(s, p) + tail + rest == Level(s, p) + (tail + rest);
    }
  }

  lemma RestIsValid(payload: Option<Value>)
    requires CalmRest(payload)
    ensures ValidKeys(FlatRest(payload))
  {
    hide FlatPayload, Everywhere, CalmList;
    NoneIsValid();
    if payload.Some? { FlatIsValid(payload.value); }
  }

  lemma TailStep(level: seq<Entry>, x: seq<Entry>, y: seq<Entry>, flat: seq<Entry>)
    requires Alike(x, y) && Alike(level + y, flat)
    ensures Alike(level + x, flat)
  {
    hide ValidKeys, Firsts;
    ValidConcat(level, y);
    AlikeSelf(level);
    AlikeConcat(level, level, x, y);
  }

  /** If in every list at most the last item merges, the passes take in the candidates,
      and keep the first of every key. */
  lemma CalmPassesEnd(n: nat, entries: seq<Entry>)
    requires Ended(n, entries) && Everywhere(KeysValid, Mapping(entries)) && Everywhere(CalmHere, Mapping(entries))
    ensures Absorbed(n, entries) == InsertMissing(ValueEq, Ordinary(entries), FlatRest(Source(entries)))
  {
    hide Everywhere, MergeKeys, Passes, Absorbed, Tail, TailRest, InsertMissing, Alike, FlatPayload, Ordinary, Source, PassedOn, ValidKeys;
    PassesEnd(n, entries);
    CalmSource(entries);
    CalmTail(0, n, Source(entries));
    var tail := Tail(0, n, Source(entries));
    assert tail + [] == tail;
    Here(KeysValid, Mapping(entries));
    OrdinaryIsValid(entries);
    InsertOfAlike(Ordinary(entries), tail, FlatRest(Source(entries)));
  }

  /** Then repeated passes end in the borrowed view: the same entries in the same order,
      each value passed to the end itself. */
  lemma CalmPassesEndInRefView(n: nat, entries: seq<Entry>)
    requires Ended(n, entries) && Everywhere(KeysValid, Mapping(entries)) && Everywhere(CalmHere, Mapping(entries))
    requires RefView(entries, 0).Ok?
    ensures Passes(n, Mapping(entries)).value.Mapping? && Absorbed(n, entries) == RefView(entries, 0).value
    ensures PassedOn(n, RefView(entries, 0).value, Passes(n, Mapping(entries)).value.entries)
  {
    hide Everywhere, MergeKeys, Passes, Absorbed, Tail, TailRest, InsertMissing, Alike, FlatPayload, Ordinary, Source, PassedOn, ValidKeys;
    PassesEnd(n, entries);
    RefViewIsFlat(entries, 0);
    CalmPassesEnd(n, entries);
  }

  /** Where moreover the borrowed path accepts every mapping inside, every pass succeeds. */
  lemma PassesEndInRefView(n: nat, entries: seq<Entry>)
    requires Everywhere(Plain, Mapping(entries)) && Everywhere(KeysValid, Mapping(entries)) && Everywhere(CalmHere, Mapping(entries))
    requires Everywhere(Accepted, Mapping(entries)) && n >= MergeKeys(Mapping(entries))
    ensures Passes(n, Mapping(entries)).Ok? && Passes(n, Mapping(entries)).value.Mapping?
    ensures RefView(entries, 0).Ok? && PassedOn(n, RefView(entries, 0).value, Passes(n, Mapping(entries)).value.entries)
  {
    hide Passes, Everywhere, Plain, MergeKeys, PassedOn, Absorbed;
    AcceptedPasses(Mapping(entries));
    Here(Accepted, Mapping(entries));
    CalmPassesEndInRefView(n, entries);
  }

  // ----- Mapping payloads ------------------------------------------------------------------------------

  lemma {:induction false} MappingsAreCalm(v: Value)
    requires Everywhere(Plain, v) && MappingPayloads(v)
    ensures Everywhere(CalmHere, v)
    decreases Size(v)
  {
    hide PlainKeys, Size, IsMergeKey, Source;
    forall i | 0 <= i < |Kids(v)| ensures KidIsSmaller(v, i) && Everywhere(CalmHere, Kids(v)[i]) {
      KidOf(Plain, v, i);
      KidOf(PayloadsAre(IsMapping), v, i);
      MappingsAreCalm(Kids(v)[i]);
    }
    if v.Mapping? && Source(v.entries).Some? { SourceIsMapping(v.entries); }
  }

  lemma SourceIsMapping(entries: seq<Entry>)
    requires PayloadsAre(IsMapping)(Mapping(entries)) && Source(entries).Some?
    ensures Source(entries).value.Mapping?
  {
    hide IsMergeKey, Source;
    SourceIn(entries);
    var e :| e in entries && IsMergeKey(e.0) && e.1 == Source(entries).value;
    var i :| 0 <= i < |entries| && entries[i] == e;
    assert IsMapping(entries[i].1);
  }

  // Without lists, the links are the chain.
  lemma {:induction false} LinksAreChain(entries: seq<Entry>)
    requires Everywhere(Plain, Mapping(entries)) && MappingPayloads(Mapping(entries))
    ensures WaysMerge(entries) && Links(entries) == Chain(Mapping(entries))
    decreases Size(Mapping(entries))
  {
    hide PlainKeys, Size, IsMergeKey, Source, Everywhere, EntriesChain;
    Here(Plain, Mapping(entries));
    PayloadsHere(entries);
    if Source(entries).Some? {
      SourceIsMapping(entries);
      AbsorbedParts(Plain, 0, entries);
      AbsorbedParts(PayloadsAre(IsMapping), 0, entries);
      AtFirst(entries);
      LinksAreChain(Source(entries).value.entries);
      ChainOfSource(entries);
    } else {
      SourceIn(entries);
      ChainIsLongest(entries, 0);
    }
  }

  lemma ChainOfSource(entries: seq<Entry>)
    requires PlainKeys(entries) && Source(entries).Some?
    ensures Chain(Mapping(entries)) == 1 + Chain(Source(entries).value)
  {
    hide IsMergeKey, CountKeys, Chain;
    SourceIn(entries);
    var e :| e in entries && IsMergeKey(e.0) && e.1 == Source(entries).value;
    LinkShortens(entries, e);
    forall o | o in entries && IsMergeKey(o.0) ensures 1 + Chain(o.1) <= 1 + Chain(e.1) {
      OnlyMergeEntry(entries, o, e);
    }
    ChainIsLongest(entries, 1 + Chain(e.1));
    ChainOfEntries(entries);
  }

  lemma ChainOfEntries(entries: seq<Entry>)
    ensures Chain(Mapping(entries)) == EntriesChain(entries)
  {
  }

  lemma OnlyMergeEntry(entries: seq<Entry>, a: Entry, b: Entry)
    requires PlainKeys(entries) && a in entries && b in entries && IsMergeKey(a.0) && IsMergeKey(b.0)
    ensures a == b
  {
    hide IsMergeKey, CountKeys;
    var i :| 0 <= i < |entries| && entries[i] == a;
    var j :| 0 <= j < |entries| && entries[j] == b;
    if i != j { OnlyKey(entries, i, j); }
  }

  /** Mappings as payloads and chains that fit are such values. */
  lemma {:induction false} FittingMappingsAreAccepted(v: Value)
    requires Everywhere(Plain, v) && MappingPayloads(v) && Everywhere(ChainFits, v)
    ensures Everywhere(Accepted, v) && Everywhere(CalmHere, v)
    decreases Size(v)
  {
    hide Plain, Size, Chain, CalmHere, WaysMerge, Links;
    MappingsAreCalm(v);
    forall i | 0 <= i < |Kids(v)| ensures KidIsSmaller(v, i) && Everywhere(Accepted, Kids(v)[i]) {
      KidOf(Plain, v, i);
      KidOf(PayloadsAre(IsMapping), v, i);
      KidOf(ChainFits, v, i);
      FittingMappingsAreAccepted(Kids(v)[i]);
    }
    if v.Mapping? {
      LinksAreChain(v.entries);
      RefViewExactly(v.entries, 0);
    }
  }

  // ----- Exactly when the paths agree ---------------------------------------------------------------------

  /** Every key finds the same entry in both. */
  ghost predicate SameEntries(x: seq<Entry>, y: seq<Entry>) {
    forall key :: Valid(key) ==> Lookup(ValueEq, x, key) == Lookup(ValueEq, y, key)
  }

  /** Every key that is not held yet does. */
  ghost predicate SameBeyond(held: seq<Entry>, x: seq<Entry>, y: seq<Entry>) {
    forall key :: Valid(key) && !HasKey(ValueEq, held, key) ==> Lookup(ValueEq, x, key) == Lookup(ValueEq, y, key)
  }

  lemma {:induction false} LookupAlike(entries: seq<Entry>, key: Value)
    requires ValidKeys(entries) && Valid(key)
    ensures Lookup(ValueEq, entries, key) == Lookup(SameCanon, entries, key)
  {
    hide Valid, Canon, ValueEq;
    if entries != [] {
      assert entries[0] in entries;
      EqIsCanonicalEquality(entries[0].0, key);
      LookupAlike(entries[1..], key);
    }
  }

  lemma LookupInserted(own: seq<Entry>, more: seq<Entry>, key: Value)
    requires ValidKeys(own) && ValidKeys(more) && Valid(key)
    ensures Lookup(ValueEq, InsertMissing(ValueEq, own, more), key)
         == if HasKey(ValueEq, own, key) then Lookup(ValueEq, own, key) else Lookup(ValueEq, more, key)
  {
    hide ValidKeys, Valid, SameCanon, ValueEq, InsertMissing;
    InsertAlike(own, more);
    LookupAlike(InsertMissing(ValueEq, own, more), key);
    LookupAlike(own, key);
    LookupAlike(more, key);
    CanonIsEquivalence();
    LookupAfterInsert(SameCanon, own, more, key);
    LookupFindsKey(ValueEq, own, key);
  }

  lemma InsertionsAgree(held: seq<Entry>, x: seq<Entry>, y: seq<Entry>)
    requires ValidKeys(held) && ValidKeys(x) && ValidKeys(y)
    ensures SameEntries(InsertMissing(ValueEq, held, x), InsertMissing(ValueEq, held, y)) <==> SameBeyond(held, x, y)
  {
    hide ValidKeys, Valid, ValueEq, InsertMissing, HasKey, Lookup;
    var a, b := InsertMissing(ValueEq, held, x), InsertMissing(ValueEq, held, y);
    forall key | Valid(key)
      ensures Lookup(ValueEq, a, key) == (if HasKey(ValueEq, held, key) then Lookup(ValueEq, held, key) else Lookup(ValueEq, x, key))
      ensures Lookup(ValueEq, b, key) == (if HasKey(ValueEq, held, key) then Lookup(ValueEq, held, key) else Lookup(ValueEq, y, key))
    {
      LookupInserted(held, x, key);
      LookupInserted(held, y, key);
    }
  }

  lemma {:induction false} TailIsValid(s: nat, n: nat, payload: Option<Value>)
    requires payload.Some? ==> Everywhere(KeysValid, payload.value)
    ensures ValidKeys(Tail(s, n, payload))
    decreases n - s
  {
    hide Everywhere, ValidKeys, Level, Next;
    NoneIsValid();
    if s < n && payload.Some? {
      var p := payload.value;
      LevelIsValid(s, p);
      LevelParts(KeysValid, s, p);
      TailIsValid(s + 1, n, Next(s, p));
      ValidConcat(Level(s, p), Tail(s + 1, n, Next(s, p)));
    }
  }

  lemma {:induction false} AbsorbedIsValid(s: nat, entries: seq<Entry>)
    requires Everywhere(KeysValid, Mapping(entries))
    ensures ValidKeys(Absorbed(s, entries))
    decreases s, 0, 0
  {
    hide Everywhere, ValidKeys, ValueEq, Level, InsertMissing, Ordinary;
    if s == 0 {
      Here(KeysValid, Mapping(entries));
      OrdinaryIsValid(entries);
    } else {
      AbsorbedIsValid(s - 1, entries);
      AbsorbedParts(KeysValid, s - 1, entries);
      if Residual(s - 1, entries).Some? {
        var p := Residual(s - 1, entries).value;
        LevelIsValid(s - 1, p);
        InsertAlike(Absorbed(s - 1, entries), Level(s - 1, p));
      }
    }
  }

  lemma {:induction false} LevelIsValid(s: nat, payload: Value)
    requires Everywhere(KeysValid, payload)
    ensures ValidKeys(Level(s, payload))
    decreases s, 2, 0
  {
    hide Everywhere, ValidKeys, Absorbed, LevelOfItems;
    NoneIsValid();
    match payload {
      case Mapping(entries) => AbsorbedIsValid(s, entries);
      case Sequence(items) =>
        forall i | 0 <= i < |items| ensures Everywhere(KeysValid, items[i]) { ItemIsValid(items, i); }
        LevelItemsAreValid(s, items);
      case _ =>
    }
  }

  lemma {:induction false} LevelItemsAreValid(s: nat, items: seq<Value>)
    requires forall i :: 0 <= i < |items| ==> Everywhere(KeysValid, items[i])
    ensures ValidKeys(LevelOfItems(s, items))
    decreases s, 1, |items|
  {
    hide Everywhere, ValidKeys, Absorbed;
    NoneIsValid();
    if items != [] {
      if items[0].Mapping? { AbsorbedIsValid(s, items[0].entries); }
      LevelItemsAreValid(s, items[1..]);
      ValidConcat(if items[0].Mapping? then Absorbed(s, items[0].entries) else [], LevelOfItems(s, items[1..]));
    }
  }

  /** When both paths succeed, they return the same entry for every key exactly if,
      beyond the mapping's own keys, every key is first supplied by the same entry in
      what the passes take in and among the candidates; and the same entries in the same
      order exactly if inserting either gives the same. */
  lemma PathsAgreeExactly(n: nat, entries: seq<Entry>)
    requires Ended(n, entries) && Everywhere(KeysValid, Mapping(entries)) && RefView(entries, 0).Ok?
    ensures Passes(n, Mapping(entries)).value.Mapping?
    ensures PassedOn(n, Absorbed(n, entries), Passes(n, Mapping(entries)).value.entries)
    ensures var own, taken, flat := Ordinary(entries), Tail(0, n, Source(entries)), FlatRest(Source(entries));
            && (SameEntries(Absorbed(n, entries), RefView(entries, 0).value) <==> SameBeyond(own, taken, flat))
            && (Absorbed(n, entries) == RefView(entries, 0).value
                <==> InsertMissing(ValueEq, own, taken) == InsertMissing(ValueEq, own, flat))
  {
    hide Everywhere, MergeKeys, Passes, Absorbed, Tail, InsertMissing, FlatPayload, Ordinary, Source, PassedOn, ValidKeys, SameEntries, SameBeyond, Alike, Valid;
    PassesEnd(n, entries);
    RefViewIsFlat(entries, 0);
    Here(KeysValid, Mapping(entries));
    OrdinaryIsValid(entries);
    SourceRestIsValid(entries);
    TailIsValid(0, n, Source(entries));
    InsertionsAgree(Ordinary(entries), Tail(0, n, Source(entries)), FlatRest(Source(entries)));
  }

  lemma SourceRestIsValid(entries: seq<Entry>)
    requires Everywhere(KeysValid, Mapping(entries))
    ensures ValidKeys(FlatRest(Source(entries)))
    ensures Source(entries).Some? ==> Everywhere(KeysValid, Source(entries).value)
  {
    hide Everywhere, FlatPayload, Source, ValidKeys;
    NoneIsValid();
    if Source(entries).Some? {
      SourceIsValid(entries);
      FlatIsValid(Source(entries).value);
    }
  }

  // ----- A list behind the merge key ------------------------------------------------------------------------

  /** The own entries of the items, in order. */
  function OwnOfItems(items: seq<Value>): seq<Entry> {
    if items == [] then []
    else (if items[0].Mapping? then Ordinary(items[0].entries) else []) + OwnOfItems(items[1..])
  }

  predicate FirstMerging(items: seq<Value>, k: nat) {
    && k < |items| && (forall i :: 0 <= i < |items| ==> items[i].Mapping?)
    && (forall i :: 0 <= i < k ==> Source(items[i].entries).None?) && Source(items[k].entries).Some?
  }

  lemma {:induction false} ListAtFirst(items: seq<Value>)
    ensures LevelOfItems(0, items) == OwnOfItems(items)
  {
    hide Ordinary;
    if items != [] {
      ListAtFirst(items[1..]);
      if items[0].Mapping? { AtFirst(items[0].entries); }
    }
  }

  lemma ItemsFront(item: Value, rest: seq<Value>)
    ensures OwnOfItems([item] + rest) == (if item.Mapping? then Ordinary(item.entries) else []) + OwnOfItems(rest)
    ensures FlatItems([item] + rest) == (if item.Mapping? then Flat(item.entries) else []) + FlatItems(rest)
    ensures NextOfItems(0, [item] + rest)
         == if item.Mapping? && Residual(0, item.entries).Some? then Residual(0, item.entries) else NextOfItems(0, rest)
  {
    hide Ordinary, Flat, Residual;
    assert ([item] + rest)[1..] == rest;
  }

  lemma NoItems()
    ensures OwnOfItems([]) == [] && FlatItems([]) == [] && NextOfItems(0, []) == None
  {
  }

  lemma {:induction false} ItemsConcat(x: seq<Value>, y: seq<Value>)
    ensures OwnOfItems(x + y) == OwnOfItems(x) + OwnOfItems(y) && FlatItems(x + y) == FlatItems(x) + FlatItems(y)
    ensures NextOfItems(0, x + y) == if NextOfItems(0, x).Some? then NextOfItems(0, x) else NextOfItems(0, y)
  {
    hide Ordinary, Flat, Residual, OwnOfItems, FlatItems, NextOfItems;
    if x == [] {
      NoItems();
      assert x + y == y;
    } else {
      var rest := x[1..];
      assert x == [x[0]] + rest && x + y == [x[0]] + (rest + y);
      ItemsFront(x[0], rest);
      ItemsFront(x[0], rest + y);
      ItemsConcat(rest, y);
    }
  }

  lemma {:induction false} QuietItems(items: seq<Value>)
    requires forall i :: 0 <= i < |items| ==> items[i].Mapping? && Source(items[i].entries).None?
    ensures FlatItems(items) == OwnOfItems(items) && NextOfItems(0, items) == None
  {
    hide Ordinary, Source;
    if items != [] {
      QuietItems(items[1..]);
      AtFirst(items[0].entries);
      assert Ordinary(items[0].entries) + [] == Ordinary(items[0].entries);
    }
  }

  lemma OneItem(entries: seq<Entry>)
    ensures var items := [Mapping(entries)];
            && OwnOfItems(items) == Ordinary(entries) && FlatItems(items) == Ordinary(entries) + FlatRest(Source(entries))
            && NextOfItems(0, items) == Source(entries)
  {
    hide Ordinary, Source, FlatPayload;
    var items := [Mapping(entries)];
    AtFirst(entries);
    assert items[1..] == [];
    assert Ordinary(entries) + [] == Ordinary(entries);
    assert Flat(entries) + [] == Flat(entries);
  }

  // A list, split behind its first item that merges.
  lemma ListParts(items: seq<Value>, k: nat)
    requires FirstMerging(items, k)
    ensures NextOfItems(0, items) == Source(items[k].entries)
    ensures OwnOfItems(items) == OwnOfItems(items[..k + 1]) + OwnOfItems(items[k + 1..])
    ensures FlatItems(items) == OwnOfItems(items[..k + 1]) + FlatRest(Source(items[k].entries)) + FlatItems(items[k + 1..])
  {
    hide Ordinary, Source, FlatPayload, OwnOfItems, FlatItems, NextOfItems;
    var x, one, y := items[..k], [items[k]], items[k + 1..];
    assert items == x + (one + y) && items[..k + 1] == x + one;
    QuietItems(x);
    OneItem(items[k].entries);
    ItemsConcat(x, one + y);
    ItemsConcat(one, y);
    ItemsConcat(x, one);
  }

  /** A list behind the merge key: the passes take in the own entries of all items, then
      only what the first merging item's payload has to give; the borrowed path goes
      item by item. Both hold `before`, the own entries up to that item. */
  lemma ListPassesEnd(n: nat, entries: seq<Entry>, items: seq<Value>, k: nat)
    requires Ended(n, entries) && Source(entries) == Some(Sequence(items)) && FirstMerging(items, k)
    ensures n >= 1
    ensures var before, later := OwnOfItems(items[..k + 1]), OwnOfItems(items[k + 1..]);
            Tail(0, n, Source(entries)) == before + (later + Tail(1, n, Source(items[k].entries)))
    ensures FlatRest(Source(entries)) == OwnOfItems(items[..k + 1]) + (FlatRest(Source(items[k].entries)) + FlatItems(items[k + 1..]))
    ensures TailRest(1, n, Source(items[k].entries)) == None
  {
    hide Everywhere, MergeKeys, Passes, Absorbed, InsertMissing, PassedOn, FlatItems, LevelOfItems, NextOfItems, OwnOfItems, FirstMerging;
    PassesEnd(n, entries);
    ListAtFirst(items);
    ListParts(items, k);
    var p := Sequence(items);
    assert Level(0, p) == LevelOfItems(0, items) && Next(0, p) == NextOfItems(0, items);
    assert Tail(0, n, Some(p)) == Level(0, p) + Tail(1, n, Next(0, p));
  }

  lemma HeldByBoth(own: seq<Entry>, before: seq<Entry>, x: seq<Entry>, y: seq<Entry>)
    requires ValidKeys(own) && ValidKeys(before)
    ensures SameBeyond(InsertMissing(ValueEq, own, before), x, y) <==> SameBeyond(own + before, x, y)
  {
    hide ValidKeys, Valid, ValueEq, InsertMissing, Lookup;
    var held := InsertMissing(ValueEq, own, before);
    forall key | Valid(key) ensures HasKey(ValueEq, held, key) <==> HasKey(ValueEq, own + before, key) {
      HeldKey(own, before, key);
    }
  }

  lemma HeldKey(own: seq<Entry>, before: seq<Entry>, key: Value)
    requires ValidKeys(own) && ValidKeys(before) && Valid(key)
    ensures HasKey(ValueEq, InsertMissing(ValueEq, own, before), key) <==> HasKey(ValueEq, own + before, key)
  {
    hide ValidKeys, Valid, SameCanon, ValueEq, InsertMissing, HasKey;
    InsertAlike(own, before);
    ValidConcat(own, before);
    KnownAlike(InsertMissing(ValueEq, own, before), key);
    KnownAlike(own + before, key);
    CanonIsEquivalence();
    KeysAfterInsert(SameCanon, own, before, key);
    HasKeyConcat(SameCanon, own, before, key);
  }

  // The comparison behind what both paths hold.
  lemma CompareBehind(own: seq<Entry>, before: seq<Entry>, x: seq<Entry>, y: seq<Entry>)
    requires ValidKeys(own) && ValidKeys(before) && ValidKeys(x) && ValidKeys(y)
    ensures SameEntries(InsertMissing(ValueEq, own, before + x), InsertMissing(ValueEq, own, before + y)) <==> SameBeyond(own + before, x, y)
  {
    hide ValidKeys, SameEntries, SameBeyond, ValueEq, InsertMissing;
    var held := InsertMissing(ValueEq, own, before);
    InsertMissingConcat(ValueEq, own, before, x);
    InsertMissingConcat(ValueEq, own, before, y);
    InsertAlike(own, before);
    InsertionsAgree(held, x, y);
    HeldByBoth(own, before, x, y);
  }

  lemma ValidParts(x: seq<Entry>, y: seq<Entry>, z: seq<Entry>)
    requires ValidKeys(x + (y + z))
    ensures ValidKeys(x) && ValidKeys(y) && ValidKeys(z) && ValidKeys(y + z)
  {
    hide ValidKeys;
    ValidConcat(x, y + z);
    ValidConcat(y, z);
  }

  /** Behind a list the paths return the same entry for every key exactly if, past what
      the mapping and the items up to the first merging one hold, every key's first entry
      among the later items' own entries and what the first merging item's payload gives
      the passes is its first entry among that payload's candidates and the later items'
      candidates, item by item. The order agrees too exactly if inserting either gives
      the same. */
  lemma ListAgreesExactly(n: nat, entries: seq<Entry>, items: seq<Value>, k: nat)
    requires Ended(n, entries) && Everywhere(KeysValid, Mapping(entries)) && RefView(entries, 0).Ok?
    requires Source(entries) == Some(Sequence(items)) && FirstMerging(items, k)
    ensures var own, before := Ordinary(entries), OwnOfItems(items[..k + 1]);
            var taken := OwnOfItems(items[k + 1..]) + Tail(1, n, Source(items[k].entries));
            var shown := FlatRest(Source(items[k].entries)) + FlatItems(items[k + 1..]);
            && Absorbed(n, entries) == InsertMissing(ValueEq, own, before + taken)
            && RefView(entries, 0).value == InsertMissing(ValueEq, own, before + shown)
            && (SameEntries(Absorbed(n, entries), RefView(entries, 0).value) <==> SameBeyond(own + before, taken, shown))
  {
    hide Everywhere, MergeKeys, Passes, Absorbed, Tail, InsertMissing, FlatPayload, FlatItems, Ordinary, PassedOn, ValidKeys, SameEntries,
         SameBeyond, Alike, Valid, OwnOfItems, TailRest;
    PassesEnd(n, entries);
    RefViewIsFlat(entries, 0);
    ListPassesEnd(n, entries, items, k);
    Here(KeysValid, Mapping(entries));
    OrdinaryIsValid(entries);
    SourceRestIsValid(entries);
    TailIsValid(0, n, Source(entries));
    var before, later, q := OwnOfItems(items[..k + 1]), OwnOfItems(items[k + 1..]), Source(items[k].entries);
    ValidParts(before, later, Tail(1, n, q));
    ValidParts(before, FlatRest(q), FlatItems(items[k + 1..]));
    CompareBehind(Ordinary(entries), before, later + Tail(1, n, q), FlatRest(q) + FlatItems(items[k + 1..]));
  }

  /** If in the lists behind the first merging item's payload at most the last item
      merges, that payload gives both paths its view: `apply_merge` puts it behind the
      own entries of all items, the borrowed path in front of the later items. */
  lemma CalmListAgreesExactly(n: nat, entries: seq<Entry>, items: seq<Value>, k: nat)
    requires Ended(n, entries) && Everywhere(KeysValid, Mapping(entries)) && RefView(entries, 0).Ok?
    requires Source(entries) == Some(Sequence(items)) && FirstMerging(items, k) && Calm(Source(items[k].entries).value)
    ensures var own, before, later := Ordinary(entries), OwnOfItems(items[..k + 1]), OwnOfItems(items[k + 1..]);
            var view := FlatRest(Source(items[k].entries));
            var taken, shown := later + view, view + FlatItems(items[k + 1..]);
            && Absorbed(n, entries) == InsertMissing(ValueEq, own, before + taken)
            && RefView(entries, 0).value == InsertMissing(ValueEq, own, before + shown)
            && (SameEntries(Absorbed(n, entries), RefView(entries, 0).value) <==> SameBeyond(own + before, taken, shown))
  {
    hide Everywhere, MergeKeys, Passes, Absorbed, Tail, InsertMissing, FlatPayload, FlatItems, Ordinary, PassedOn, ValidKeys, SameEntries,
         SameBeyond, Alike, Valid, OwnOfItems, TailRest, Calm;
    ListAgreesExactly(n, entries, items, k);
    ListPassesEnd(n, entries, items, k);
    Here(KeysValid, Mapping(entries));
    OrdinaryIsValid(entries);
    SourceRestIsValid(entries);
    TailIsValid(0, n, Source(entries));
    var before, later, q := OwnOfItems(items[..k + 1]), OwnOfItems(items[k + 1..]), Source(items[k].entries);
    ValidParts(before, later, Tail(1, n, q));
    ValidParts(before, FlatRest(q), FlatItems(items[k + 1..]));
    CalmTail(1, n, q);
    assert Tail(1, n, q) + [] == Tail(1, n, q);
    ValidConcat(before, later);
    SameTail(before + later, Tail(1, n, q), FlatRest(q), Ordinary(entries));
    assert before + later + Tail(1, n, q) == before + (later + Tail(1, n, q));
    assert before + later + FlatRest(q) == before + (later + FlatRest(q));
    ValidConcat(later, FlatRest(q));
    CompareBehind(Ordinary(entries), before, later + FlatRest(q), FlatRest(q) + FlatItems(items[k + 1..]));
  }

  lemma SameTail(front: seq<Entry>, x: seq<Entry>, y: seq<Entry>, own: seq<Entry>)
    requires ValidKeys(own) && ValidKeys(front) && Alike(x, y)
    ensures InsertMissing(ValueEq, own, front + x) == InsertMissing(ValueEq, own, front + y)
  {
    hide ValidKeys, InsertMissing, ValueEq, Firsts;
    InsertMissingConcat(ValueEq, own, front, x);
    InsertMissingConcat(ValueEq, own, front, y);
    InsertAlike(own, front);
    InsertOfAlike(InsertMissing(ValueEq, own, front), x, y);
  }
}
