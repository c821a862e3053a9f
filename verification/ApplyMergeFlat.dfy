// The borrowed view of a mapping (src/de.rs) as one flat list of candidates, and the
// links it counts, for values whose mappings hold at most one merge key.
module ApplyMergeFlat {
  import opened Prelude
  import opened Values
  import opened EntryLists
  import opened ApplyMerge
  import opened ApplyMergePasses
  import opened ApplyMergeRepeats
  import opened ApplyMergeExact
  import opened ApplyMergeRounds
  import opened ApplyMergeSteps
  import N = Nodes

  // ----- Candidates ------------------------------------------------------------------------------

  /** The entries of a mapping in order of precedence: its own, then those behind its
      merge key; a list item by item. */
  function Flat(entries: seq<Entry>): seq<Entry>
    decreases Size(Mapping(entries)), 0, 0
  {
    assert AbsorbedIsSmaller(0, entries);
    Ordinary(entries) + if Source(entries).Some? then FlatPayload(Source(entries).value) else []
  }

  function FlatPayload(payload: Value): seq<Entry>
    decreases Size(payload), 1, 0
  {
    match payload
    case Mapping(entries) => Flat(entries)
    case Sequence(items) => FlatItems(items)
    case _ => []
  }

  function FlatItems(items: seq<Value>): seq<Entry>
    decreases SumSize(items), 2, |items|
  {
    if items == [] then []
    else
      SumSizeFront(items);
      (if items[0].Mapping? then Flat(items[0].entries) else []) + FlatItems(items[1..])
  }

  function FlatRest(payload: Option<Value>): seq<Entry> {
    if payload.Some? then FlatPayload(payload.value) else []
  }

  // ----- Links -----------------------------------------------------------------------------------

  /** The links of the longest way down merge keys, through mappings and lists alike. */
  function Links(entries: seq<Entry>): nat
    decreases Size(Mapping(entries)), 0, 0
  {
    assert AbsorbedIsSmaller(0, entries);
    if Source(entries).Some? then 1 + LinksOfPayload(Source(entries).value) else 0
  }

  function LinksOfPayload(payload: Value): nat
    decreases Size(payload), 1, 0
  {
    match payload
    case Mapping(entries) => Links(entries)
    case Sequence(items) => LinksOfItems(items)
    case _ => 0
  }

  function LinksOfItems(items: seq<Value>): nat
    decreases SumSize(items), 2, |items|
  {
    if items == [] then 0
    else
      SumSizeFront(items);
      Max(if items[0].Mapping? then Links(items[0].entries) else 0, LinksOfItems(items[1..]))
  }

  /** Every payload on these ways is a mapping or a list of mappings. */
  predicate WaysMerge(entries: seq<Entry>)
    decreases Size(Mapping(entries)), 0, 0
  {
    assert AbsorbedIsSmaller(0, entries);
    Source(entries).Some? ==> PayloadMerges(Source(entries).value)
  }

  predicate PayloadMerges(payload: Value)
    decreases Size(payload), 1, 0
  {
    match payload
    case Mapping(entries) => WaysMerge(entries)
    case Sequence(items) => ItemsMerge(items)
    case _ => false
  }

  predicate ItemsMerge(items: seq<Value>)
    decreases SumSize(items), 2, |items|
  {
    if items == [] then true
    else
      SumSizeFront(items);
      items[0].Mapping? && WaysMerge(items[0].entries) && ItemsMerge(items[1..])
  }

  // ----- The borrowed path ---------------------------------------------------------------------------

  predicate LinksFit(depth: nat, links: nat) {
    links > 0 ==> depth + links <= MAX_DEPTH
  }

  lemma SourceEntry(entries: seq<Entry>)
    requires PlainKeys(entries) && Source(entries).Some?
    ensures MergePosition(entries).Some?
    ensures var i := MergePosition(entries).value;
            entries[i].1 == Source(entries).value && RemoveAt(entries, i) == Ordinary(entries)
  {
    hide IsMergeKey, CountKeys, Ordinary, Source;
    PartsOfMapping(entries);
  }

  /** The borrowed path succeeds exactly if every payload on its ways can be merged and
      the links, each of them counted, stay within the budget. */
  lemma {:induction false} RefViewExactly(entries: seq<Entry>, depth: nat)
    requires Everywhere(Plain, Mapping(entries))
    ensures RefView(entries, depth).Ok? <==> WaysMerge(entries) && LinksFit(depth, Links(entries))
    ensures WaysMerge(entries) && RefView(entries, depth).Err? ==> RefView(entries, depth).error == N.DepthExceeded
    decreases Size(Mapping(entries)), 0, 0
  {
    hide Everywhere, IsMergeKey, CountKeys, InsertMissing, Size, Source, Ordinary, PayloadMerges, LinksOfPayload, RefMergeEntries;
    Here(Plain, Mapping(entries));
    PartsOfMapping(entries);
    if Source(entries).Some? {
      SourceEntry(entries);
      var i := MergePosition(entries).value;
      PayloadIsPart(entries);
      RefPayloadExactly(entries[i], depth);
    }
  }

  lemma PayloadIsPart(entries: seq<Entry>)
    requires Everywhere(Plain, Mapping(entries)) && Source(entries).Some?
    ensures Everywhere(Plain, Source(entries).value) && Size(Source(entries).value) < Size(Mapping(entries))
  {
    AbsorbedParts(Plain, 0, entries);
  }

  lemma {:induction false} RefPayloadExactly(merge: Entry, depth: nat)
    requires Everywhere(Plain, merge.1)
    ensures RefMergeEntries(merge, depth).Ok? <==> PayloadMerges(merge.1) && depth + 1 + LinksOfPayload(merge.1) <= MAX_DEPTH
    ensures PayloadMerges(merge.1) && RefMergeEntries(merge, depth).Err? ==> RefMergeEntries(merge, depth).error == N.DepthExceeded
    decreases Size(merge.1), 1, 0
  {
    hide Everywhere, Size, RefView, RefList, WaysMerge, ItemsMerge, Links, LinksOfItems;
    match merge.1 {
      case Mapping(entries) => RefViewExactly(entries, depth + 1);
      case Sequence(items) =>
        SizeOfKids(merge.1);
        forall i | 0 <= i < |items| ensures Everywhere(Plain, items[i]) { ItemIsPart(Plain, items, i); }
        RefListExactly([], items, depth + 1);
      case _ =>
    }
  }

  lemma {:induction false} RefListExactly(entries: seq<Entry>, items: seq<Value>, depth: nat)
    requires forall i :: 0 <= i < |items| ==> Everywhere(Plain, items[i])
    ensures RefList(entries, items, depth).Ok? <==> ItemsMerge(items) && LinksFit(depth, LinksOfItems(items))
    ensures ItemsMerge(items) && RefList(entries, items, depth).Err? ==> RefList(entries, items, depth).error == N.DepthExceeded
    decreases SumSize(items), 2, |items|
  {
    hide Everywhere, Size, RefView, WaysMerge, Links, InsertMissing;
    if items != [] {
      SumSizeFront(items);
      if items[0].Mapping? { RefViewExactly(items[0].entries, depth); }
      if RefItem(items[0], depth).Ok? {
        RefListExactly(InsertMissing(ValueEq, entries, RefItem(items[0], depth).value), items[1..], depth);
      }
    }
  }

  // ----- Equality of keys ------------------------------------------------------------------------

  ghost predicate SameCanon(a: Value, b: Value) {
    Canon(a) == Canon(b)
  }

  ghost predicate ValidKeys(entries: seq<Entry>) {
    forall e :: e in entries ==> Valid(e.0)
  }

  /** What the mapping type keeps of its keys. */
  ghost predicate KeysValid(v: Value) {
    v.Mapping? ==> ValidKeys(v.entries)
  }

  lemma KnownAlike(entries: seq<Entry>, key: Value)
    requires ValidKeys(entries) && Valid(key)
    ensures HasKey(ValueEq, entries, key) <==> HasKey(SameCanon, entries, key)
  {
    hide Valid, Canon, ValueEq;
    forall i | 0 <= i < |entries| ensures ValueEq(entries[i].0, key) <==> SameCanon(entries[i].0, key) {
      assert entries[i] in entries;
      EqIsCanonicalEquality(entries[i].0, key);
    }
  }

  lemma {:induction false} InsertAlike(entries: seq<Entry>, extra: seq<Entry>)
    requires ValidKeys(entries) && ValidKeys(extra)
    ensures InsertMissing(ValueEq, entries, extra) == InsertMissing(SameCanon, entries, extra)
    ensures ValidKeys(InsertMissing(ValueEq, entries, extra))
    decreases |extra|
  {
    hide Valid, SameCanon, ValueEq, HasKey;
    if extra != [] {
      KnownAlike(entries, extra[0].0);
      InsertAlike(AddMissing(ValueEq, entries, extra[0]), extra[1..]);
    }
  }

  lemma CanonIsEquivalence()
    ensures Equivalence(SameCanon)
  {
    hide Canon;
  }

  // On valid keys, inserting what was joined before is inserting one after the other.
  lemma InsertJoined(own: seq<Entry>, x: seq<Entry>, y: seq<Entry>)
    requires ValidKeys(own) && ValidKeys(x) && ValidKeys(y)
    ensures InsertMissing(ValueEq, own, InsertMissing(ValueEq, x, y)) == InsertMissing(ValueEq, InsertMissing(ValueEq, own, x), y)
  {
    hide ValidKeys, SameCanon, ValueEq, InsertMissing;
    InsertAlike(x, y);
    InsertAlike(own, x);
    InsertAlike(own, InsertMissing(ValueEq, x, y));
    InsertAlike(InsertMissing(ValueEq, own, x), y);
    CanonIsEquivalence();
    InsertMissingFlattens(SameCanon, own, x, y);
  }

  // ----- Lists with the same first entries ----------------------------------------------------------

  /** The first entry of every key. */
  function Firsts(entries: seq<Entry>): seq<Entry> {
    InsertMissing(ValueEq, [], entries)
  }

  /** Two candidate lists that supply the same entries, in the same order. */
  ghost predicate Alike(x: seq<Entry>, y: seq<Entry>) {
    ValidKeys(x) && ValidKeys(y) && Firsts(x) == Firsts(y)
  }

  lemma NoneIsValid()
    ensures ValidKeys([])
  {
  }

  lemma ValidConcat(x: seq<Entry>, y: seq<Entry>)
    ensures ValidKeys(x + y) <==> ValidKeys(x) && ValidKeys(y)
  {
    hide Valid;
    assert forall e :: e in x ==> e in x + y;
    assert forall e :: e in y ==> e in x + y;
  }

  // Whatever they are inserted into, alike lists leave the same.
  lemma InsertOfAlike(own: seq<Entry>, x: seq<Entry>, y: seq<Entry>)
    requires ValidKeys(own) && Alike(x, y)
    ensures InsertMissing(ValueEq, own, x) == InsertMissing(ValueEq, own, y)
  {
    hide ValidKeys, InsertMissing, ValueEq;
    NoneIsValid();
    InsertJoined(own, [], x);
    InsertJoined(own, [], y);
    NothingInserted(own);
  }

  lemma NothingInserted(own: seq<Entry>)
    ensures InsertMissing(ValueEq, own, []) == own
  {
  }

  lemma AlikeConcat(x: seq<Entry>, x': seq<Entry>, y: seq<Entry>, y': seq<Entry>)
    requires Alike(x, x') && Alike(y, y')
    ensures Alike(x + y, x' + y')
  {
    hide ValidKeys, InsertMissing, ValueEq;
    NoneIsValid();
    ValidConcat(x, y);
    ValidConcat(x', y');
    InsertMissingConcat(ValueEq, [], x, y);
    InsertMissingConcat(ValueEq, [], x', y');
    InsertAlike([], x);
    InsertOfAlike(Firsts(x), y, y');
  }

  lemma AlikeInserted(x: seq<Entry>, y: seq<Entry>)
    requires ValidKeys(x) && ValidKeys(y)
    ensures Alike(InsertMissing(ValueEq, x, y), x + y)
  {
    hide ValidKeys, InsertMissing, ValueEq;
    NoneIsValid();
    ValidConcat(x, y);
    InsertAlike(x, y);
    InsertJoined([], x, y);
    InsertMissingConcat(ValueEq, [], x, y);
  }

  // ----- What the borrowed path returns --------------------------------------------------------------

  lemma OrdinaryIsValid(entries: seq<Entry>)
    requires ValidKeys(entries)
    ensures ValidKeys(Ordinary(entries))
  {
    hide Valid, IsMergeKey, Ordinary;
    forall e | e in Ordinary(entries) ensures Valid(e.0) {
      OrdinaryIn(entries, e);
    }
  }

  lemma SourceIsValid(entries: seq<Entry>)
    requires Everywhere(KeysValid, Mapping(entries)) && Source(entries).Some?
    ensures Everywhere(KeysValid, Source(entries).value) && Size(Source(entries).value) < Size(Mapping(entries))
  {
    AbsorbedParts(KeysValid, 0, entries);
  }

  lemma ItemIsValid(items: seq<Value>, i: nat)
    requires Everywhere(KeysValid, Sequence(items)) && i < |items|
    ensures Everywhere(KeysValid, items[i])
  {
    ItemIsPart(KeysValid, items, i);
  }

  lemma {:induction false} FlatIsValid(payload: Value)
    requires Everywhere(KeysValid, payload)
    ensures ValidKeys(FlatPayload(payload))
    decreases Size(payload), 1, 0
  {
    hide Everywhere, Size, Ordinary, Source, ValidKeys, FlatItems;
    NoneIsValid();
    match payload {
      case Mapping(entries) =>
        Here(KeysValid, payload);
        OrdinaryIsValid(entries);
        if Source(entries).Some? {
          SourceIsValid(entries);
          FlatIsValid(Source(entries).value);
        }
        ValidConcat(Ordinary(entries), FlatRest(Source(entries)));
      case Sequence(items) =>
        SizeOfKids(payload);
        forall i | 0 <= i < |items| ensures Everywhere(KeysValid, items[i]) { ItemIsValid(items, i); }
        FlatItemsAreValid(items);
      case _ =>
    }
  }

  lemma {:induction false} FlatItemsAreValid(items: seq<Value>)
    requires forall i :: 0 <= i < |items| ==> Everywhere(KeysValid, items[i])
    ensures ValidKeys(FlatItems(items))
    decreases SumSize(items), 2, |items|
  {
    hide Everywhere, Size, ValidKeys, Flat;
    NoneIsValid();
    if items != [] {
      SumSizeFront(items);
      FlatIsValid(items[0]);
      FlatItemsAreValid(items[1..]);
      ValidConcat(if items[0].Mapping? then Flat(items[0].entries) else [], FlatItems(items[1..]));
    }
  }

  /** Its result keeps the mapping's own entries and the first candidate of every
      other key. */
  lemma {:induction false} RefViewIsFlat(entries: seq<Entry>, depth: nat)
    requires Everywhere(Plain, Mapping(entries)) && Everywhere(KeysValid, Mapping(entries)) && RefView(entries, depth).Ok?
    ensures RefView(entries, depth).value == InsertMissing(ValueEq, Ordinary(entries), FlatRest(Source(entries)))
    ensures Alike(RefView(entries, depth).value, Flat(entries))
    decreases Size(Mapping(entries)), 0, 0
  {
    hide Everywhere, IsMergeKey, CountKeys, InsertMissing, Size, Source, Ordinary, RefMergeEntries, ValidKeys, FlatPayload, Alike;
    Here(Plain, Mapping(entries));
    Here(KeysValid, Mapping(entries));
    PartsOfMapping(entries);
    OrdinaryIsValid(entries);
    if Source(entries).Some? {
      SourceEntry(entries);
      PayloadIsPart(entries);
      SourceIsValid(entries);
      RefPayloadIsFlat(entries[MergePosition(entries).value], depth);
      InsertRef(Ordinary(entries), RefMergeEntries(entries[MergePosition(entries).value], depth).value, FlatPayload(Source(entries).value));
    } else {
      NoneIsValid();
      NothingInserted(Ordinary(entries));
      AlikeInserted(Ordinary(entries), []);
    }
  }

  lemma InsertRef(own: seq<Entry>, x: seq<Entry>, y: seq<Entry>)
    requires ValidKeys(own) && Alike(x, y)
    ensures InsertMissing(ValueEq, own, x) == InsertMissing(ValueEq, own, y)
    ensures Alike(InsertMissing(ValueEq, own, x), own + y)
  {
    hide ValidKeys, InsertMissing, ValueEq;
    InsertOfAlike(own, x, y);
    AlikeInserted(own, y);
  }

  lemma {:induction false} RefPayloadIsFlat(merge: Entry, depth: nat)
    requires Everywhere(Plain, merge.1) && Everywhere(KeysValid, merge.1) && RefMergeEntries(merge, depth).Ok?
    ensures Alike(RefMergeEntries(merge, depth).value, FlatPayload(merge.1))
    decreases Size(merge.1), 1, 0
  {
    hide Everywhere, Size, RefView, RefList, FlatItems, Flat, Alike;
    match merge.1 {
      case Mapping(entries) => RefViewIsFlat(entries, depth + 1);
      case Sequence(items) =>
        SizeOfKids(merge.1);
        forall i | 0 <= i < |items| ensures Everywhere(Plain, items[i]) && Everywhere(KeysValid, items[i]) {
          ItemIsPart(Plain, items, i);
          ItemIsValid(items, i);
        }
        NothingIsAlike();
        RefListIsFlat([], [], items, depth + 1);
        assert [] + FlatItems(items) == FlatItems(items);
    }
  }

  lemma NothingIsAlike()
    ensures Alike([], [])
  {
  }

  lemma {:induction false} RefListIsFlat(entries: seq<Entry>, flat: seq<Entry>, items: seq<Value>, depth: nat)
    requires forall i :: 0 <= i < |items| ==> Everywhere(Plain, items[i]) && Everywhere(KeysValid, items[i])
    requires Alike(entries, flat) && RefList(entries, items, depth).Ok?
    ensures Alike(RefList(entries, items, depth).value, flat + FlatItems(items))
    decreases SumSize(items), 2, |items|
  {
    hide Everywhere, Size, RefView, Flat, InsertMissing, Alike;
    if items == [] {
      assert flat + [] == flat;
    } else {
      SumSizeFront(items);
      var source := RefItem(items[0], depth).value;
      RefViewIsFlat(items[0].entries, depth);
      var next := InsertMissing(ValueEq, entries, source);
      InsertStaysAlike(entries, flat, source, Flat(items[0].entries));
      RefListIsFlat(next, flat + Flat(items[0].entries), items[1..], depth);
      assert flat + FlatItems(items) == flat + Flat(items[0].entries) + FlatItems(items[1..]);
    }
  }

  lemma InsertStaysAlike(x: seq<Entry>, x': seq<Entry>, y: seq<Entry>, y': seq<Entry>)
    requires Alike(x, x') && Alike(y, y')
    ensures Alike(InsertMissing(ValueEq, x, y), x' + y')
  {
    hide ValidKeys, InsertMissing, ValueEq;
    AlikeInserted(x, y);
    AlikeConcat(x, x', y, y');
  }
}
