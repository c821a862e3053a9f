// When `Value::apply_merge` and the borrowed path return the entries behind a list in
// the same order.
module ApplyMergeOrders {
  import opened Prelude
  import opened Values
  import opened EntryLists
  import opened ApplyMergePasses
  import opened ApplyMergeRepeats
  import opened ApplyMergeExact
  import opened ApplyMergeRounds
  import opened ApplyMergeFlat
  import opened ApplyMergeViews

  /** The entries that inserting `more` adds, in the order they are added. */
  function Added(held: seq<Entry>, more: seq<Entry>): seq<Entry> {
    InsertMissingExtends(ValueEq, held, more);
    InsertMissing(ValueEq, held, more)[|held|..]
  }

  lemma HeldAndAdded(held: seq<Entry>, more: seq<Entry>)
    ensures InsertMissing(ValueEq, held, more) == held + Added(held, more)
  {
    hide InsertMissing, ValueEq;
    InsertMissingExtends(ValueEq, held, more);
  }

  lemma {:induction false} InsertKnown(x: seq<Entry>, y: seq<Entry>)
    requires ValidKeys(x) && forall e :: e in y ==> e in x
    ensures InsertMissing(ValueEq, x, y) == x
    decreases |y|
  {
    hide Valid, ValueEq, HasKey;
    if y != [] {
      assert y[0] in y;
      InKnown(x, y[0]);
      InsertKnown(x, y[1..]);
    }
  }

  lemma InKnown(x: seq<Entry>, e: Entry)
    requires ValidKeys(x) && e in x
    ensures HasKey(ValueEq, x, e.0)
  {
    hide Valid, Canon, ValueEq;
    KnownAlike(x, e.0);
    var i :| 0 <= i < |x| && x[i] == e;
    assert SameCanon(x[i].0, e.0);
  }

  lemma {:induction false} InsertNew(x: seq<Entry>, y: seq<Entry>)
    requires NewKeysFrom(ValueEq, x + y, |x|)
    ensures InsertMissing(ValueEq, x, y) == x + y
    decreases |y|
  {
    hide ValueEq;
    if y == [] {
      assert x + y == x;
    } else {
      assert x + y == x + [y[0]] + y[1..];
      assert (x + y)[|x|] == y[0];
      forall i | 0 <= i < |x| ensures !ValueEq(x[i].0, y[0].0) {
        assert (x + y)[i] == x[i];
      }
      assert AddMissing(ValueEq, x, y[0]) == x + [y[0]];
      InsertNew(x + [y[0]], y[1..]);
    }
  }

  // Inserted behind more keys, a list adds what is not among them.
  lemma AddedBehind(held: seq<Entry>, first: seq<Entry>, more: seq<Entry>)
    requires ValidKeys(held) && ValidKeys(first) && ValidKeys(more)
    ensures var x, y := Added(held, first), Added(held, more);
            && (x <= y ==> Added(held + x, more) == y[|x|..]) && (y <= x ==> Added(held + x, more) == [])
  {
    hide InsertMissing, ValueEq, ValidKeys, NewKeysFrom;
    var x, y := Added(held, first), Added(held, more);
    HeldAndAdded(held, first);
    HeldAndAdded(held, more);
    HeldAndAdded(held + x, more);
    InsertAlike(held, first);
    InsertJoined(held + x, held, more);
    InsertKnown(held + x, held);
    assert InsertMissing(ValueEq, held + x, held + y) == held + x + Added(held + x, more);
    if y <= x {
      InsertKnown(held + x, held + y);
    }
    if x <= y {
      AddedLater(held, x, y, more);
      assert held + y == held + x + y[|x|..];
    }
  }

  lemma AddedLater(held: seq<Entry>, x: seq<Entry>, y: seq<Entry>, more: seq<Entry>)
    requires ValidKeys(held + x) && x <= y && InsertMissing(ValueEq, held, more) == held + y
    ensures InsertMissing(ValueEq, held + x, held + y) == held + x + y[|x|..]
  {
    hide InsertMissing, ValueEq, ValidKeys;
    var rest := y[|x|..];
    assert held + y == held + x + rest;
    InsertMissingConcat(ValueEq, held + x, held + x, rest);
    InsertKnown(held + x, held + x);
    InsertMissingAddsNewKeys(ValueEq, held, more, |held|);
    InsertNew(held + x, rest);
  }

  /** Whether two lists give the same in either order: one adds the beginning of what the
      other does, and what comes after adds just the rest. */
  lemma OrderAgreesExactly(held: seq<Entry>, later: seq<Entry>, view: seq<Entry>, flat: seq<Entry>)
    requires ValidKeys(held) && ValidKeys(later) && ValidKeys(view)
    ensures var x, y, rest := Added(held, later), Added(held, view), Added(held + Added(held, view), flat);
            InsertMissing(ValueEq, held, later + view) == InsertMissing(ValueEq, held, view + flat)
            <==> (x <= y && rest == []) || (y <= x && rest == x[|y|..])
  {
    hide InsertMissing, ValueEq, ValidKeys, Added;
    var x, y := Added(held, later), Added(held, view);
    var rest, behind := Added(held + y, flat), Added(held + x, view);
    InsertMissingConcat(ValueEq, held, later, view);
    InsertMissingConcat(ValueEq, held, view, flat);
    HeldAndAdded(held, later);
    HeldAndAdded(held, view);
    HeldAndAdded(held + x, view);
    HeldAndAdded(held + y, flat);
    AddedBehind(held, later, view);
    SameJoined(held, x + behind, y + rest);
    assert held + x + behind == held + (x + behind) && held + y + rest == held + (y + rest);
    Prefixes(x, behind, y, rest);
  }

  lemma SameJoined(held: seq<Entry>, a: seq<Entry>, b: seq<Entry>)
    ensures held + a == held + b <==> a == b
  {
    assert (held + a)[|held|..] == a && (held + b)[|held|..] == b;
  }

  lemma Prefixes(x: seq<Entry>, behind: seq<Entry>, y: seq<Entry>, rest: seq<Entry>)
    requires x <= y ==> behind == y[|x|..]
    requires y <= x ==> behind == []
    ensures x + behind == y + rest <==> (x <= y && rest == []) || (y <= x && rest == x[|y|..])
  {
    if x + behind == y + rest {
      if |x| <= |y| {
        assert x == (x + behind)[..|x|] == y[..|x|];
        assert x + behind == y;
        assert rest == (y + rest)[|y|..];
      } else {
        assert y == (y + rest)[..|y|] == x[..|y|];
        assert rest == (y + rest)[|y|..];
      }
    }
    if y <= x && rest == x[|y|..] { assert y + rest == x; }
  }

  /** Behind a list, with at most the last item of every deeper list merging, the paths
      return the same entries in the same order exactly if, past what the mapping and
      the items up to the first merging one hold, the later items' own entries add the
      beginning of what the first merging item's payload adds, and the later items
      nothing behind it; or that payload adds the beginning of what they add, and the
      later items just the rest. */
  lemma ListOrderAgreesExactly(n: nat, entries: seq<Entry>, items: seq<Value>, k: nat)
    requires Ended(n, entries) && Everywhere(KeysValid, Mapping(entries)) && RefView(entries, 0).Ok?
    requires Source(entries) == Some(Sequence(items)) && FirstMerging(items, k) && Calm(Source(items[k].entries).value)
    ensures var held := InsertMissing(ValueEq, Ordinary(entries), OwnOfItems(items[..k + 1]));
            var view := FlatRest(Source(items[k].entries));
            var x, y := Added(held, OwnOfItems(items[k + 1..])), Added(held, view);
            var rest := Added(held + y, FlatItems(items[k + 1..]));
            Absorbed(n, entries) == RefView(entries, 0).value <==> (x <= y && rest == []) || (y <= x && rest == x[|y|..])
  {
    hide Everywhere, MergeKeys, Passes, Absorbed, Tail, InsertMissing, FlatPayload, FlatItems, Ordinary, ValidKeys, SameEntries, SameBeyond,
         OwnOfItems, Calm, Added, ValueEq;
    CalmListAgreesExactly(n, entries, items, k);
    Here(KeysValid, Mapping(entries));
    OrdinaryIsValid(entries);
    ListIsValid(n, entries, items, k);
    var own, before, later := Ordinary(entries), OwnOfItems(items[..k + 1]), OwnOfItems(items[k + 1..]);
    var view, flat := FlatRest(Source(items[k].entries)), FlatItems(items[k + 1..]);
    InsertAlike(own, before);
    InsertMissingConcat(ValueEq, own, before, later + view);
    InsertMissingConcat(ValueEq, own, before, view + flat);
    OrderAgreesExactly(InsertMissing(ValueEq, own, before), later, view, flat);
  }

  lemma ListIsValid(n: nat, entries: seq<Entry>, items: seq<Value>, k: nat)
    requires Ended(n, entries) && Everywhere(KeysValid, Mapping(entries))
    requires Source(entries) == Some(Sequence(items)) && FirstMerging(items, k)
    ensures ValidKeys(OwnOfItems(items[..k + 1])) && ValidKeys(OwnOfItems(items[k + 1..])) && ValidKeys(FlatRest(Source(items[k].entries)))
  {
    hide Everywhere, MergeKeys, Passes, Tail, FlatPayload, FlatItems, ValidKeys, OwnOfItems, TailRest, FlatRest;
    ListPassesEnd(n, entries, items, k);
    SourceRestIsValid(entries);
    TailIsValid(0, n, Source(entries));
    ValidParts(OwnOfItems(items[..k + 1]), OwnOfItems(items[k + 1..]), Tail(1, n, Source(items[k].entries)));
    ValidParts(OwnOfItems(items[..k + 1]), FlatRest(Source(items[k].entries)), FlatItems(items[k + 1..]));
  }
}
