// With sorted keys the flow text is a canonical form: equivalent trees without
// duplicate keys print the same text.
module FlowCanonical {
  import opened Prelude
  import opened Nodes
  import opened FlowPrinter
  import opened FlowTheorems
  import opened FlowEquivalence
  import C = Canonical
  import K = KeyIdentity

  /** No mapping of the tree has two keys of the same identity. */
  ghost predicate UniqueKeys(n: Node)
    decreases n, 0
  {
    match n.value
    case Sequence(items) => forall i :: 0 <= i < |items| ==> UniqueKeys(items[i])
    case Mapping(entries) =>
      && (forall i, j :: 0 <= i < j < |entries| ==> K.Identity(entries[i].0) != K.Identity(entries[j].0))
      && (forall i :: 0 <= i < |entries| ==> UniqueEntry(entries[i]))
    case Tagged(_, _, inner) => UniqueKeys(inner)
    case _ => true
  }

  ghost predicate UniqueEntry(e: Entry)
    decreases e, 0
  {
    UniqueKeys(e.0) && UniqueKeys(e.1)
  }

  // ----- Entries as pairs of texts ---------------------------------------------------------------

  type Text = (string, string)

  function TextOf(e: Entry, o: Options): Text {
    (Inline(e.0, o), Inline(e.1, o))
  }

  function Texts(entries: seq<Entry>, o: Options): (r: seq<Text>)
    ensures |r| == |entries| && forall i :: 0 <= i < |entries| ==> r[i] == TextOf(entries[i], o)
  {
    if entries == [] then [] else [TextOf(entries[0], o)] + Texts(entries[1..], o)
  }

  lemma {:induction false} TextsDecide(xs: seq<Entry>, ys: seq<Entry>, first: bool, o: Options)
    requires Texts(xs, o) == Texts(ys, o)
    ensures InlineEntries(xs, first, o) == InlineEntries(ys, first, o)
  {
    hide Inline;
    assert |xs| == |ys|;
    if xs != [] {
      assert Texts(xs, o)[0] == Texts(ys, o)[0];
      assert Texts(xs, o)[1..] == Texts(xs[1..], o) && Texts(ys, o)[1..] == Texts(ys[1..], o);
      TextsDecide(xs[1..], ys[1..], false, o);
    }
  }

  lemma TextsWithout(ys: seq<Entry>, j: nat, o: Options)
    requires j < |ys|
    ensures multiset(Texts(ys, o)) == multiset(Texts(RemoveAt(ys, j), o)) + multiset{TextOf(ys[j], o)}
  {
    hide TextOf;
    var texts, without := Texts(ys, o), Texts(RemoveAt(ys, j), o);
    RemoveAtMultiset(texts, j);
    forall k | 0 <= k < |without| ensures without[k] == RemoveAt(texts, j)[k] {
      RemoveAtIndex(ys, j, k);
      RemoveAtIndex(texts, j, k);
    }
    assert without == RemoveAt(texts, j);
  }

  lemma {:induction false} TextsOfPermutation(xs: seq<Entry>, ys: seq<Entry>, o: Options)
    requires multiset(xs) == multiset(ys)
    ensures multiset(Texts(xs, o)) == multiset(Texts(ys, o))
  {
    hide TextOf, Texts;
    if xs == [] {
      assert |multiset(ys)| == |multiset(xs)|;
      assert ys == xs;
    } else {
      assert xs[0] in multiset(ys);
      var j :| 0 <= j < |ys| && ys[j] == xs[0];
      RemoveAtMultiset(ys, j);
      RemoveAtMultiset(xs, 0);
      assert multiset(RemoveAt(xs, 0)) == multiset(RemoveAt(ys, j));
      TextsOfPermutation(RemoveAt(xs, 0), RemoveAt(ys, j), o);
      TextsWithout(xs, 0, o);
      TextsWithout(ys, j, o);
    }
  }

  // ----- Sorted texts are unique --------------------------------------------------------------------

  ghost predicate Rising(keyed: seq<Keyed>) {
    forall i, j :: 0 <= i < j < |keyed| ==> CmpString(keyed[i].0, keyed[j].0) != Greater
  }

  lemma {:induction false} InsertKeyedRises(x: Keyed, xs: seq<Keyed>)
    requires Rising(xs)
    ensures Rising(InsertKeyed(x, xs))
  {
    hide CmpString;
    if xs != [] {
      if CmpString(x.0, xs[0].0) != Greater {
        forall j | 0 <= j < |xs| ensures CmpString(x.0, xs[j].0) != Greater {
          if j > 0 { CmpStringTransitive(x.0, xs[0].0, xs[j].0); }
        }
      } else {
        var rest := InsertKeyed(x, xs[1..]);
        InsertKeyedRises(x, xs[1..]);
        InsertKeyedAdds(x, xs[1..]);
        CmpStringEqual(x.0, xs[0].0);
        forall j | 0 <= j < |rest| ensures CmpString(xs[0].0, rest[j].0) != Greater {
          assert rest[j] in multiset(rest);
          assert rest[j] == x || rest[j] in xs[1..];
        }
      }
    }
  }

  lemma {:induction false} SortKeyedRises(xs: seq<Keyed>)
    ensures Rising(SortKeyed(xs))
  {
    if xs != [] {
      SortKeyedRises(xs[1..]);
      InsertKeyedRises(xs[0], SortKeyed(xs[1..]));
    }
  }

  ghost predicate StrictlyRising(texts: seq<Text>) {
    forall i, j :: 0 <= i < j < |texts| ==> CmpString(texts[i].0, texts[j].0) == Less
  }

  lemma FirstOfRising(xs: seq<Text>, ys: seq<Text>)
    requires StrictlyRising(xs) && StrictlyRising(ys) && multiset(xs) == multiset(ys) && xs != []
    ensures ys != [] && xs[0] == ys[0]
  {
    hide CmpString;
    assert |multiset(ys)| == |multiset(xs)|;
    assert xs[0] in multiset(ys) && ys[0] in multiset(xs);
    var i :| 0 <= i < |ys| && ys[i] == xs[0];
    var j :| 0 <= j < |xs| && xs[j] == ys[0];
    if i > 0 && j > 0 {
      assert CmpString(ys[0].0, ys[i].0) == Less && CmpString(xs[0].0, xs[j].0) == Less;
      CmpStringEqual(xs[0].0, ys[0].0);
      assert false;
    }
  }

  lemma TailRises(xs: seq<Text>)
    requires StrictlyRising(xs) && xs != []
    ensures StrictlyRising(xs[1..])
  {
    hide CmpString;
  }

  lemma {:induction false} RisingIsUnique(xs: seq<Text>, ys: seq<Text>)
    requires StrictlyRising(xs) && StrictlyRising(ys) && multiset(xs) == multiset(ys)
    ensures xs == ys
  {
    hide StrictlyRising;
    if xs == [] {
      assert |multiset(ys)| == |multiset(xs)|;
    } else {
      FirstOfRising(xs, ys);
      TailRises(xs);
      TailRises(ys);
      ConsMultiset(xs);
      ConsMultiset(ys);
      assert multiset(xs[1..]) == multiset(xs) - multiset{xs[0]};
      assert multiset(ys[1..]) == multiset(ys) - multiset{ys[0]};
      RisingIsUnique(xs[1..], ys[1..]);
      assert xs == [xs[0]] + xs[1..] && ys == [ys[0]] + ys[1..];
    }
  }

  ghost predicate KeysDiffer(entries: seq<Entry>, o: Options) {
    forall i, j :: 0 <= i < j < |entries| ==> Inline(entries[i].0, o) != Inline(entries[j].0, o)
  }

  // Different identities print differently.
  lemma UniqueKeysDiffer(entries: seq<Entry>, o: Options)
    requires forall i :: 0 <= i < |entries| ==> UntaggedEntry(entries[i])
    requires forall i, j :: 0 <= i < j < |entries| ==> K.Identity(entries[i].0) != K.Identity(entries[j].0)
    ensures KeysDiffer(entries, o)
  {
    hide K.Identity, Inline, K.Equivalent;
    forall i, j | 0 <= i < j < |entries| ensures Inline(entries[i].0, o) != Inline(entries[j].0, o) {
      assert UntaggedEntry(entries[i]) && UntaggedEntry(entries[j]);
      if Inline(entries[i].0, o) == Inline(entries[j].0, o) {
        SameTextMeansEquivalent(entries[i].0, entries[j].0, o);
        K.IdentityDecidesEquivalence(entries[i].0, entries[j].0);
      }
    }
  }

  // ----- Equivalent trees print alike ---------------------------------------------------------------

  // The printed order of the key texts is the sorted one.
  lemma SortedTextAt(entries: seq<Entry>, o: Options, i: nat)
    requires o.sorts_keys && i < |Ordered(entries, o)|
    ensures |SortKeyed(KeyedEntries(entries, o))| == |Ordered(entries, o)|
    ensures Texts(Ordered(entries, o), o)[i].0 == SortKeyed(KeyedEntries(entries, o))[i].0
  {
    hide Inline, SortKeyed;
    var keyed := KeyedEntries(entries, o);
    SortKeyedPermutes(keyed);
    KeyedTexts(entries, o);
    assert SortKeyed(keyed)[i] in multiset(keyed);
  }

  lemma TextsRise(entries: seq<Entry>, o: Options)
    requires o.sorts_keys && KeysDiffer(entries, o)
    ensures StrictlyRising(Texts(Ordered(entries, o), o))
  {
    hide CmpString, Texts, Ordered, SortKeyed, KeyedEntries, KeysDiffer;
    var sorted := SortKeyed(KeyedEntries(entries, o));
    SortKeyedRises(KeyedEntries(entries, o));
    var texts := Texts(Ordered(entries, o), o);
    forall i, j | 0 <= i < j < |texts| ensures CmpString(texts[i].0, texts[j].0) == Less {
      SortedTextAt(entries, o, i);
      SortedTextAt(entries, o, j);
      SortedKeysDiffer(entries, o, i, j);
      CmpStringEqual(sorted[i].0, sorted[j].0);
    }
  }

  lemma {:induction false} KeyedTexts(entries: seq<Entry>, o: Options)
    ensures forall i :: 0 <= i < |entries| ==> KeyedEntries(entries, o)[i] == (Inline(entries[i].0, o), entries[i])
    ensures forall x :: x in KeyedEntries(entries, o) ==> x.0 == Inline(x.1.0, o)
  {
    hide Inline;
    if entries != [] { KeyedTexts(entries[1..], o); }
  }

  lemma SortedKeysDiffer(entries: seq<Entry>, o: Options, i: nat, j: nat)
    requires KeysDiffer(entries, o) && i < j < |SortKeyed(KeyedEntries(entries, o))|
    ensures SortKeyed(KeyedEntries(entries, o))[i].0 != SortKeyed(KeyedEntries(entries, o))[j].0
  {
    hide Inline, SortKeyed, KeyedEntries;
    var keyed := KeyedEntries(entries, o);
    SortKeyedPermutes(keyed);
    KeyedTexts(entries, o);
    DifferentKeys(keyed, SortKeyed(keyed), i, j);
  }

  lemma OnceByKey(keyed: seq<Keyed>, x: Keyed)
    requires forall k, l :: 0 <= k < l < |keyed| ==> keyed[k].0 != keyed[l].0
    requires x in keyed
    ensures multiset(keyed)[x] == 1
  {
    var k :| 0 <= k < |keyed| && keyed[k] == x;
    assert keyed == keyed[..k] + [x] + keyed[k + 1..];
    assert x !in keyed[..k] && x !in keyed[k + 1..];
  }

  lemma TwiceAt(keyed: seq<Keyed>, i: nat, j: nat)
    requires i < j < |keyed| && keyed[i] == keyed[j]
    ensures multiset(keyed)[keyed[i]] >= 2
  {
    var x := keyed[i];
    assert keyed == keyed[..i] + [x] + keyed[i + 1..j] + [x] + keyed[j + 1..];
  }

  // Keys that differ pairwise differ in every arrangement.
  lemma DifferentKeys(keyed: seq<Keyed>, sorted: seq<Keyed>, i: nat, j: nat)
    requires multiset(keyed) == multiset(sorted) && i < j < |sorted|
    requires forall k, l :: 0 <= k < l < |keyed| ==> keyed[k].0 != keyed[l].0
    ensures sorted[i].0 != sorted[j].0
  {
    assert sorted[i] in multiset(keyed) && sorted[j] in multiset(keyed);
    OnceByKey(keyed, sorted[i]);
    if sorted[i] == sorted[j] {
      TwiceAt(sorted, i, j);
    }
  }

  /** Trees of the same identity print the same text. */
  lemma {:induction false} SameIdentitySameText(a: Node, b: Node, o: Options)
    requires o.sorts_keys && Untagged(a) && Untagged(b) && UniqueKeys(a) && UniqueKeys(b)
    requires K.Identity(a) == K.Identity(b)
    ensures Inline(a, o) == Inline(b, o)
    decreases Nesting(a), 0, 0
  {
    hide Ordered, C.Sort, IntegerText, K.IdentityPairs, K.Identities, DoubleQuoted;
    match a.value {
      case Sequence(xs) => ItemsPrintAlike(xs, b.value.items, true, o);
      case Mapping(xs) => EntriesPrintAlike(a, b, o);
      case _ =>
    }
  }

  lemma {:induction false} ItemsPrintAlike(xs: seq<Node>, ys: seq<Node>, first: bool, o: Options)
    requires o.sorts_keys && K.Identities(xs) == K.Identities(ys)
    requires forall i :: 0 <= i < |xs| ==> Untagged(xs[i]) && UniqueKeys(xs[i])
    requires forall i :: 0 <= i < |ys| ==> Untagged(ys[i]) && UniqueKeys(ys[i])
    ensures InlineItems(xs, first, o) == InlineItems(ys, first, o)
    decreases NestingItems(xs), 1, |xs|
  {
    hide Inline, K.Identity, Untagged, UniqueKeys;
    assert |xs| == |K.Identities(xs)| == |ys|;
    if xs != [] {
      assert K.Identities(xs)[0] == K.Identities(ys)[0];
      assert K.Identities(xs)[1..] == K.Identities(xs[1..]) && K.Identities(ys)[1..] == K.Identities(ys[1..]);
      SameIdentitySameText(xs[0], ys[0], o);
      ItemsPrintAlike(xs[1..], ys[1..], false, o);
    }
  }

  lemma {:induction false} EntriesPrintAlike(a: Node, b: Node, o: Options)
    requires o.sorts_keys && Untagged(a) && Untagged(b) && UniqueKeys(a) && UniqueKeys(b)
    requires a.value.Mapping? && b.value.Mapping? && K.Identity(a) == K.Identity(b)
    ensures Inline(a, o) == Inline(b, o)
    decreases NestingEntries(a.value.entries), 5, 0
  {
    var xs, ys := a.value.entries, b.value.entries;
    var sx, sy := Ordered(xs, o), Ordered(ys, o);
    hide Ordered, UntaggedEntry, UniqueEntry;
    C.SortEqualIffSameEntries(K.IdentityPairs(xs), K.IdentityPairs(ys));
    TextsPrintAlike(xs, ys, o);
    UniqueKeysDiffer(xs, o);
    UniqueKeysDiffer(ys, o);
    TextsRise(xs, o);
    TextsRise(ys, o);
    OrderedPermutes(xs, o);
    OrderedPermutes(ys, o);
    TextsOfPermutation(sx, xs, o);
    TextsOfPermutation(sy, ys, o);
    RisingIsUnique(Texts(sx, o), Texts(sy, o));
    TextsDecide(sx, sy, true, o);
  }

  lemma {:induction false} TextsPrintAlike(xs: seq<Entry>, ys: seq<Entry>, o: Options)
    requires o.sorts_keys && multiset(K.IdentityPairs(xs)) == multiset(K.IdentityPairs(ys))
    requires forall i :: 0 <= i < |xs| ==> UntaggedEntry(xs[i]) && UniqueEntry(xs[i])
    requires forall i :: 0 <= i < |ys| ==> UntaggedEntry(ys[i]) && UniqueEntry(ys[i])
    ensures multiset(Texts(xs, o)) == multiset(Texts(ys, o))
    decreases NestingEntries(xs), 1, |xs|
  {
    hide Texts, TextOf, K.IdentityPairs, K.IdentityPair, UntaggedEntry, UniqueEntry;
    if xs == [] {
      assert |multiset(K.IdentityPairs(ys))| == |multiset(K.IdentityPairs(xs))|;
      assert ys == xs;
    } else {
      assert K.IdentityPairs(xs)[0] in multiset(K.IdentityPairs(ys));
      var j :| 0 <= j < |ys| && K.IdentityPairs(ys)[j] == K.IdentityPair(xs[0]);
      K.PairsWithout(xs, 0);
      K.PairsWithout(ys, j);
      var rest := RemoveAt(ys, j);
      forall i | 0 <= i < |rest| ensures UntaggedEntry(rest[i]) && UniqueEntry(rest[i]) {
        RemoveAtIndex(ys, j, i);
      }
      EntryPrintsAlike(xs[0], ys[j], o);
      TextsPrintAlike(xs[1..], rest, o);
      TextsWithout(xs, 0, o);
      TextsWithout(ys, j, o);
    }
  }

  lemma {:induction false} EntryPrintsAlike(x: Entry, y: Entry, o: Options)
    requires o.sorts_keys && K.IdentityPair(x) == K.IdentityPair(y)
    requires UntaggedEntry(x) && UntaggedEntry(y) && UniqueEntry(x) && UniqueEntry(y)
    ensures TextOf(x, o) == TextOf(y, o)
    decreases NestingEntry(x), 1, 0
  {
    hide K.Identity, Inline, Untagged, UniqueKeys;
    SameIdentitySameText(x.0, y.0, o);
    SameIdentitySameText(x.1, y.1, o);
  }

  /** With sorted keys, trees without tags, floats and duplicate keys print the same
      text exactly when they are equivalent. */
  lemma SortedTextDecidesEquivalence(a: Node, b: Node, o: Options)
    requires o.sorts_keys && Untagged(a) && Untagged(b) && UniqueKeys(a) && UniqueKeys(b)
    ensures Inline(a, o) == Inline(b, o) <==> K.Equivalent(a, b)
  {
    hide Inline, K.Identity, K.Equivalent, Untagged, UniqueKeys;
    if Inline(a, o) == Inline(b, o) {
      SameTextMeansEquivalent(a, b, o);
    }
    K.IdentityDecidesEquivalence(a, b);
    if K.Equivalent(a, b) {
      SameIdentitySameText(a, b, o);
    }
  }
}
