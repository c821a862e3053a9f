// The order on values, kind by kind: which of two values comes first.
module ValueOrder {
  import opened Prelude
  import opened Values
  import C = Canonical

  // ----- Kinds and scalars ---------------------------------------------------------------------

  /** Nulls, booleans, numbers, strings, sequences, mappings, tagged values. */
  lemma KindsAreOrdered(a: Value, b: Value)
    ensures a.Null? && !b.Null? ==> TotalValueCmp(a, b) == Less
    ensures a.Bool? && (b.Number? || b.String? || b.Sequence? || b.Mapping? || b.Tagged?) ==> TotalValueCmp(a, b) == Less
    ensures a.Number? && (b.String? || b.Sequence? || b.Mapping? || b.Tagged?) ==> TotalValueCmp(a, b) == Less
    ensures a.String? && (b.Sequence? || b.Mapping? || b.Tagged?) ==> TotalValueCmp(a, b) == Less
    ensures a.Sequence? && (b.Mapping? || b.Tagged?) ==> TotalValueCmp(a, b) == Less
    ensures a.Mapping? && b.Tagged? ==> TotalValueCmp(a, b) == Less
  {
    hide C.CmpFloat, CmpString;
  }

  lemma BoolsAreOrdered(a: bool, b: bool)
    ensures TotalValueCmp(Bool(a), Bool(b)) == Less <==> !a && b
  {
  }

  function IntegerOf(n: Number): int
    requires !n.Float?
  {
    if n.Integer? then n.i else n.u
  }

  /** Negative infinity, the finite floats by value, infinity, and NaN last. */
  predicate FloatBelow(a: C.Float, b: C.Float) {
    && a != b && !a.NaN? && !b.NegInfinity? && (a.PosInfinity? ==> b.NaN?)
    && (a.Finite? && b.Finite? ==> a.r < b.r)
  }

  /** Integers by value, whatever holds them, and every float behind them. */
  lemma NumbersAreOrdered(a: Number, b: Number)
    ensures !a.Float? && !b.Float? ==>
              && (TotalValueCmp(Number(a), Number(b)) == Less <==> IntegerOf(a) < IntegerOf(b))
              && (ValueEq(Number(a), Number(b)) <==> IntegerOf(a) == IntegerOf(b))
    ensures !a.Float? && b.Float? ==> TotalValueCmp(Number(a), Number(b)) == Less && !ValueEq(Number(a), Number(b))
    ensures a.Float? && b.Float? ==>
              && (TotalValueCmp(Number(a), Number(b)) == Less <==> FloatBelow(a.f, b.f))
              && (ValueEq(Number(a), Number(b)) <==> a.f == b.f)
  {
  }

  /** A string comes before another exactly if it is a proper prefix of it, or has the
      smaller code point where they first differ. */
  lemma StringsAreOrdered(a: string, b: string)
    ensures TotalValueCmp(String(a), String(b)) == Less <==> Precedes(a, b)
  {
    hide CmpString, Precedes;
    CmpStringPrecedes(a, b);
  }

  // ----- Collections -----------------------------------------------------------------------------

  /** The first list ends first, or holds the smaller value where they first differ. */
  ghost predicate ComesFirst(xs: seq<Value>, ys: seq<Value>, i: nat) {
    && i <= |xs| && i < |ys|
    && (forall j :: 0 <= j < i ==> TotalValueCmp(xs[j], ys[j]) == Equal)
    && (i == |xs| || TotalValueCmp(xs[i], ys[i]) == Less)
  }

  lemma {:induction false} ItemsAreOrdered(xs: seq<Value>, ys: seq<Value>)
    ensures CmpItems(xs, ys) == Less <==> exists i: nat :: ComesFirst(xs, ys, i)
    decreases |xs|
  {
    hide TotalValueCmp;
    if xs == [] {
      if ys != [] { assert ComesFirst(xs, ys, 0); }
    } else if ys != [] {
      var x, y := xs[1..], ys[1..];
      ItemsAreOrdered(x, y);
      if CmpItems(xs, ys) == Less {
        if TotalValueCmp(xs[0], ys[0]) == Equal {
          var i: nat :| ComesFirst(x, y, i);
          assert ComesFirst(xs, ys, i + 1);
        } else {
          assert ComesFirst(xs, ys, 0);
        }
      }
      forall i: nat | ComesFirst(xs, ys, i) ensures CmpItems(xs, ys) == Less {
        if i > 0 {
          assert TotalValueCmp(xs[0], ys[0]) == Equal;
          assert ComesFirst(x, y, i - 1) by {
            assert forall j :: 0 <= j < i - 1 ==> x[j] == xs[j + 1] && y[j] == ys[j + 1];
          }
        }
      }
    }
  }

  /** Sequences by the first item that differs, a proper prefix first. */
  lemma SequencesAreOrdered(xs: seq<Value>, ys: seq<Value>)
    ensures TotalValueCmp(Sequence(xs), Sequence(ys)) == Less <==> exists i: nat :: ComesFirst(xs, ys, i)
  {
    hide CmpItems, ComesFirst;
    ItemsAreOrdered(xs, ys);
  }

  /** Entries by key, then by value. */
  predicate EntryBelow(x: Entry, y: Entry) {
    TotalValueCmp(x.0, y.0) == Less || (TotalValueCmp(x.0, y.0) == Equal && TotalValueCmp(x.1, y.1) == Less)
  }

  predicate EntryAlike(x: Entry, y: Entry) {
    TotalValueCmp(x.0, y.0) == Equal && TotalValueCmp(x.1, y.1) == Equal
  }

  ghost predicate EntryComesFirst(xs: seq<Entry>, ys: seq<Entry>, i: nat) {
    && i <= |xs| && i < |ys|
    && (forall j :: 0 <= j < i ==> EntryAlike(xs[j], ys[j]))
    && (i == |xs| || EntryBelow(xs[i], ys[i]))
  }

  lemma {:induction false} EntriesAreOrdered(xs: seq<Entry>, ys: seq<Entry>)
    ensures CmpEntries(xs, ys) == Less <==> exists i: nat :: EntryComesFirst(xs, ys, i)
    decreases |xs|
  {
    hide TotalValueCmp;
    if xs == [] {
      if ys != [] { assert EntryComesFirst(xs, ys, 0); }
    } else if ys != [] {
      var x, y := xs[1..], ys[1..];
      EntriesAreOrdered(x, y);
      if CmpEntries(xs, ys) == Less {
        if EntryAlike(xs[0], ys[0]) {
          var i: nat :| EntryComesFirst(x, y, i);
          assert EntryComesFirst(xs, ys, i + 1);
        } else {
          assert EntryComesFirst(xs, ys, 0);
        }
      }
      forall i: nat | EntryComesFirst(xs, ys, i) ensures CmpEntries(xs, ys) == Less {
        if i > 0 {
          assert EntryAlike(xs[0], ys[0]);
          assert EntryComesFirst(x, y, i - 1) by {
            assert forall j :: 0 <= j < i - 1 ==> x[j] == xs[j + 1] && y[j] == ys[j + 1];
          }
        }
      }
    }
  }

  /** The entries of a mapping in ascending order. */
  ghost predicate Arranges(sorted: seq<Entry>, entries: seq<Entry>) {
    && multiset(sorted) == multiset(entries)
    && forall i, j :: 0 <= i < j < |sorted| ==> !EntryBelow(sorted[j], sorted[i])
  }

  lemma {:induction false} CanonOfPermutation(xs: seq<Entry>, ys: seq<Entry>)
    requires multiset(xs) == multiset(ys)
    ensures multiset(CanonEntries(xs)) == multiset(CanonEntries(ys))
    decreases |xs|
  {
    hide CanonEntry, CanonEntries, RemoveAt;
    if xs == [] {
      assert |multiset(ys)| == |multiset(xs)|;
      assert ys == xs;
    } else {
      assert xs[0] in multiset(ys);
      var j :| 0 <= j < |ys| && ys[j] == xs[0];
      RemoveAtMultiset(ys, j);
      ConsMultiset(xs);
      CanonOfPermutation(xs[1..], RemoveAt(ys, j));
      CanonWithout(ys, j);
      CanonBehindFirst(xs);
    }
  }

  lemma CanonBehindFirst(xs: seq<Entry>)
    requires xs != []
    ensures multiset(CanonEntries(xs)) == multiset(CanonEntries(xs[1..])) + multiset{CanonEntry(xs[0])}
  {
    hide CanonEntry;
    ConsMultiset(CanonEntries(xs));
    assert CanonEntries(xs)[1..] == CanonEntries(xs[1..]);
  }

  lemma CanonWithout(ys: seq<Entry>, j: nat)
    requires j < |ys|
    ensures multiset(CanonEntries(ys)) == multiset(CanonEntries(RemoveAt(ys, j))) + multiset{CanonEntry(ys[j])}
  {
    hide CanonEntry;
    var cs, without := CanonEntries(ys), CanonEntries(RemoveAt(ys, j));
    RemoveAtMultiset(cs, j);
    forall k | 0 <= k < |without| ensures without[k] == RemoveAt(cs, j)[k] {
      RemoveAtIndex(ys, j, k);
      RemoveAtIndex(cs, j, k);
    }
    assert without == RemoveAt(cs, j);
  }

  lemma ArrangedIsSorted(sorted: seq<Entry>, entries: seq<Entry>)
    requires Arranges(sorted, entries)
    ensures CanonEntries(sorted) == C.Sort(CanonEntries(entries))
  {
    hide C.OrderEntry, CanonEntry, CmpEntry;
    var cs := CanonEntries(sorted);
    CanonOfPermutation(sorted, entries);
    C.SortSorts(CanonEntries(entries));
    forall i, j | 0 <= i < j < |cs| ensures C.OrderEntry(cs[i], cs[j]) != Greater {
      NotBelow(sorted[j], sorted[i]);
      CmpEntryIsCanonicalOrder(sorted[j], sorted[i]);
      C.OrderEntryAntisymmetric(cs[j], cs[i]);
    }
    C.SortedIsUnique(cs, C.Sort(CanonEntries(entries)));
  }

  lemma NotBelow(x: Entry, y: Entry)
    ensures EntryBelow(x, y) <==> CmpEntry(x, y) == Less
  {
    hide TotalValueCmp;
  }

  /** Mappings by their entries in ascending order, however they are arranged: by the
      first entry that differs, fewer entries first. */
  lemma MappingsAreOrdered(xs: seq<Entry>, ys: seq<Entry>, sx: seq<Entry>, sy: seq<Entry>)
    requires Arranges(sx, xs) && Arranges(sy, ys)
    ensures TotalValueCmp(Mapping(xs), Mapping(ys)) == Less <==> exists i: nat :: EntryComesFirst(sx, sy, i)
  {
    hide CmpEntries, SortEntries, C.Sort, Arranges, EntryComesFirst, C.OrderEntries, CanonEntries;
    ArrangedIsSorted(sx, xs);
    ArrangedIsSorted(sy, ys);
    SortIsCanonicalSort(xs);
    SortIsCanonicalSort(ys);
    CmpEntriesIsCanonicalOrder(sx, sy);
    CmpEntriesIsCanonicalOrder(SortEntries(xs), SortEntries(ys));
    EntriesAreOrdered(sx, sy);
  }

  /** Tagged values by the text of their tags without its leading bang, then by value. */
  lemma TaggedAreOrdered(t: Tag, a: Value, u: Tag, b: Value)
    ensures TotalValueCmp(Tagged(t, a), Tagged(u, b)) == Less <==>
              Precedes(TagKey(t), TagKey(u)) || (TagKey(t) == TagKey(u) && TotalValueCmp(a, b) == Less)
  {
    hide CmpString, Precedes, TagKey;
    CmpStringPrecedes(TagKey(t), TagKey(u));
    CmpStringEqual(TagKey(t), TagKey(u));
  }
}
