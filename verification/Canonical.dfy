// Canonical trees: the shape of `DuplicateKey` (src/key_identity.rs), with one
// more constructor for tags so that the order on values can use it as well.
// Integers are split by sign, so equal numbers have one spelling. The derived
// order is lexicographic, constructors in declaration order.
module Canonical {
  import opened Prelude

  /** A float up to the identifications the source makes: one NaN, one zero. */
  datatype Float = NegInfinity | Finite(r: real) | PosInfinity | NaN

  datatype Tree =
    | Null
    | Bool(b: bool)
    | Integer(i: int)
    | Unsigned(u: nat)
    | Float(f: Float)
    | String(s: string)
    | Sequence(items: seq<Tree>)
    | Mapping(entries: seq<(Tree, Tree)>)
    | Tagged(key: string, value: Tree)

  function FloatRank(f: Float): nat {
    match f
    case NegInfinity => 0
    case Finite(_) => 1
    case PosInfinity => 2
    case NaN => 3
  }

  function CmpFloat(a: Float, b: Float): Ordering {
    if a.Finite? && b.Finite? then
      if a.r < b.r then Less else if a.r == b.r then Equal else Greater
    else CmpInt(FloatRank(a), FloatRank(b))
  }

  function Rank(t: Tree): nat {
    match t
    case Null => 0
    case Bool(_) => 1
    case Integer(_) => 2
    case Unsigned(_) => 3
    case Float(_) => 4
    case String(_) => 5
    case Sequence(_) => 6
    case Mapping(_) => 7
    case Tagged(_, _) => 8
  }

  function Order(a: Tree, b: Tree): Ordering
    decreases a, 1
  {
    match (a, b)
    case (Bool(x), Bool(y)) => CmpBool(x, y)
    case (Integer(x), Integer(y)) => CmpInt(x, y)
    case (Unsigned(x), Unsigned(y)) => CmpInt(x, y)
    case (Float(x), Float(y)) => CmpFloat(x, y)
    case (String(x), String(y)) => CmpString(x, y)
    case (Sequence(xs), Sequence(ys)) => OrderItems(xs, ys)
    case (Mapping(xs), Mapping(ys)) => OrderEntries(xs, ys)
    case (Tagged(k, x), Tagged(l, y)) => CmpString(k, l).Then(Order(x, y))
    case _ => CmpInt(Rank(a), Rank(b))
  }

  function OrderItems(xs: seq<Tree>, ys: seq<Tree>): Ordering
    decreases xs, 0
  {
    if xs == [] then
      if ys == [] then Equal else Less
    else if ys == [] then Greater
    else Order(xs[0], ys[0]).Then(OrderItems(xs[1..], ys[1..]))
  }

  function OrderEntry(x: (Tree, Tree), y: (Tree, Tree)): Ordering
    decreases x, 2
  {
    Order(x.0, y.0).Then(Order(x.1, y.1))
  }

  function OrderEntries(xs: seq<(Tree, Tree)>, ys: seq<(Tree, Tree)>): Ordering
    decreases xs, 0
  {
    if xs == [] then
      if ys == [] then Equal else Less
    else if ys == [] then Greater
    else OrderEntry(xs[0], ys[0]).Then(OrderEntries(xs[1..], ys[1..]))
  }

  // ----- Order is a total order --------------------------------------------

  lemma {:induction false} OrderAntisymmetric(a: Tree, b: Tree)
    ensures Order(a, b) == Equal <==> a == b
    ensures Order(b, a) == Order(a, b).Reverse()
    decreases a, 1
  {
    match (a, b) {
      case (String(x), String(y)) => CmpStringEqual(x, y);
      case (Sequence(xs), Sequence(ys)) => OrderItemsAntisymmetric(xs, ys);
      case (Mapping(xs), Mapping(ys)) => OrderEntriesAntisymmetric(xs, ys);
      case (Tagged(k, x), Tagged(l, y)) => CmpStringEqual(k, l); OrderAntisymmetric(x, y);
      case _ =>
    }
  }

  lemma {:induction false} OrderItemsAntisymmetric(xs: seq<Tree>, ys: seq<Tree>)
    ensures OrderItems(xs, ys) == Equal <==> xs == ys
    ensures OrderItems(ys, xs) == OrderItems(xs, ys).Reverse()
    decreases xs, 0
  {
    if xs != [] && ys != [] {
      OrderAntisymmetric(xs[0], ys[0]);
      OrderItemsAntisymmetric(xs[1..], ys[1..]);
      assert xs == [xs[0]] + xs[1..] && ys == [ys[0]] + ys[1..];
    }
  }

  lemma {:induction false} OrderEntryAntisymmetric(x: (Tree, Tree), y: (Tree, Tree))
    ensures OrderEntry(x, y) == Equal <==> x == y
    ensures OrderEntry(y, x) == OrderEntry(x, y).Reverse()
    decreases x, 2
  {
    OrderAntisymmetric(x.0, y.0);
    OrderAntisymmetric(x.1, y.1);
  }

  lemma {:induction false} OrderEntriesAntisymmetric(xs: seq<(Tree, Tree)>, ys: seq<(Tree, Tree)>)
    ensures OrderEntries(xs, ys) == Equal <==> xs == ys
    ensures OrderEntries(ys, xs) == OrderEntries(xs, ys).Reverse()
    decreases xs, 0
  {
    if xs != [] && ys != [] {
      OrderEntryAntisymmetric(xs[0], ys[0]);
      OrderEntriesAntisymmetric(xs[1..], ys[1..]);
      assert xs == [xs[0]] + xs[1..] && ys == [ys[0]] + ys[1..];
    }
  }

  lemma {:induction false} OrderTransitive(a: Tree, b: Tree, c: Tree)
    requires Order(a, b) != Greater && Order(b, c) != Greater
    ensures Order(a, c) != Greater
    decreases a, 1
  {
    match (a, b, c) {
      case (String(x), String(y), String(z)) => CmpStringTransitive(x, y, z);
      case (Sequence(xs), Sequence(ys), Sequence(zs)) => OrderItemsTransitive(xs, ys, zs);
      case (Mapping(xs), Mapping(ys), Mapping(zs)) => OrderEntriesTransitive(xs, ys, zs);
      case (Tagged(k, x), Tagged(l, y), Tagged(m, z)) =>
        CmpStringTransitive(k, l, m);
        CmpStringEqual(k, l);
        CmpStringEqual(l, m);
        CmpStringEqual(k, m);
        if k == l == m {
          OrderTransitive(x, y, z);
        }
      case _ =>
    }
  }

  lemma {:induction false} OrderItemsTransitive(xs: seq<Tree>, ys: seq<Tree>, zs: seq<Tree>)
    requires OrderItems(xs, ys) != Greater && OrderItems(ys, zs) != Greater
    ensures OrderItems(xs, zs) != Greater
    decreases xs, 0
  {
    if xs != [] && ys != [] && zs != [] {
      OrderTransitive(xs[0], ys[0], zs[0]);
      OrderAntisymmetric(xs[0], ys[0]);
      OrderAntisymmetric(ys[0], zs[0]);
      OrderAntisymmetric(xs[0], zs[0]);
      if xs[0] == ys[0] == zs[0] {
        OrderItemsTransitive(xs[1..], ys[1..], zs[1..]);
      }
    }
  }

  lemma {:induction false} OrderEntryTransitive(x: (Tree, Tree), y: (Tree, Tree), z: (Tree, Tree))
    requires OrderEntry(x, y) != Greater && OrderEntry(y, z) != Greater
    ensures OrderEntry(x, z) != Greater
    decreases x, 2
  {
    OrderTransitive(x.0, y.0, z.0);
    OrderAntisymmetric(x.0, y.0);
    OrderAntisymmetric(y.0, z.0);
    OrderAntisymmetric(x.0, z.0);
    if x.0 == y.0 == z.0 {
      OrderTransitive(x.1, y.1, z.1);
    }
  }

  lemma {:induction false} OrderEntriesTransitive(xs: seq<(Tree, Tree)>, ys: seq<(Tree, Tree)>, zs: seq<(Tree, Tree)>)
    requires OrderEntries(xs, ys) != Greater && OrderEntries(ys, zs) != Greater
    ensures OrderEntries(xs, zs) != Greater
    decreases xs, 0
  {
    if xs != [] && ys != [] && zs != [] {
      OrderEntryTransitive(xs[0], ys[0], zs[0]);
      OrderEntryAntisymmetric(xs[0], ys[0]);
      OrderEntryAntisymmetric(ys[0], zs[0]);
      OrderEntryAntisymmetric(xs[0], zs[0]);
      if xs[0] == ys[0] == zs[0] {
        OrderEntriesTransitive(xs[1..], ys[1..], zs[1..]);
      }
    }
  }

  // ----- Sorting entries ----------------------------------------------------

  function Insert(e: (Tree, Tree), s: seq<(Tree, Tree)>): seq<(Tree, Tree)> {
    if s == [] || OrderEntry(e, s[0]) != Greater then [e] + s else [s[0]] + Insert(e, s[1..])
  }

  function Sort(s: seq<(Tree, Tree)>): seq<(Tree, Tree)> {
    if s == [] then [] else Insert(s[0], Sort(s[1..]))
  }

  ghost predicate Sorted(s: seq<(Tree, Tree)>) {
    forall i, j :: 0 <= i < j < |s| ==> OrderEntry(s[i], s[j]) != Greater
  }

  lemma {:induction false} InsertKeepsSorted(e: (Tree, Tree), s: seq<(Tree, Tree)>)
    requires Sorted(s)
    ensures Sorted(Insert(e, s))
    ensures multiset(Insert(e, s)) == multiset{e} + multiset(s)
  {
    hide OrderEntry;
    if s == [] {
    } else if OrderEntry(e, s[0]) != Greater {
      forall j | 0 <= j < |s| ensures OrderEntry(e, s[j]) != Greater {
        if j > 0 { OrderEntryTransitive(e, s[0], s[j]); }
      }
    } else {
      var rest := Insert(e, s[1..]);
      InsertKeepsSorted(e, s[1..]);
      assert s == [s[0]] + s[1..];
      OrderEntryAntisymmetric(e, s[0]);
      forall j | 0 <= j < |rest| ensures OrderEntry(s[0], rest[j]) != Greater {
        assert rest[j] in multiset(rest);
        if rest[j] != e {
          assert rest[j] in multiset(s[1..]);
          var k :| 0 <= k < |s[1..]| && s[1..][k] == rest[j];
          assert s[k + 1] == rest[j];
        }
      }
    }
  }

  lemma {:induction false} SortSorts(s: seq<(Tree, Tree)>)
    ensures Sorted(Sort(s))
    ensures multiset(Sort(s)) == multiset(s)
  {
    hide OrderEntry;
    if s != [] {
      SortSorts(s[1..]);
      InsertKeepsSorted(s[0], Sort(s[1..]));
      assert s == [s[0]] + s[1..];
    }
  }

  lemma SortedMinimum(s: seq<(Tree, Tree)>, t: seq<(Tree, Tree)>)
    requires Sorted(s) && s != [] && t != [] && multiset(s) == multiset(t)
    ensures OrderEntry(s[0], t[0]) != Greater
  {
    hide OrderEntry;
    assert t[0] in multiset(s);
    var i :| 0 <= i < |s| && s[i] == t[0];
    OrderEntryAntisymmetric(s[0], s[0]);
  }

  lemma SortedTail(s: seq<(Tree, Tree)>)
    requires Sorted(s) && s != []
    ensures Sorted(s[1..])
  {
    hide OrderEntry;
  }

  // Two sorted arrangements of the same entries are the same list, so `Sort`
  // stands for every correct sorting routine.
  lemma {:induction false} SortedIsUnique(s: seq<(Tree, Tree)>, t: seq<(Tree, Tree)>)
    requires Sorted(s) && Sorted(t) && multiset(s) == multiset(t)
    ensures s == t
  {
    hide OrderEntry, Sorted;
    assert |multiset(s)| == |s| && |multiset(t)| == |t|;
    if s != [] {
      SortedTail(s);
      SortedTail(t);
      SortedMinimum(s, t);
      SortedMinimum(t, s);
      OrderEntryAntisymmetric(s[0], t[0]);
      ConsMultiset(s);
      ConsMultiset(t);
      assert multiset(s[1..]) == multiset(s) - multiset{s[0]};
      SortedIsUnique(s[1..], t[1..]);
      assert s == [s[0]] + s[1..] && t == [t[0]] + t[1..];
    }
  }

  lemma SortEqualIffSameEntries(s: seq<(Tree, Tree)>, t: seq<(Tree, Tree)>)
    ensures Sort(s) == Sort(t) <==> multiset(s) == multiset(t)
  {
    SortSorts(s);
    SortSorts(t);
    if multiset(s) == multiset(t) {
      SortedIsUnique(Sort(s), Sort(t));
    }
  }
}
