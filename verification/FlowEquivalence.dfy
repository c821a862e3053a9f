// Flow text is uniquely readable: trees with the same text are equivalent.
module FlowEquivalence {
  import opened Prelude
  import opened Nodes
  import opened FlowPrinter
  import opened FlowReader
  import opened FlowTheorems
  import C = Canonical
  import K = KeyIdentity

  /** The key identity of a tree that was read. */
  function TreeIdentity(t: Tree): C.Tree
    decreases t, 0
  {
    match t
    case TNull => C.Null
    case TBool(b) => C.Bool(b)
    case TInt(i) => if i < 0 then C.Integer(i) else C.Unsigned(i)
    case TString(s) => C.String(s)
    case TSequence(items) => C.Sequence(TreeIdentities(items))
    case TMapping(entries) => C.Mapping(C.Sort(TreePairs(entries)))
  }

  function TreeIdentities(items: seq<Tree>): seq<C.Tree>
    decreases items, 0
  {
    if items == [] then [] else [TreeIdentity(items[0])] + TreeIdentities(items[1..])
  }

  function TreePair(e: (Tree, Tree)): (C.Tree, C.Tree)
    decreases e, 1
  {
    (TreeIdentity(e.0), TreeIdentity(e.1))
  }

  function TreePairs(entries: seq<(Tree, Tree)>): seq<(C.Tree, C.Tree)>
    decreases entries, 0
  {
    if entries == [] then [] else [TreePair(entries[0])] + TreePairs(entries[1..])
  }

  lemma {:induction false} PairsOfPermutation(xs: seq<Entry>, ys: seq<Entry>)
    requires multiset(xs) == multiset(ys)
    ensures multiset(K.IdentityPairs(xs)) == multiset(K.IdentityPairs(ys))
  {
    hide K.IdentityPair;
    if xs == [] {
      assert |multiset(ys)| == |multiset(xs)|;
    } else {
      assert xs[0] in multiset(ys);
      var j :| 0 <= j < |ys| && ys[j] == xs[0];
      RemoveAtMultiset(ys, j);
      ConsMultiset(xs);
      PairsOfPermutation(xs[1..], RemoveAt(ys, j));
      K.PairsWithout(xs, 0);
      K.PairsWithout(ys, j);
    }
  }

  // The printed order does not matter to the identity.
  lemma {:induction false} IdentityOfData(n: Node, o: Options)
    requires Untagged(n)
    ensures TreeIdentity(Data(n, o)) == K.Identity(n)
    decreases Nesting(n), 0, 0
  {
    hide Ordered, C.Sort, K.IdentityPairs, TreePairs, TreeIdentities, K.Identities, DataEntries, DataItems;
    match n.value {
      case Sequence(items) => IdentitiesOfData(items, o);
      case Mapping(entries) =>
        OrderedNests(entries, o);
        OrderedUntagged(entries, o);
        OrderedPermutes(entries, o);
        PairsOfData(Ordered(entries, o), o);
        PairsOfPermutation(Ordered(entries, o), entries);
        C.SortEqualIffSameEntries(K.IdentityPairs(Ordered(entries, o)), K.IdentityPairs(entries));
      case _ =>
    }
  }

  lemma {:induction false} IdentitiesOfData(items: seq<Node>, o: Options)
    requires forall i :: 0 <= i < |items| ==> Untagged(items[i])
    ensures TreeIdentities(DataItems(items, o)) == K.Identities(items)
    decreases NestingItems(items), 1, |items|
  {
    hide TreeIdentity, Data, K.Identity;
    if items != [] {
      IdentityOfData(items[0], o);
      IdentitiesOfData(items[1..], o);
    }
  }

  lemma {:induction false} PairsOfData(entries: seq<Entry>, o: Options)
    requires forall i :: 0 <= i < |entries| ==> UntaggedEntry(entries[i])
    ensures TreePairs(DataEntries(entries, o)) == K.IdentityPairs(entries)
    decreases NestingEntries(entries), 1, |entries|
  {
    hide TreeIdentity, Data, K.Identity;
    if entries != [] {
      assert UntaggedEntry(entries[0]);
      assert Nesting(entries[0].0) <= NestingEntry(entries[0]) && Nesting(entries[0].1) <= NestingEntry(entries[0]);
      IdentityOfData(entries[0].0, o);
      IdentityOfData(entries[0].1, o);
      PairsOfData(entries[1..], o);
    }
  }

  /** Trees without tags and floats that print the same text have the same entries
      in the same printed order, and are equal up to entry order and the integer
      variant used. */
  lemma SameTextMeansEquivalent(a: Node, b: Node, o: Options)
    requires Untagged(a) && Untagged(b) && Inline(a, o) == Inline(b, o)
    ensures Data(a, o) == Data(b, o)
    ensures K.Equivalent(a, b)
  {
    hide Inline, Data, TreeIdentity, K.Identity, K.Equivalent;
    FlowTextIsReadBack(a, o);
    FlowTextIsReadBack(b, o);
    IdentityOfData(a, o);
    IdentityOfData(b, o);
    K.IdentityDecidesEquivalence(a, b);
  }
}
