// What the tokens a value feeds to a hasher tell about it (src/ast.rs).
module HashFeed {
  import opened Values
  import opened ValueHash
  import C = Canonical

  /** A value without a mapping in it, whose entries are only fed as one hash. */
  predicate MappingFree(v: Value)
    decreases v
  {
    match v
    case Sequence(items) => forall i :: 0 <= i < |items| ==> MappingFree(items[i])
    case Mapping(_) => false
    case Tagged(_, inner) => MappingFree(inner)
    case _ => true
  }

  predicate FreeTree(t: C.Tree)
    decreases t
  {
    match t
    case Sequence(items) => forall i :: 0 <= i < |items| ==> FreeTree(items[i])
    case Mapping(_) => false
    case Tagged(_, inner) => FreeTree(inner)
    case _ => true
  }

  lemma {:induction false} CanonStaysFree(v: Value)
    requires MappingFree(v)
    ensures FreeTree(Canon(v))
    decreases v
  {
    match v {
      case Sequence(items) =>
        forall i | 0 <= i < |items| ensures FreeTree(Canon(items[i])) { CanonStaysFree(items[i]); }
      case Tagged(_, inner) => CanonStaysFree(inner);
      case _ =>
    }
  }

  lemma {:induction false} FreeIsValid(v: Value)
    requires MappingFree(v)
    ensures Valid(v)
    decreases v
  {
    match v {
      case Sequence(items) =>
        forall i | 0 <= i < |items| ensures Valid(items[i]) { FreeIsValid(items[i]); }
      case Tagged(_, inner) => FreeIsValid(inner);
      case _ =>
    }
  }

  lemma Regroup(a: seq<Token>, b: seq<Token>, c: seq<Token>)
    ensures a + b + c == a + (b + c)
  {
  }

  // Two lists that start with as many tokens, and are equal, are equal behind them.
  lemma Behind(a: seq<Token>, x: seq<Token>, b: seq<Token>, y: seq<Token>)
    requires |a| == |b| && a + x == b + y
    ensures a == b && x == y
  {
    assert (a + x)[..|a|] == a && (b + y)[..|b|] == b;
    assert (a + x)[|a|..] == x && (b + y)[|b|..] == y;
  }

  lemma FirstToken(h: Hasher, t: C.Tree, x: seq<Token>)
    ensures FeedTree(h, t) != [] && (FeedTree(h, t) + x)[0] == FeedTree(h, t)[0]
  {
  }

  // Tokens tell where the tree they come from ends, and which it was.
  lemma {:induction false} FeedDecides(h: Hasher, a: C.Tree, b: C.Tree, x: seq<Token>, y: seq<Token>)
    requires FreeTree(a) && FreeTree(b) && FeedTree(h, a) + x == FeedTree(h, b) + y
    ensures a == b && x == y
    decreases a, 0
  {
    FirstToken(h, a, x);
    FirstToken(h, b, y);
    if a.Sequence? {
      var ha, hb := [Discriminant(4), Length(|a.items|)], [Discriminant(4), Length(|b.items|)];
      Regroup(ha, FeedTrees(h, a.items), x);
      Regroup(hb, FeedTrees(h, b.items), y);
      Behind(ha, FeedTrees(h, a.items) + x, hb, FeedTrees(h, b.items) + y);
      assert ha[1] == hb[1];
      FeedsDecide(h, a.items, b.items, x, y);
    } else if a.Tagged? {
      var ha, hb := [Discriminant(6), Text(a.key)], [Discriminant(6), Text(b.key)];
      Regroup(ha, FeedTree(h, a.value), x);
      Regroup(hb, FeedTree(h, b.value), y);
      Behind(ha, FeedTree(h, a.value) + x, hb, FeedTree(h, b.value) + y);
      assert ha[1] == hb[1];
      FeedDecides(h, a.value, b.value, x, y);
    } else {
      ScalarDecides(h, a, b, x, y);
    }
  }

  lemma ScalarDecides(h: Hasher, a: C.Tree, b: C.Tree, x: seq<Token>, y: seq<Token>)
    requires !a.Sequence? && !a.Mapping? && !a.Tagged? && FreeTree(b) && FeedTree(h, a) + x == FeedTree(h, b) + y
    ensures a == b && x == y
  {
    FirstToken(h, a, x);
    FirstToken(h, b, y);
    var s, t := FeedTree(h, a), FeedTree(h, b);
    Behind(s, x, t, y);
    if a.Integer? || a.Unsigned? || a.Float? {
      assert s[1] == t[1] && s[2] == t[2];
    } else if !a.Null? {
      assert s[1] == t[1];
    }
  }

  lemma {:induction false} FeedsDecide(h: Hasher, xs: seq<C.Tree>, ys: seq<C.Tree>, x: seq<Token>, y: seq<Token>)
    requires |xs| == |ys| && (forall i :: 0 <= i < |xs| ==> FreeTree(xs[i]) && FreeTree(ys[i]))
    requires FeedTrees(h, xs) + x == FeedTrees(h, ys) + y
    ensures xs == ys && x == y
    decreases xs, 1
  {
    hide FeedTree, FreeTree;
    if xs == [] {
      assert [] + x == x && [] + y == y;
    } else {
      Regroup(FeedTree(h, xs[0]), FeedTrees(h, xs[1..]), x);
      Regroup(FeedTree(h, ys[0]), FeedTrees(h, ys[1..]), y);
      FeedDecides(h, xs[0], ys[0], FeedTrees(h, xs[1..]) + x, FeedTrees(h, ys[1..]) + y);
      FeedsDecide(h, xs[1..], ys[1..], x, y);
      assert xs == [xs[0]] + xs[1..] && ys == [ys[0]] + ys[1..];
    }
  }

  /** Values without mappings feed the same tokens exactly if they are equal: nothing that
      equality looks at is left out of the hash, and nothing else is in it. */
  lemma FeedsDecideEquality(h: Hasher, a: Value, b: Value)
    requires MappingFree(a) && MappingFree(b)
    ensures Feed(h, a) == Feed(h, b) <==> ValueEq(a, b)
  {
    hide Feed, FeedTree;
    FreeIsValid(a);
    FreeIsValid(b);
    EqIsCanonicalEquality(a, b);
    FeedIsCanonical(h, a);
    FeedIsCanonical(h, b);
    CanonStaysFree(a);
    CanonStaysFree(b);
    if Feed(h, a) == Feed(h, b) { FeedDecides(h, Canon(a), Canon(b), [], []); }
  }

  // ----- Mappings ------------------------------------------------------------------------------

  lemma {:induction false} XorWith(h: Hasher, before: seq<Entry>, e: Entry, after: seq<Entry>)
    ensures XorEntries(h, before + [e] + after) == Xor(HashEntry(h, e), XorEntries(h, before + after))
  {
    hide HashEntry, Xor;
    if before == [] {
      assert ([] + [e] + after)[1..] == after && [] + after == after;
    } else {
      XorWith(h, before[1..], e, after);
      assert (before + [e] + after)[1..] == before[1..] + [e] + after && (before + after)[1..] == before[1..] + after;
      XorSwap(HashEntry(h, before[0]), HashEntry(h, e), XorEntries(h, before[1..] + after));
    }
  }

  lemma XorCancels(a: Word, b: Word, c: Word)
    ensures Xor(a, c) == Xor(b, c) <==> a == b
  {
  }

  /** A mapping feeds one hash, and every entry counts in it: exchanging one entry shows
      exactly if the hashes of the two differ. */
  lemma EveryEntryCounts(h: Hasher, before: seq<Entry>, e: Entry, f: Entry, after: seq<Entry>)
    ensures Feed(h, Mapping(before + [e] + after)) == Feed(h, Mapping(before + [f] + after)) <==> HashEntry(h, e) == HashEntry(h, f)
  {
    hide HashEntry, Xor, XorEntries;
    XorWith(h, before, e, after);
    XorWith(h, before, f, after);
    XorCancels(HashEntry(h, e), HashEntry(h, f), XorEntries(h, before + after));
    var s, t := Feed(h, Mapping(before + [e] + after)), Feed(h, Mapping(before + [f] + after));
    assert s[1] == Hash(XorEntries(h, before + [e] + after)) && t[1] == Hash(XorEntries(h, before + [f] + after));
  }
}
