// Hashing of values (src/ast.rs). A value feeds a stream of tokens to a hasher;
// the hasher's final answer is any function of that stream. A mapping feeds the
// xor of the separate hashes of its entries.
module ValueHash {
  import opened Prelude
  import opened Values
  import C = Canonical

  /** A 64-bit machine word. */
  datatype Word = Word(bits: bv64)

  datatype Token =
    | Discriminant(n: nat)
    | Sign(n: nat)
    | Flag(b: bool)
    | Magnitude(i: int)
    | FloatBits(f: Float)
    | Text(s: string)
    | Length(n: nat)
    | Hash(w: Word)

  type Hasher = seq<Token> -> Word

  function Xor(a: Word, b: Word): Word {
    Word(a.bits ^ b.bits)
  }

  function FeedNumber(n: Number): seq<Token> {
    match n
    case Integer(i) => if i < 0 then [Sign(0), Magnitude(i)] else [Sign(1), Magnitude(i)]
    case Unsigned(u) => [Sign(1), Magnitude(u)]
    case Float(f) => [Sign(2), FloatBits(f)]
  }

  function Feed(h: Hasher, v: Value): seq<Token>
    decreases v, 0
  {
    match v
    case Null => [Discriminant(0)]
    case Bool(b) => [Discriminant(1), Flag(b)]
    case Number(n) => [Discriminant(2)] + FeedNumber(n)
    case String(s) => [Discriminant(3), Text(s)]
    case Sequence(items) => [Discriminant(4), Length(|items|)] + FeedItems(h, items)
    case Mapping(entries) => [Discriminant(5), Hash(XorEntries(h, entries))]
    case Tagged(t, inner) => [Discriminant(6), Text(TagKey(t))] + Feed(h, inner)
  }

  function FeedItems(h: Hasher, items: seq<Value>): seq<Token>
    decreases items, 0
  {
    if items == [] then [] else Feed(h, items[0]) + FeedItems(h, items[1..])
  }

  function HashEntry(h: Hasher, e: Entry): Word
    decreases e, 1
  {
    h(Feed(h, e.0) + Feed(h, e.1))
  }

  function XorEntries(h: Hasher, entries: seq<Entry>): Word
    decreases entries, 0
  {
    if entries == [] then Word(0) else Xor(HashEntry(h, entries[0]), XorEntries(h, entries[1..]))
  }

  // The entries of a mapping are always hashed with a new default hasher; the
  // hash of the whole value comes from whatever hasher its user has.
  datatype Hashers = Hashers(inner: Hasher, outer: Hasher)

  function HashOf(h: Hashers, v: Value): Word {
    h.outer(Feed(h.inner, v))
  }

  // ----- The stream is a function of the canonical form ------------------------

  function FeedTree(h: Hasher, t: C.Tree): seq<Token>
    decreases t, 0
  {
    match t
    case Null => [Discriminant(0)]
    case Bool(b) => [Discriminant(1), Flag(b)]
    case Integer(i) => [Discriminant(2)] + [Sign(0), Magnitude(i)]
    case Unsigned(u) => [Discriminant(2)] + [Sign(1), Magnitude(u)]
    case Float(f) => [Discriminant(2)] + [Sign(2), FloatBits(f)]
    case String(s) => [Discriminant(3), Text(s)]
    case Sequence(items) => [Discriminant(4), Length(|items|)] + FeedTrees(h, items)
    case Mapping(entries) => [Discriminant(5), Hash(XorTrees(h, entries))]
    case Tagged(k, inner) => [Discriminant(6), Text(k)] + FeedTree(h, inner)
  }

  function FeedTrees(h: Hasher, items: seq<C.Tree>): seq<Token>
    decreases items, 0
  {
    if items == [] then [] else FeedTree(h, items[0]) + FeedTrees(h, items[1..])
  }

  function HashTrees(h: Hasher, e: (C.Tree, C.Tree)): Word
    decreases e, 1
  {
    h(FeedTree(h, e.0) + FeedTree(h, e.1))
  }

  function XorTrees(h: Hasher, entries: seq<(C.Tree, C.Tree)>): Word
    decreases entries, 0
  {
    if entries == [] then Word(0) else Xor(HashTrees(h, entries[0]), XorTrees(h, entries[1..]))
  }

  lemma XorSwap(a: Word, b: Word, c: Word)
    ensures Xor(a, Xor(b, c)) == Xor(b, Xor(a, c))
  {
    hide Xor;
    XorRegroups(a, b, c);
    XorRegroups(b, a, c);
    XorCommutes(a, b);
  }

  lemma XorCommutes(a: Word, b: Word)
    ensures Xor(a, b) == Xor(b, a)
  {
  }

  lemma XorRegroups(a: Word, b: Word, c: Word)
    ensures Xor(a, Xor(b, c)) == Xor(Xor(a, b), c)
  {
  }

  lemma {:induction false} XorOfInsert(h: Hasher, e: (C.Tree, C.Tree), s: seq<(C.Tree, C.Tree)>)
    ensures XorTrees(h, C.Insert(e, s)) == Xor(HashTrees(h, e), XorTrees(h, s))
  {
    hide C.OrderEntry, HashTrees, Xor;
    if s == [] || C.OrderEntry(e, s[0]) != Greater {
      assert C.Insert(e, s)[1..] == s;
    } else {
      XorOfInsert(h, e, s[1..]);
      assert C.Insert(e, s)[1..] == C.Insert(e, s[1..]);
      XorSwap(HashTrees(h, e), HashTrees(h, s[0]), XorTrees(h, s[1..]));
    }
  }

  // Sorting the entries does not change their xor.
  lemma {:induction false} XorOfSort(h: Hasher, s: seq<(C.Tree, C.Tree)>)
    ensures XorTrees(h, C.Sort(s)) == XorTrees(h, s)
  {
    if s != [] {
      XorOfSort(h, s[1..]);
      XorOfInsert(h, s[0], C.Sort(s[1..]));
    }
  }

  lemma {:induction false} FeedIsCanonical(h: Hasher, v: Value)
    ensures Feed(h, v) == FeedTree(h, Canon(v))
    decreases v, 0
  {
    match v {
      case Sequence(items) => FeedItemsIsCanonical(h, items);
      case Mapping(entries) =>
        XorIsCanonical(h, entries);
        XorOfSort(h, CanonEntries(entries));
      case Tagged(_, inner) => FeedIsCanonical(h, inner);
      case _ =>
    }
  }

  lemma {:induction false} FeedItemsIsCanonical(h: Hasher, items: seq<Value>)
    ensures FeedItems(h, items) == FeedTrees(h, CanonItems(items))
    decreases items, 0
  {
    if items != [] {
      FeedIsCanonical(h, items[0]);
      FeedItemsIsCanonical(h, items[1..]);
      assert CanonItems(items)[1..] == CanonItems(items[1..]);
    }
  }

  lemma {:induction false} XorIsCanonical(h: Hasher, entries: seq<Entry>)
    ensures XorEntries(h, entries) == XorTrees(h, CanonEntries(entries))
    decreases entries, 0
  {
    hide HashTrees, HashEntry, CanonEntry, Xor;
    if entries != [] {
      HashEntryIsCanonical(h, entries[0]);
      XorIsCanonical(h, entries[1..]);
      assert CanonEntries(entries)[1..] == CanonEntries(entries[1..]);
    }
  }

  lemma {:induction false} HashEntryIsCanonical(h: Hasher, e: Entry)
    ensures HashEntry(h, e) == HashTrees(h, CanonEntry(e))
    decreases e, 1
  {
    FeedIsCanonical(h, e.0);
    FeedIsCanonical(h, e.1);
  }

  /** Equal values feed any hasher the same tokens. */
  lemma EqualValuesFeedEqually(h: Hasher, a: Value, b: Value)
    requires Valid(a) && Valid(b) && ValueEq(a, b)
    ensures Feed(h, a) == Feed(h, b)
  {
    EqIsCanonicalEquality(a, b);
    FeedIsCanonical(h, a);
    FeedIsCanonical(h, b);
  }

  /** Equal values hash equally, whatever the hashers inside mappings and outside. */
  lemma EqualValuesHashEqually(h: Hashers, a: Value, b: Value)
    requires Valid(a) && Valid(b) && ValueEq(a, b)
    ensures HashOf(h, a) == HashOf(h, b)
  {
    hide Feed;
    EqualValuesFeedEqually(h.inner, a, b);
  }
}
