// Duplicate-key identities and the tracker that looks for repeated keys
// (src/key_identity.rs).
module KeyIdentity {
  import opened Prelude
  import opened Nodes
  import V = Values
  import C = Canonical

  // A `DuplicateKey` is a canonical tree; identities never use its `Tagged` case.
  type DuplicateKey = C.Tree

  predicate PastLimit(depth: nat, limit: Option<nat>) {
    limit.Some? && depth > limit.value
  }

  /** `duplicate_key_identity_with_limit`. */
  function IdentityWithLimit(key: Node, depth: nat, limit: Option<nat>): Result<DuplicateKey, Error>
    decreases key, 0
  {
    if PastLimit(depth, limit) then Err(DepthExceeded)
    else match key.value
      case Null => Ok(C.Null)
      case Bool(b) => Ok(C.Bool(b))
      case Number(Integer(i)) => if i < 0 then Ok(C.Integer(i)) else Ok(C.Unsigned(i))
      case Number(Unsigned(u)) => Ok(C.Unsigned(u))
      case Number(Float(f)) => Ok(C.Float(f))
      case String(s) => Ok(C.String(s))
      case Sequence(items) =>
        (match ItemIdentities(items, depth + 1, limit)
         case Err(e) => Err(e)
         case Ok(ids) => Ok(C.Sequence(ids)))
      case Mapping(entries) =>
        (match EntryIdentities(entries, depth + 1, limit)
         case Err(e) => Err(e)
         case Ok(ids) => Ok(C.Mapping(C.Sort(ids))))
      case Tagged(_, _, inner) => IdentityWithLimit(inner, depth + 1, limit)
  }

  function ItemIdentities(items: seq<Node>, depth: nat, limit: Option<nat>): Result<seq<DuplicateKey>, Error>
    decreases items, 0
  {
    if items == [] then Ok([])
    else match IdentityWithLimit(items[0], depth, limit)
      case Err(e) => Err(e)
      case Ok(id) =>
        match ItemIdentities(items[1..], depth, limit)
        case Err(e) => Err(e)
        case Ok(ids) => Ok([id] + ids)
  }

  function EntryIdentity(e: Entry, depth: nat, limit: Option<nat>): Result<(DuplicateKey, DuplicateKey), Error>
    decreases e, 1
  {
    match IdentityWithLimit(e.0, depth, limit)
    case Err(e) => Err(e)
    case Ok(k) =>
      match IdentityWithLimit(e.1, depth, limit)
      case Err(e) => Err(e)
      case Ok(v) => Ok((k, v))
  }

  function EntryIdentities(entries: seq<Entry>, depth: nat, limit: Option<nat>): Result<seq<(DuplicateKey, DuplicateKey)>, Error>
    decreases entries, 0
  {
    if entries == [] then Ok([])
    else match EntryIdentity(entries[0], depth, limit)
      case Err(e) => Err(e)
      case Ok(id) =>
        match EntryIdentities(entries[1..], depth, limit)
        case Err(e) => Err(e)
        case Ok(ids) => Ok([id] + ids)
  }

  // ----- The identity without the depth check -----------------------------------

  function Identity(key: Node): DuplicateKey
    decreases key, 0
  {
    match key.value
    case Null => C.Null
    case Bool(b) => C.Bool(b)
    case Number(n) => V.CanonNumber(n)
    case String(s) => C.String(s)
    case Sequence(items) => C.Sequence(Identities(items))
    case Mapping(entries) => C.Mapping(C.Sort(IdentityPairs(entries)))
    case Tagged(_, _, inner) => Identity(inner)
  }

  function Identities(items: seq<Node>): (r: seq<DuplicateKey>)
    ensures |r| == |items|
    ensures forall i :: 0 <= i < |items| ==> r[i] == Identity(items[i])
    decreases items, 0
  {
    if items == [] then [] else [Identity(items[0])] + Identities(items[1..])
  }

  function IdentityPair(e: Entry): (DuplicateKey, DuplicateKey)
    decreases e, 1
  {
    (Identity(e.0), Identity(e.1))
  }

  function IdentityPairs(entries: seq<Entry>): (r: seq<(DuplicateKey, DuplicateKey)>)
    ensures |r| == |entries|
    ensures forall i :: 0 <= i < |entries| ==> r[i] == IdentityPair(entries[i])
    decreases entries, 0
  {
    if entries == [] then [] else [IdentityPair(entries[0])] + IdentityPairs(entries[1..])
  }

  /** The identity fails exactly on keys that nest past the limit. */
  lemma {:induction false} IdentityFailsExactlyPastLimit(key: Node, depth: nat, limit: Option<nat>)
    ensures IdentityWithLimit(key, depth, limit)
         == if PastLimit(depth + Nesting(key) - 1, limit) then Err(DepthExceeded) else Ok(Identity(key))
    decreases key, 0
  {
    match key.value {
      case Sequence(items) => ItemIdentitiesFailExactly(items, depth + 1, limit);
      case Mapping(entries) => EntryIdentitiesFailExactly(entries, depth + 1, limit);
      case Tagged(_, _, inner) => IdentityFailsExactlyPastLimit(inner, depth + 1, limit);
      case _ =>
    }
  }

  lemma {:induction false} ItemIdentitiesFailExactly(items: seq<Node>, depth: nat, limit: Option<nat>)
    requires depth > 0
    ensures ItemIdentities(items, depth, limit)
         == if items != [] && PastLimit(depth + NestingItems(items) - 1, limit) then Err(DepthExceeded) else Ok(Identities(items))
    decreases items, 0
  {
    if items != [] {
      IdentityFailsExactlyPastLimit(items[0], depth, limit);
      ItemIdentitiesFailExactly(items[1..], depth, limit);
      NestingOfItem(items, 0);
    }
  }

  lemma {:induction false} EntryIdentityFailsExactly(e: Entry, depth: nat, limit: Option<nat>)
    ensures EntryIdentity(e, depth, limit)
         == if PastLimit(depth + NestingEntry(e) - 1, limit) then Err(DepthExceeded) else Ok(IdentityPair(e))
    decreases e, 1
  {
    IdentityFailsExactlyPastLimit(e.0, depth, limit);
    IdentityFailsExactlyPastLimit(e.1, depth, limit);
  }

  lemma {:induction false} EntryIdentitiesFailExactly(entries: seq<Entry>, depth: nat, limit: Option<nat>)
    requires depth > 0
    ensures EntryIdentities(entries, depth, limit)
         == if entries != [] && PastLimit(depth + NestingEntries(entries) - 1, limit) then Err(DepthExceeded) else Ok(IdentityPairs(entries))
    decreases entries, 0
  {
    if entries != [] {
      EntryIdentityFailsExactly(entries[0], depth, limit);
      EntryIdentitiesFailExactly(entries[1..], depth, limit);
      NestingOfEntry(entries, 0);
    }
  }

  // ----- What the identity identifies ---------------------------------------------

  // Keys are equivalent up to tags, the integer variant and the order of entries
  // at every level. Entries are matched one by one, without any sorting.
  ghost predicate Equivalent(a: Node, b: Node)
    decreases a, 0, b
  {
    if a.value.Tagged? then Equivalent(a.value.node, b)
    else if b.value.Tagged? then Equivalent(a, b.value.node)
    else match a.value
      case Null => b.value.Null?
      case Bool(x) => b.value.Bool? && x == b.value.b
      case Number(x) => b.value.Number? && V.NumberEq(x, b.value.n)
      case String(x) => b.value.String? && x == b.value.s
      case Sequence(xs) =>
        b.value.Sequence? && |xs| == |b.value.items| && forall i :: 0 <= i < |xs| ==> Equivalent(xs[i], b.value.items[i])
      case Mapping(xs) => b.value.Mapping? && Matching(xs, b.value.entries)
  }

  ghost predicate EquivalentEntry(x: Entry, y: Entry)
    decreases x, 1
  {
    Equivalent(x.0, y.0) && Equivalent(x.1, y.1)
  }

  ghost predicate Matching(xs: seq<Entry>, ys: seq<Entry>)
    decreases xs, 0
  {
    if xs == [] then ys == []
    else exists j :: 0 <= j < |ys| && EquivalentEntry(xs[0], ys[j]) && Matching(xs[1..], RemoveAt(ys, j))
  }

  /** Two keys share an identity exactly when they are equivalent. */
  lemma {:induction false} IdentityDecidesEquivalence(a: Node, b: Node)
    ensures Identity(a) == Identity(b) <==> Equivalent(a, b)
    decreases a, 0, b
  {
    hide C.Sort, Matching, Identities, IdentityPairs, V.CanonNumber, V.NumberEq;
    if a.value.Tagged? {
      IdentityDecidesEquivalence(a.value.node, b);
    } else if b.value.Tagged? {
      IdentityDecidesEquivalence(a, b.value.node);
    } else if a.value.Number? && b.value.Number? {
      V.NumberCmpIsCanonicalOrder(a.value.n, b.value.n);
    } else if a.value.Sequence? && b.value.Sequence? {
      ItemsDecideEquivalence(a.value.items, b.value.items);
    } else if a.value.Mapping? && b.value.Mapping? {
      C.SortEqualIffSameEntries(IdentityPairs(a.value.entries), IdentityPairs(b.value.entries));
      MatchingIsPermutation(a.value.entries, b.value.entries);
    }
  }

  lemma {:induction false} ItemsDecideEquivalence(xs: seq<Node>, ys: seq<Node>)
    ensures Identities(xs) == Identities(ys) <==> |xs| == |ys| && forall i :: 0 <= i < |xs| ==> Equivalent(xs[i], ys[i])
    decreases xs, 0
  {
    hide Equivalent, Identity, Identities;
    if |xs| == |ys| {
      forall i | 0 <= i < |xs| ensures Identities(xs)[i] == Identities(ys)[i] <==> Equivalent(xs[i], ys[i]) {
        IdentityDecidesEquivalence(xs[i], ys[i]);
      }
    }
  }

  lemma {:induction false} PairDecidesEquivalence(x: Entry, y: Entry)
    ensures IdentityPair(x) == IdentityPair(y) <==> EquivalentEntry(x, y)
    decreases x, 1
  {
    hide Equivalent, Identity;
    IdentityDecidesEquivalence(x.0, y.0);
    IdentityDecidesEquivalence(x.1, y.1);
  }

  lemma {:induction false} MatchingIsPermutation(xs: seq<Entry>, ys: seq<Entry>)
    ensures multiset(IdentityPairs(xs)) == multiset(IdentityPairs(ys)) <==> Matching(xs, ys)
    decreases xs, 0
  {
    hide IdentityPair, EquivalentEntry, IdentityPairs;
    if xs == [] {
      assert |multiset(IdentityPairs(ys))| == |ys|;
    } else {
      forall j | 0 <= j < |ys|
        ensures EquivalentEntry(xs[0], ys[j]) && Matching(xs[1..], RemoveAt(ys, j))
           <==> IdentityPair(xs[0]) == IdentityPairs(ys)[j] && multiset(IdentityPairs(xs)) == multiset(IdentityPairs(ys))
      {
        PairDecidesEquivalence(xs[0], ys[j]);
        MatchingIsPermutation(xs[1..], RemoveAt(ys, j));
        PairsWithout(xs, 0);
        PairsWithout(ys, j);
      }
      if multiset(IdentityPairs(xs)) == multiset(IdentityPairs(ys)) {
        assert IdentityPairs(xs)[0] in multiset(IdentityPairs(ys));
        var j :| 0 <= j < |ys| && IdentityPairs(ys)[j] == IdentityPair(xs[0]);
      }
    }
  }

  lemma PairsAfterRemoval(ys: seq<Entry>, j: nat)
    requires j < |ys|
    ensures IdentityPairs(RemoveAt(ys, j)) == RemoveAt(IdentityPairs(ys), j)
  {
    hide IdentityPair, IdentityPairs, RemoveAt;
    var pairs, rest := IdentityPairs(ys), RemoveAt(ys, j);
    forall i | 0 <= i < |rest| ensures IdentityPairs(rest)[i] == RemoveAt(pairs, j)[i] {
      RemoveAtIndex(ys, j, i);
      RemoveAtIndex(pairs, j, i);
    }
  }

  lemma PairsWithout(ys: seq<Entry>, j: nat)
    requires j < |ys|
    ensures multiset(IdentityPairs(RemoveAt(ys, j))) == multiset(IdentityPairs(ys)) - multiset{IdentityPair(ys[j])}
    ensures multiset(IdentityPairs(ys)) == multiset(IdentityPairs(RemoveAt(ys, j))) + multiset{IdentityPair(ys[j])}
    ensures RemoveAt(ys, 0) == ys[1..]
  {
    hide IdentityPair, IdentityPairs;
    PairsAfterRemoval(ys, j);
    RemoveAtMultiset(IdentityPairs(ys), j);
  }

  /** `same_key_identity`: both identities start at depth 1 under the default limit. */
  function SameKeyIdentity(a: Node, b: Node): Result<bool, Error> {
    match IdentityWithLimit(a, 1, Some(MAX_DEPTH))
    case Err(e) => Err(e)
    case Ok(x) =>
      match IdentityWithLimit(b, 1, Some(MAX_DEPTH))
      case Err(e) => Err(e)
      case Ok(y) => Ok(x == y)
  }

  /** On keys within the limit, `same_key_identity` decides equivalence; with a key past
      it, it fails. */
  lemma SameKeyIdentityDecides(a: Node, b: Node)
    ensures SameKeyIdentity(a, b).Ok? <==> Nesting(a) <= MAX_DEPTH && Nesting(b) <= MAX_DEPTH
    ensures SameKeyIdentity(a, b).Ok? ==> SameKeyIdentity(a, b).value == (Identity(a) == Identity(b))
    ensures SameKeyIdentity(a, b) == if Nesting(a) <= MAX_DEPTH && Nesting(b) <= MAX_DEPTH then Ok(Equivalent(a, b)) else Err(DepthExceeded)
  {
    IdentityFailsExactlyPastLimit(a, 1, Some(MAX_DEPTH));
    IdentityFailsExactlyPastLimit(b, 1, Some(MAX_DEPTH));
    IdentityDecidesEquivalence(a, b);
  }
}
