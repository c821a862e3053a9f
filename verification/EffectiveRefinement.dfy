// The effective view of the lossless graph against the strict merge the loader
// performs on the expanded document: the same entries, in the same order.
module EffectiveRefinement {
  import opened Prelude
  import opened LosslessGraph
  import opened LosslessRoundTrip
  import opened EffectiveEntries
  import opened EffectiveCycles
  import opened EffectiveReach
  import opened EntryLists
  import V = Values
  import N = Nodes
  import K = KeyIdentity
  import C = Canonical
  import S = StrictMerge
  import T = TreeMerge

  // ----- The expanded tree of a graph node --------------------------------------------------------

  /** Aliases stand for the node they target. */
  function Target(s: Stream, id: NodeId): NodeId {
    if id < |s.nodes| && s.nodes[id].kind.Alias? && s.nodes[id].kind.target < |s.anchors|
    then s.anchors[s.nodes[id].kind.target].node else id
  }

  const NON_SPECIFIC := V.Tag("!", "")

  // The non-specific tag `!` leaves no trace in the loaded tree.
  predicate LeavesTag(node: GraphNode) {
    node.tag.Some? && node.tag.value.tag != NON_SPECIFIC
  }

  predicate TagMatches(node: GraphNode, n: N.Node) {
    LeavesTag(node) ==> n.value.Tagged? && n.value.tag == node.tag.value.tag
  }

  function Payload(node: GraphNode, n: N.Node): N.Node
    requires TagMatches(node, n)
  {
    if LeavesTag(node) then n.value.node else n
  }

  /** How the loader resolves a scalar: text, style and tag decide its value. */
  type Loader = (string, ScalarStyle, Option<EventTag>) -> N.NodeValue

  /** `n` is the document node the loader builds for the graph node `id`: aliases
      copied in, tags around the payload, scalars resolved by `load`. */
  ghost predicate Expands(load: Loader, s: Stream, id: NodeId, n: N.Node)
    decreases n, 1
  {
    var t := Target(s, id);
    && t < |s.nodes|
    && TagMatches(s.nodes[t], n)
    && NodeExpands(load, s, s.nodes[t], Payload(s.nodes[t], n))
  }

  ghost predicate NodeExpands(load: Loader, s: Stream, node: GraphNode, n: N.Node)
    decreases n, 0
  {
    match node.kind
    case Scalar(text, style) =>
      n.value == load(text, style, node.tag) && !n.value.Sequence? && !n.value.Mapping? && !n.value.Tagged?
    case Sequence(_, children) =>
      && n.value.Sequence? && |n.value.items| == |children|
      && forall i :: 0 <= i < |children| ==> Expands(load, s, children[i], n.value.items[i])
    case Mapping(_, pairs) => n.value.Mapping? && EntriesExpand(load, s, pairs, n.value.entries)
    case Alias(_, _, _) => false
  }

  ghost predicate EntriesExpand(load: Loader, s: Stream, pairs: seq<(NodeId, NodeId)>, entries: seq<N.Entry>)
    decreases entries, 0
  {
    |pairs| == |entries| && forall i :: 0 <= i < |entries| ==> EntryExpands(load, s, pairs[i], entries[i])
  }

  ghost predicate EntryExpands(load: Loader, s: Stream, pair: (NodeId, NodeId), e: N.Entry)
    decreases e, 0
  {
    Expands(load, s, pair.0, e.0) && Expands(load, s, pair.1, e.1)
  }

  // ----- Keys ---------------------------------------------------------------------------------------

  /** What a key text stands for: different texts for different identities, and `<<`
      for itself. For string keys this is the string. */
  type Naming = string -> C.Tree

  ghost predicate NamesApart(names: Naming) {
    names("<<") == C.String("<<") && forall a, b :: names(a) == names(b) ==> a == b
  }

  /** A scalar key whose loaded value has the identity its text names. */
  predicate Named(load: Loader, names: Naming, s: Stream, key: NodeId) {
    && key < |s.nodes| && s.nodes[key].kind.Scalar?
    && var node := s.nodes[key];
       K.Identity(N.Node(load(node.kind.text, node.kind.scalar_style, node.tag), node.span)) == names(node.kind.text)
  }

  // The graph does not see `! <<` as a merge key, the loaded tree does.
  predicate BangMergeKey(s: Stream, key: NodeId) {
    && key < |s.nodes| && s.nodes[key].kind.Scalar? && s.nodes[key].kind.text == "<<"
    && s.nodes[key].tag.Some? && s.nodes[key].tag.value.tag == NON_SPECIFIC
  }

  /** A `<<` under any other tag merges in neither view. */
  predicate ForeignMergeKey(s: Stream, key: NodeId) {
    && key < |s.nodes| && s.nodes[key].kind.Scalar? && s.nodes[key].kind.text == "<<"
    && s.nodes[key].tag.Some? && s.nodes[key].tag.value.tag != NON_SPECIFIC && !s.nodes[key].tag.value.tag.IsMerge()
  }

  lemma KeyFacts(load: Loader, names: Naming, s: Stream, key: NodeId, n: N.Node)
    requires NamesApart(names) && Named(load, names, s, key) && Expands(load, s, key, n)
    ensures K.Identity(n) == names(s.nodes[key].kind.text)
    ensures ScalarKey(s, key) == Some(s.nodes[key].kind.text)
    ensures IsMergeKeyAt(s, key) == Ok(N.IsMergeKey(n) && !BangMergeKey(s, key))
    ensures BangMergeKey(s, key) ==> N.IsMergeKey(n)
  {
    var node := s.nodes[key];
    var inner := Payload(node, n);
    ScalarIdentity(inner);
    assert K.Identity(inner) == names(node.kind.text);
    assert K.Identity(n) == K.Identity(inner);
    assert inner.value == N.String("<<") <==> node.kind.text == "<<";
  }

  lemma ScalarIdentity(n: N.Node)
    ensures n.value.String? ==> K.Identity(n) == C.String(n.value.s)
    ensures K.Identity(n) == C.String("<<") && !n.value.Tagged? ==> n.value == N.String("<<")
  {
  }

  /** The key is one the graph and the loaded tree see alike. */
  predicate SeenAlike(load: Loader, names: Naming, s: Stream, key: NodeId) {
    Named(load, names, s, key) && !BangMergeKey(s, key)
  }

  // So are all keys that merges reach from the mapping.
  ghost predicate AllAlike(load: Loader, names: Naming, s: Stream, mapping: NodeId)
    requires StreamOk(s)
  {
    forall key :: Reached(s, mapping, key) ==> SeenAlike(load, names, s, key)
  }

  ghost predicate SourcesAlike(load: Loader, names: Naming, s: Stream, value: NodeId)
    requires StreamOk(s)
  {
    forall mapping :: Supplies(s, value, mapping) ==> AllAlike(load, names, s, mapping)
  }

  lemma PairsAlike(load: Loader, names: Naming, s: Stream, mapping: NodeId, i: nat)
    requires StreamOk(s) && AllAlike(load, names, s, mapping)
    requires mapping < |s.nodes| && s.nodes[mapping].kind.Mapping? && i < |s.nodes[mapping].kind.entries|
    ensures var pair := s.nodes[mapping].kind.entries[i];
            && SeenAlike(load, names, s, pair.0)
            && (IsMergeKeyAt(s, pair.0) == Ok(true) ==> SourcesAlike(load, names, s, pair.1))
  {
    hide StreamOk, SeenAlike, IsMergeKeyAt, Supplies, Reached;
    var pair := s.nodes[mapping].kind.entries[i];
    OwnKeyIsReached(s, mapping, pair.0);
    if IsMergeKeyAt(s, pair.0) == Ok(true) {
      forall to, key | Supplies(s, pair.1, to) && Reached(s, to, key) ensures SeenAlike(load, names, s, key) {
        assert MergesThrough(s, s.nodes[mapping].kind.entries[i], to);
        ReachedThrough(s, mapping, to, key);
      }
    }
  }

  // ----- Matching entries --------------------------------------------------------------------------

  /** The effective entry stands for the tree entry: key, value and their scalars. */
  ghost predicate Matches(load: Loader, s: Stream, e: Effective, t: N.Entry) {
    Expands(load, s, e.key, t.0) && Expands(load, s, e.value, t.1)
  }

  ghost predicate AllMatch(load: Loader, s: Stream, es: seq<Effective>, ts: seq<N.Entry>) {
    |es| == |ts| && forall i :: 0 <= i < |es| ==> Matches(load, s, es[i], ts[i])
  }

  ghost predicate Unmarked(es: seq<Effective>) {
    forall i :: 0 <= i < |es| ==> !es[i].overridden
  }

  lemma MatchConcat(load: Loader, s: Stream, es: seq<Effective>, ts: seq<N.Entry>, es': seq<Effective>, ts': seq<N.Entry>)
    requires AllMatch(load, s, es, ts) && AllMatch(load, s, es', ts')
    ensures AllMatch(load, s, es + es', ts + ts')
  {
    hide Matches;
  }

  // The own entries and the entries of the one merge key.
  lemma {:induction false} PairsMatch(load: Loader, names: Naming, s: Stream, pairs: seq<(NodeId, NodeId)>,
                                          entries: seq<N.Entry>, origin: Origin, stack: seq<NodeId>)
    requires StreamOk(s) && NamesApart(names) && EntriesExpand(load, s, pairs, entries) && T.SingleEntries(entries)
    requires forall i :: 0 <= i < |pairs| ==> SeenAlike(load, names, s, pairs[i].0)
    requires CollectPairs(s, pairs, origin, stack).Ok?
    ensures var (explicit, merged) := CollectPairs(s, pairs, origin, stack).value;
            && AllMatch(load, s, explicit, S.Own(entries))
            && match S.MergePosition(entries)
               case None => merged == []
               case Some(i) =>
                 && IsMergeKeyAt(s, pairs[i].0) == Ok(true)
                 && CollectValue(s, pairs[i].0, pairs[i].1, stack) == Ok(merged)
    decreases |pairs|
  {
    hide StreamOk, Expands, CollectValue, N.IsMergeKey, S.Own, S.MergePosition, IsMergeKeyAt, Named, BangMergeKey;
    if pairs != [] {
      var rest, tail := pairs[1..], entries[1..];
      assert EntryExpands(load, s, pairs[0], entries[0]) && SeenAlike(load, names, s, pairs[0].0);
      KeyFacts(load, names, s, pairs[0].0, entries[0].0);
      forall i | 0 <= i < |tail| ensures EntryExpands(load, s, rest[i], tail[i]) && T.SingleEntry(tail[i]) {
        assert EntryExpands(load, s, pairs[i + 1], entries[i + 1]) && T.SingleEntry(entries[i + 1]);
      }
      PairsMatch(load, names, s, rest, tail, origin, stack);
      var (explicit, merged) := CollectPairs(s, rest, origin, stack).value;
      if N.IsMergeKey(entries[0].0) {
        NoMoreMergeKeys(entries);
        OwnWithoutFirst(entries);
        var first := CollectValue(s, pairs[0].0, pairs[0].1, stack).value;
        assert first + [] == first && [] + explicit == explicit;
      } else {
        OwnAfterFirst(entries);
        MatchConcat(load, s, [Effective(pairs[0].0, pairs[0].1, origin, false)], [entries[0]], explicit, S.Own(tail));
        assert [] + merged == merged;
      }
    } else {
      OwnNothing();
    }
  }

  lemma OwnNothing()
    ensures S.MergePosition([]) == None && S.Own([]) == []
  {
  }

  lemma NoMoreMergeKeys(entries: seq<N.Entry>)
    requires entries != [] && T.SingleEntries(entries) && N.IsMergeKey(entries[0].0)
    ensures S.MergePosition(entries) == Some(0) && S.MergePosition(entries[1..]) == None
  {
    hide N.IsMergeKey;
    assert forall i :: 0 <= i < |entries[1..]| ==> entries[1..][i] == entries[i + 1];
  }

  lemma OwnWithoutFirst(entries: seq<N.Entry>)
    requires entries != [] && S.MergePosition(entries) == Some(0) && S.MergePosition(entries[1..]) == None
    ensures S.Own(entries) == S.Own(entries[1..])
  {
  }

  lemma FirstAndRest<X>(s: seq<X>)
    requires s != []
    ensures s == [s[0]] + s[1..]
  {
  }

  lemma RemoveLater<X>(s: seq<X>, i: nat)
    requires i + 1 < |s|
    ensures RemoveAt(s, i + 1) == [s[0]] + RemoveAt(s[1..], i)
  {
    assert s[..i + 1] == [s[0]] + s[1..][..i] && s[i + 2..] == s[1..][i + 1..];
  }

  lemma PositionAfterFirst(entries: seq<N.Entry>)
    requires entries != [] && !N.IsMergeKey(entries[0].0)
    ensures S.MergePosition(entries) == match S.MergePosition(entries[1..]) case None => None case Some(i) => Some(i + 1)
  {
    hide N.IsMergeKey;
  }

  lemma OwnAfterFirst(entries: seq<N.Entry>)
    requires entries != [] && !N.IsMergeKey(entries[0].0)
    ensures S.Own(entries) == [entries[0]] + S.Own(entries[1..])
    ensures S.MergePosition(entries) == match S.MergePosition(entries[1..]) case None => None case Some(i) => Some(i + 1)
  {
    hide N.IsMergeKey, S.MergePosition, RemoveAt;
    PositionAfterFirst(entries);
    var rest := entries[1..];
    match S.MergePosition(rest) {
      case None => FirstAndRest(entries);
      case Some(i) => RemoveLater(entries, i);
    }
  }

  // What one collection and one flat candidate list have in common.
  ghost predicate SameList(load: Loader, s: Stream, r: Entries, c: S.Merged) {
    r.Ok? && c.Ok? ==> AllMatch(load, s, r.value, c.value)
  }

  lemma {:induction false} MappingMatches(load: Loader, names: Naming, s: Stream, mapping: NodeId,
                                              entries: seq<N.Entry>, origin: Origin, stack: seq<NodeId>, depth: nat)
    requires StreamOk(s) && NamesApart(names) && AllAlike(load, names, s, mapping) && T.SingleEntries(entries)
    requires mapping < |s.nodes| && s.nodes[mapping].kind.Mapping? && EntriesExpand(load, s, s.nodes[mapping].kind.entries, entries)
    ensures SameList(load, s, Collect(s, mapping, origin, stack), S.Candidates(entries, depth))
    decreases entries, 0
  {
    hide StreamOk, Expands, CollectValue, CollectPairs, Matches, N.IsMergeKey, AllAlike, SourcesAlike, SeenAlike, IsMergeKeyAt;
    var r, c := Collect(s, mapping, origin, stack), S.Candidates(entries, depth);
    if r.Ok? && c.Ok? {
      var pairs := s.nodes[mapping].kind.entries;
      forall i | 0 <= i < |pairs| ensures SeenAlike(load, names, s, pairs[i].0) {
        PairsAlike(load, names, s, mapping, i);
      }
      PairsMatch(load, names, s, pairs, entries, origin, stack + [mapping]);
      var (explicit, merged) := CollectPairs(s, pairs, origin, stack + [mapping]).value;
      match S.MergePosition(entries) {
        case None => assert explicit + merged == explicit;
        case Some(i) =>
          assert EntryExpands(load, s, pairs[i], entries[i]) && T.SingleEntry(entries[i]);
          PairsAlike(load, names, s, mapping, i);
          SourceMatches(load, names, s, pairs[i], entries[i], stack + [mapping], depth);
          MatchConcat(load, s, explicit, S.Own(entries), merged, S.SourceCandidates(entries[i], depth).value);
      }
    }
  }

  // A merge value that loads as a mapping is one, or an alias to one.
  lemma MappingValue(load: Loader, s: Stream, key: NodeId, value: NodeId, n: N.Node, stack: seq<NodeId>) returns (mapping: NodeId, origin: Origin)
    requires StreamOk(s) && Expands(load, s, value, n) && n.value.Mapping? && CollectValue(s, key, value, stack).Ok?
    ensures CollectValue(s, key, value, stack) == Collect(s, mapping, origin, stack) && Supplies(s, value, mapping)
    ensures mapping < |s.nodes| && s.nodes[mapping].kind.Mapping? && EntriesExpand(load, s, s.nodes[mapping].kind.entries, n.value.entries)
  {
    hide Collect, EntriesExpand, Grounded, AnchorsOk, CollectChildren;
    mapping := Target(s, value);
    origin := match s.nodes[value].kind
      case Alias(_, alias, target) => Merged(key, Some(alias), Some(target))
      case _ => Merged(key, None, None);
  }

  // A merge value that loads as a list is one; aliases to lists are refused.
  lemma ListValue(load: Loader, s: Stream, key: NodeId, value: NodeId, n: N.Node, stack: seq<NodeId>)
    requires StreamOk(s) && Expands(load, s, value, n) && n.value.Sequence? && CollectValue(s, key, value, stack).Ok?
    ensures value < |s.nodes| && s.nodes[value].kind.Sequence?
    ensures var children := s.nodes[value].kind.children;
            && AllBetween(children, value, |s.nodes|)
            && CollectValue(s, key, value, stack) == CollectChildren(s, key, children, value + 1, stack)
            && |children| == |n.value.items| && forall i :: 0 <= i < |children| ==> Expands(load, s, children[i], n.value.items[i])
  {
    hide Collect, EntriesExpand, AnchorsOk, CollectChildren;
    if s.nodes[value].kind.Sequence? { KidsBetween(s.nodes, value); }
  }

  lemma ChildrenAlike(load: Loader, names: Naming, s: Stream, value: NodeId, i: nat)
    requires StreamOk(s) && SourcesAlike(load, names, s, value)
    requires value < |s.nodes| && s.nodes[value].kind.Sequence? && i < |s.nodes[value].kind.children|
    ensures SourcesAlike(load, names, s, s.nodes[value].kind.children[i])
  {
    hide GraphOk, AllAlike;
    var c := s.nodes[value].kind.children[i];
    forall mapping | Supplies(s, c, mapping) ensures AllAlike(load, names, s, mapping) {
      assert c in Kids(s.nodes[value]);
      assert Supplies(s, value, mapping);
    }
  }

  lemma {:induction false} SourceMatches(load: Loader, names: Naming, s: Stream, pair: (NodeId, NodeId),
                                             merge: N.Entry, stack: seq<NodeId>, depth: nat)
    requires StreamOk(s) && NamesApart(names) && SourcesAlike(load, names, s, pair.1)
    requires Expands(load, s, pair.1, merge.1) && T.SingleEntry(merge)
    ensures SameList(load, s, CollectValue(s, pair.0, pair.1, stack), S.SourceCandidates(merge, depth))
    decreases merge, 0
  {
    hide StreamOk, Expands, CollectValue, Collect, CollectChildren, Matches, Supplies, AllAlike;
    var r, c := CollectValue(s, pair.0, pair.1, stack), S.SourceCandidates(merge, depth);
    if r.Ok? && c.Ok? {
      match merge.1.value {
        case Mapping(source) =>
          var mapping, origin := MappingValue(load, s, pair.0, pair.1, merge.1, stack);
          MappingMatches(load, names, s, mapping, source, origin, stack, depth + 1);
        case Sequence(items) =>
          ListValue(load, s, pair.0, pair.1, merge.1, stack);
          var children := s.nodes[pair.1].kind.children;
          forall i | 0 <= i < |children| ensures SourcesAlike(load, names, s, children[i]) {
            ChildrenAlike(load, names, s, pair.1, i);
          }
          ChildrenMatch(load, names, s, pair.0, children, pair.1 + 1, items, stack, depth + 1);
      }
    }
  }

  lemma {:induction false} ChildrenMatch(load: Loader, names: Naming, s: Stream, key: NodeId, children: seq<NodeId>,
                                             low: nat, items: seq<N.Node>, stack: seq<NodeId>, depth: nat)
    requires StreamOk(s) && NamesApart(names) && AllBetween(children, low - 1, |s.nodes|) && low <= |s.nodes|
    requires forall i :: 0 <= i < |children| ==> SourcesAlike(load, names, s, children[i])
    requires |children| == |items| && forall i :: 0 <= i < |items| ==> Expands(load, s, children[i], items[i]) && T.Single(items[i])
    ensures SameList(load, s, CollectChildren(s, key, children, low, stack), S.ListCandidates(items, depth))
    decreases items, 1
  {
    hide StreamOk, Expands, CollectValue, Matches, T.Single, SourcesAlike;
    if items != [] && CollectChildren(s, key, children, low, stack).Ok? && S.ListCandidates(items, depth).Ok? {
      ItemMatches(load, names, s, key, children[0], items[0], stack, depth);
      ChildrenMatch(load, names, s, key, children[1..], low, items[1..], stack, depth);
      MatchConcat(load, s, CollectValue(s, key, children[0], stack).value, S.ItemCandidates(items[0], depth).value,
                  CollectChildren(s, key, children[1..], low, stack).value, S.ListCandidates(items[1..], depth).value);
    }
  }

  lemma {:induction false} ItemMatches(load: Loader, names: Naming, s: Stream, key: NodeId, child: NodeId,
                                           item: N.Node, stack: seq<NodeId>, depth: nat)
    requires StreamOk(s) && NamesApart(names) && SourcesAlike(load, names, s, child)
    requires Expands(load, s, child, item) && T.Single(item)
    ensures SameList(load, s, CollectValue(s, key, child, stack), S.ItemCandidates(item, depth))
    decreases item, 0
  {
    hide StreamOk, Expands, CollectValue, Collect, Matches, Supplies, AllAlike;
    if CollectValue(s, key, child, stack).Ok? && S.ItemCandidates(item, depth).Ok? {
      var mapping, origin := MappingValue(load, s, key, child, item, stack);
      MappingMatches(load, names, s, mapping, item.value.entries, origin, stack, depth);
    }
  }

  // ----- Overriding is keeping the first entry of every key ------------------------------------------

  /** The entries that are not overridden. */
  function Visible(es: seq<Effective>): seq<Effective> {
    if es == [] then []
    else Visible(es[..|es| - 1]) + if es[|es| - 1].overridden then [] else [es[|es| - 1]]
  }

  ghost predicate AllNamed(load: Loader, names: Naming, s: Stream, es: seq<Effective>) {
    forall i :: 0 <= i < |es| ==> Named(load, names, s, es[i].key)
  }

  lemma RepeatsByIdentity(load: Loader, names: Naming, s: Stream, es: seq<Effective>, ts: seq<N.Entry>, n: nat)
    requires NamesApart(names) && AllNamed(load, names, s, es) && AllMatch(load, s, es, ts) && n < |es|
    ensures Repeats(s, es, n) <==> HasKey(S.ByIdentity, ts[..n], ts[n].0)
  {
    hide Expands, Named, IsMergeKeyAt, BangMergeKey, N.IsMergeKey;
    assert Matches(load, s, es[n], ts[n]);
    KeyFacts(load, names, s, es[n].key, ts[n].0);
    forall j | 0 <= j < n
      ensures ScalarKey(s, es[j].key) == ScalarKey(s, es[n].key) <==> S.ByIdentity(ts[..n][j].0, ts[n].0)
    {
      assert Matches(load, s, es[j], ts[j]);
      KeyFacts(load, names, s, es[j].key, ts[j].0);
    }
  }

  // One more entry is shown exactly if its key is new among the candidates.
  lemma ShownIfNew(load: Loader, names: Naming, s: Stream, es: seq<Effective>, marked: seq<Effective>, ts: seq<N.Entry>, m: nat)
    requires NamesApart(names) && AllNamed(load, names, s, es) && AllMatch(load, s, es, ts) && Unmarked(es) && MarkedFrom(s, es, marked) && m < |es|
    ensures marked[m].overridden <==> HasKey(S.ByIdentity, InsertMissing(S.ByIdentity, [], ts[..m]), ts[m].0)
    ensures Matches(load, s, marked[m], ts[m])
  {
    hide Matches, Repeats;
    RepeatsByIdentity(load, names, s, es, ts, m);
    S.IdentityIsEquivalence();
    KeysAfterInsert(S.ByIdentity, [], ts[..m], ts[m].0);
    MatchIgnoresMark(load, s, es[m], marked[m], ts[m]);
  }

  lemma InsertOneMore(ts: seq<N.Entry>, m: nat)
    requires m < |ts|
    ensures InsertMissing(S.ByIdentity, [], ts[..m + 1]) == AddMissing(S.ByIdentity, InsertMissing(S.ByIdentity, [], ts[..m]), ts[m])
  {
    hide HasKey;
    InsertMissingConcat(S.ByIdentity, [], ts[..m], [ts[m]]);
    assert ts[..m + 1] == ts[..m] + [ts[m]];
    var first := InsertMissing(S.ByIdentity, [], ts[..m]);
    assert InsertMissing(S.ByIdentity, first, [ts[m]]) == AddMissing(S.ByIdentity, first, ts[m]);
  }

  lemma {:induction false} VisibleAreFirst(load: Loader, names: Naming, s: Stream, es: seq<Effective>,
                                               marked: seq<Effective>, ts: seq<N.Entry>, n: nat)
    requires NamesApart(names) && AllNamed(load, names, s, es) && AllMatch(load, s, es, ts) && Unmarked(es) && MarkedFrom(s, es, marked) && n <= |es|
    ensures AllMatch(load, s, Visible(marked[..n]), InsertMissing(S.ByIdentity, [], ts[..n]))
  {
    hide Matches, Repeats, HasKey, InsertMissing;
    if n > 0 {
      var m := n - 1;
      VisibleAreFirst(load, names, s, es, marked, ts, m);
      ShownIfNew(load, names, s, es, marked, ts, m);
      InsertOneMore(ts, m);
      assert marked[..n][..m] == marked[..m];
    } else {
      NothingInserted(ts);
    }
  }

  lemma NothingInserted(ts: seq<N.Entry>)
    ensures InsertMissing(S.ByIdentity, [], ts[..0]) == []
  {
  }

  lemma MatchIgnoresMark(load: Loader, s: Stream, e: Effective, e': Effective, t: N.Entry)
    requires Matches(load, s, e, t) && e'.key == e.key && e'.value == e.value
    ensures Matches(load, s, e', t)
  {
  }

  ghost predicate UniqueKeys(entries: seq<N.Entry>) {
    forall i, j :: 0 <= i < j < |entries| ==> !S.ByIdentity(entries[i].0, entries[j].0)
  }

  lemma {:induction false} InsertIntoNothing(entries: seq<N.Entry>, n: nat)
    requires n <= |entries|
    ensures |InsertMissing(S.ByIdentity, [], entries[..n])| <= n
    ensures |InsertMissing(S.ByIdentity, [], entries[..n])| == n <==> UniqueKeys(entries[..n])
    ensures UniqueKeys(entries[..n]) ==> InsertMissing(S.ByIdentity, [], entries[..n]) == entries[..n]
  {
    hide InsertMissing;
    if n > 0 {
      var m := n - 1;
      InsertIntoNothing(entries, m);
      S.IdentityIsEquivalence();
      KeysAfterInsert(S.ByIdentity, [], entries[..m], entries[m].0);
      InsertOneMore(entries, m);
      assert entries[..n] == entries[..m] + [entries[m]];
      assert entries[..n][m] == entries[m] && forall i :: 0 <= i < m ==> entries[..n][i] == entries[..m][i];
    } else {
      NothingInserted(entries);
    }
  }

  // Two targets with the same keys gain the same entries.
  lemma {:induction false} SameGain(x: seq<N.Entry>, y: seq<N.Entry>, extra: seq<N.Entry>)
    requires forall key :: HasKey(S.ByIdentity, x, key) <==> HasKey(S.ByIdentity, y, key)
    ensures |InsertMissing(S.ByIdentity, x, extra)| - |x| == |InsertMissing(S.ByIdentity, y, extra)| - |y|
    decreases extra
  {
    if extra != [] {
      var e := extra[0];
      var x', y' := AddMissing(S.ByIdentity, x, e), AddMissing(S.ByIdentity, y, e);
      forall key ensures HasKey(S.ByIdentity, x', key) <==> HasKey(S.ByIdentity, y', key) {
        KeysAfterAdd(x, e, key);
        KeysAfterAdd(y, e, key);
      }
      SameGain(x', y', extra[1..]);
    }
  }

  lemma KeysAfterAdd(x: seq<N.Entry>, e: N.Entry, key: N.Node)
    ensures HasKey(S.ByIdentity, AddMissing(S.ByIdentity, x, e), key)
       <==> HasKey(S.ByIdentity, x, key) || (S.ByIdentity(e.0, key) && !HasKey(S.ByIdentity, x, e.0))
  {
    if !HasKey(S.ByIdentity, x, e.0) {
      var next := x + [e];
      assert next[|x|] == e && forall i :: 0 <= i < |x| ==> next[i] == x[i];
    }
  }

  // Keeping the first of all keys, against never comparing the own entries.
  lemma FirstAgainstOwn(own: seq<N.Entry>, ts: seq<N.Entry>)
    requires own <= ts
    ensures var rest := ts[|own|..];
            && (UniqueKeys(own) ==> InsertMissing(S.ByIdentity, [], ts) == InsertMissing(S.ByIdentity, own, rest))
            && (!UniqueKeys(own) ==> |InsertMissing(S.ByIdentity, [], ts)| < |InsertMissing(S.ByIdentity, own, rest)|)
  {
    var rest := ts[|own|..];
    assert ts == own + rest && own[..|own|] == own;
    InsertMissingConcat(S.ByIdentity, [], own, rest);
    InsertIntoNothing(own, |own|);
    S.IdentityIsEquivalence();
    var first := InsertMissing(S.ByIdentity, [], own);
    forall key ensures HasKey(S.ByIdentity, first, key) <==> HasKey(S.ByIdentity, own, key) {
      KeysAfterInsert(S.ByIdentity, [], own, key);
    }
    SameGain(first, own, rest);
  }

  // ----- A `! <<` that is reached is shown ----------------------------------------------------------

  lemma {:induction false} ShownIsVisible(marked: seq<Effective>, i: nat)
    requires i < |marked| && !marked[i].overridden
    ensures exists p :: 0 <= p < |Visible(marked)| && Visible(marked)[p] == marked[i]
    decreases |marked|
  {
    var n := |marked| - 1;
    var first := Visible(marked[..n]);
    if i < n {
      ShownIsVisible(marked[..n], i);
      var p :| 0 <= p < |first| && first[p] == marked[..n][i];
      assert Visible(marked)[p] == first[p];
    } else {
      assert Visible(marked)[|first|] == marked[i];
    }
  }

  // The first use of a key text is never overridden.
  lemma {:induction false} FirstUse(s: Stream, es: seq<Effective>, i: nat) returns (j: nat)
    requires i < |es|
    ensures j <= i && ScalarKey(s, es[j].key) == ScalarKey(s, es[i].key) && !Repeats(s, es, j)
  {
    if k :| 0 <= k < i && ScalarKey(s, es[k].key) == ScalarKey(s, es[i].key) {
      j := FirstUse(s, es, k);
    } else {
      j := i;
    }
  }

  /** No merge key under a foreign tag is reached from the mapping, and every key that
      is reached has the identity its text names. */
  ghost predicate KeysNamed(load: Loader, names: Naming, s: Stream, mapping: NodeId)
    requires StreamOk(s)
  {
    forall key :: Reached(s, mapping, key) ==> Named(load, names, s, key) && !ForeignMergeKey(s, key)
  }

  /** No key `! <<` is reached from the mapping. */
  ghost predicate NoBangReached(s: Stream, mapping: NodeId)
    requires StreamOk(s)
  {
    forall key :: Reached(s, mapping, key) ==> !BangMergeKey(s, key)
  }

  lemma CollectedKeys(load: Loader, names: Naming, s: Stream, mapping: NodeId, i: nat)
    requires StreamOk(s) && KeysNamed(load, names, s, mapping) && Collect(s, mapping, Explicit, []).Ok?
    requires i < |Collect(s, mapping, Explicit, []).value|
    ensures var e := Collect(s, mapping, Explicit, []).value[i];
            && Reached(s, mapping, e.key) && Named(load, names, s, e.key) && !ForeignMergeKey(s, e.key)
            && IsMergeKeyAt(s, e.key) == Ok(false) && !e.overridden
  {
    hide StreamOk, Collect, Reached, Named, ForeignMergeKey, IsMergeKeyAt;
    CollectedIsReached(s, mapping, Explicit, [], Collect(s, mapping, Explicit, []).value[i]);
  }

  // The text `<<` on a collected key means `! <<`.
  lemma OrdinaryMergeText(load: Loader, names: Naming, s: Stream, key: NodeId)
    requires IsMergeKeyAt(s, key) == Ok(false) && !ForeignMergeKey(s, key)
    ensures ScalarKey(s, key) == Some("<<") ==> BangMergeKey(s, key)
  {
  }

  lemma ReachedBangIsShown(load: Loader, names: Naming, s: Stream, mapping: NodeId, marked: seq<Effective>, key: NodeId) returns (p: nat)
    requires StreamOk(s) && KeysNamed(load, names, s, mapping) && Collect(s, mapping, Explicit, []).Ok?
    requires MarkedFrom(s, Collect(s, mapping, Explicit, []).value, marked)
    requires Reached(s, mapping, key) && BangMergeKey(s, key)
    ensures p < |Visible(marked)| && BangMergeKey(s, Visible(marked)[p].key) && Named(load, names, s, Visible(marked)[p].key)
  {
    hide StreamOk, Collect, Reached, KeysNamed, Named, ForeignMergeKey, Repeats, Visible;
    var es := Collect(s, mapping, Explicit, []).value;
    CollectedKeysAreReached(s, mapping, key);
    var i :| 0 <= i < |es| && es[i].key == key;
    var j := FirstUse(s, es, i);
    CollectedKeys(load, names, s, mapping, j);
    OrdinaryMergeText(load, names, s, es[j].key);
    ShownIsVisible(marked, j);
    p :| 0 <= p < |Visible(marked)| && Visible(marked)[p] == marked[j];
  }

  // A shown `! <<` has no counterpart: merging uses every merge key up.
  lemma ShownBangParts(load: Loader, names: Naming, s: Stream, shown: seq<Effective>, merged: seq<N.Entry>, p: nat)
    requires NamesApart(names) && p < |shown| && BangMergeKey(s, shown[p].key) && Named(load, names, s, shown[p].key)
    requires T.NoKeys(merged)
    ensures !AllMatch(load, s, shown, merged)
  {
    hide Expands, N.IsMergeKey, Named, BangMergeKey, IsMergeKeyAt;
    if AllMatch(load, s, shown, merged) {
      assert merged[p] in merged;
      assert Matches(load, s, shown[p], merged[p]);
      KeyFacts(load, names, s, shown[p].key, merged[p].0);
    }
  }

  // ----- The refinement ---------------------------------------------------------------------------

  // Without `! <<` only the own entries can tell the views apart.
  lemma AlikeViews(load: Loader, names: Naming, s: Stream, mapping: NodeId, entries: seq<N.Entry>,
                  marked: seq<Effective>, depth: nat)
    requires StreamOk(s) && NamesApart(names) && KeysNamed(load, names, s, mapping) && NoBangReached(s, mapping)
    requires T.SingleEntries(entries)
    requires mapping < |s.nodes| && s.nodes[mapping].kind.Mapping? && EntriesExpand(load, s, s.nodes[mapping].kind.entries, entries)
    requires Collect(s, mapping, Explicit, []).Ok? && S.MergeEntries(entries, depth).Ok?
    requires MarkedFrom(s, Collect(s, mapping, Explicit, []).value, marked)
    ensures AllMatch(load, s, Visible(marked), S.MergeEntries(entries, depth).value) <==> UniqueKeys(S.Own(entries))
  {
    hide StreamOk, Collect, EntriesExpand, Matches, Repeats, UniqueKeys, T.SingleEntries, Named, ForeignMergeKey, BangMergeKey, Reached, S.Scans;
    var es := Collect(s, mapping, Explicit, []).value;
    S.StrictMergeIsFlattening(entries, depth);
    var ts := S.Candidates(entries, depth).value;
    MappingMatches(load, names, s, mapping, entries, Explicit, [], depth);
    forall i | 0 <= i < |es| ensures Named(load, names, s, es[i].key) && !es[i].overridden {
      CollectedKeys(load, names, s, mapping, i);
    }
    VisibleAreFirst(load, names, s, es, marked, ts, |es|);
    assert marked[..|es|] == marked && ts[..|es|] == ts;
    S.OwnStartsCandidates(entries, depth);
    FirstAgainstOwn(S.Own(entries), ts);
  }

  /** Both views succeed: the entries the lossless view shows are, in order, key by key
      and value by value, the entries strict merging gives the loaded mapping, exactly
      when the mapping does not repeat one of its own keys (which the loader rejects)
      and no key `! <<` is reached. */
  lemma EffectiveViewRefinesMerge(load: Loader, names: Naming, s: Stream, mapping: NodeId, entries: seq<N.Entry>,
                  marked: seq<Effective>, depth: nat)
    requires StreamOk(s) && NamesApart(names) && KeysNamed(load, names, s, mapping) && T.SingleEntries(entries)
    requires mapping < |s.nodes| && s.nodes[mapping].kind.Mapping? && EntriesExpand(load, s, s.nodes[mapping].kind.entries, entries)
    requires Collect(s, mapping, Explicit, []).Ok? && S.MergeEntries(entries, depth).Ok?
    requires MarkedFrom(s, Collect(s, mapping, Explicit, []).value, marked)
    ensures AllMatch(load, s, Visible(marked), S.MergeEntries(entries, depth).value)
       <==> UniqueKeys(S.Own(entries)) && NoBangReached(s, mapping)
  {
    hide StreamOk, Collect, EntriesExpand, AllMatch, UniqueKeys, T.SingleEntries, KeysNamed, BangMergeKey, Reached;
    if NoBangReached(s, mapping) {
      AlikeViews(load, names, s, mapping, entries, marked, depth);
    } else {
      var key :| Reached(s, mapping, key) && BangMergeKey(s, key);
      var p := ReachedBangIsShown(load, names, s, mapping, marked, key);
      T.MergeUsesEveryKey(entries, depth);
      ShownBangParts(load, names, s, Visible(marked), S.MergeEntries(entries, depth).value, p);
    }
  }

  // ----- Where the two views part -------------------------------------------------------------------

  const AT := N.Span(0, 0, 0, 0)

  function Leaf(id: NodeId, text: string, tag: Option<EventTag>): GraphNode {
    GraphNode(id, AT, None, tag, Scalar(text, ScalarStyle.Plain))
  }

  // Reads every scalar as a string.
  const AS_STRING: Loader := (text, style, tag) => N.String(text)

  // The stream `{! <<: {a: b}}`.
  const BANG_STREAM := Stream([],
    [GraphNode(0, AT, None, None, Mapping(Flow, [(1, 2)])),
     Leaf(1, "<<", Some(EventTag(NON_SPECIFIC, AT))),
     GraphNode(2, AT, None, None, Mapping(Flow, [(3, 4)])),
     Leaf(3, "a", None),
     Leaf(4, "b", None)], [], [])

  const BANG_TREE: seq<N.Entry> :=
    [(N.Node(N.String("<<"), AT), N.Node(N.Mapping([(N.Node(N.String("a"), AT), N.Node(N.String("b"), AT))]), AT))]

  lemma FlattenOne(k: NodeId, v: NodeId)
    ensures FlattenPairs([(k, v)]) == [k, v]
  {
    assert [(k, v)][..0] == [];
  }

  lemma BangStreamIsOk()
    ensures StreamOk(BANG_STREAM)
  {
    hide FlattenPairs;
    FlattenOne(1, 2);
    FlattenOne(3, 4);
    var nodes := BANG_STREAM.nodes;
    assert Kids(nodes[0]) == [1, 2] && Kids(nodes[2]) == [3, 4];
    assert Kids(nodes[1]) == [] && Kids(nodes[3]) == [] && Kids(nodes[4]) == [];
  }

  lemma BangTreeIsLoaded()
    ensures EntriesExpand(AS_STRING, BANG_STREAM, [(1, 2)], BANG_TREE)
  {
    var inner := BANG_TREE[0].1.value.entries;
    assert Expands(AS_STRING, BANG_STREAM, 4, inner[0].1);
    assert EntryExpands(AS_STRING, BANG_STREAM, (3, 4), inner[0]);
    assert EntriesExpand(AS_STRING, BANG_STREAM, [(3, 4)], inner);
    assert Expands(AS_STRING, BANG_STREAM, 2, BANG_TREE[0].1);
    assert EntryExpands(AS_STRING, BANG_STREAM, (1, 2), BANG_TREE[0]);
  }

  /** A key `! <<` is a merge key of the loaded tree, but not of the graph: the
      lossless view keeps it as an entry, the loader merges it away. */
  lemma BangMergeKeyParts()
    ensures StreamOk(BANG_STREAM) && BangMergeKey(BANG_STREAM, 1) && EntriesExpand(AS_STRING, BANG_STREAM, [(1, 2)], BANG_TREE)
    ensures Collect(BANG_STREAM, 0, Explicit, []) == Ok([Effective(1, 2, Explicit, false)])
    ensures S.MergeEntries(BANG_TREE, 0) == Ok(BANG_TREE[0].1.value.entries)
    ensures !Matches(AS_STRING, BANG_STREAM, Effective(1, 2, Explicit, false), BANG_TREE[0].1.value.entries[0])
  {
    hide StreamOk, Expands;
    BangStreamIsOk();
    BangTreeIsLoaded();
    BangCollects();
    BangMerges();
    BangKeyIsNotA();
  }

  lemma BangKeyIsNotA()
    ensures !Expands(AS_STRING, BANG_STREAM, 1, BANG_TREE[0].1.value.entries[0].0)
  {
    var n := BANG_TREE[0].1.value.entries[0].0;
    assert Target(BANG_STREAM, 1) == 1 && n.value == N.String("a");
    assert !NodeExpands(AS_STRING, BANG_STREAM, BANG_STREAM.nodes[1], n);
  }

  lemma BangCollects()
    ensures StreamOk(BANG_STREAM)
    ensures Collect(BANG_STREAM, 0, Explicit, []) == Ok([Effective(1, 2, Explicit, false)])
  {
    hide StreamOk;
    BangStreamIsOk();
    assert IsMergeKeyAt(BANG_STREAM, 1) == Ok(false);
    var first := Effective(1, 2, Explicit, false);
    assert CollectPairs(BANG_STREAM, [], Explicit, [0]) == Ok(([], []));
    var none: seq<Effective> := [];
    assert [(1, 2)][1..] == [] && [first] + none == [first] && none + none == none;
    assert Joined([first], none, Ok((none, none))) == Ok(([first], none));
    assert [] + [0] == [0];
    assert CollectPairs(BANG_STREAM, [(1, 2)], Explicit, [0]) == Ok(([Effective(1, 2, Explicit, false)], []));
  }

  lemma BangMerges()
    ensures S.MergeEntries(BANG_TREE, 0) == Ok(BANG_TREE[0].1.value.entries)
  {
    var inner := BANG_TREE[0].1.value.entries;
    assert S.MergePosition(inner[1..]) == None;
    assert RemoveAt(BANG_TREE, 0) == [];
    assert S.MergeEntries(inner, 1) == Ok(inner);
    assert inner[1..] == [];
    assert S.KeyPosition([], inner[0].0) == Ok(None);
    assert [] + [inner[0]] == [inner[0]] == inner;
    assert S.InsertMissingChecked([inner[0]], []) == Ok([inner[0]]);
    assert S.InsertMissingChecked([], inner) == Ok(inner);
  }
}
