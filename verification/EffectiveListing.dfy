// What the effective view of a mapping lists, entry by entry: the places its entries
// have in the document, their order, and the origin of each.
module EffectiveListing {
  import opened Prelude
  import opened LosslessGraph
  import opened LosslessRoundTrip
  import opened EffectiveEntries
  import opened EffectiveCycles

  /** Steps through merge values and the items of sequences, then the place of an
      ordinary entry in its mapping. */
  type Place = seq<nat>

  type Entries = (Place, Effective) -> bool

  // ----- The entries of a mapping ------------------------------------------------------------------

  /** The entry `e` of the view of a mapping, with its place; `origin` is that of the
      mapping's own entries. */
  ghost predicate Shows(s: Stream, mapping: NodeId, origin: Origin, place: Place, e: Effective)
    decreases |place|, 1
  {
    && mapping < |s.nodes| && s.nodes[mapping].kind.Mapping?
    && (OwnEntry(s, s.nodes[mapping].kind.entries, origin, place, e) || MergedEntry(s, s.nodes[mapping].kind.entries, place, e))
  }

  ghost predicate OwnEntry(s: Stream, pairs: seq<(NodeId, NodeId)>, origin: Origin, place: Place, e: Effective) {
    && |place| == 1 && place[0] < |pairs| && IsMergeKeyAt(s, pairs[place[0]].0) == Ok(false)
    && e == Effective(pairs[place[0]].0, pairs[place[0]].1, origin, false)
  }

  ghost predicate MergedEntry(s: Stream, pairs: seq<(NodeId, NodeId)>, place: Place, e: Effective)
    decreases |place|, 0
  {
    && |place| > 1 && place[0] < |pairs| && IsMergeKeyAt(s, pairs[place[0]].0) == Ok(true)
    && ValueShows(s, pairs[place[0]].0, pairs[place[0]].1, place[1..], e)
  }

  /** A merge value shows the entries of its mapping, with the merge key and the alias
      they came by as their origin. */
  ghost predicate ValueShows(s: Stream, merge_key: NodeId, value: NodeId, place: Place, e: Effective)
    decreases |place|, 2
  {
    && value < |s.nodes|
    && match s.nodes[value].kind
       case Alias(_, alias, target) =>
         target < |s.anchors| && Shows(s, s.anchors[target].node, Merged(merge_key, Some(alias), Some(target)), place, e)
       case Sequence(_, children) => ItemShows(s, merge_key, children, place, e)
       case Mapping(_, _) => Shows(s, value, Merged(merge_key, None, None), place, e)
       case Scalar(_, _) => false
  }

  ghost predicate ItemShows(s: Stream, merge_key: NodeId, items: seq<NodeId>, place: Place, e: Effective)
    decreases |place|, 0
  {
    |place| > 1 && place[0] < |items| && ValueShows(s, merge_key, items[place[0]], place[1..], e)
  }

  /** The order of the view: own entries before merged ones, then document order. */
  predicate Ahead(p: Place, q: Place) {
    && p != [] && q != []
    && if |p| == 1 then |q| > 1 || p[0] < q[0] else |q| > 1 && (p[0] < q[0] || (p[0] == q[0] && Ahead(p[1..], q[1..])))
  }

  /** The list holds every entry once, in that order. */
  ghost predicate Lists(es: seq<Effective>, entries: Entries, places: seq<Place>) {
    Holds(es, entries, places) && InOrder(places) && Complete(entries, places)
  }

  ghost predicate Holds(es: seq<Effective>, entries: Entries, places: seq<Place>) {
    |places| == |es| && forall k :: 0 <= k < |es| ==> entries(places[k], es[k])
  }

  ghost predicate InOrder(places: seq<Place>) {
    forall i, j :: 0 <= i < j < |places| ==> Ahead(places[i], places[j])
  }

  ghost predicate Complete(entries: Entries, places: seq<Place>) {
    forall p, e :: entries(p, e) ==> p in places
  }

  ghost predicate Listed(es: seq<Effective>, entries: Entries) {
    exists places :: Lists(es, entries, places)
  }

  // ----- Putting lists together --------------------------------------------------------------------

  lemma ListedAlike(es: seq<Effective>, entries: Entries, alike: Entries)
    requires Listed(es, entries) && forall p, e :: entries(p, e) <==> alike(p, e)
    ensures Listed(es, alike)
  {
    var places :| Lists(es, entries, places);
    assert Lists(es, alike, places);
  }

  lemma NothingListed(entries: Entries)
    requires forall p, e :: !entries(p, e)
    ensures Listed([], entries)
  {
    assert Lists([], entries, []);
  }

  // One list in front of another.
  lemma ListedTogether(xs: seq<Effective>, front: Entries, ys: seq<Effective>, back: Entries, all: Entries)
    requires Listed(xs, front) && Listed(ys, back)
    requires forall p, e :: all(p, e) <==> front(p, e) || back(p, e)
    requires forall p, e, q, f :: front(p, e) && back(q, f) ==> Ahead(p, q)
    ensures Listed(xs + ys, all)
  {
    hide Ahead, Complete, InOrder, Holds;
    var p :| Lists(xs, front, p);
    var q :| Lists(ys, back, q);
    HoldsTogether(xs, front, p, ys, back, q, all);
    InOrderTogether(xs, front, p, ys, back, q);
    CompleteTogether(front, p, back, q, all);
    assert Lists(xs + ys, all, p + q);
  }

  lemma HoldsTogether(xs: seq<Effective>, front: Entries, p: seq<Place>, ys: seq<Effective>, back: Entries, q: seq<Place>, all: Entries)
    requires Holds(xs, front, p) && Holds(ys, back, q) && forall p, e :: all(p, e) <==> front(p, e) || back(p, e)
    ensures Holds(xs + ys, all, p + q)
  {
    forall k | 0 <= k < |p + q| ensures all((p + q)[k], (xs + ys)[k]) {
      if k < |p| { assert front(p[k], xs[k]); } else { assert back(q[k - |p|], ys[k - |p|]); }
    }
  }

  lemma InOrderTogether(xs: seq<Effective>, front: Entries, p: seq<Place>, ys: seq<Effective>, back: Entries, q: seq<Place>)
    requires Holds(xs, front, p) && InOrder(p) && Holds(ys, back, q) && InOrder(q)
    requires forall p, e, q, f :: front(p, e) && back(q, f) ==> Ahead(p, q)
    ensures InOrder(p + q)
  {
    hide Ahead;
    forall i, j | 0 <= i < j < |p + q| ensures Ahead((p + q)[i], (p + q)[j]) {
      if j < |p| {
        assert Ahead(p[i], p[j]);
      } else if i < |p| {
        assert front(p[i], xs[i]) && back(q[j - |p|], ys[j - |p|]);
      } else {
        assert Ahead(q[i - |p|], q[j - |p|]);
      }
    }
  }

  lemma CompleteTogether(front: Entries, p: seq<Place>, back: Entries, q: seq<Place>, all: Entries)
    requires Complete(front, p) && Complete(back, q) && forall p, e :: all(p, e) <==> front(p, e) || back(p, e)
    ensures Complete(all, p + q)
  {
  }

  function Under(step: nat, places: seq<Place>): (r: seq<Place>)
    ensures |r| == |places| && forall k :: 0 <= k < |r| ==> r[k] == [step] + places[k]
  {
    if places == [] then [] else [[step] + places[0]] + Under(step, places[1..])
  }

  // A list below the first step.
  lemma ListedUnder(es: seq<Effective>, below: Entries, all: Entries)
    requires Listed(es, below) && forall p, e :: below(p, e) ==> p != []
    requires forall p, e :: all(p, e) <==> |p| > 1 && p[0] == 0 && below(p[1..], e)
    ensures Listed(es, all)
  {
    hide Ahead, Complete, InOrder;
    var q :| Lists(es, below, q);
    var places := Under(0, q);
    forall k | 0 <= k < |es| ensures all(places[k], es[k]) {
      assert below(q[k], es[k]) && places[k][1..] == q[k];
    }
    InOrderUnder(es, below, q);
    CompleteUnder(below, q, all);
    assert Lists(es, all, places);
  }

  lemma InOrderUnder(es: seq<Effective>, below: Entries, q: seq<Place>)
    requires Holds(es, below, q) && InOrder(q) && forall p, e :: below(p, e) ==> p != []
    ensures InOrder(Under(0, q))
  {
    var places := Under(0, q);
    forall i, j | 0 <= i < j < |places| ensures Ahead(places[i], places[j]) {
      assert below(q[i], es[i]) && below(q[j], es[j]);
      assert places[i][1..] == q[i] && places[j][1..] == q[j];
    }
  }

  lemma CompleteUnder(below: Entries, q: seq<Place>, all: Entries)
    requires Complete(below, q) && forall p, e :: all(p, e) <==> |p| > 1 && p[0] == 0 && below(p[1..], e)
    ensures Complete(all, Under(0, q))
  {
    forall p, e | all(p, e) ensures p in Under(0, q) {
      var k :| 0 <= k < |q| && q[k] == p[1..];
      assert p == [0] + p[1..] == Under(0, q)[k];
    }
  }

  function Later(p: Place): (r: Place)
    requires p != []
  {
    [p[0] + 1] + p[1..]
  }

  function Earlier(p: Place): (r: Place)
    requires p != [] && p[0] > 0
    ensures r != [] && r[0] == p[0] - 1 && r[1..] == p[1..] && |r| == |p|
  {
    [p[0] - 1] + p[1..]
  }

  lemma BackAndForth(p: Place)
    ensures p != [] ==> Earlier(Later(p)) == p
    ensures p != [] && p[0] > 0 ==> Later(Earlier(p)) == p
  {
  }

  function AllLater(places: seq<Place>): (r: seq<Place>)
    requires forall k :: 0 <= k < |places| ==> places[k] != []
    ensures |r| == |places| && forall k :: 0 <= k < |r| ==> r[k] == Later(places[k])
  {
    if places == [] then [] else [Later(places[0])] + AllLater(places[1..])
  }

  lemma LaterKeepsOrder(p: Place, q: Place)
    requires p != [] && q != []
    ensures Ahead(Later(p), Later(q)) <==> Ahead(p, q)
  {
    assert Later(p)[1..] == p[1..] && Later(q)[1..] == q[1..];
  }

  // A list behind the first step.
  lemma ListedBehind(es: seq<Effective>, rest: Entries, all: Entries)
    requires Listed(es, rest) && forall p, e :: rest(p, e) ==> p != []
    requires forall p, e :: all(p, e) <==> p != [] && p[0] > 0 && rest(Earlier(p), e)
    ensures Listed(es, all)
  {
    hide Ahead, Complete, InOrder;
    var q :| Lists(es, rest, q);
    assert forall k :: 0 <= k < |q| ==> rest(q[k], es[k]);
    var places := AllLater(q);
    forall k | 0 <= k < |es| ensures all(places[k], es[k]) {
      BackAndForth(q[k]);
    }
    InOrderBehind(q);
    CompleteBehind(rest, q, all);
    assert Lists(es, all, places);
  }

  lemma InOrderBehind(q: seq<Place>)
    requires InOrder(q) && forall k :: 0 <= k < |q| ==> q[k] != []
    ensures InOrder(AllLater(q))
  {
    hide Ahead;
    forall i, j | 0 <= i < j < |q| ensures Ahead(AllLater(q)[i], AllLater(q)[j]) {
      LaterKeepsOrder(q[i], q[j]);
    }
  }

  lemma CompleteBehind(rest: Entries, q: seq<Place>, all: Entries)
    requires Complete(rest, q) && forall k :: 0 <= k < |q| ==> q[k] != []
    requires forall p, e :: all(p, e) <==> p != [] && p[0] > 0 && rest(Earlier(p), e)
    ensures Complete(all, AllLater(q))
  {
    forall p, e | all(p, e) ensures p in AllLater(q) {
      BackAndForth(p);
      var k :| 0 <= k < |q| && q[k] == Earlier(p);
      assert AllLater(q)[k] == p;
    }
  }

  // ----- What is collected --------------------------------------------------------------------------

  ghost function EntriesOf(s: Stream, mapping: NodeId, origin: Origin): Entries {
    (p, e) => Shows(s, mapping, origin, p, e)
  }

  ghost function OwnOf(s: Stream, pairs: seq<(NodeId, NodeId)>, origin: Origin): Entries {
    (p, e) => OwnEntry(s, pairs, origin, p, e)
  }

  ghost function MergedOf(s: Stream, pairs: seq<(NodeId, NodeId)>): Entries {
    (p, e) => MergedEntry(s, pairs, p, e)
  }

  ghost function ValueOf(s: Stream, merge_key: NodeId, value: NodeId): Entries {
    (p, e) => ValueShows(s, merge_key, value, p, e)
  }

  ghost function ItemsOf(s: Stream, merge_key: NodeId, items: seq<NodeId>): Entries {
    (p, e) => ItemShows(s, merge_key, items, p, e)
  }

  lemma ShownPlace(s: Stream, mapping: NodeId, origin: Origin, p: Place, e: Effective)
    requires Shows(s, mapping, origin, p, e)
    ensures p != []
  {
  }

  lemma PlaceIsNotEmpty(s: Stream, key: NodeId, value: NodeId, p: Place, e: Effective)
    requires ValueShows(s, key, value, p, e)
    ensures p != []
  {
    match s.nodes[value].kind {
      case Alias(_, alias, target) => ShownPlace(s, s.anchors[target].node, Merged(key, Some(alias), Some(target)), p, e);
      case Sequence(_, children) => assert ItemShows(s, key, children, p, e);
      case Mapping(_, _) => ShownPlace(s, value, Merged(key, None, None), p, e);
    }
  }

  lemma PlacesAreNotEmpty(s: Stream, key: NodeId, value: NodeId)
    ensures forall p, e :: ValueOf(s, key, value)(p, e) ==> p != []
  {
    hide ValueShows;
    forall p: Place, e | ValueOf(s, key, value)(p, e) ensures p != [] {
      PlaceIsNotEmpty(s, key, value, p, e);
    }
  }

  lemma {:induction false} MappingLists(s: Stream, mapping: NodeId, origin: Origin, stack: seq<NodeId>)
    requires StreamOk(s) && Collect(s, mapping, origin, stack).Ok?
    ensures Listed(Collect(s, mapping, origin, stack).value, EntriesOf(s, mapping, origin))
    decreases Unvisited(s, stack), 0, 0, 0, 0
  {
    hide StreamOk, CollectPairs, MergedEntry, OwnEntry, Listed;
    PushVisits(s, stack, mapping);
    var pairs := s.nodes[mapping].kind.entries;
    PairsList(s, pairs, origin, stack + [mapping]);
    OwnAheadOfMerged(s, pairs, origin);
    var (explicit, merged) := CollectPairs(s, pairs, origin, stack + [mapping]).value;
    ListedTogether(explicit, OwnOf(s, pairs, origin), merged, MergedOf(s, pairs), EntriesOf(s, mapping, origin));
  }

  lemma OwnAheadOfMerged(s: Stream, pairs: seq<(NodeId, NodeId)>, origin: Origin)
    ensures forall p, e, q, f :: OwnEntry(s, pairs, origin, p, e) && MergedEntry(s, pairs, q, f) ==> Ahead(p, q)
  {
    hide ValueShows, IsMergeKeyAt;
  }

  lemma {:induction false} PairsList(s: Stream, pairs: seq<(NodeId, NodeId)>, origin: Origin, stack: seq<NodeId>)
    requires StreamOk(s) && CollectPairs(s, pairs, origin, stack).Ok?
    ensures Listed(CollectPairs(s, pairs, origin, stack).value.0, OwnOf(s, pairs, origin))
    ensures Listed(CollectPairs(s, pairs, origin, stack).value.1, MergedOf(s, pairs))
    decreases Unvisited(s, stack), 2, |pairs|, 0, 0
  {
    hide StreamOk, CollectValue, ValueShows, Listed, IsMergeKeyAt;
    if pairs == [] {
      NothingListed(OwnOf(s, pairs, origin));
      NothingListed(MergedOf(s, pairs));
    } else {
      var (key, value) := pairs[0];
      PairsList(s, pairs[1..], origin, stack);
      OwnBehind(s, pairs, origin, CollectPairs(s, pairs[1..], origin, stack).value.0);
      var more := if IsMergeKeyAt(s, key) == Ok(true) then CollectValue(s, key, value, stack).value else [];
      if IsMergeKeyAt(s, key) == Ok(true) { ValueLists(s, key, value, stack); }
      MergedBehind(s, pairs, more, CollectPairs(s, pairs[1..], origin, stack).value.1);
    }
  }

  // Own entries: the first, then the others.
  lemma OwnBehind(s: Stream, pairs: seq<(NodeId, NodeId)>, origin: Origin, rest: seq<Effective>)
    requires pairs != [] && Listed(rest, OwnOf(s, pairs[1..], origin))
    ensures Listed((if IsMergeKeyAt(s, pairs[0].0) == Ok(false) then [Effective(pairs[0].0, pairs[0].1, origin, false)] else []) + rest,
                   OwnOf(s, pairs, origin))
  {
    hide IsMergeKeyAt, Listed;
    var first := if IsMergeKeyAt(s, pairs[0].0) == Ok(false) then [Effective(pairs[0].0, pairs[0].1, origin, false)] else [];
    var head: Entries := (p, e) => p == [0] && OwnEntry(s, pairs, origin, p, e);
    var tail: Entries := (p, e) => p != [] && p[0] > 0 && OwnEntry(s, pairs[1..], origin, Earlier(p), e);
    FirstListed(s, pairs, origin, head);
    ListedBehind(rest, OwnOf(s, pairs[1..], origin), tail);
    forall p, e ensures OwnEntry(s, pairs, origin, p, e) <==> head(p, e) || tail(p, e) {
      OwnSplits(s, pairs, origin, p, e);
    }
    ListedTogether(first, head, rest, tail, OwnOf(s, pairs, origin));
  }

  lemma FirstListed(s: Stream, pairs: seq<(NodeId, NodeId)>, origin: Origin, head: Entries)
    requires pairs != [] && forall p, e :: head(p, e) <==> p == [0] && OwnEntry(s, pairs, origin, p, e)
    ensures Listed(if IsMergeKeyAt(s, pairs[0].0) == Ok(false) then [Effective(pairs[0].0, pairs[0].1, origin, false)] else [], head)
  {
    hide IsMergeKeyAt;
    if IsMergeKeyAt(s, pairs[0].0) == Ok(false) {
      assert Lists([Effective(pairs[0].0, pairs[0].1, origin, false)], head, [[0]]);
    } else {
      assert Lists([], head, []);
    }
  }

  lemma OwnSplits(s: Stream, pairs: seq<(NodeId, NodeId)>, origin: Origin, p: Place, e: Effective)
    requires pairs != []
    ensures OwnEntry(s, pairs, origin, p, e) <==>
              (p == [0] && OwnEntry(s, pairs, origin, p, e))
              || (p != [] && p[0] > 0 && OwnEntry(s, pairs[1..], origin, Earlier(p), e))
  {
    hide IsMergeKeyAt;
    if |p| == 1 && p[0] == 0 { assert p == [0]; }
  }

  // Merged entries: those of the first pair, then those of the others.
  lemma MergedBehind(s: Stream, pairs: seq<(NodeId, NodeId)>, more: seq<Effective>, rest: seq<Effective>)
    requires pairs != [] && Listed(rest, MergedOf(s, pairs[1..]))
    requires if IsMergeKeyAt(s, pairs[0].0) == Ok(true) then Listed(more, ValueOf(s, pairs[0].0, pairs[0].1)) else more == []
    ensures Listed(more + rest, MergedOf(s, pairs))
  {
    hide IsMergeKeyAt, Listed, ValueShows;
    var head: Entries := (p, e) => |p| > 1 && p[0] == 0 && MergedEntry(s, pairs, p, e);
    var tail: Entries := (p, e) => p != [] && p[0] > 0 && MergedEntry(s, pairs[1..], Earlier(p), e);
    if IsMergeKeyAt(s, pairs[0].0) == Ok(true) {
      PlacesAreNotEmpty(s, pairs[0].0, pairs[0].1);
      ListedUnder(more, ValueOf(s, pairs[0].0, pairs[0].1), head);
    } else {
      NothingListed(head);
    }
    ListedBehind(rest, MergedOf(s, pairs[1..]), tail);
    forall p, e ensures MergedEntry(s, pairs, p, e) <==> head(p, e) || tail(p, e) {
      MergedSplits(s, pairs, p, e);
    }
    ListedTogether(more, head, rest, tail, MergedOf(s, pairs));
  }

  lemma MergedSplits(s: Stream, pairs: seq<(NodeId, NodeId)>, p: Place, e: Effective)
    requires pairs != []
    ensures MergedEntry(s, pairs, p, e) <==>
              (|p| > 1 && p[0] == 0 && MergedEntry(s, pairs, p, e))
              || (p != [] && p[0] > 0 && MergedEntry(s, pairs[1..], Earlier(p), e))
  {
    hide IsMergeKeyAt, ValueShows;
  }

  lemma {:induction false} ValueLists(s: Stream, key: NodeId, value: NodeId, stack: seq<NodeId>)
    requires StreamOk(s) && CollectValue(s, key, value, stack).Ok?
    ensures Listed(CollectValue(s, key, value, stack).value, ValueOf(s, key, value))
    decreases Unvisited(s, stack), 1, if value < |s.nodes| then |s.nodes| - value else 0, 0, 0
  {
    hide Collect, GraphOk, Grounded, Listed, Shows, ItemShows;
    NodesOk(s, value);
    var r := CollectValue(s, key, value, stack).value;
    match s.nodes[value].kind {
      case Alias(_, alias, target) =>
        var to, origin := s.anchors[target].node, Merged(key, Some(alias), Some(target));
        MappingLists(s, to, origin, stack);
        ListedAlike(r, EntriesOf(s, to, origin), ValueOf(s, key, value));
      case Sequence(_, children) =>
        KidsBetween(s.nodes, value);
        ItemsList(s, key, children, value + 1, stack);
        ListedAlike(r, ItemsOf(s, key, children), ValueOf(s, key, value));
      case Mapping(_, _) =>
        MappingLists(s, value, Merged(key, None, None), stack);
        ListedAlike(r, EntriesOf(s, value, Merged(key, None, None)), ValueOf(s, key, value));
    }
  }

  lemma {:induction false} ItemsList(s: Stream, key: NodeId, children: seq<NodeId>, low: nat, stack: seq<NodeId>)
    requires StreamOk(s) && AllBetween(children, low - 1, |s.nodes|) && low <= |s.nodes|
    requires CollectChildren(s, key, children, low, stack).Ok?
    ensures Listed(CollectChildren(s, key, children, low, stack).value, ItemsOf(s, key, children))
    decreases Unvisited(s, stack), 1, |s.nodes| - low, 1, |children|
  {
    hide StreamOk, CollectValue, ValueShows, Listed;
    if children == [] {
      NothingListed(ItemsOf(s, key, children));
    } else {
      ValueLists(s, key, children[0], stack);
      ItemsList(s, key, children[1..], low, stack);
      ItemsBehind(s, key, children, CollectValue(s, key, children[0], stack).value, CollectChildren(s, key, children[1..], low, stack).value);
    }
  }

  lemma ItemsBehind(s: Stream, key: NodeId, items: seq<NodeId>, more: seq<Effective>, rest: seq<Effective>)
    requires items != [] && Listed(more, ValueOf(s, key, items[0])) && Listed(rest, ItemsOf(s, key, items[1..]))
    ensures Listed(more + rest, ItemsOf(s, key, items))
  {
    hide Listed, ValueShows;
    var head: Entries := (p, e) => |p| > 1 && p[0] == 0 && ItemShows(s, key, items, p, e);
    var tail: Entries := (p, e) => p != [] && p[0] > 0 && ItemShows(s, key, items[1..], Earlier(p), e);
    PlacesAreNotEmpty(s, key, items[0]);
    ListedUnder(more, ValueOf(s, key, items[0]), head);
    ListedBehind(rest, ItemsOf(s, key, items[1..]), tail);
    forall p, e ensures ItemShows(s, key, items, p, e) <==> head(p, e) || tail(p, e) {
      ItemSplits(s, key, items, p, e);
    }
    ListedTogether(more, head, rest, tail, ItemsOf(s, key, items));
  }

  lemma ItemSplits(s: Stream, key: NodeId, items: seq<NodeId>, p: Place, e: Effective)
    requires items != []
    ensures ItemShows(s, key, items, p, e) <==>
              (|p| > 1 && p[0] == 0 && ItemShows(s, key, items, p, e))
              || (p != [] && p[0] > 0 && ItemShows(s, key, items[1..], Earlier(p), e))
  {
    hide ValueShows;
  }

  /** A view that succeeds lists exactly the ordinary entries of the mapping and of all
      mappings its merges lead to, once for every way they do: own entries first, then
      in document order, each with the merge key and alias it came by. */
  lemma ViewListsEntries(s: Stream, mapping: NodeId)
    requires StreamOk(s) && Collect(s, mapping, Explicit, []).Ok?
    ensures Listed(Collect(s, mapping, Explicit, []).value, EntriesOf(s, mapping, Explicit))
  {
    MappingLists(s, mapping, Explicit, []);
  }
}
