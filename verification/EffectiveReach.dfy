// The keys the effective view of a mapping can meet: those of the mappings its
// merges lead to. The collected entries hold exactly the ordinary ones among them.
module EffectiveReach {
  import opened Prelude
  import opened LosslessGraph
  import opened LosslessRoundTrip
  import opened EffectiveEntries
  import opened EffectiveCycles

  predicate KeyOf(s: Stream, mapping: NodeId, key: NodeId) {
    && mapping < |s.nodes| && s.nodes[mapping].kind.Mapping?
    && exists i :: 0 <= i < |s.nodes[mapping].kind.entries| && s.nodes[mapping].kind.entries[i].0 == key
  }

  ghost predicate Leads(s: Stream, path: seq<NodeId>, mapping: NodeId, key: NodeId)
    requires StreamOk(s)
  {
    MergePath(s, path) && path[0] == mapping && KeyOf(s, path[|path| - 1], key)
  }

  /** A path of merges leads from the mapping to one that holds the key. */
  ghost predicate Reached(s: Stream, mapping: NodeId, key: NodeId)
    requires StreamOk(s)
  {
    exists path: seq<NodeId> :: Leads(s, path, mapping, key)
  }

  lemma OwnKeyIsReached(s: Stream, mapping: NodeId, key: NodeId)
    requires StreamOk(s) && KeyOf(s, mapping, key)
    ensures Reached(s, mapping, key)
  {
    hide StreamOk, KeyOf;
    assert Leads(s, [mapping], mapping, key);
  }

  lemma ReachedThrough(s: Stream, from: NodeId, to: NodeId, key: NodeId)
    requires StreamOk(s) && Merges(s, from, to) && Reached(s, to, key)
    ensures Reached(s, from, key)
  {
    hide StreamOk, KeyOf, Merges;
    var path: seq<NodeId> :| Leads(s, path, to, key);
    ExtendPath(s, from, path);
    assert Leads(s, [from] + path, from, key);
  }

  // ----- Every ordinary key that is reached is collected -----------------------------------------

  predicate CollectedKey(es: seq<Effective>, key: NodeId) {
    exists i :: 0 <= i < |es| && es[i].key == key
  }

  lemma {:induction false} PathIsCollected(s: Stream, path: seq<NodeId>, origin: Origin, stack: seq<NodeId>, key: NodeId)
    requires StreamOk(s) && path != [] && Leads(s, path, path[0], key)
    requires IsMergeKeyAt(s, key) == Ok(false) && Collect(s, path[0], origin, stack).Ok?
    ensures CollectedKey(Collect(s, path[0], origin, stack).value, key)
    decreases |path|
  {
    hide StreamOk, Merges, IsMergeKeyAt, Collect, KeyOf;
    if |path| > 1 {
      RestOfPath(s, path);
      StepCollects(s, path[0], origin, path[1], stack);
      var es := Collect(s, path[0], origin, stack).value;
      var next :| Collect(s, path[1], next, stack + [path[0]]).Ok? && Within(Collect(s, path[1], next, stack + [path[0]]).value, es);
      PathIsCollected(s, path[1..], next, stack + [path[0]], key);
      var inner := Collect(s, path[1], next, stack + [path[0]]).value;
      var i :| 0 <= i < |inner| && inner[i].key == key;
      assert inner[i] in inner;
      var j :| 0 <= j < |es| && es[j] == inner[i];
    } else {
      OwnKeyIsCollected(s, path[0], origin, stack, key);
    }
  }

  lemma OwnKeyIsCollected(s: Stream, mapping: NodeId, origin: Origin, stack: seq<NodeId>, key: NodeId)
    requires StreamOk(s) && KeyOf(s, mapping, key)
    requires IsMergeKeyAt(s, key) == Ok(false) && Collect(s, mapping, origin, stack).Ok?
    ensures CollectedKey(Collect(s, mapping, origin, stack).value, key)
  {
    hide StreamOk, CollectPairs, IsMergeKeyAt;
    var pairs := s.nodes[mapping].kind.entries;
    var i :| 0 <= i < |pairs| && pairs[i].0 == key;
    PairCollects(s, pairs, origin, stack + [mapping], i);
    var es := Collect(s, mapping, origin, stack).value;
    assert Effective(key, pairs[i].1, origin, false) in es;
    var j :| 0 <= j < |es| && es[j] == Effective(key, pairs[i].1, origin, false);
  }

  // ----- Every collected key is reached ---------------------------------------------------------------

  // `key` is reached from a mapping the merge value supplies.
  ghost predicate Supplied(s: Stream, value: NodeId, key: NodeId)
    requires StreamOk(s)
  {
    exists to :: Supplies(s, value, to) && Reached(s, to, key)
  }

  lemma {:induction false} CollectedIsReached(s: Stream, mapping: NodeId, origin: Origin, stack: seq<NodeId>, e: Effective)
    requires StreamOk(s) && Collect(s, mapping, origin, stack).Ok? && e in Collect(s, mapping, origin, stack).value
    ensures Reached(s, mapping, e.key) && IsMergeKeyAt(s, e.key) == Ok(false) && !e.overridden
    decreases Unvisited(s, stack), 0, 0, 0, 0
  {
    hide StreamOk, IsMergeKeyAt, CollectPairs, Reached, Supplies;
    PushVisits(s, stack, mapping);
    var pairs := s.nodes[mapping].kind.entries;
    var i := PairOfCollected(s, pairs, origin, stack + [mapping], e);
    if pairs[i].0 == e.key && IsMergeKeyAt(s, e.key) == Ok(false) {
      OwnKeyIsReached(s, mapping, e.key);
    } else {
      var to :| Supplies(s, pairs[i].1, to) && Reached(s, to, e.key);
      assert MergesThrough(s, pairs[i], to);
      ReachedThrough(s, mapping, to, e.key);
    }
  }

  lemma {:induction false} PairOfCollected(s: Stream, pairs: seq<(NodeId, NodeId)>, origin: Origin, stack: seq<NodeId>, e: Effective)
    returns (i: nat)
    requires StreamOk(s) && CollectPairs(s, pairs, origin, stack).Ok?
    requires e in CollectPairs(s, pairs, origin, stack).value.0 || e in CollectPairs(s, pairs, origin, stack).value.1
    ensures i < |pairs| && !e.overridden
    ensures (pairs[i].0 == e.key && IsMergeKeyAt(s, e.key) == Ok(false))
         || (IsMergeKeyAt(s, pairs[i].0) == Ok(true) && Supplied(s, pairs[i].1, e.key) && IsMergeKeyAt(s, e.key) == Ok(false))
    decreases Unvisited(s, stack), 2, |pairs|, 0, 0
  {
    hide StreamOk, IsMergeKeyAt, CollectValue, Supplied;
    var (key, value) := pairs[0];
    if IsMergeKeyAt(s, key) == Ok(true) && e in CollectValue(s, key, value, stack).value {
      i := 0;
      ValueOfCollected(s, key, value, stack, e);
    } else if IsMergeKeyAt(s, key) == Ok(false) && e == Effective(key, value, origin, false) {
      i := 0;
    } else {
      var j := PairOfCollected(s, pairs[1..], origin, stack, e);
      i := j + 1;
    }
  }

  lemma {:induction false} ValueOfCollected(s: Stream, key: NodeId, value: NodeId, stack: seq<NodeId>, e: Effective)
    requires StreamOk(s) && CollectValue(s, key, value, stack).Ok? && e in CollectValue(s, key, value, stack).value
    ensures Supplied(s, value, e.key) && IsMergeKeyAt(s, e.key) == Ok(false) && !e.overridden
    decreases Unvisited(s, stack), 1, if value < |s.nodes| then |s.nodes| - value else 0, 0, 0
  {
    hide Collect, GraphOk, Grounded, Reached, IsMergeKeyAt;
    NodesOk(s, value);
    match s.nodes[value].kind {
      case Alias(_, alias, target) =>
        var to := s.anchors[target].node;
        CollectedIsReached(s, to, Merged(key, Some(alias), Some(target)), stack, e);
        assert Supplies(s, value, to);
      case Sequence(_, children) =>
        KidsBetween(s.nodes, value);
        ChildOfCollected(s, key, value, children, value + 1, stack, e);
      case Mapping(_, _) =>
        CollectedIsReached(s, value, Merged(key, None, None), stack, e);
        assert Supplies(s, value, value);
      case Scalar(_, _) =>
    }
  }

  lemma {:induction false} ChildOfCollected(s: Stream, key: NodeId, parent: NodeId, children: seq<NodeId>, low: nat, stack: seq<NodeId>, e: Effective)
    requires StreamOk(s) && AllBetween(children, low - 1, |s.nodes|) && low <= |s.nodes|
    requires parent < |s.nodes| && s.nodes[parent].kind.Sequence?
    requires forall c :: c in children ==> c in Kids(s.nodes[parent])
    requires CollectChildren(s, key, children, low, stack).Ok? && e in CollectChildren(s, key, children, low, stack).value
    ensures Supplied(s, parent, e.key) && IsMergeKeyAt(s, e.key) == Ok(false) && !e.overridden
    decreases Unvisited(s, stack), 1, |s.nodes| - low, 1, |children|
  {
    hide CollectValue, StreamOk, Kids, Reached, IsMergeKeyAt;
    if e in CollectValue(s, key, children[0], stack).value {
      ValueOfCollected(s, key, children[0], stack, e);
      var to :| Supplies(s, children[0], to) && Reached(s, to, e.key);
      assert Supplies(s, parent, to);
    } else {
      ChildOfCollected(s, key, parent, children[1..], low, stack, e);
    }
  }

  /** The keys of a collected view are exactly the ordinary keys reached through merges. */
  lemma CollectedKeysAreReached(s: Stream, mapping: NodeId, key: NodeId)
    requires StreamOk(s) && Collect(s, mapping, Explicit, []).Ok?
    ensures CollectedKey(Collect(s, mapping, Explicit, []).value, key)
       <==> Reached(s, mapping, key) && IsMergeKeyAt(s, key) == Ok(false)
  {
    hide StreamOk, Collect, IsMergeKeyAt, KeyOf;
    var es := Collect(s, mapping, Explicit, []).value;
    if CollectedKey(es, key) {
      var i :| 0 <= i < |es| && es[i].key == key;
      CollectedIsReached(s, mapping, Explicit, [], es[i]);
    } else if Reached(s, mapping, key) && IsMergeKeyAt(s, key) == Ok(false) {
      var path: seq<NodeId> :| Leads(s, path, mapping, key);
      PathIsCollected(s, path, Explicit, [], key);
    }
  }
}
