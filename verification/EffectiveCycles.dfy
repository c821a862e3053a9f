// When the effective view of a mapping meets its own recursion: exactly on graphs
// whose merges lead back to a mapping that is still being expanded.
module EffectiveCycles {
  import opened Prelude
  import opened LosslessGraph
  import opened LosslessRoundTrip
  import opened EffectiveEntries

  /** The merge value `value` leads to the mapping `mapping`. */
  ghost predicate Supplies(s: Stream, value: NodeId, mapping: NodeId)
    requires StreamOk(s)
    decreases if value < |s.nodes| then |s.nodes| - value else 0
  {
    && value < |s.nodes|
    && match s.nodes[value].kind
       case Alias(_, _, target) => s.anchors[target].node == mapping && s.nodes[mapping].kind.Mapping?
       case Sequence(_, children) => exists c :: c in Kids(s.nodes[value]) && Supplies(s, c, mapping)
       case Mapping(_, _) => value == mapping
       case Scalar(_, _) => false
  }

  ghost predicate MergesThrough(s: Stream, pair: (NodeId, NodeId), mapping: NodeId)
    requires StreamOk(s)
  {
    IsMergeKeyAt(s, pair.0) == Ok(true) && Supplies(s, pair.1, mapping)
  }

  /** A merge key of the mapping `from` leads to the mapping `to`. */
  ghost predicate Merges(s: Stream, from: NodeId, to: NodeId)
    requires StreamOk(s)
  {
    && from < |s.nodes| && s.nodes[from].kind.Mapping?
    && exists i :: 0 <= i < |s.nodes[from].kind.entries| && MergesThrough(s, s.nodes[from].kind.entries[i], to)
  }

  ghost predicate MergePath(s: Stream, path: seq<NodeId>)
    requires StreamOk(s)
  {
    path != [] && forall i :: 0 <= i < |path| - 1 ==> Merges(s, path[i], path[i + 1])
  }

  // ----- Success excludes cycles -----------------------------------------------------------------

  /** Expanding `mapping` succeeds as well, and its entries are among `es`. */
  ghost predicate CollectsInto(s: Stream, mapping: NodeId, stack: seq<NodeId>, es: seq<Effective>)
    requires StreamOk(s)
  {
    exists origin :: Collect(s, mapping, origin, stack).Ok? && Within(Collect(s, mapping, origin, stack).value, es)
  }

  predicate Within(some: seq<Effective>, all: seq<Effective>) {
    forall e :: e in some ==> e in all
  }

  lemma {:induction false} ValueCollects(s: Stream, key: NodeId, value: NodeId, stack: seq<NodeId>, mapping: NodeId)
    requires StreamOk(s) && CollectValue(s, key, value, stack).Ok? && Supplies(s, value, mapping)
    ensures CollectsInto(s, mapping, stack, CollectValue(s, key, value, stack).value)
    decreases |s.nodes| - value, 0
  {
    hide Collect, GraphOk, Grounded;
    NodesOk(s, value);
    match s.nodes[value].kind {
      case Alias(_, alias, target) =>
        assert Collect(s, mapping, Merged(key, Some(alias), Some(target)), stack).Ok?;
      case Sequence(_, children) =>
        var c :| c in Kids(s.nodes[value]) && Supplies(s, c, mapping);
        KidsBetween(s.nodes, value);
        var i :| 0 <= i < |children| && children[i] == c;
        ChildCollects(s, key, children, value + 1, stack, i);
        ValueCollects(s, key, c, stack, mapping);
      case Mapping(_, _) =>
        assert Collect(s, mapping, Merged(key, None, None), stack).Ok?;
      case Scalar(_, _) =>
    }
  }

  lemma NodesOk(s: Stream, value: NodeId)
    requires StreamOk(s) && value < |s.nodes|
    ensures Grounded(s.nodes) && s.nodes[value].id == value
    ensures s.nodes[value].kind.Alias? ==>
              var target := s.nodes[value].kind.target;
              target < |s.anchors| && s.anchors[target].node < |s.nodes| && s.nodes[s.anchors[target].node].id == s.anchors[target].node
  {
  }

  lemma {:induction false} ChildCollects(s: Stream, key: NodeId, children: seq<NodeId>, low: nat, stack: seq<NodeId>, i: nat)
    requires StreamOk(s) && AllBetween(children, low - 1, |s.nodes|) && low <= |s.nodes| && i < |children|
    requires CollectChildren(s, key, children, low, stack).Ok?
    ensures CollectValue(s, key, children[i], stack).Ok?
    ensures Within(CollectValue(s, key, children[i], stack).value, CollectChildren(s, key, children, low, stack).value)
    decreases |children|
  {
    hide CollectValue, StreamOk;
    if i > 0 { ChildCollects(s, key, children[1..], low, stack, i - 1); }
  }

  lemma {:induction false} PairCollects(s: Stream, pairs: seq<(NodeId, NodeId)>, origin: Origin, stack: seq<NodeId>, i: nat)
    requires StreamOk(s) && i < |pairs| && CollectPairs(s, pairs, origin, stack).Ok?
    ensures IsMergeKeyAt(s, pairs[i].0) == Ok(true) ==>
              && CollectValue(s, pairs[i].0, pairs[i].1, stack).Ok?
              && Within(CollectValue(s, pairs[i].0, pairs[i].1, stack).value, CollectPairs(s, pairs, origin, stack).value.1)
    ensures IsMergeKeyAt(s, pairs[i].0) == Ok(false) ==>
              Effective(pairs[i].0, pairs[i].1, origin, false) in CollectPairs(s, pairs, origin, stack).value.0
    decreases |pairs|
  {
    hide CollectValue, StreamOk, IsMergeKeyAt;
    if i > 0 { PairCollects(s, pairs[1..], origin, stack, i - 1); }
  }

  lemma StepCollects(s: Stream, from: NodeId, origin: Origin, to: NodeId, stack: seq<NodeId>)
    requires StreamOk(s) && Collect(s, from, origin, stack).Ok? && Merges(s, from, to)
    ensures from !in stack && CollectsInto(s, to, stack + [from], Collect(s, from, origin, stack).value)
  {
    hide StreamOk, CollectPairs, CollectValue, Supplies;
    var pairs := s.nodes[from].kind.entries;
    var i :| 0 <= i < |pairs| && MergesThrough(s, pairs[i], to);
    PairCollects(s, pairs, origin, stack + [from], i);
    ValueCollects(s, pairs[i].0, pairs[i].1, stack + [from], to);
  }

  lemma RestOfPath(s: Stream, path: seq<NodeId>)
    requires StreamOk(s) && MergePath(s, path) && |path| > 1
    ensures Merges(s, path[0], path[1]) && MergePath(s, path[1..])
  {
    hide StreamOk, Merges;
    assert Merges(s, path[0], path[0 + 1]);
    var rest := path[1..];
    forall i | 0 <= i < |rest| - 1 ensures Merges(s, rest[i], rest[i + 1]) {
      assert Merges(s, path[i + 1], path[i + 1 + 1]);
    }
  }

  lemma {:induction false} PathAvoidsStack(s: Stream, path: seq<NodeId>, origin: Origin, stack: seq<NodeId>)
    requires StreamOk(s) && MergePath(s, path) && Collect(s, path[0], origin, stack).Ok?
    ensures NoRepeats(path) && forall i :: 0 <= i < |path| ==> path[i] !in stack
    decreases |path|
  {
    hide StreamOk, Merges;
    if |path| > 1 {
      var rest := path[1..];
      RestOfPath(s, path);
      StepCollects(s, path[0], origin, path[1], stack);
      var next :| Collect(s, path[1], next, stack + [path[0]]).Ok?;
      PathAvoidsStack(s, rest, next, stack + [path[0]]);
      assert forall i :: 0 < i < |path| ==> path[i] == rest[i - 1];
    } else {
      CollectedIsNew(s, path[0], origin, stack);
    }
  }

  lemma CollectedIsNew(s: Stream, mapping: NodeId, origin: Origin, stack: seq<NodeId>)
    requires StreamOk(s) && Collect(s, mapping, origin, stack).Ok?
    ensures mapping !in stack
  {
    hide StreamOk, CollectPairs;
  }

  // ----- A recursion error shows a cycle ----------------------------------------------------------

  ghost predicate ReturnsTo(s: Stream, path: seq<NodeId>, mapping: NodeId, stack: seq<NodeId>)
    requires StreamOk(s)
  {
    && MergePath(s, path) && path[0] == mapping
    && path[|path| - 1] in stack + path[..|path| - 1]
  }

  lemma {:induction false} CycleOfMapping(s: Stream, mapping: NodeId, origin: Origin, stack: seq<NodeId>) returns (path: seq<NodeId>)
    requires StreamOk(s) && Collect(s, mapping, origin, stack) == Err(RecursiveMerge)
    ensures ReturnsTo(s, path, mapping, stack)
    decreases Unvisited(s, stack), 0, 0, 0, 0
  {
    if mapping in stack {
      path := [mapping];
    } else {
      PushVisits(s, stack, mapping);
      var pairs := s.nodes[mapping].kind.entries;
      var i, to, rest := CycleOfPairs(s, pairs, origin, stack + [mapping]);
      path := [mapping] + rest;
      ExtendPath(s, mapping, rest);
      assert path[|path| - 1] == rest[|rest| - 1];
      assert stack + path[..|path| - 1] == stack + [mapping] + rest[..|rest| - 1];
    }
  }

  lemma ExtendPath(s: Stream, from: NodeId, rest: seq<NodeId>)
    requires StreamOk(s) && MergePath(s, rest) && Merges(s, from, rest[0])
    ensures MergePath(s, [from] + rest)
  {
    hide Merges, StreamOk;
    var path := [from] + rest;
    forall i | 0 <= i < |path| - 1 ensures Merges(s, path[i], path[i + 1]) {
      if i > 0 { assert path[i] == rest[i - 1] && path[i + 1] == rest[i]; }
    }
  }

  lemma {:induction false} CycleOfPairs(s: Stream, pairs: seq<(NodeId, NodeId)>, origin: Origin, stack: seq<NodeId>)
    returns (i: nat, to: NodeId, path: seq<NodeId>)
    requires StreamOk(s) && CollectPairs(s, pairs, origin, stack) == Err(RecursiveMerge)
    ensures i < |pairs| && MergesThrough(s, pairs[i], to) && ReturnsTo(s, path, to, stack)
    decreases Unvisited(s, stack), 2, |pairs|, 0, 0
  {
    hide StreamOk, CollectValue, Supplies, ReturnsTo;
    var (key, value) := pairs[0];
    if IsMergeKeyAt(s, key) == Ok(true) && CollectValue(s, key, value, stack) == Err(RecursiveMerge) {
      i := 0;
      to, path := CycleOfValue(s, key, value, stack);
    } else {
      var j;
      j, to, path := CycleOfPairs(s, pairs[1..], origin, stack);
      i := j + 1;
    }
  }

  lemma {:induction false} CycleOfValue(s: Stream, key: NodeId, value: NodeId, stack: seq<NodeId>) returns (to: NodeId, path: seq<NodeId>)
    requires StreamOk(s) && CollectValue(s, key, value, stack) == Err(RecursiveMerge)
    ensures Supplies(s, value, to) && ReturnsTo(s, path, to, stack)
    decreases Unvisited(s, stack), 1, if value < |s.nodes| then |s.nodes| - value else 0, 0, 0
  {
    hide Collect, GraphOk, Grounded, ReturnsTo;
    NodesOk(s, value);
    match s.nodes[value].kind {
      case Alias(_, alias, target) =>
        to := s.anchors[target].node;
        path := CycleOfMapping(s, to, Merged(key, Some(alias), Some(target)), stack);
      case Sequence(_, children) =>
        KidsBetween(s.nodes, value);
        to, path := CycleOfChildren(s, key, value, children, value + 1, stack);
      case Mapping(_, _) =>
        to := value;
        path := CycleOfMapping(s, to, Merged(key, None, None), stack);
      case Scalar(_, _) =>
    }
  }

  lemma {:induction false} CycleOfChildren(s: Stream, key: NodeId, parent: NodeId, children: seq<NodeId>, low: nat, stack: seq<NodeId>)
    returns (to: NodeId, path: seq<NodeId>)
    requires StreamOk(s) && AllBetween(children, low - 1, |s.nodes|) && low <= |s.nodes|
    requires parent < |s.nodes| && s.nodes[parent].kind.Sequence?
    requires forall c :: c in children ==> c in Kids(s.nodes[parent])
    requires CollectChildren(s, key, children, low, stack) == Err(RecursiveMerge)
    ensures Supplies(s, parent, to) && ReturnsTo(s, path, to, stack)
    decreases Unvisited(s, stack), 1, |s.nodes| - low, 1, |children|
  {
    hide CollectValue, StreamOk, ReturnsTo, Kids;
    if CollectValue(s, key, children[0], stack) == Err(RecursiveMerge) {
      to, path := CycleOfValue(s, key, children[0], stack);
    } else {
      to, path := CycleOfChildren(s, key, parent, children[1..], low, stack);
    }
  }

  // ----- The theorem ---------------------------------------------------------------------------

  /** Expanding a mapping succeeds only if no path of merges from it repeats a
      mapping, and reports recursion only if one does. */
  lemma RecursionErrorsAreCycles(s: Stream, mapping: NodeId)
    requires StreamOk(s)
    ensures Collect(s, mapping, Explicit, []).Ok? ==> forall path: seq<NodeId> :: MergePath(s, path) && path[0] == mapping ==> NoRepeats(path)
    ensures Collect(s, mapping, Explicit, []) == Err(RecursiveMerge) ==>
              exists path: seq<NodeId> :: MergePath(s, path) && path[0] == mapping && !NoRepeats(path)
  {
    hide StreamOk, Collect;
    if Collect(s, mapping, Explicit, []).Ok? {
      forall path: seq<NodeId> | MergePath(s, path) && path[0] == mapping ensures NoRepeats(path) {
        PathAvoidsStack(s, path, Explicit, []);
      }
    } else if Collect(s, mapping, Explicit, []) == Err(RecursiveMerge) {
      var path := CycleOfMapping(s, mapping, Explicit, []);
      var last := |path| - 1;
      assert path[last] in path[..last];
      var j :| 0 <= j < last && path[j] == path[last];
      assert MergePath(s, path) && path[0] == mapping && !NoRepeats(path);
    }
  }
}
