// When the effective view of a mapping succeeds, and which error it reports otherwise.
module EffectiveOutcome {
  import opened Prelude
  import opened LosslessGraph
  import opened LosslessRoundTrip
  import opened EffectiveEntries
  import opened EffectiveCycles

  // ----- Faults and their places -----------------------------------------------------------------

  /** Which merge value, and inside sequences which item, leads on; one step per mapping
      or sequence. */
  type Place = seq<nat>

  type Faults = (Place, EffectiveError) -> bool

  /** A merge value is at fault: a scalar, an alias to another node than a mapping, or
      what lies behind. */
  ghost predicate ValueFault(s: Stream, value: NodeId, place: Place, stack: seq<NodeId>, e: EffectiveError)
    decreases |place|, 2
  {
    && value < |s.nodes|
    && match s.nodes[value].kind
       case Scalar(_, _) => place == [] && e == ScalarMergeValue
       case Sequence(_, children) => ItemFault(s, children, place, stack, e)
       case Alias(_, _, target) =>
         && target < |s.anchors| && s.anchors[target].node < |s.nodes|
         && (if s.nodes[s.anchors[target].node].kind.Mapping? then MappingFault(s, s.anchors[target].node, place, stack, e)
             else place == [] && e == AliasNotToMapping)
       case Mapping(_, _) => MappingFault(s, value, place, stack, e)
  }

  ghost predicate ItemFault(s: Stream, items: seq<NodeId>, place: Place, stack: seq<NodeId>, e: EffectiveError)
    decreases |place|, 0
  {
    place != [] && place[0] < |items| && ValueFault(s, items[place[0]], place[1..], stack, e)
  }

  /** A mapping is merged inside itself, or a merge value of it is at fault. */
  ghost predicate MappingFault(s: Stream, mapping: NodeId, place: Place, stack: seq<NodeId>, e: EffectiveError)
    decreases |place|, 1
  {
    if mapping in stack then place == [] && e == RecursiveMerge
    else
      mapping < |s.nodes| && s.nodes[mapping].kind.Mapping? && EntryFault(s, s.nodes[mapping].kind.entries, place, stack + [mapping], e)
  }

  ghost predicate EntryFault(s: Stream, pairs: seq<(NodeId, NodeId)>, place: Place, stack: seq<NodeId>, e: EffectiveError)
    decreases |place|, 0
  {
    && place != [] && place[0] < |pairs| && IsMergeKeyAt(s, pairs[place[0]].0) == Ok(true)
    && ValueFault(s, pairs[place[0]].1, place[1..], stack, e)
  }

  /** In document order: smaller at the first step that differs. */
  predicate Before(p: Place, q: Place) {
    p != [] && q != [] && (p[0] < q[0] || (p[0] == q[0] && Before(p[1..], q[1..])))
  }

  ghost predicate IsFirst(faults: Faults, p: Place, e: EffectiveError) {
    faults(p, e) && forall q, f :: faults(q, f) ==> (q == p && f == e) || Before(p, q)
  }

  /** A result reports the first of the faults, or there is none. */
  ghost predicate Reports<T>(r: Result<T, EffectiveError>, faults: Faults) {
    && (r.Ok? ==> forall p, e :: !faults(p, e))
    && (r.Err? ==> exists p :: IsFirst(faults, p, r.error))
  }

  // ----- The first fault is reported ---------------------------------------------------------------

  // The faults of a list: those of its head, and behind them those of its tail.
  ghost predicate HeadAndTail(head: Faults, tail: Faults, all: Faults) {
    && (forall p, e :: tail(p, e) ==> p != [])
    && (forall p, e :: all(p, e) <==> p != [] && if p[0] == 0 then head(p[1..], e) else tail([p[0] - 1] + p[1..], e))
  }

  lemma HeadReports<T, U>(r: Result<T, EffectiveError>, head: Faults, tail: Faults, all: Faults, done: Result<U, EffectiveError>)
    requires r.Err? && Reports(r, head) && HeadAndTail(head, tail, all) && done == Err(r.error)
    ensures Reports(done, all)
  {
    var p :| IsFirst(head, p, r.error);
    var place := [0] + p;
    assert place[1..] == p;
    forall q, f | all(q, f) ensures (q == place && f == r.error) || Before(place, q) {
      if q[0] == 0 { assert q == [0] + q[1..] && head(q[1..], f); }
    }
    assert IsFirst(all, place, r.error);
  }

  lemma TailReports<T, U>(r: Result<T, EffectiveError>, head: Faults, tail: Faults, all: Faults, done: Result<U, EffectiveError>)
    requires Reports(r, tail) && HeadAndTail(head, tail, all) && forall p, e :: !head(p, e)
    requires done.Ok? == r.Ok? && (r.Err? ==> done == Err(r.error))
    ensures Reports(done, all)
  {
    if r.Err? {
      var p :| IsFirst(tail, p, r.error);
      var place := [p[0] + 1] + p[1..];
      assert place[1..] == p[1..] && [place[0] - 1] + place[1..] == p;
      forall q, f | all(q, f) ensures (q == place && f == r.error) || Before(place, q) {
        var back := [q[0] - 1] + q[1..];
        assert tail(back, f) && back[1..] == q[1..];
        assert q == [back[0] + 1] + back[1..];
      }
      assert IsFirst(all, place, r.error);
    }
  }

  ghost function FaultsOfMapping(s: Stream, mapping: NodeId, stack: seq<NodeId>): Faults {
    (p, e) => MappingFault(s, mapping, p, stack, e)
  }

  ghost function FaultsOfValue(s: Stream, value: NodeId, stack: seq<NodeId>): Faults {
    (p, e) => ValueFault(s, value, p, stack, e)
  }

  ghost function FaultsOfPairs(s: Stream, pairs: seq<(NodeId, NodeId)>, stack: seq<NodeId>): Faults {
    (p, e) => EntryFault(s, pairs, p, stack, e)
  }

  ghost function FaultsOfItems(s: Stream, items: seq<NodeId>, stack: seq<NodeId>): Faults {
    (p, e) => ItemFault(s, items, p, stack, e)
  }

  ghost function FaultsOfPair(s: Stream, pair: (NodeId, NodeId), stack: seq<NodeId>): Faults {
    (p, e) => IsMergeKeyAt(s, pair.0) == Ok(true) && ValueFault(s, pair.1, p, stack, e)
  }

  lemma PairsAreHeadAndTail(s: Stream, pairs: seq<(NodeId, NodeId)>, stack: seq<NodeId>)
    requires pairs != []
    ensures HeadAndTail(FaultsOfPair(s, pairs[0], stack), FaultsOfPairs(s, pairs[1..], stack), FaultsOfPairs(s, pairs, stack))
  {
    hide ValueFault, IsMergeKeyAt;
    forall p: Place, e
      ensures FaultsOfPairs(s, pairs, stack)(p, e) <==>
                p != [] && if p[0] == 0 then FaultsOfPair(s, pairs[0], stack)(p[1..], e)
                           else FaultsOfPairs(s, pairs[1..], stack)([p[0] - 1] + p[1..], e)
    {
      if p != [] && p[0] > 0 { assert ([p[0] - 1] + p[1..])[1..] == p[1..]; }
    }
  }

  lemma ItemsAreHeadAndTail(s: Stream, items: seq<NodeId>, stack: seq<NodeId>)
    requires items != []
    ensures HeadAndTail(FaultsOfValue(s, items[0], stack), FaultsOfItems(s, items[1..], stack), FaultsOfItems(s, items, stack))
  {
    hide ValueFault;
    forall p: Place, e
      ensures FaultsOfItems(s, items, stack)(p, e) <==>
                p != [] && if p[0] == 0 then FaultsOfValue(s, items[0], stack)(p[1..], e)
                           else FaultsOfItems(s, items[1..], stack)([p[0] - 1] + p[1..], e)
    {
      if p != [] && p[0] > 0 { assert ([p[0] - 1] + p[1..])[1..] == p[1..]; }
    }
  }

  // The same faults under two names.
  lemma ReportsAlike<T, U>(r: Result<T, EffectiveError>, faults: Faults, done: Result<U, EffectiveError>, alike: Faults)
    requires Reports(r, faults) && done.Ok? == r.Ok? && (r.Err? ==> done == Err(r.error))
    requires forall p, e :: faults(p, e) <==> alike(p, e)
    ensures Reports(done, alike)
  {
    if r.Err? {
      var p :| IsFirst(faults, p, r.error);
      assert IsFirst(alike, p, r.error);
    }
  }

  ghost predicate Open(s: Stream, mapping: NodeId, stack: seq<NodeId>) {
    mapping in stack || (mapping < |s.nodes| && s.nodes[mapping].kind.Mapping?)
  }

  lemma {:induction false} MappingReports(s: Stream, mapping: NodeId, origin: Origin, stack: seq<NodeId>)
    requires StreamOk(s) && Open(s, mapping, stack)
    ensures Reports(Collect(s, mapping, origin, stack), FaultsOfMapping(s, mapping, stack))
    decreases Unvisited(s, stack), 0, 0, 0, 0
  {
    hide StreamOk, CollectPairs, EntryFault, Reports;
    if mapping in stack {
      RecursionReports(s, mapping, origin, stack);
    } else {
      PushVisits(s, stack, mapping);
      var pairs := s.nodes[mapping].kind.entries;
      PairsInGraph(s, mapping);
      PairsReport(s, pairs, origin, stack + [mapping]);
      ReportsAlike(CollectPairs(s, pairs, origin, stack + [mapping]), FaultsOfPairs(s, pairs, stack + [mapping]),
                   Collect(s, mapping, origin, stack), FaultsOfMapping(s, mapping, stack));
    }
  }

  lemma RecursionReports(s: Stream, mapping: NodeId, origin: Origin, stack: seq<NodeId>)
    requires StreamOk(s) && mapping in stack
    ensures Reports(Collect(s, mapping, origin, stack), FaultsOfMapping(s, mapping, stack))
  {
    hide StreamOk, CollectPairs, EntryFault;
    assert IsFirst(FaultsOfMapping(s, mapping, stack), [], RecursiveMerge);
  }

  lemma {:induction false} PairKids(entries: seq<(NodeId, NodeId)>, i: nat)
    requires i < |entries|
    ensures entries[i].0 in FlattenPairs(entries) && entries[i].1 in FlattenPairs(entries)
    decreases |entries|
  {
    if i < |entries| - 1 { PairKids(entries[..|entries| - 1], i); }
  }

  ghost predicate PairsInside(s: Stream, pairs: seq<(NodeId, NodeId)>) {
    forall i :: 0 <= i < |pairs| ==> pairs[i].0 < |s.nodes| && pairs[i].1 < |s.nodes|
  }

  lemma PairsInGraph(s: Stream, mapping: NodeId)
    requires StreamOk(s) && mapping < |s.nodes| && s.nodes[mapping].kind.Mapping?
    ensures PairsInside(s, s.nodes[mapping].kind.entries)
  {
    var pairs := s.nodes[mapping].kind.entries;
    forall i | 0 <= i < |pairs| ensures pairs[i].0 < |s.nodes| && pairs[i].1 < |s.nodes| {
      PairKids(pairs, i);
      assert pairs[i].0 in Kids(s.nodes[mapping]) && pairs[i].1 in Kids(s.nodes[mapping]);
    }
  }

  lemma {:induction false} PairsReport(s: Stream, pairs: seq<(NodeId, NodeId)>, origin: Origin, stack: seq<NodeId>)
    requires StreamOk(s) && PairsInside(s, pairs)
    ensures Reports(CollectPairs(s, pairs, origin, stack), FaultsOfPairs(s, pairs, stack))
    decreases Unvisited(s, stack), 2, |pairs|, 0, 0
  {
    hide StreamOk, CollectValue, ValueFault, Reports, HeadAndTail, FaultsOfPairs;
    if pairs == [] {
      NoPairsReport(s, origin, stack);
    } else {
      var (key, value) := pairs[0];
      var rest, head, all := FaultsOfPairs(s, pairs[1..], stack), FaultsOfPair(s, pairs[0], stack), FaultsOfPairs(s, pairs, stack);
      var r := CollectPairs(s, pairs, origin, stack);
      assert PairsInside(s, pairs[1..]);
      PairsAreHeadAndTail(s, pairs, stack);
      PairsReport(s, pairs[1..], origin, stack);
      if IsMergeKeyAt(s, key) == Ok(true) {
        ValueReports(s, key, value, stack);
        ReportsAlike(CollectValue(s, key, value, stack), FaultsOfValue(s, value, stack), CollectValue(s, key, value, stack), head);
        if CollectValue(s, key, value, stack).Err? {
          HeadReports(CollectValue(s, key, value, stack), head, rest, all, r);
        } else {
          NoFaults(CollectValue(s, key, value, stack), head);
          TailReports(CollectPairs(s, pairs[1..], origin, stack), head, rest, all, r);
        }
      } else {
        TailReports(CollectPairs(s, pairs[1..], origin, stack), head, rest, all, r);
      }
    }
  }

  lemma NoFaults<T>(r: Result<T, EffectiveError>, faults: Faults)
    requires Reports(r, faults) && r.Ok?
    ensures forall p, e :: !faults(p, e)
  {
  }

  lemma NoPairsReport(s: Stream, origin: Origin, stack: seq<NodeId>)
    requires StreamOk(s)
    ensures Reports(CollectPairs(s, [], origin, stack), FaultsOfPairs(s, [], stack))
  {
    hide StreamOk;
  }

  lemma NoItemsReport(s: Stream, key: NodeId, low: nat, stack: seq<NodeId>)
    requires StreamOk(s) && low <= |s.nodes|
    ensures Reports(CollectChildren(s, key, [], low, stack), FaultsOfItems(s, [], stack))
  {
    hide StreamOk;
  }

  lemma ScalarReports(s: Stream, key: NodeId, value: NodeId, stack: seq<NodeId>, e: EffectiveError)
    requires StreamOk(s) && value < |s.nodes| && CollectValue(s, key, value, stack) == Err(e)
    requires forall p, f :: ValueFault(s, value, p, stack, f) <==> p == [] && f == e
    ensures Reports(CollectValue(s, key, value, stack), FaultsOfValue(s, value, stack))
  {
    hide StreamOk, ValueFault, CollectValue;
    assert IsFirst(FaultsOfValue(s, value, stack), [], e);
  }

  lemma {:induction false} ValueReports(s: Stream, key: NodeId, value: NodeId, stack: seq<NodeId>)
    requires StreamOk(s) && value < |s.nodes|
    ensures Reports(CollectValue(s, key, value, stack), FaultsOfValue(s, value, stack))
    decreases Unvisited(s, stack), 1, if value < |s.nodes| then |s.nodes| - value else 0, 0, 0
  {
    hide Collect, GraphOk, Grounded, Reports, MappingFault, ItemFault;
    NodesOk(s, value);
    match s.nodes[value].kind {
      case Alias(_, alias, target) =>
        var to := s.anchors[target].node;
        if s.nodes[to].kind.Mapping? {
          MappingReports(s, to, Merged(key, Some(alias), Some(target)), stack);
          ReportsAlike(Collect(s, to, Merged(key, Some(alias), Some(target)), stack), FaultsOfMapping(s, to, stack),
                       CollectValue(s, key, value, stack), FaultsOfValue(s, value, stack));
        } else {
          ScalarReports(s, key, value, stack, AliasNotToMapping);
        }
      case Sequence(_, children) =>
        KidsBetween(s.nodes, value);
        ItemsReport(s, key, children, value + 1, stack);
        ReportsAlike(CollectChildren(s, key, children, value + 1, stack), FaultsOfItems(s, children, stack),
                     CollectValue(s, key, value, stack), FaultsOfValue(s, value, stack));
      case Mapping(_, _) =>
        MappingReports(s, value, Merged(key, None, None), stack);
        ReportsAlike(Collect(s, value, Merged(key, None, None), stack), FaultsOfMapping(s, value, stack),
                     CollectValue(s, key, value, stack), FaultsOfValue(s, value, stack));
      case Scalar(_, _) =>
        ScalarReports(s, key, value, stack, ScalarMergeValue);
    }
  }

  lemma {:induction false} ItemsReport(s: Stream, key: NodeId, children: seq<NodeId>, low: nat, stack: seq<NodeId>)
    requires StreamOk(s) && AllBetween(children, low - 1, |s.nodes|) && low <= |s.nodes|
    ensures Reports(CollectChildren(s, key, children, low, stack), FaultsOfItems(s, children, stack))
    decreases Unvisited(s, stack), 1, |s.nodes| - low, 1, |children|
  {
    hide StreamOk, CollectValue, ValueFault, Reports, HeadAndTail, FaultsOfItems, FaultsOfValue;
    if children == [] {
      NoItemsReport(s, key, low, stack);
    } else {
      var head, rest, all := FaultsOfValue(s, children[0], stack), FaultsOfItems(s, children[1..], stack), FaultsOfItems(s, children, stack);
      ItemsAreHeadAndTail(s, children, stack);
      ValueReports(s, key, children[0], stack);
      if CollectValue(s, key, children[0], stack).Err? {
        HeadReports(CollectValue(s, key, children[0], stack), head, rest, all, CollectChildren(s, key, children, low, stack));
      } else {
        ItemsReport(s, key, children[1..], low, stack);
        NoFaults(CollectValue(s, key, children[0], stack), head);
        TailReports(CollectChildren(s, key, children[1..], low, stack), head, rest, all, CollectChildren(s, key, children, low, stack));
      }
    }
  }

  /** The view of a mapping reports the first fault in document order, and succeeds
      exactly if there is none. */
  lemma FirstFaultIsReported(s: Stream, mapping: NodeId)
    requires StreamOk(s) && mapping < |s.nodes| && s.nodes[mapping].kind.Mapping?
    ensures Reports(Collect(s, mapping, Explicit, []), FaultsOfMapping(s, mapping, []))
  {
    MappingReports(s, mapping, Explicit, []);
  }

  // ----- Success, by the paths of merges -------------------------------------------------------------

  /** A mapping, an alias of one, or a sequence of such values. */
  ghost predicate LeadsToMappings(s: Stream, value: NodeId)
    requires StreamOk(s)
    decreases if value < |s.nodes| then |s.nodes| - value else 0
  {
    && value < |s.nodes|
    && match s.nodes[value].kind
       case Mapping(_, _) => true
       case Alias(_, _, target) => s.nodes[s.anchors[target].node].kind.Mapping?
       case Sequence(_, children) => forall c :: c in Kids(s.nodes[value]) ==> LeadsToMappings(s, c)
       case Scalar(_, _) => false
  }

  /** Every merge value of the mapping is one. */
  ghost predicate MergesMappings(s: Stream, mapping: NodeId)
    requires StreamOk(s)
  {
    mapping < |s.nodes| && s.nodes[mapping].kind.Mapping? ==>
      forall i :: 0 <= i < |s.nodes[mapping].kind.entries| && IsMergeKeyAt(s, s.nodes[mapping].kind.entries[i].0) == Ok(true) ==>
        LeadsToMappings(s, s.nodes[mapping].kind.entries[i].1)
  }

  ghost predicate StartsAt(s: Stream, path: seq<NodeId>, mapping: NodeId)
    requires StreamOk(s)
  {
    MergePath(s, path) && path[0] == mapping
  }

  /** No path of merges from the mapping comes back to one of its mappings. */
  ghost predicate NeverReturns(s: Stream, mapping: NodeId)
    requires StreamOk(s)
  {
    forall path: seq<NodeId> :: StartsAt(s, path, mapping) ==> NoRepeats(path)
  }

  /** Wherever such a path ends, only mappings are merged. */
  ghost predicate AlwaysMergesMappings(s: Stream, mapping: NodeId)
    requires StreamOk(s)
  {
    forall path: seq<NodeId> :: StartsAt(s, path, mapping) ==> MergesMappings(s, path[|path| - 1])
  }

  // What is collected leads to mappings.
  lemma {:induction false} CollectedLeads(s: Stream, key: NodeId, value: NodeId, stack: seq<NodeId>)
    requires StreamOk(s) && CollectValue(s, key, value, stack).Ok?
    ensures LeadsToMappings(s, value)
    decreases if value < |s.nodes| then |s.nodes| - value else 0
  {
    hide Collect, GraphOk, Grounded;
    NodesOk(s, value);
    if s.nodes[value].kind.Sequence? {
      var children := s.nodes[value].kind.children;
      KidsBetween(s.nodes, value);
      forall c | c in Kids(s.nodes[value]) ensures LeadsToMappings(s, c) {
        var i :| 0 <= i < |children| && children[i] == c;
        ChildCollects(s, key, children, value + 1, stack, i);
        CollectedLeads(s, key, c, stack);
      }
    }
  }

  lemma CollectedMerges(s: Stream, mapping: NodeId, origin: Origin, stack: seq<NodeId>)
    requires StreamOk(s) && Collect(s, mapping, origin, stack).Ok?
    ensures MergesMappings(s, mapping)
  {
    hide StreamOk, CollectPairs, CollectValue, LeadsToMappings, IsMergeKeyAt;
    var pairs := s.nodes[mapping].kind.entries;
    forall i | 0 <= i < |pairs| && IsMergeKeyAt(s, pairs[i].0) == Ok(true) ensures LeadsToMappings(s, pairs[i].1) {
      PairCollects(s, pairs, origin, stack + [mapping], i);
      CollectedLeads(s, pairs[i].0, pairs[i].1, stack + [mapping]);
    }
  }

  lemma {:induction false} PathMerges(s: Stream, path: seq<NodeId>, origin: Origin, stack: seq<NodeId>)
    requires StreamOk(s) && MergePath(s, path) && Collect(s, path[0], origin, stack).Ok?
    ensures MergesMappings(s, path[|path| - 1])
    decreases |path|
  {
    hide StreamOk, Merges, Collect, MergesMappings;
    if |path| > 1 {
      RestOfPath(s, path);
      StepCollects(s, path[0], origin, path[1], stack);
      var next :| Collect(s, path[1], next, stack + [path[0]]).Ok?;
      PathMerges(s, path[1..], next, stack + [path[0]]);
    } else {
      CollectedMerges(s, path[0], origin, stack);
    }
  }

  // A fault lies in a value that does not lead to mappings, or behind one it supplies.
  lemma {:induction false} FaultOfValue(s: Stream, value: NodeId, place: Place, stack: seq<NodeId>, e: EffectiveError)
    returns (to: NodeId, rest: Place)
    requires StreamOk(s) && ValueFault(s, value, place, stack, e) && LeadsToMappings(s, value)
    ensures Supplies(s, value, to) && MappingFault(s, to, rest, stack, e) && |rest| <= |place|
    decreases |place|
  {
    hide GraphOk, Grounded, MappingFault;
    NodesOk(s, value);
    match s.nodes[value].kind {
      case Alias(_, _, target) => to, rest := s.anchors[target].node, place;
      case Sequence(_, children) =>
        assert children[place[0]] in Kids(s.nodes[value]);
        to, rest := FaultOfValue(s, children[place[0]], place[1..], stack, e);
      case Mapping(_, _) => to, rest := value, place;
    }
  }

  /** A path to a mapping that is merged inside itself, or has a merge value that does
      not lead to mappings. */
  ghost predicate Breaks(s: Stream, path: seq<NodeId>, mapping: NodeId, stack: seq<NodeId>)
    requires StreamOk(s)
  {
    StartsAt(s, path, mapping) && (path[|path| - 1] in stack + path[..|path| - 1] || !MergesMappings(s, path[|path| - 1]))
  }

  lemma {:induction false} FaultBreaks(s: Stream, mapping: NodeId, place: Place, stack: seq<NodeId>, e: EffectiveError)
    returns (path: seq<NodeId>)
    requires StreamOk(s) && MappingFault(s, mapping, place, stack, e)
    ensures Breaks(s, path, mapping, stack)
    decreases |place|
  {
    hide StreamOk, ValueFault, Supplies, LeadsToMappings, IsMergeKeyAt;
    if mapping in stack {
      path := [mapping];
    } else {
      var pairs := s.nodes[mapping].kind.entries;
      var pair := pairs[place[0]];
      if LeadsToMappings(s, pair.1) {
        var to, rest := FaultOfValue(s, pair.1, place[1..], stack + [mapping], e);
        assert MergesThrough(s, pair, to);
        var tail := FaultBreaks(s, to, rest, stack + [mapping], e);
        path := [mapping] + tail;
        ExtendPath(s, mapping, tail);
        assert path[|path| - 1] == tail[|tail| - 1];
        assert stack + path[..|path| - 1] == stack + [mapping] + tail[..|tail| - 1];
      } else {
        path := [mapping];
      }
    }
  }

  /** The view of a mapping succeeds exactly if no path of merges from it repeats a
      mapping, and every merge value on such paths is a mapping, an alias of one, or a
      sequence of such values. */
  lemma ViewSucceedsExactly(s: Stream, mapping: NodeId)
    requires StreamOk(s)
    ensures Collect(s, mapping, Explicit, []).Ok? <==>
              && mapping < |s.nodes| && s.nodes[mapping].kind.Mapping?
              && NeverReturns(s, mapping) && AlwaysMergesMappings(s, mapping)
    ensures mapping >= |s.nodes| ==> Collect(s, mapping, Explicit, []) == Err(MappingOutOfBounds)
    ensures mapping < |s.nodes| && !s.nodes[mapping].kind.Mapping? ==> Collect(s, mapping, Explicit, []) == Err(NotAMapping)
  {
    hide StreamOk, Collect, MergePath, MergesMappings;
    ViewNeedsMapping(s, mapping);
    if Collect(s, mapping, Explicit, []).Ok? {
      forall path: seq<NodeId> | StartsAt(s, path, mapping) 
        ensures path != [] && NoRepeats(path) && MergesMappings(s, path[|path| - 1])
      {
        PathIsPath(s, path);
        PathAvoidsStack(s, path, Explicit, []);
        PathMerges(s, path, Explicit, []);
      }
    } else if mapping < |s.nodes| && s.nodes[mapping].kind.Mapping? {
      FirstFaultIsReported(s, mapping);
      var e := Collect(s, mapping, Explicit, []).error;
      var place :| IsFirst(FaultsOfMapping(s, mapping, []), place, e);
      var path := FaultBreaks(s, mapping, place, [], e);
      PathIsPath(s, path);
      if MergesMappings(s, path[|path| - 1]) { RepeatsAtEnd(path); }
    }
  }

  lemma PathIsPath(s: Stream, path: seq<NodeId>)
    requires StreamOk(s) && MergePath(s, path)
    ensures path != []
  {
  }

  lemma RepeatsAtEnd(path: seq<NodeId>)
    requires path != [] && path[|path| - 1] in [] + path[..|path| - 1]
    ensures !NoRepeats(path)
  {
    var last := |path| - 1;
    var j :| 0 <= j < last && path[j] == path[last];
  }

  lemma ViewNeedsMapping(s: Stream, mapping: NodeId)
    requires StreamOk(s)
    ensures Collect(s, mapping, Explicit, []).Ok? ==> mapping < |s.nodes| && s.nodes[mapping].kind.Mapping?
    ensures mapping >= |s.nodes| ==> Collect(s, mapping, Explicit, []) == Err(MappingOutOfBounds)
    ensures mapping < |s.nodes| && !s.nodes[mapping].kind.Mapping? ==> Collect(s, mapping, Explicit, []) == Err(NotAMapping)
  {
    hide StreamOk, CollectPairs;
  }
}
