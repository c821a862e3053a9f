// The merge-aware view of a mapping in the lossless graph (src/lossless.rs):
// explicit entries first, then those of its merge sources, with a recursion stack.
module EffectiveEntries {
  import opened Prelude
  import opened LosslessGraph
  import opened LosslessRoundTrip

  datatype Origin = Explicit | Merged(merge_key: NodeId, alias: Option<AliasId>, target_anchor: Option<AnchorId>)
  datatype Effective = Effective(key: NodeId, value: NodeId, origin: Origin, overridden: bool)

  datatype EffectiveError =
    | RecursiveMerge
    | MappingOutOfBounds
    | NotAMapping
    | KeyOutOfBounds
    | ValueOutOfBounds
    | TargetOutOfBounds
    | AliasNotToMapping
    | ScalarMergeValue

  type Entries = Result<seq<Effective>, EffectiveError>

  // ----- The collected entries --------------------------------------------------------------

  /** `is_lossless_merge_key`. */
  function IsMergeKeyAt(s: Stream, key: NodeId): Result<bool, EffectiveError> {
    if key >= |s.nodes| then Err(KeyOutOfBounds)
    else
      var node := s.nodes[key];
      Ok(node.kind.Scalar? && node.kind.text == "<<" && (node.tag.None? || node.tag.value.tag.IsYamlCore("merge")))
  }

  // The mappings the stack does not hold yet; every nested mapping takes one.
  ghost function Unvisited(s: Stream, stack: seq<NodeId>): set<NodeId> {
    set i | 0 <= i < |s.nodes| && i !in stack
  }

  lemma PushVisits(s: Stream, stack: seq<NodeId>, mapping: NodeId)
    requires mapping < |s.nodes| && mapping !in stack
    ensures Unvisited(s, stack + [mapping]) < Unvisited(s, stack)
  {
    assert mapping in Unvisited(s, stack) && mapping !in Unvisited(s, stack + [mapping]);
  }

  /** `collect_effective_mapping_entries`, with the stack handed down. */
  function Collect(s: Stream, mapping: NodeId, origin: Origin, stack: seq<NodeId>): Entries
    requires StreamOk(s)
    decreases Unvisited(s, stack), 0, 0, 0, 0
  {
    if mapping in stack then Err(RecursiveMerge)
    else if mapping >= |s.nodes| then Err(MappingOutOfBounds)
    else if !s.nodes[mapping].kind.Mapping? then Err(NotAMapping)
    else
      PushVisits(s, stack, mapping);
      match CollectPairs(s, s.nodes[mapping].kind.entries, origin, stack + [mapping])
      case Err(e) => Err(e)
      case Ok((explicit, merged)) => Ok(explicit + merged)
  }

  function CollectPairs(s: Stream, pairs: seq<(NodeId, NodeId)>, origin: Origin, stack: seq<NodeId>)
    : Result<(seq<Effective>, seq<Effective>), EffectiveError>
    requires StreamOk(s)
    decreases Unvisited(s, stack), 2, |pairs|, 0, 0
  {
    if pairs == [] then Ok(([], []))
    else
      var (key, value) := pairs[0];
      match IsMergeKeyAt(s, key)
      case Err(e) => Err(e)
      case Ok(true) =>
        (match CollectValue(s, key, value, stack)
         case Err(e) => Err(e)
         case Ok(more) => Joined([], more, CollectPairs(s, pairs[1..], origin, stack)))
      case Ok(false) =>
        Joined([Effective(key, value, origin, false)], [], CollectPairs(s, pairs[1..], origin, stack))
  }

  // `explicit` and `merged` in front of what the rest of the mapping gives.
  function Joined(explicit: seq<Effective>, merged: seq<Effective>, rest: Result<(seq<Effective>, seq<Effective>), EffectiveError>)
    : Result<(seq<Effective>, seq<Effective>), EffectiveError>
  {
    match rest
    case Err(e) => Err(e)
    case Ok((x, m)) => Ok((explicit + x, merged + m))
  }

  /** `collect_lossless_merge_value`. */
  function CollectValue(s: Stream, merge_key: NodeId, value: NodeId, stack: seq<NodeId>): Entries
    requires StreamOk(s)
    decreases Unvisited(s, stack), 1, if value < |s.nodes| then |s.nodes| - value else 0, 0, 0
  {
    if value >= |s.nodes| then Err(ValueOutOfBounds)
    else
      match s.nodes[value].kind
      case Alias(_, alias, target) =>
        if target >= |s.anchors| || s.anchors[target].node >= |s.nodes| then Err(TargetOutOfBounds)
        else
          var node := s.nodes[s.anchors[target].node];
          if !node.kind.Mapping? then Err(AliasNotToMapping)
          else Collect(s, node.id, Merged(merge_key, Some(alias), Some(target)), stack)
      case Sequence(_, children) =>
        KidsBetween(s.nodes, value);
        CollectChildren(s, merge_key, children, value + 1, stack)
      case Mapping(_, _) => Collect(s, s.nodes[value].id, Merged(merge_key, None, None), stack)
      case Scalar(_, _) => Err(ScalarMergeValue)
  }

  function CollectChildren(s: Stream, merge_key: NodeId, children: seq<NodeId>, low: nat, stack: seq<NodeId>): Entries
    requires StreamOk(s) && AllBetween(children, low - 1, |s.nodes|) && low <= |s.nodes|
    decreases Unvisited(s, stack), 1, |s.nodes| - low, 1, |children|
  {
    if children == [] then Ok([])
    else
      match CollectValue(s, merge_key, children[0], stack)
      case Err(e) => Err(e)
      case Ok(first) => InFront(first, CollectChildren(s, merge_key, children[1..], low, stack))
  }

  function InFront(first: seq<Effective>, rest: Entries): Entries {
    match rest
    case Err(e) => Err(e)
    case Ok(more) => Ok(first + more)
  }

  // ----- The methods, on shared vectors -----------------------------------------------------------

  /** A growable vector passed by reference. */
  class Vector<T> {
    var items: seq<T>

    constructor ()
      ensures items == []
    {
      items := [];
    }

    method Push(item: T)
      modifies this
      ensures items == old(items) + [item]
    {
      items := items + [item];
    }

    method Pop()
      requires items != []
      modifies this
      ensures items == old(items)[..old(|items|) - 1]
    {
      items := items[..|items| - 1];
    }

    method Extend(more: seq<T>)
      modifies this
      ensures items == old(items) + more
    {
      items := items + more;
    }
  }

  method CollectEffectiveMappingEntries(s: Stream, mapping: NodeId, origin: Origin, stack: Vector<NodeId>) returns (r: Entries)
    requires StreamOk(s)
    modifies stack
    ensures r == Collect(s, mapping, origin, old(stack.items))
    ensures r.Ok? ==> stack.items == old(stack.items)
    decreases Unvisited(s, stack.items), 0, 0, 0, 0
  {
    if mapping in stack.items {
      return Err(RecursiveMerge);
    }
    ghost var before := stack.items;
    stack.Push(mapping);
    if mapping >= |s.nodes| {
      return Err(MappingOutOfBounds);
    }
    if !s.nodes[mapping].kind.Mapping? {
      return Err(NotAMapping);
    }
    PushVisits(s, before, mapping);
    var pairs := s.nodes[mapping].kind.entries;
    var explicit_entries: seq<Effective> := [];
    var merged_entries := new Vector<Effective>();
    ghost var inner := before + [mapping];
    assert pairs[0..] == pairs;
    JoinedTwice([], [], [], [], CollectPairs(s, pairs, origin, inner));
    for i := 0 to |pairs|
      invariant stack.items == inner
      invariant fresh(merged_entries)
      invariant Joined(explicit_entries, merged_entries.items, CollectPairs(s, pairs[i..], origin, inner)) == CollectPairs(s, pairs, origin, inner)
    {
      ghost var rest := CollectPairs(s, pairs[i + 1..], origin, inner);
      assert pairs[i..][0] == pairs[i] && pairs[i..][1..] == pairs[i + 1..];
      var (key, value) := pairs[i];
      var merge := IsMergeKeyAt(s, key);
      if merge.Err? {
        return Err(merge.error);
      }
      ghost var merged := merged_entries.items;
      if merge.value {
        var done := CollectLosslessMergeValue(s, key, value, merged_entries, stack);
        if done.Err? {
          return Err(done.error);
        }
        JoinedTwice(explicit_entries, merged, [], CollectValue(s, key, value, inner).value, rest);
      } else {
        JoinedTwice(explicit_entries, merged, [Effective(key, value, origin, false)], [], rest);
        explicit_entries := explicit_entries + [Effective(key, value, origin, false)];
      }
    }
    assert pairs[|pairs|..] == [];
    JoinedTwice(explicit_entries, merged_entries.items, [], [], Ok(([], [])));
    stack.Pop();
    return Ok(explicit_entries + merged_entries.items);
  }

  lemma JoinedTwice(x: seq<Effective>, m: seq<Effective>, x': seq<Effective>, m': seq<Effective>,
                    rest: Result<(seq<Effective>, seq<Effective>), EffectiveError>)
    ensures Joined(x, m, Joined(x', m', rest)) == Joined(x + x', m + m', rest)
    ensures x + [] == x && m + [] == m
    ensures Joined([], [], rest) == rest
  {
    if rest.Ok? {
      assert [] + rest.value.0 == rest.value.0 && [] + rest.value.1 == rest.value.1;
      assert x + (x' + rest.value.0) == x + x' + rest.value.0 && m + (m' + rest.value.1) == m + m' + rest.value.1;
    }
  }

  lemma InFrontTwice(x: seq<Effective>, y: seq<Effective>, rest: Entries)
    ensures InFront(x, InFront(y, rest)) == InFront(x + y, rest)
    ensures InFront([], rest) == rest
  {
    if rest.Ok? {
      assert [] + rest.value == rest.value;
      assert x + (y + rest.value) == x + y + rest.value;
    }
  }

  lemma ChildrenBetween(s: Stream, value: NodeId)
    requires StreamOk(s) && value < |s.nodes| && s.nodes[value].kind.Sequence?
    ensures AllBetween(s.nodes[value].kind.children, value, |s.nodes|)
  {
    KidsBetween(s.nodes, value);
  }

  /** Appends the entries of one merge value to `output`. */
  method CollectLosslessMergeValue(s: Stream, merge_key: NodeId, value: NodeId, output: Vector<Effective>, stack: Vector<NodeId>)
    returns (r: Result<(), EffectiveError>)
    requires StreamOk(s)
    modifies output, stack
    ensures match CollectValue(s, merge_key, value, old(stack.items))
            case Err(e) => r == Err(e)
            case Ok(more) => r.Ok? && output.items == old(output.items) + more && stack.items == old(stack.items)
    decreases Unvisited(s, stack.items), 1, if value < |s.nodes| then |s.nodes| - value else 0, 0, 0
  {
    hide StreamOk, Collect;
    if value >= |s.nodes| {
      return Err(ValueOutOfBounds);
    }
    match s.nodes[value].kind {
      case Alias(_, alias, target) =>
        if target >= |s.anchors| || s.anchors[target].node >= |s.nodes| {
          return Err(TargetOutOfBounds);
        }
        var node := s.nodes[s.anchors[target].node];
        if !node.kind.Mapping? {
          return Err(AliasNotToMapping);
        }
        var entries := CollectEffectiveMappingEntries(s, node.id, Merged(merge_key, Some(alias), Some(target)), stack);
        if entries.Err? {
          return Err(entries.error);
        }
        output.Extend(entries.value);
      case Sequence(_, children) =>
        ChildrenBetween(s, value);
        ghost var held, before := stack.items, output.items;
        ghost var added := [];
        assert children[0..] == children;
        InFrontTwice([], [], CollectChildren(s, merge_key, children, value + 1, held));
        for i := 0 to |children|
          invariant stack.items == held && output.items == before + added
          invariant InFront(added, CollectChildren(s, merge_key, children[i..], value + 1, held)) == CollectValue(s, merge_key, value, held)
        {
          assert children[i..][0] == children[i] && children[i..][1..] == children[i + 1..];
          var done := CollectLosslessMergeValue(s, merge_key, children[i], output, stack);
          if done.Err? {
            return Err(done.error);
          }
          ghost var more := CollectValue(s, merge_key, children[i], held).value;
          InFrontTwice(added, more, CollectChildren(s, merge_key, children[i + 1..], value + 1, held));
          added := added + more;
        }
      case Mapping(_, _) =>
        var entries := CollectEffectiveMappingEntries(s, s.nodes[value].id, Merged(merge_key, None, None), stack);
        if entries.Err? {
          return Err(entries.error);
        }
        output.Extend(entries.value);
      case Scalar(_, _) =>
        return Err(ScalarMergeValue);
    }
    return Ok(());
  }

  // ----- Overrides ---------------------------------------------------------------------------

  function ScalarKey(s: Stream, key: NodeId): Option<string> {
    if key < |s.nodes| && s.nodes[key].kind.Scalar? then Some(s.nodes[key].kind.text) else None
  }

  /** The scalar key at `i` already occurs before `i`. */
  ghost predicate Repeats(s: Stream, entries: seq<Effective>, i: nat)
    requires i < |entries|
  {
    ScalarKey(s, entries[i].key).Some? && exists j :: 0 <= j < i && ScalarKey(s, entries[j].key) == ScalarKey(s, entries[i].key)
  }

  ghost predicate MarkedFrom(s: Stream, before: seq<Effective>, after: seq<Effective>) {
    && |after| == |before|
    && forall i :: 0 <= i < |before| ==>
         after[i] == before[i].(overridden := before[i].overridden || Repeats(s, before, i))
  }

  /** `mark_effective_mapping_overrides`. */
  method MarkOverrides(s: Stream, entries: Vector<Effective>)
    modifies entries
    ensures MarkedFrom(s, old(entries.items), entries.items)
  {
    ghost var before := entries.items;
    var seen: set<string> := {};
    for i := 0 to |entries.items|
      invariant |entries.items| == |before|
      invariant forall j :: 0 <= j < i ==>
                  entries.items[j] == before[j].(overridden := before[j].overridden || Repeats(s, before, j))
      invariant forall j :: i <= j < |before| ==> entries.items[j] == before[j]
      invariant forall j :: 0 <= j < i && ScalarKey(s, before[j].key).Some? ==> ScalarKey(s, before[j].key).value in seen
      invariant forall t :: t in seen ==> exists j :: 0 <= j < i && ScalarKey(s, before[j].key) == Some(t)
    {
      match ScalarKey(s, entries.items[i].key) {
        case None =>
        case Some(key) =>
          if key in seen {
            entries.items := entries.items[i := entries.items[i].(overridden := true)];
          } else {
            seen := seen + {key};
          }
      }
    }
  }

  /** `effective_mapping_entries`. */
  method EffectiveMappingEntries(s: Stream, mapping: NodeId) returns (r: Entries)
    requires StreamOk(s)
    ensures match Collect(s, mapping, Explicit, [])
            case Err(e) => r == Err(e)
            case Ok(entries) => r.Ok? && MarkedFrom(s, entries, r.value)
  {
    hide StreamOk, Collect, Repeats;
    var stack := new Vector<NodeId>();
    r := CollectEffectiveMappingEntries(s, mapping, Explicit, stack);
    if r.Ok? {
      var entries := new Vector<Effective>();
      entries.Extend(r.value);
      assert entries.items == r.value;
      MarkOverrides(s, entries);
      r := Ok(entries.items);
    }
  }
}
