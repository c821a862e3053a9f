// The links of a built graph: parents, roots, and alias targets.
module LosslessLinks {
  import opened Prelude
  import opened LosslessGraph
  import opened LosslessValid
  import opened LosslessRoundTrip
  import opened LosslessReplay
  import opened LosslessTheorems

  // ----- Counting references ---------------------------------------------------------------------

  function Occurs(ids: seq<NodeId>, x: NodeId): nat {
    multiset(ids)[x]
  }

  function IsAt(id: Option<NodeId>, x: NodeId): nat {
    if id == Some(x) then 1 else 0
  }

  /** How often `x` is a child. */
  function ChildRefs(nodes: seq<GraphNode>, x: NodeId): nat {
    if nodes == [] then 0
    else ChildRefs(nodes[..|nodes| - 1], x) + Occurs(Kids(nodes[|nodes| - 1]), x)
  }

  function PendingRef(frame: Frame, x: NodeId): nat {
    if frame.MappingFrame? then IsAt(frame.pending_key, x) else 0
  }

  function PendingRefs(stack: seq<Frame>, x: NodeId): nat {
    if stack == [] then 0
    else PendingRefs(stack[..|stack| - 1], x) + PendingRef(stack[|stack| - 1], x)
  }

  /** How often `x` is the root of a document. */
  function RootRefs(documents: seq<Document>, x: NodeId): nat {
    if documents == [] then 0
    else RootRefs(documents[..|documents| - 1], x) + IsAt(documents[|documents| - 1].root, x)
  }

  function CurrentRoot(s: State): Option<NodeId> {
    if s.current.Some? then s.current.value.root else None
  }

  function Refs(s: State, x: NodeId): nat {
    ChildRefs(s.nodes, x) + PendingRefs(s.stack, x) + RootRefs(s.documents, x) + IsAt(CurrentRoot(s), x)
  }

  lemma ChildRefsPush(nodes: seq<GraphNode>, node: GraphNode, x: NodeId)
    ensures ChildRefs(nodes + [node], x) == ChildRefs(nodes, x) + Occurs(Kids(node), x)
  {
    assert (nodes + [node])[..|nodes|] == nodes;
  }

  lemma {:induction false} ChildRefsUpdate(nodes: seq<GraphNode>, i: nat, node: GraphNode, x: NodeId)
    requires i < |nodes|
    ensures ChildRefs(nodes[i := node], x) == ChildRefs(nodes, x) - Occurs(Kids(nodes[i]), x) + Occurs(Kids(node), x)
  {
    hide Kids, Occurs;
    var n := |nodes| - 1;
    if i < n {
      ChildRefsUpdate(nodes[..n], i, node, x);
      assert nodes[i := node][..n] == nodes[..n][i := node];
    } else {
      assert nodes[i := node][..n] == nodes[..n];
    }
  }

  lemma PendingRefsTop(stack: seq<Frame>, frame: Frame, x: NodeId)
    requires stack != []
    ensures PendingRefs(stack[|stack| - 1 := frame], x)
         == PendingRefs(stack, x) - PendingRef(stack[|stack| - 1], x) + PendingRef(frame, x)
  {
    assert stack[|stack| - 1 := frame][..|stack| - 1] == stack[..|stack| - 1];
  }

  lemma PendingRefsPush(stack: seq<Frame>, frame: Frame, x: NodeId)
    ensures PendingRefs(stack + [frame], x) == PendingRefs(stack, x) + PendingRef(frame, x)
  {
    assert (stack + [frame])[..|stack|] == stack;
  }

  lemma RootRefsPush(documents: seq<Document>, d: Document, x: NodeId)
    ensures RootRefs(documents + [d], x) == RootRefs(documents, x) + IsAt(d.root, x)
  {
    assert (documents + [d])[..|documents|] == documents;
  }

  lemma AddedKids(node: GraphNode, frame: Frame, id: NodeId, x: NodeId)
    requires if frame.SequenceFrame? then node.kind.Sequence? else node.kind.Mapping?
    ensures Occurs(Kids(AddKid(node, frame, id)), x) + PendingRef(NextFrame(frame, id), x)
         == Occurs(Kids(node), x) + PendingRef(frame, x) + IsAt(Some(id), x)
  {
    hide Kids, AddKid;
    KidsAfterAdd(node, frame, id);
  }

  // Attaching a node adds exactly one reference to it.
  lemma AttachedAddsRef(s: State, id: NodeId, x: NodeId)
    requires FramesOk(s) && s.current.Some?
    requires s.stack == [] ==> s.current.value.root.None?
    ensures Refs(Attached(s, id), x) == Refs(s, x) + IsAt(Some(id), x)
  {
    hide Kids, AddKid, PendingRefs, ChildRefs, RootRefs, Occurs;
    if s.stack != [] {
      var top := s.stack[|s.stack| - 1];
      var node := s.nodes[top.node];
      ChildRefsUpdate(s.nodes, top.node, AddKid(node, top, id), x);
      PendingRefsTop(s.stack, NextFrame(top, id), x);
      AddedKids(node, top, id, x);
    }
  }

  ghost predicate Receptive(s: State) {
    FramesOk(s) && s.current.Some? && (s.stack == [] ==> s.current.value.root.None?)
  }

  lemma PushedAddsRef(s: State, meta: EventMeta, span: Span, kind: Kind, x: NodeId)
    requires Receptive(s) && Childless(kind)
    ensures Refs(PushedNode(s, meta, span, kind), x) == Refs(s, x) + IsAt(Some(|s.nodes|), x)
    ensures |PushedNode(s, meta, span, kind).nodes| == |s.nodes| + 1
  {
    hide PendingRefs, ChildRefs, RootRefs;
    var id := |s.nodes|;
    var (s1, anchor) := Registered(s, id, meta.anchor);
    var node := GraphNode(id, span, anchor, meta.tag, kind);
    ChildRefsPush(s.nodes, node, x);
    AttachedAddsRef(s1.(nodes := s1.nodes + [node]), id, x);
  }

  lemma AliasAddsRef(s: State, anchor: EventAnchor, x: NodeId)
    requires Receptive(s) && PushedAlias(s, anchor).Ok?
    ensures Refs(PushedAlias(s, anchor).value, x) == Refs(s, x) + IsAt(Some(|s.nodes|), x)
    ensures |PushedAlias(s, anchor).value.nodes| == |s.nodes| + 1
  {
    hide PendingRefs, ChildRefs, RootRefs;
    var target := s.active[anchor.name];
    var id, alias := |s.nodes|, |s.aliases|;
    var node := GraphNode(id, anchor.span, None, None, Alias(anchor.name, alias, target));
    ChildRefsPush(s.nodes, node, x);
    AttachedAddsRef(
      s.(aliases := s.aliases + [AliasRef(alias, anchor.name, anchor.span, id, target)], nodes := s.nodes + [node]), id, x);
  }

  lemma EndKeepsRefs(s: State, end_span: Span, sequence: bool, x: NodeId)
    requires FramesOk(s) && Ended(s, end_span, sequence).Ok? && PendingRef(s.stack[|s.stack| - 1], x) == 0
    ensures Refs(Ended(s, end_span, sequence).value, x) == Refs(s, x)
    ensures |Ended(s, end_span, sequence).value.nodes| == |s.nodes|
  {
    hide ChildRefs, RootRefs, Kids, Occurs;
    var frame := s.stack[|s.stack| - 1];
    var s' := Ended(s, end_span, sequence).value;
    KidsIgnoreSpan(s.nodes[frame.node], s'.nodes[frame.node].span);
    ChildRefsUpdate(s.nodes, frame.node, s'.nodes[frame.node], x);
  }

  lemma KidsIgnoreSpan(node: GraphNode, span: Span)
    ensures Kids(node.(span := span)) == Kids(node)
  {
  }

  function Once(s: State, x: NodeId): nat {
    if x < |s.nodes| then 1 else 0
  }

  lemma NodeEventAddsRef(s: State, event: Event, x: NodeId)
    requires Receptive(s) && Step(s, event).Ok?
    requires event.ScalarEvent? || event.AliasEvent? || event.SequenceStart? || event.MappingStart?
    ensures Refs(Step(s, event).value, x) == Refs(s, x) + IsAt(Some(|s.nodes|), x)
    ensures |Step(s, event).value.nodes| == |s.nodes| + 1
  {
    hide ChildRefs, RootRefs, PendingRefs, PushedNode, PushedAlias;
    match event {
      case ScalarEvent(text, style, meta, span) => PushedAddsRef(s, meta, span, Scalar(text, style), x);
      case AliasEvent(anchor) => AliasAddsRef(s, anchor, x);
      case SequenceStart(meta, style, span) =>
        PushedAddsRef(s, meta, span, Sequence(style, []), x);
        PendingRefsPush(PushedNode(s, meta, span, Sequence(style, [])).stack, SequenceFrame(|s.nodes|, span), x);
      case MappingStart(meta, style, span) =>
        PushedAddsRef(s, meta, span, Mapping(style, []), x);
        PendingRefsPush(PushedNode(s, meta, span, Mapping(style, [])).stack, MappingFrame(|s.nodes|, span, None), x);
    }
  }

  lemma DocumentEventKeepsRefs(p: Place, s: State, event: Event, x: NodeId)
    requires PlaceOk(p, s) && Advance(p, event).Some? && Step(s, event).Ok?
    requires event.StreamStart? || event.StreamEnd? || event.DocumentStart? || event.DocumentEnd?
    ensures Refs(Step(s, event).value, x) == Refs(s, x) && |Step(s, event).value.nodes| == |s.nodes|
  {
    hide ChildRefs, RootRefs, PendingRefs;
    if event.DocumentEnd? {
      RootRefsPush(s.documents, Finish(s.current.value, event.explicit, event.span), x);
    }
  }

  // What the grammar says about the state.
  ghost predicate PlaceOk(p: Place, s: State) {
    && FramesOk(s)
    && (p.Outside? ==> s.current.None? && s.stack == [])
    && (p.Inside? ==> s.current.Some? && |p.frames| == |s.stack|)
    && (AfterNode(p).Some? ==> Receptive(s))
    && (p.Inside? && p.frames != [] && p.frames[|p.frames| - 1] != OpenMapping(true) ==>
          !s.stack[|s.stack| - 1].MappingFrame? || s.stack[|s.stack| - 1].pending_key.None?)
  }

  lemma FollowsIsPlaced(p: Place, s: State)
    requires Follows(p, s)
    ensures PlaceOk(p, s) && Valid(s)
  {
    hide GraphOk, Nested;
    if p.Inside? && p.frames != [] {
      assert FrameMatches(s.stack[|s.stack| - 1], p.frames[|p.frames| - 1]);
    }
  }

  lemma StepCountsOnce(p: Place, s: State, event: Event, x: NodeId)
    requires PlaceOk(p, s) && Advance(p, event).Some? && Step(s, event).Ok?
    requires Refs(s, x) == Once(s, x)
    ensures Refs(Step(s, event).value, x) == Once(Step(s, event).value, x)
  {
    match event {
      case SequenceEnd(span) =>
        hide Refs, Ended, FramesOk;
        EndKeepsRefs(s, span, true, x);
      case MappingEnd(span) =>
        hide Refs, Ended, FramesOk;
        EndKeepsRefs(s, span, false, x);
      case StreamStart => hide Refs; DocumentEventKeepsRefs(p, s, event, x);
      case StreamEnd => hide Refs; DocumentEventKeepsRefs(p, s, event, x);
      case DocumentStart(_, _, _) => hide Refs; DocumentEventKeepsRefs(p, s, event, x);
      case DocumentEnd(_, _) => hide Refs; DocumentEventKeepsRefs(p, s, event, x);
      case _ =>
        hide Refs, Step, FramesOk;
        NodeEventAddsRef(s, event, x);
    }
  }

  lemma {:induction false} StepsCountOnce(events: seq<Event>, x: NodeId)
    requires Run(Outside, events).Some? && Steps(events).Ok?
    ensures Refs(Steps(events).value, x) == Once(Steps(events).value, x)
  {
    hide Step, Advance, Follows, PlaceOk, Once;
    if events == [] {
      NoRefs(x);
    } else {
      var init, event := events[..|events| - 1], events[|events| - 1];
      StepsCountOnce(init, x);
      StepsReplay(init);
      FollowsIsPlaced(Run(Outside, init).value, Steps(init).value);
      StepCountsOnce(Run(Outside, init).value, Steps(init).value, event, x);
    }
  }

  lemma NoRefs(x: NodeId)
    ensures Refs(INITIAL, x) == Once(INITIAL, x)
  {
  }

  /** Every node is the child of exactly one node, at one place, or else the root of
      exactly one document; and nothing else is referred to. */
  lemma EveryNodeHasOneParent(events: seq<Event>, x: NodeId)
    requires WellFormed(events) && Built(events).Ok?
    ensures var s := Built(events).value;
            ChildRefs(s.nodes, x) + RootRefs(s.documents, x) == if x < |s.nodes| then 1 else 0
  {
    hide Advance, Step, ChildRefs, RootRefs;
    StepsCountOnce(events, x);
    StepsReplay(events);
    FollowsIsPlaced(Outside, Steps(events).value);
  }

  // ----- Alias targets -----------------------------------------------------------------------------

  /** `target` is the last anchor of this name defined before the node `i`. */
  ghost predicate LatestAnchor(anchors: seq<AnchorDef>, name: string, i: NodeId, target: AnchorId) {
    && target < |anchors| && anchors[target].name == name && anchors[target].node < i
    && forall u :: 0 <= u < |anchors| && anchors[u].name == name && anchors[u].node < i ==> u <= target
  }

  ghost predicate AliasLinked(nodes: seq<GraphNode>, anchors: seq<AnchorDef>, i: NodeId)
    requires i < |nodes|
  {
    nodes[i].kind.Alias? ==> LatestAnchor(anchors, nodes[i].kind.name, i, nodes[i].kind.target)
  }

  /** No document starts at `root` between the target of the alias `i` and the alias. */
  ghost predicate AliasWithin(nodes: seq<GraphNode>, anchors: seq<AnchorDef>, i: NodeId, root: Option<NodeId>)
    requires i < |nodes|
  {
    nodes[i].kind.Alias? && root.Some? ==>
      nodes[i].kind.target < |anchors| && (anchors[nodes[i].kind.target].node < root.value ==> i < root.value)
  }

  // The active anchors are the latest of their names, in the current document.
  ghost predicate ActiveIsLatest(s: State) {
    forall name :: name in s.active ==>
      && LatestAnchor(s.anchors, name, |s.nodes|, s.active[name])
      && (s.current.Some? ==> Base(s) <= s.anchors[s.active[name]].node)
  }

  ghost predicate AliasesLinked(s: State) {
    forall i :: 0 <= i < |s.nodes| ==> AliasLinked(s.nodes, s.anchors, i) && AliasWithin(s.nodes, s.anchors, i, CurrentRoot(s))
  }

  ghost predicate AliasWithinAll(nodes: seq<GraphNode>, anchors: seq<AnchorDef>, i: NodeId, documents: seq<Document>)
    requires i < |nodes|
  {
    forall d :: 0 <= d < |documents| ==> AliasWithin(nodes, anchors, i, documents[d].root)
  }

  ghost predicate DocumentsLinked(s: State) {
    forall i :: 0 <= i < |s.nodes| ==> AliasWithinAll(s.nodes, s.anchors, i, s.documents)
  }

  ghost predicate Linked(s: State) {
    ActiveIsLatest(s) && AliasesLinked(s) && DocumentsLinked(s)
  }

  // A step never changes an alias node or an anchor, and adds at most one of them.
  ghost predicate SameAliases(before: seq<GraphNode>, after: seq<GraphNode>) {
    && |before| <= |after|
    && forall i :: 0 <= i < |before| && (before[i].kind.Alias? || after[i].kind.Alias?) ==> after[i].kind == before[i].kind
  }

  ghost predicate NodeStep(s: State, s': State, anchor: Option<EventAnchor>) {
    && SameAliases(s.nodes, s'.nodes) && |s'.nodes| == |s.nodes| + 1
    && s'.anchors == s.anchors + (if anchor.Some? then [AnchorDef(|s.anchors|, anchor.value.name, anchor.value.span, |s.nodes|)] else [])
    && s'.active == (if anchor.Some? then s.active[anchor.value.name := |s.anchors|] else s.active)
    && s'.documents == s.documents && s.current.Some? && s'.current.Some?
    && (s'.nodes[|s.nodes|].kind.Alias? ==>
          && anchor.None? && s'.nodes[|s.nodes|].kind.name in s.active
          && s'.nodes[|s.nodes|].kind.target == s.active[s'.nodes[|s.nodes|].kind.name])
    && (CurrentRoot(s') == if s.stack == [] then Some(|s.nodes|) else CurrentRoot(s))
  }

  lemma NodeEventIsNodeStep(s: State, event: Event)
    requires Receptive(s) && Step(s, event).Ok? && AnchorsOfNewNode(event).Some?
    ensures NodeStep(s, Step(s, event).value, AnchorsOfNewNode(event).value)
  {
    hide Attached, AddKid, SameAliases, FramesOk, Once;
    match event {
      case ScalarEvent(text, style, meta, span) => PushIsNodeStep(s, meta, span, Scalar(text, style));
      case SequenceStart(meta, style, span) => PushIsNodeStep(s, meta, span, Sequence(style, []));
      case MappingStart(meta, style, span) => PushIsNodeStep(s, meta, span, Mapping(style, []));
      case AliasEvent(anchor) => AliasIsNodeStep(s, anchor);
    }
  }

  // The anchor of a node event.
  function AnchorsOfNewNode(event: Event): Option<Option<EventAnchor>> {
    match event
    case ScalarEvent(_, _, meta, _) => Some(meta.anchor)
    case SequenceStart(meta, _, _) => Some(meta.anchor)
    case MappingStart(meta, _, _) => Some(meta.anchor)
    case AliasEvent(_) => Some(None)
    case _ => None
  }

  lemma AttachKeepsAliases(s: State, id: NodeId)
    requires FramesOk(s) && s.current.Some? && id < |s.nodes|
    requires forall k :: 0 <= k < |s.stack| ==> s.stack[k].node < id
    ensures var s' := Attached(s, id);
            && SameAliases(s.nodes, s'.nodes) && |s'.nodes| == |s.nodes| && s'.nodes[id] == s.nodes[id]
            && s'.anchors == s.anchors && s'.active == s.active && s'.documents == s.documents && s'.current.Some?
            && CurrentRoot(s') == if s.stack == [] then Some(id) else CurrentRoot(s)
  {
  }

  lemma PushIsNodeStep(s: State, meta: EventMeta, span: Span, kind: Kind)
    requires Receptive(s) && !kind.Alias?
    ensures NodeStep(s, PushedNode(s, meta, span, kind), meta.anchor)
  {
    hide Attached, AddKid;
    var id := |s.nodes|;
    var (s1, anchor) := Registered(s, id, meta.anchor);
    AttachKeepsAliases(s1.(nodes := s1.nodes + [GraphNode(id, span, anchor, meta.tag, kind)]), id);
  }

  lemma AliasIsNodeStep(s: State, anchor: EventAnchor)
    requires Receptive(s) && PushedAlias(s, anchor).Ok?
    ensures NodeStep(s, PushedAlias(s, anchor).value, None)
  {
    hide Attached, AddKid;
    var target, id, alias := s.active[anchor.name], |s.nodes|, |s.aliases|;
    AttachKeepsAliases(
      s.(aliases := s.aliases + [AliasRef(alias, anchor.name, anchor.span, id, target)],
         nodes := s.nodes + [GraphNode(id, anchor.span, None, None, Alias(anchor.name, alias, target))]), id);
  }

  // What the invariants of the builder give.
  ghost predicate Ordered(s: State) {
    && (forall a :: 0 <= a < |s.anchors| ==> s.anchors[a].node < |s.nodes|)
    && (forall d :: 0 <= d < |s.documents| && s.documents[d].root.Some? ==> s.documents[d].root.value < Base(s))
    && Base(s) <= |s.nodes|
    && (s.stack != [] && s.current.Some? ==> CurrentRoot(s).Some?)
  }

  lemma FollowsIsOrdered(p: Place, s: State)
    requires Follows(p, s)
    ensures Ordered(s)
  {
    hide Grounded, AliasesOk, FrameNested, ClosedIn;
  }

  lemma NodeStepKeepsActive(s: State, s': State, anchor: Option<EventAnchor>)
    requires NodeStep(s, s', anchor) && Ordered(s) && ActiveIsLatest(s)
    requires s.stack == [] ==> CurrentRoot(s).None?
    ensures ActiveIsLatest(s')
  {
    assert Base(s') == Base(s);
    forall name | name in s'.active
      ensures LatestAnchor(s'.anchors, name, |s'.nodes|, s'.active[name]) && Base(s') <= s'.anchors[s'.active[name]].node
    {
      assert name in s.active || (anchor.Some? && anchor.value.name == name);
    }
  }

  lemma LatestStaysLatest(anchors: seq<AnchorDef>, more: seq<AnchorDef>, name: string, i: NodeId, target: AnchorId)
    requires LatestAnchor(anchors, name, i, target)
    requires forall k :: 0 <= k < |more| ==> i <= more[k].node
    ensures LatestAnchor(anchors + more, name, i, target)
  {
  }

  lemma NodeStepKeepsAlias(s: State, s': State, anchor: Option<EventAnchor>, i: NodeId)
    requires NodeStep(s, s', anchor) && Ordered(s) && Linked(s)
    requires s.stack == [] ==> CurrentRoot(s).None?
    requires i < |s'.nodes|
    ensures AliasLinked(s'.nodes, s'.anchors, i) && AliasWithin(s'.nodes, s'.anchors, i, CurrentRoot(s'))
    ensures AliasWithinAll(s'.nodes, s'.anchors, i, s'.documents)
  {
    hide LatestAnchor;
    if s'.nodes[i].kind.Alias? {
      if i < |s.nodes| {
        assert AliasLinked(s.nodes, s.anchors, i) && AliasWithin(s.nodes, s.anchors, i, CurrentRoot(s));
        assert AliasWithinAll(s.nodes, s.anchors, i, s.documents);
        LatestStaysLatest(s.anchors, s'.anchors[|s.anchors|..], s'.nodes[i].kind.name, i, s'.nodes[i].kind.target);
        LatestTarget(s.anchors, s'.nodes[i].kind.name, i, s'.nodes[i].kind.target);
      } else {
        assert s'.anchors == s.anchors;
        LatestTarget(s.anchors, s'.nodes[i].kind.name, i, s'.nodes[i].kind.target);
      }
    }
  }

  lemma LatestTarget(anchors: seq<AnchorDef>, name: string, i: NodeId, target: AnchorId)
    requires LatestAnchor(anchors, name, i, target)
    ensures target < |anchors| && anchors[target].node < i
  {
  }

  lemma NodeStepKeepsLinked(s: State, s': State, anchor: Option<EventAnchor>)
    requires NodeStep(s, s', anchor) && Ordered(s) && Linked(s)
    requires s.stack == [] ==> CurrentRoot(s).None?
    ensures Linked(s')
  {
    NodeStepKeepsActive(s, s', anchor);
    hide NodeStep, Ordered, ActiveIsLatest, AliasLinked, AliasWithin, AliasWithinAll;
    forall i | 0 <= i < |s'.nodes|
      ensures AliasLinked(s'.nodes, s'.anchors, i) && AliasWithin(s'.nodes, s'.anchors, i, CurrentRoot(s'))
      ensures AliasWithinAll(s'.nodes, s'.anchors, i, s'.documents)
    {
      NodeStepKeepsAlias(s, s', anchor, i);
    }
  }

  lemma OtherStepKeepsLinked(p: Place, s: State, event: Event)
    requires PlaceOk(p, s) && Advance(p, event).Some? && Step(s, event).Ok? && AnchorsOfNewNode(event).None?
    requires Linked(s)
    ensures Linked(Step(s, event).value)
  {
    hide LatestAnchor;
    var s' := Step(s, event).value;
    assert s'.anchors == s.anchors && |s'.nodes| == |s.nodes| && SameAliases(s.nodes, s'.nodes);
    forall i | 0 <= i < |s'.nodes|
      ensures AliasLinked(s'.nodes, s'.anchors, i) && AliasWithin(s'.nodes, s'.anchors, i, CurrentRoot(s'))
      ensures AliasWithinAll(s'.nodes, s'.anchors, i, s'.documents)
    {
      assert AliasLinked(s.nodes, s.anchors, i) && AliasWithin(s.nodes, s.anchors, i, CurrentRoot(s));
      assert AliasWithinAll(s.nodes, s.anchors, i, s.documents);
      if event.DocumentEnd? {
        assert s'.documents == s.documents + [Finish(s.current.value, event.explicit, event.span)];
      }
    }
  }

  lemma {:induction false} StepsAreLinked(events: seq<Event>)
    requires Run(Outside, events).Some? && Steps(events).Ok?
    ensures Linked(Steps(events).value)
  {
    hide Step, Advance, Follows, PlaceOk, Linked;
    if events == [] {
      NothingIsLinked();
    } else {
      var init, event := events[..|events| - 1], events[|events| - 1];
      var p, s := Run(Outside, init).value, Steps(init).value;
      StepsAreLinked(init);
      StepsReplay(init);
      FollowsIsPlaced(p, s);
      FollowsIsOrdered(p, s);
      if AnchorsOfNewNode(event).Some? {
        NodeEventNeedsPlace(p, s, event);
        NodeEventIsNodeStep(s, event);
        NodeStepKeepsLinked(s, Step(s, event).value, AnchorsOfNewNode(event).value);
      } else {
        OtherStepKeepsLinked(p, s, event);
      }
    }
  }

  lemma NodeEventNeedsPlace(p: Place, s: State, event: Event)
    requires PlaceOk(p, s) && Advance(p, event).Some? && AnchorsOfNewNode(event).Some?
    ensures Receptive(s) && (s.stack == [] ==> CurrentRoot(s).None?)
  {
  }

  lemma NothingIsLinked()
    ensures Linked(INITIAL)
  {
  }

  /** Each alias targets the latest earlier anchor of its name, and no document
      starts between the two. */
  lemma AliasesTargetLatestAnchors(events: seq<Event>, i: NodeId)
    requires WellFormed(events) && Built(events).Ok?
    requires i < |Built(events).value.nodes| && Built(events).value.nodes[i].kind.Alias?
    ensures var s := Built(events).value;
            var Alias(name, _, target) := s.nodes[i].kind;
            && LatestAnchor(s.anchors, name, i, target)
            && forall d :: 0 <= d < |s.documents| && s.documents[d].root.Some? ==>
                 (s.documents[d].root.value <= s.anchors[target].node <==> s.documents[d].root.value <= i)
  {
    hide Advance, Step, LatestAnchor;
    StepsAreLinked(events);
    StepsReplay(events);
    FollowsIsPlaced(Outside, Steps(events).value);
    var s := Built(events).value;
    assert AliasLinked(s.nodes, s.anchors, i);
    LatestTarget(s.anchors, s.nodes[i].kind.name, i, s.nodes[i].kind.target);
    assert AliasWithinAll(s.nodes, s.anchors, i, s.documents);
  }
}
