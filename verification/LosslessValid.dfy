// What every state of the lossless builder keeps, for any event stream at all.
module LosslessValid {
  import opened Prelude
  import opened LosslessGraph

  ghost predicate Valid(s: State) {
    && FramesOk(s)
    && GraphOk(s.nodes, s.anchors, s.aliases)
    && (forall name :: name in s.active ==> s.active[name] < |s.anchors| && s.anchors[s.active[name]].name == name)
    && PendingOk(s)
    && RootsOk(s)
  }

  ghost predicate PendingOk(s: State) {
    forall k :: 0 <= k < |s.stack| && s.stack[k].MappingFrame? && s.stack[k].pending_key.Some? ==>
      s.stack[k].node < s.stack[k].pending_key.value < |s.nodes|
  }

  ghost predicate RootsOk(s: State) {
    && (forall d :: 0 <= d < |s.documents| && s.documents[d].root.Some? ==> s.documents[d].root.value < |s.nodes|)
    && (s.current.Some? && s.current.value.root.Some? ==> s.current.value.root.value < |s.nodes|)
  }

  lemma KidsAfterAdd(node: GraphNode, frame: Frame, id: NodeId)
    ensures node.kind.Sequence? && frame.SequenceFrame? ==> Kids(AddKid(node, frame, id)) == Kids(node) + [id]
    ensures node.kind.Mapping? && frame.MappingFrame? ==>
              Kids(AddKid(node, frame, id)) == Kids(node) + if frame.pending_key.Some? then [frame.pending_key.value, id] else []
    ensures AddKid(node, frame, id).(kind := node.kind) == node
    ensures AddKid(node, frame, id).kind.Alias? ==> AddKid(node, frame, id) == node
    ensures AddKid(node, frame, id).kind.Sequence? == node.kind.Sequence? && AddKid(node, frame, id).kind.Mapping? == node.kind.Mapping?
  {
    if node.kind.Mapping? && frame.MappingFrame? && frame.pending_key.Some? {
      var entries := node.kind.entries;
      var next := entries + [(frame.pending_key.value, id)];
      assert next[..|next| - 1] == entries;
    }
  }

  // Changes that touch neither ids, anchors nor alias nodes.
  ghost predicate SameShape(before: seq<GraphNode>, after: seq<GraphNode>) {
    && |before| == |after|
    && forall i :: 0 <= i < |before| ==>
         && after[i].id == before[i].id && after[i].anchor == before[i].anchor
         && (before[i].kind.Alias? || after[i].kind.Alias? ==> after[i].kind == before[i].kind)
  }

  lemma SameShapeKeepsLinks(before: seq<GraphNode>, after: seq<GraphNode>, anchors: seq<AnchorDef>, aliases: seq<AliasRef>)
    requires SameShape(before, after)
    ensures AnchorsOk(before, anchors) ==> AnchorsOk(after, anchors)
    ensures AliasesOk(before, anchors, aliases) ==> AliasesOk(after, anchors, aliases)
  {
  }

  lemma GroundedAfterAdd(nodes: seq<GraphNode>, frame: Frame, id: NodeId)
    requires Grounded(nodes) && frame.node < id == |nodes| - 1
    requires if frame.SequenceFrame? then nodes[frame.node].kind.Sequence? else nodes[frame.node].kind.Mapping?
    requires frame.MappingFrame? && frame.pending_key.Some? ==> frame.node < frame.pending_key.value < |nodes|
    ensures Grounded(nodes[frame.node := AddKid(nodes[frame.node], frame, id)])
    ensures SameShape(nodes, nodes[frame.node := AddKid(nodes[frame.node], frame, id)])
  {
    hide Kids, AddKid;
    var after := nodes[frame.node := AddKid(nodes[frame.node], frame, id)];
    KidsAfterAdd(nodes[frame.node], frame, id);
    forall i, k | 0 <= i < |after| && k in Kids(after[i]) ensures i < k < |after| {
      if i == frame.node && k !in Kids(nodes[i]) {
        assert k == id || (frame.MappingFrame? && frame.pending_key == Some(k));
      }
    }
  }

  // Attaching the last node to an earlier open node.
  lemma AttachedKeepsGraph(s: State, id: NodeId)
    requires Valid(s) && id == |s.nodes| - 1 && s.stack != []
    requires s.stack[|s.stack| - 1].node < id
    ensures GraphOk(Attached(s, id).nodes, s.anchors, s.aliases)
  {
    hide AddKid, Grounded, AnchorsOk, AliasesOk, RootsOk;
    var top := s.stack[|s.stack| - 1];
    GroundedAfterAdd(s.nodes, top, id);
    SameShapeKeepsLinks(s.nodes, Attached(s, id).nodes, s.anchors, s.aliases);
  }

  lemma AttachedKeepsValid(s: State, id: NodeId)
    requires Valid(s) && id == |s.nodes| - 1
    requires forall k :: 0 <= k < |s.stack| ==> s.stack[k].node < id
    ensures Valid(Attached(s, id))
  {
    hide AddKid, GraphOk, FramesOk, PendingOk;
    if s.stack != [] {
      AttachedKeepsGraph(s, id);
      AttachedKeepsFrames(s, id);
    } else {
      NoFrames(Attached(s, id));
    }
  }

  lemma NoFrames(s: State)
    requires s.stack == []
    ensures FramesOk(s) && PendingOk(s)
  {
  }

  lemma AttachedKeepsFrames(s: State, id: NodeId)
    requires FramesOk(s) && PendingOk(s) && id == |s.nodes| - 1 && s.stack != []
    requires forall k :: 0 <= k < |s.stack| ==> s.stack[k].node < id
    ensures FramesOk(Attached(s, id)) && PendingOk(Attached(s, id))
  {
    hide AddKid;
    var top := s.stack[|s.stack| - 1];
    KidsAfterAdd(s.nodes[top.node], top, id);
  }

  ghost predicate Childless(kind: Kind) {
    match kind
    case Scalar(_, _) => true
    case Sequence(_, children) => children == []
    case Mapping(_, entries) => entries == []
    case Alias(_, _, _) => false
  }

  lemma AnchorsAfterAppend(nodes: seq<GraphNode>, anchors: seq<AnchorDef>, node: GraphNode, anchor: Option<EventAnchor>)
    requires AnchorsOk(nodes, anchors)
    requires node.anchor == if anchor.Some? then Some(|anchors|) else None
    ensures AnchorsOk(nodes + [node],
                      anchors + if anchor.Some? then [AnchorDef(|anchors|, anchor.value.name, anchor.value.span, |nodes|)] else [])
  {
  }

  lemma AliasesAfterAppend(nodes: seq<GraphNode>, anchors: seq<AnchorDef>, aliases: seq<AliasRef>, node: GraphNode, more: seq<AnchorDef>)
    requires AliasesOk(nodes, anchors, aliases) && !node.kind.Alias?
    ensures AliasesOk(nodes + [node], anchors + more, aliases)
  {
  }

  lemma RegisteredKeepsValid(s: State, meta: EventMeta, span: Span, kind: Kind)
    requires Valid(s) && Childless(kind)
    ensures var id := |s.nodes|;
            var (s1, anchor) := Registered(s, id, meta.anchor);
            Valid(s1.(nodes := s1.nodes + [GraphNode(id, span, anchor, meta.tag, kind)]))
  {
    hide AnchorsOk, AliasesOk;
    var id := |s.nodes|;
    var (s1, anchor) := Registered(s, id, meta.anchor);
    var node := GraphNode(id, span, anchor, meta.tag, kind);
    var more := if meta.anchor.Some? then [AnchorDef(|s.anchors|, meta.anchor.value.name, meta.anchor.value.span, id)] else [];
    assert s1.anchors == s.anchors + more;
    AnchorsAfterAppend(s.nodes, s.anchors, node, meta.anchor);
    AliasesAfterAppend(s.nodes, s.anchors, s.aliases, node, more);
  }

  lemma FramesAreBelow(s: State)
    requires Valid(s)
    ensures forall k :: 0 <= k < |s.stack| ==> s.stack[k].node < |s.nodes|
  {
  }

  lemma PushedNodeKeepsValid(s: State, meta: EventMeta, span: Span, kind: Kind)
    requires Valid(s) && Childless(kind)
    ensures Valid(PushedNode(s, meta, span, kind))
    ensures var r := PushedNode(s, meta, span, kind);
            |r.nodes| == |s.nodes| + 1 && r.nodes[|s.nodes|].kind == kind && |r.stack| == |s.stack|
  {
    FramesAreBelow(s);
    hide Valid;
    RegisteredKeepsValid(s, meta, span, kind);
    var id := |s.nodes|;
    var (s1, anchor) := Registered(s, id, meta.anchor);
    AttachedKeepsValid(s1.(nodes := s1.nodes + [GraphNode(id, span, anchor, meta.tag, kind)]), id);
  }

  lemma PushedAliasKeepsValid(s: State, anchor: EventAnchor)
    requires Valid(s) && PushedAlias(s, anchor).Ok?
    ensures Valid(PushedAlias(s, anchor).value)
  {
    hide Valid;
    FramesAreBelow(s);
    AliasAppended(s, anchor);
    var target := s.active[anchor.name];
    var node, alias := |s.nodes|, |s.aliases|;
    AttachedKeepsValid(
      s.(aliases := s.aliases + [AliasRef(alias, anchor.name, anchor.span, node, target)],
         nodes := s.nodes + [GraphNode(node, anchor.span, None, None, Alias(anchor.name, alias, target))]), node);
  }

  lemma AliasAppended(s: State, anchor: EventAnchor)
    requires Valid(s) && anchor.name in s.active
    ensures var target := s.active[anchor.name];
            var node, alias := |s.nodes|, |s.aliases|;
            Valid(s.(aliases := s.aliases + [AliasRef(alias, anchor.name, anchor.span, node, target)],
                     nodes := s.nodes + [GraphNode(node, anchor.span, None, None, Alias(anchor.name, alias, target))]))
  {
    hide GraphOk;
    AliasGraph(s.nodes, s.anchors, s.aliases, anchor, s.active[anchor.name]);
  }

  lemma AliasGraph(nodes: seq<GraphNode>, anchors: seq<AnchorDef>, aliases: seq<AliasRef>, anchor: EventAnchor, target: nat)
    requires GraphOk(nodes, anchors, aliases) && target < |anchors| && anchors[target].name == anchor.name
    ensures var node, alias := |nodes|, |aliases|;
            GraphOk(nodes + [GraphNode(node, anchor.span, None, None, Alias(anchor.name, alias, target))], anchors,
                    aliases + [AliasRef(alias, anchor.name, anchor.span, node, target)])
  {
  }

  lemma EndedKeepsGraph(s: State, end_span: Span, sequence: bool)
    requires Valid(s) && Ended(s, end_span, sequence).Ok?
    ensures GraphOk(Ended(s, end_span, sequence).value.nodes, s.anchors, s.aliases)
  {
    hide AnchorsOk, AliasesOk, RootsOk;
    var s' := Ended(s, end_span, sequence).value;
    assert forall i :: 0 <= i < |s.nodes| ==> Kids(s'.nodes[i]) == Kids(s.nodes[i]);
    SameShapeKeepsLinks(s.nodes, s'.nodes, s.anchors, s.aliases);
  }

  lemma EndedKeepsValid(s: State, end_span: Span, sequence: bool)
    requires Valid(s) && Ended(s, end_span, sequence).Ok?
    ensures Valid(Ended(s, end_span, sequence).value)
  {
    hide GraphOk;
    EndedKeepsGraph(s, end_span, sequence);
  }

  lemma StepKeepsValid(s: State, event: Event)
    requires Valid(s) && Step(s, event).Ok?
    ensures Valid(Step(s, event).value)
  {
    hide GraphOk, PushedNode, PushedAlias, Ended;
    match event {
      case SequenceStart(meta, style, span) =>
        PushedNodeKeepsValid(s, meta, span, Sequence(style, []));
      case MappingStart(meta, style, span) =>
        PushedNodeKeepsValid(s, meta, span, Mapping(style, []));
      case SequenceEnd(span) => EndedKeepsValid(s, span, true);
      case MappingEnd(span) => EndedKeepsValid(s, span, false);
      case AliasEvent(anchor) => PushedAliasKeepsValid(s, anchor);
      case ScalarEvent(text, style, meta, span) => PushedNodeKeepsValid(s, meta, span, Scalar(text, style));
      case _ =>
    }
  }

  lemma {:induction false} StepsKeepValid(events: seq<Event>)
    requires Steps(events).Ok?
    ensures Valid(Steps(events).value)
  {
    hide Valid, Step;
    if events == [] {
      InitialIsValid();
    } else {
      StepsKeepValid(events[..|events| - 1]);
      StepKeepsValid(Steps(events[..|events| - 1]).value, events[|events| - 1]);
    }
  }

  lemma InitialIsValid()
    ensures Valid(INITIAL)
  {
  }

  /** Every stream the builder returns is a well-formed graph. */
  lemma BuiltStreamIsOk(events: seq<Event>)
    requires Built(events).Ok?
    ensures StreamOk(Built(events).value)
  {
    StepsKeepValid(events);
  }
}
