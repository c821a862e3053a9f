// The lossless graph (src/lossless.rs): events, nodes, anchors, aliases, and the
// state of the builder after each event.
module LosslessGraph {
  import opened Prelude
  import N = Nodes
  import V = Values

  type Span = N.Span

  // ----- Events -----------------------------------------------------------------------------

  datatype ScalarStyle = Plain | SingleQuoted | DoubleQuoted | Literal | Folded
  datatype CollectionStyle = Block | Flow

  datatype Directives = Directives(text: string)
  datatype EventAnchor = EventAnchor(name: string, span: Span)
  datatype EventTag = EventTag(tag: V.Tag, span: Span)
  datatype EventMeta = EventMeta(anchor: Option<EventAnchor>, tag: Option<EventTag>)

  datatype Event =
    | StreamStart
    | StreamEnd
    | DocumentStart(explicit: bool, directives: Directives, span: Span)
    | DocumentEnd(explicit: bool, span: Span)
    | SequenceStart(meta: EventMeta, style: CollectionStyle, span: Span)
    | SequenceEnd(span: Span)
    | MappingStart(meta: EventMeta, style: CollectionStyle, span: Span)
    | MappingEnd(span: Span)
    | AliasEvent(anchor: EventAnchor)
    | ScalarEvent(text: string, scalar_style: ScalarStyle, meta: EventMeta, span: Span)

  // ----- The graph ----------------------------------------------------------------------------

  type NodeId = nat
  type AnchorId = nat
  type AliasId = nat

  datatype Kind =
    | Scalar(text: string, scalar_style: ScalarStyle)
    | Sequence(style: CollectionStyle, children: seq<NodeId>)
    | Mapping(style: CollectionStyle, entries: seq<(NodeId, NodeId)>)
    | Alias(name: string, alias: AliasId, target: AnchorId)

  datatype GraphNode = GraphNode(id: NodeId, span: Span, anchor: Option<AnchorId>, tag: Option<EventTag>, kind: Kind)
  datatype AnchorDef = AnchorDef(id: AnchorId, name: string, span: Span, node: NodeId)
  datatype AliasRef = AliasRef(id: AliasId, name: string, span: Span, node: NodeId, target: AnchorId)

  datatype Document = Document(
    index: nat, explicit_start: bool, explicit_end: bool, directives: Directives,
    start_span: Span, end_span: Span, root: Option<NodeId>)

  datatype Stream = Stream(
    documents: seq<Document>, nodes: seq<GraphNode>, anchors: seq<AnchorDef>, aliases: seq<AliasRef>)

  function FlattenPairs(entries: seq<(NodeId, NodeId)>): seq<NodeId> {
    if entries == [] then []
    else FlattenPairs(entries[..|entries| - 1]) + [entries[|entries| - 1].0, entries[|entries| - 1].1]
  }

  /** The children of a node in source order, keys before their values. */
  function Kids(node: GraphNode): seq<NodeId> {
    match node.kind
    case Sequence(_, children) => children
    case Mapping(_, entries) => FlattenPairs(entries)
    case _ => []
  }

  // Node ids grow from parent to child, and every id points into the graph.
  ghost predicate Grounded(nodes: seq<GraphNode>) {
    forall i, k :: 0 <= i < |nodes| && k in Kids(nodes[i]) ==> i < k < |nodes|
  }

  ghost predicate AnchorsOk(nodes: seq<GraphNode>, anchors: seq<AnchorDef>) {
    && (forall a :: 0 <= a < |anchors| ==>
          && anchors[a].id == a && anchors[a].node < |nodes| && nodes[anchors[a].node].anchor == Some(a))
    && (forall i :: 0 <= i < |nodes| && nodes[i].anchor.Some? ==>
          nodes[i].anchor.value < |anchors| && anchors[nodes[i].anchor.value].node == i)
    && (forall a, b :: 0 <= a < b < |anchors| ==> anchors[a].node < anchors[b].node)
  }

  ghost predicate AliasesOk(nodes: seq<GraphNode>, anchors: seq<AnchorDef>, aliases: seq<AliasRef>) {
    && (forall i :: 0 <= i < |nodes| && nodes[i].kind.Alias? ==>
          && nodes[i].anchor.None?
          && nodes[i].kind.alias < |aliases| && aliases[nodes[i].kind.alias].node == i
          && nodes[i].kind.target < |anchors|
          && anchors[nodes[i].kind.target].name == nodes[i].kind.name
          && anchors[nodes[i].kind.target].node < i)
    && (forall a :: 0 <= a < |aliases| ==>
          && aliases[a].id == a && aliases[a].node < |nodes|
          && nodes[aliases[a].node].kind == Alias(aliases[a].name, a, aliases[a].target))
  }

  /** What every graph of the builder satisfies, also for odd event streams. */
  ghost predicate GraphOk(nodes: seq<GraphNode>, anchors: seq<AnchorDef>, aliases: seq<AliasRef>) {
    && (forall i :: 0 <= i < |nodes| ==> nodes[i].id == i)
    && Grounded(nodes)
    && AnchorsOk(nodes, anchors)
    && AliasesOk(nodes, anchors, aliases)
  }

  ghost predicate StreamOk(s: Stream) {
    && GraphOk(s.nodes, s.anchors, s.aliases)
    && forall d :: 0 <= d < |s.documents| && s.documents[d].root.Some? ==> s.documents[d].root.value < |s.nodes|
  }

  // ----- The builder's state -------------------------------------------------------------------

  datatype Frame =
    | SequenceFrame(node: NodeId, span: Span)
    | MappingFrame(node: NodeId, span: Span, pending_key: Option<NodeId>)

  datatype OpenDocument = OpenDocument(
    index: nat, explicit_start: bool, directives: Directives, start_span: Span, root: Option<NodeId>)

  datatype State = State(
    documents: seq<Document>, nodes: seq<GraphNode>, anchors: seq<AnchorDef>, aliases: seq<AliasRef>,
    active: map<string, AnchorId>, current: Option<OpenDocument>, stack: seq<Frame>)

  datatype BuildError =
    | UnclosedCollection
    | DocumentEndedInCollection
    | DocumentEndWithoutStart
    | EndWithoutStart
    | MismatchedEnd
    | UnknownAnchor(name: string)

  const INITIAL := State([], [], [], [], map[], None, [])

  function Finish(d: OpenDocument, explicit_end: bool, end_span: Span): Document {
    Document(d.index, d.explicit_start, explicit_end, d.directives, d.start_span, end_span, d.root)
  }

  function Registered(s: State, node: NodeId, anchor: Option<EventAnchor>): (State, Option<AnchorId>) {
    match anchor
    case None => (s, None)
    case Some(a) =>
      var id := |s.anchors|;
      (s.(anchors := s.anchors + [AnchorDef(id, a.name, a.span, node)], active := s.active[a.name := id]), Some(id))
  }

  function AddKid(node: GraphNode, frame: Frame, id: NodeId): GraphNode {
    match (node.kind, frame)
    case (Sequence(style, children), SequenceFrame(_, _)) => node.(kind := Sequence(style, children + [id]))
    case (Mapping(style, entries), MappingFrame(_, _, Some(key))) => node.(kind := Mapping(style, entries + [(key, id)]))
    case _ => node
  }

  function NextFrame(frame: Frame, id: NodeId): Frame {
    match frame
    case SequenceFrame(_, _) => frame
    case MappingFrame(node, span, Some(_)) => MappingFrame(node, span, None)
    case MappingFrame(node, span, None) => MappingFrame(node, span, Some(id))
  }

  /** `attach_node` for the node pushed last. */
  function Attached(s: State, id: NodeId): State
    requires FramesOk(s)
  {
    if s.stack != [] then
      var top := s.stack[|s.stack| - 1];
      s.(nodes := s.nodes[top.node := AddKid(s.nodes[top.node], top, id)],
         stack := s.stack[|s.stack| - 1 := NextFrame(top, id)])
    else if s.current.Some? then s.(current := Some(s.current.value.(root := Some(id))))
    else s
  }

  // Every frame points to an open node of its kind.
  predicate FramesOk(s: State) {
    forall k :: 0 <= k < |s.stack| ==>
      && s.stack[k].node < |s.nodes|
      && (s.stack[k].SequenceFrame? ==> s.nodes[s.stack[k].node].kind.Sequence?)
      && (s.stack[k].MappingFrame? ==> s.nodes[s.stack[k].node].kind.Mapping?)
  }

  /** A node event: register its anchor, push the node, attach it to its parent. */
  function PushedNode(s: State, meta: EventMeta, span: Span, kind: Kind): (r: State)
    requires FramesOk(s)
    ensures FramesOk(r)
  {
    var id := |s.nodes|;
    var (s1, anchor) := Registered(s, id, meta.anchor);
    var s2 := s1.(nodes := s1.nodes + [GraphNode(id, span, anchor, meta.tag, kind)]);
    Attached(s2, id)
  }

  function PushedAlias(s: State, anchor: EventAnchor): (r: Result<State, BuildError>)
    requires FramesOk(s)
    ensures r.Ok? ==> FramesOk(r.value)
  {
    if anchor.name !in s.active then Err(UnknownAnchor(anchor.name))
    else
      var target := s.active[anchor.name];
      var node, alias := |s.nodes|, |s.aliases|;
      var s1 := s.(aliases := s.aliases + [AliasRef(alias, anchor.name, anchor.span, node, target)],
                   nodes := s.nodes + [GraphNode(node, anchor.span, None, None, Alias(anchor.name, alias, target))]);
      Ok(Attached(s1, node))
  }

  function Ended(s: State, end_span: Span, sequence: bool): (r: Result<State, BuildError>)
    requires FramesOk(s)
    ensures r.Ok? ==> FramesOk(r.value)
  {
    if s.stack == [] then Err(EndWithoutStart)
    else
      var frame := s.stack[|s.stack| - 1];
      if frame.SequenceFrame? != sequence then Err(MismatchedEnd)
      else
        var node := s.nodes[frame.node];
        var span := N.Span(node.span.start, end_span.end, node.span.line, node.span.column);
        Ok(s.(stack := s.stack[..|s.stack| - 1], nodes := s.nodes[frame.node := node.(span := span)]))
  }

  /** One event of `Builder::build`. */
  function Step(s: State, event: Event): (r: Result<State, BuildError>)
    requires FramesOk(s)
    ensures r.Ok? ==> FramesOk(r.value)
  {
    match event
    case StreamStart => Ok(s)
    case StreamEnd => Ok(s)
    case DocumentStart(explicit, directives, span) =>
      Ok(s.(active := map[], current := Some(OpenDocument(|s.documents|, explicit, directives, span, None))))
    case DocumentEnd(explicit, span) =>
      if s.stack != [] then Err(DocumentEndedInCollection)
      else if s.current.None? then Err(DocumentEndWithoutStart)
      else Ok(s.(current := None, documents := s.documents + [Finish(s.current.value, explicit, span)]))
    case SequenceStart(meta, style, span) =>
      var s1 := PushedNode(s, meta, span, Sequence(style, []));
      Ok(s1.(stack := s1.stack + [SequenceFrame(|s.nodes|, span)]))
    case SequenceEnd(span) => Ended(s, span, true)
    case MappingStart(meta, style, span) =>
      var s1 := PushedNode(s, meta, span, Mapping(style, []));
      Ok(s1.(stack := s1.stack + [MappingFrame(|s.nodes|, span, None)]))
    case MappingEnd(span) => Ended(s, span, false)
    case AliasEvent(anchor) => PushedAlias(s, anchor)
    case ScalarEvent(text, style, meta, span) => Ok(PushedNode(s, meta, span, Scalar(text, style)))
  }

  function Steps(events: seq<Event>): (r: Result<State, BuildError>)
    ensures r.Ok? ==> FramesOk(r.value)
  {
    if events == [] then Ok(INITIAL)
    else match Steps(events[..|events| - 1])
      case Err(e) => Err(e)
      case Ok(s) => Step(s, events[|events| - 1])
  }

  function Closed(s: State): Result<Stream, BuildError> {
    if s.stack != [] then Err(UnclosedCollection)
    else
      var documents := match s.current
        case None => s.documents
        case Some(d) => s.documents + [Finish(d, false, d.start_span)];
      Ok(Stream(documents, s.nodes, s.anchors, s.aliases))
  }

  /** The result of `Builder::build`. */
  function Built(events: seq<Event>): Result<Stream, BuildError> {
    match Steps(events)
    case Err(e) => Err(e)
    case Ok(s) => Closed(s)
  }

  lemma {:induction false} StepsFailForGood(events: seq<Event>, i: nat)
    requires i <= |events| && Steps(events[..i]).Err?
    ensures Steps(events) == Steps(events[..i])
    decreases |events| - i
  {
    if i == |events| {
      assert events[..i] == events;
    } else {
      assert events[..i + 1][..i] == events[..i];
      StepsFailForGood(events, i + 1);
    }
  }
}
