// Walking the built graph gives the events back, exactly for the streams of the
// event grammar.
module LosslessRoundTrip {
  import opened Prelude
  import opened LosslessGraph
  import opened LosslessValid
  import N = Nodes

  // ----- The event grammar --------------------------------------------------------------------

  // An open collection of the grammar; a mapping may wait for a value.
  datatype Open = OpenSequence | OpenMapping(waiting: bool)

  datatype Place = Outside | Inside(rooted: bool, frames: seq<Open>)

  /** The place after one more node: a second root is not allowed. */
  function AfterNode(p: Place): Option<Place> {
    match p
    case Outside => None
    case Inside(rooted, frames) =>
      if frames == [] then
        if rooted then None else Some(Inside(true, []))
      else
        match frames[|frames| - 1]
        case OpenSequence => Some(p)
        case OpenMapping(waiting) => Some(Inside(rooted, frames[|frames| - 1 := OpenMapping(!waiting)]))
  }

  function Advance(p: Place, event: Event): Option<Place> {
    match event
    case StreamStart => Some(p)
    case StreamEnd => Some(p)
    case DocumentStart(_, _, _) => if p.Outside? then Some(Inside(false, [])) else None
    case DocumentEnd(_, _) => if p.Inside? && p.frames == [] then Some(Outside) else None
    case SequenceStart(_, _, _) =>
      (match AfterNode(p)
       case None => None
       case Some(q) => Some(Inside(q.rooted, q.frames + [OpenSequence])))
    case MappingStart(_, _, _) =>
      (match AfterNode(p)
       case None => None
       case Some(q) => Some(Inside(q.rooted, q.frames + [OpenMapping(false)])))
    case SequenceEnd(_) =>
      if p.Inside? && p.frames != [] && p.frames[|p.frames| - 1] == OpenSequence
      then Some(Inside(p.rooted, p.frames[..|p.frames| - 1])) else None
    case MappingEnd(_) =>
      if p.Inside? && p.frames != [] && p.frames[|p.frames| - 1] == OpenMapping(false)
      then Some(Inside(p.rooted, p.frames[..|p.frames| - 1])) else None
    case AliasEvent(_) => AfterNode(p)
    case ScalarEvent(_, _, _, _) => AfterNode(p)
  }

  function Run(p: Place, events: seq<Event>): Option<Place> {
    if events == [] then Some(p)
    else match Run(p, events[..|events| - 1])
      case None => None
      case Some(q) => Advance(q, events[|events| - 1])
  }

  /** Documents with at most one root each, properly nested collections, and a
      value for every key. */
  predicate WellFormed(events: seq<Event>) {
    Run(Outside, events) == Some(Outside)
  }

  // ----- Walking the graph -----------------------------------------------------------------------

  datatype Graph = Graph(nodes: seq<GraphNode>, anchors: seq<AnchorDef>)

  /** An event without what the graph does not keep: stream markers go, the start
      of a collection forgets where its token ends, and the end where it starts. */
  function Kept(event: Event): seq<Event> {
    match event
    case StreamStart => []
    case StreamEnd => []
    case SequenceStart(meta, style, span) => [SequenceStart(meta, style, span.(end := 0))]
    case MappingStart(meta, style, span) => [MappingStart(meta, style, span.(end := 0))]
    case SequenceEnd(span) => [SequenceEnd(N.Span(0, span.end, 0, 0))]
    case MappingEnd(span) => [MappingEnd(N.Span(0, span.end, 0, 0))]
    case _ => [event]
  }

  function KeptAll(events: seq<Event>): seq<Event> {
    if events == [] then [] else KeptAll(events[..|events| - 1]) + Kept(events[|events| - 1])
  }

  function Meta(g: Graph, node: GraphNode): EventMeta {
    EventMeta(match node.anchor
              case Some(a) => if a < |g.anchors| then Some(EventAnchor(g.anchors[a].name, g.anchors[a].span)) else None
              case None => None,
              node.tag)
  }

  /** The first event of a node. */
  function StartOf(g: Graph, node: GraphNode): Event {
    match node.kind
    case Scalar(text, style) => ScalarEvent(text, style, Meta(g, node), node.span)
    case Alias(name, _, _) => AliasEvent(EventAnchor(name, node.span))
    case Sequence(style, _) => SequenceStart(Meta(g, node), style, node.span.(end := 0))
    case Mapping(style, _) => MappingStart(Meta(g, node), style, node.span.(end := 0))
  }

  function EndOf(node: GraphNode): seq<Event> {
    match node.kind
    case Sequence(_, _) => [SequenceEnd(N.Span(0, node.span.end, 0, 0))]
    case Mapping(_, _) => [MappingEnd(N.Span(0, node.span.end, 0, 0))]
    case _ => []
  }

  ghost predicate AllBetween(ids: seq<NodeId>, low: int, high: int) {
    forall i :: 0 <= i < |ids| ==> low < ids[i] < high
  }

  lemma KidsBetween(nodes: seq<GraphNode>, i: NodeId)
    requires Grounded(nodes) && i < |nodes|
    ensures AllBetween(Kids(nodes[i]), i, |nodes|)
  {
    assert forall j :: 0 <= j < |Kids(nodes[i])| ==> Kids(nodes[i])[j] in Kids(nodes[i]);
  }

  /** The events of the subtree at `id`. */
  function Walk(g: Graph, id: NodeId): seq<Event>
    requires Grounded(g.nodes) && id < |g.nodes|
    decreases |g.nodes| - id, 0, 0
  {
    KidsBetween(g.nodes, id);
    [StartOf(g, g.nodes[id])] + WalkAll(g, Kids(g.nodes[id]), id + 1) + EndOf(g.nodes[id])
  }

  function WalkAll(g: Graph, ids: seq<NodeId>, low: nat): seq<Event>
    requires Grounded(g.nodes) && AllBetween(ids, low - 1, |g.nodes|)
    decreases |g.nodes| - low, 1, |ids|
  {
    if ids == [] then [] else WalkAll(g, ids[..|ids| - 1], low) + Walk(g, ids[|ids| - 1])
  }

  function DocumentEvents(g: Graph, d: Document): seq<Event>
    requires Grounded(g.nodes) && (d.root.Some? ==> d.root.value < |g.nodes|)
  {
    [DocumentStart(d.explicit_start, d.directives, d.start_span)]
    + (if d.root.Some? then Walk(g, d.root.value) else [])
    + [DocumentEnd(d.explicit_end, d.end_span)]
  }

  function DocumentsEvents(g: Graph, documents: seq<Document>): seq<Event>
    requires Grounded(g.nodes)
    requires forall d :: 0 <= d < |documents| && documents[d].root.Some? ==> documents[d].root.value < |g.nodes|
  {
    if documents == [] then []
    else DocumentsEvents(g, documents[..|documents| - 1]) + DocumentEvents(g, documents[|documents| - 1])
  }

  /** The events of a whole stream, document by document. */
  function StreamEvents(s: Stream): seq<Event>
    requires StreamOk(s)
  {
    DocumentsEvents(Graph(s.nodes, s.anchors), s.documents)
  }

  // ----- Walks are grammatical ------------------------------------------------------------------

  lemma {:induction false} RunConcat(p: Place, x: seq<Event>, y: seq<Event>)
    ensures Run(p, x + y) == match Run(p, x)
                             case None => None
                             case Some(q) => Run(q, y)
    decreases |y|
  {
    if y == [] {
      assert x + y == x;
    } else {
      assert (x + y)[..|x + y| - 1] == x + y[..|y| - 1];
      RunConcat(p, x, y[..|y| - 1]);
    }
  }

  // A place whose top collection has seen some nodes.
  function AfterNodes(p: Place, count: nat): Option<Place> {
    if count == 0 then Some(p)
    else match AfterNodes(p, count - 1)
      case None => None
      case Some(q) => AfterNode(q)
  }

  lemma RunOne(p: Place, event: Event)
    ensures Run(p, [event]) == Advance(p, event)
  {
    assert [event][..0] == [];
  }

  lemma {:induction false} InsideCollection(rooted: bool, frames: seq<Open>, open: Open, count: nat)
    requires open != OpenMapping(true)
    ensures AfterNodes(Inside(rooted, frames + [open]), count)
         == Some(Inside(rooted, frames + [if open == OpenSequence then open else OpenMapping(count % 2 == 1)]))
    decreases count
  {
    if count > 0 {
      InsideCollection(rooted, frames, open, count - 1);
      var before := frames + [if open == OpenSequence then open else OpenMapping((count - 1) % 2 == 1)];
      assert before[|frames| := OpenMapping(count % 2 == 1)] == frames + [OpenMapping(count % 2 == 1)];
    }
  }

  lemma {:induction false} FlattenIsEven(entries: seq<(NodeId, NodeId)>)
    ensures |FlattenPairs(entries)| == 2 * |entries|
  {
    if entries != [] { FlattenIsEven(entries[..|entries| - 1]); }
  }

  // A collection's first and last events, around its open place.
  lemma CollectionAdvances(g: Graph, node: GraphNode, p: Place, open: Open)
    requires AfterNode(p).Some?
    requires if open == OpenSequence then node.kind.Sequence? else node.kind.Mapping? && open == OpenMapping(false)
    ensures AfterNode(p).value.Inside?
    ensures var q := AfterNode(p).value;
            var inner := Inside(q.rooted, q.frames + [open]);
            && Run(p, [StartOf(g, node)]) == Some(inner)
            && |EndOf(node)| == 1 && Run(inner, EndOf(node)) == Some(q)
  {
    var q := AfterNode(p).value;
    RunOne(p, StartOf(g, node));
    var inner := Inside(q.rooted, q.frames + [open]);
    assert (q.frames + [open])[..|q.frames|] == q.frames;
    RunOne(inner, EndOf(node)[0]);
    assert EndOf(node) == [EndOf(node)[0]];
  }

  lemma LeafAdvances(g: Graph, node: GraphNode, p: Place)
    requires AfterNode(p).Some? && !node.kind.Sequence? && !node.kind.Mapping?
    ensures Run(p, [StartOf(g, node)]) == AfterNode(p) && Kids(node) == [] && EndOf(node) == []
  {
    RunOne(p, StartOf(g, node));
  }

  lemma {:induction false} WalkIsOneNode(g: Graph, id: NodeId, p: Place)
    requires Grounded(g.nodes) && id < |g.nodes| && AfterNode(p).Some?
    ensures Run(p, Walk(g, id)) == AfterNode(p)
    decreases |g.nodes| - id, 0, 0
  {
    hide Run, AfterNode, StartOf, EndOf;
    var node := g.nodes[id];
    var start, kids := StartOf(g, node), Kids(node);
    KidsBetween(g.nodes, id);
    if node.kind.Sequence? || node.kind.Mapping? {
      var q := AfterNode(p).value;
      var open := if node.kind.Sequence? then OpenSequence else OpenMapping(false);
      CollectionAdvances(g, node, p, open);
      WalkIsManyNodes(g, kids, id + 1, q.rooted, q.frames, open);
      if node.kind.Mapping? { FlattenIsEven(node.kind.entries); }
      InsideCollection(q.rooted, q.frames, open, |kids|);
      RunThree(p, [start], WalkAll(g, kids, id + 1), EndOf(node));
    } else {
      LeafAdvances(g, node, p);
      assert Walk(g, id) == [start];
    }
  }

  lemma RunThree(p: Place, x: seq<Event>, y: seq<Event>, z: seq<Event>)
    requires Run(p, x).Some? && Run(Run(p, x).value, y).Some?
    ensures Run(p, x + y + z) == Run(Run(Run(p, x).value, y).value, z)
  {
    hide Run;
    RunConcat(p, x, y);
    RunConcat(p, x + y, z);
  }

  lemma {:induction false} WalkIsManyNodes(g: Graph, ids: seq<NodeId>, low: nat, rooted: bool, frames: seq<Open>, open: Open)
    requires Grounded(g.nodes) && AllBetween(ids, low - 1, |g.nodes|) && open != OpenMapping(true)
    ensures Run(Inside(rooted, frames + [open]), WalkAll(g, ids, low)) == AfterNodes(Inside(rooted, frames + [open]), |ids|)
    decreases |g.nodes| - low, 1, |ids|
  {
    hide Walk;
    if ids != [] {
      var n := |ids| - 1;
      var p := Inside(rooted, frames + [open]);
      WalkIsManyNodes(g, ids[..n], low, rooted, frames, open);
      InsideCollection(rooted, frames, open, n);
      RunConcat(p, WalkAll(g, ids[..n], low), Walk(g, ids[n]));
      WalkIsOneNode(g, ids[n], AfterNodes(p, n).value);
    }
  }

  lemma {:induction false} DocumentsAreWellFormed(g: Graph, documents: seq<Document>)
    requires Grounded(g.nodes)
    requires forall d :: 0 <= d < |documents| && documents[d].root.Some? ==> documents[d].root.value < |g.nodes|
    ensures WellFormed(DocumentsEvents(g, documents))
  {
    if documents != [] {
      var n := |documents| - 1;
      var d := documents[n];
      DocumentsAreWellFormed(g, documents[..n]);
      var before := DocumentsEvents(g, documents[..n]);
      var start, end := [DocumentStart(d.explicit_start, d.directives, d.start_span)], [DocumentEnd(d.explicit_end, d.end_span)];
      var walk := if d.root.Some? then Walk(g, d.root.value) else [];
      RunOne(Outside, start[0]);
      RunConcat(Outside, start, walk);
      if d.root.Some? {
        WalkIsOneNode(g, d.root.value, Inside(false, []));
      }
      var q := Inside(d.root.Some?, []);
      assert Run(Outside, start + walk) == Some(q);
      RunOne(q, end[0]);
      RunConcat(Outside, start + walk, end);
      RunConcat(Outside, before, DocumentEvents(g, d));
    }
  }

  // The grammar does not look at what `Kept` forgets.
  lemma KeptAdvancesAlike(p: Place, event: Event)
    ensures Run(p, Kept(event)) == Advance(p, event)
  {
    if Kept(event) != [] {
      RunOne(p, Kept(event)[0]);
      assert Kept(event) == [Kept(event)[0]];
    }
  }

  lemma {:induction false} KeptRunsAlike(p: Place, events: seq<Event>)
    ensures Run(p, KeptAll(events)) == Run(p, events)
  {
    hide Advance, Kept;
    if events != [] {
      var n := |events| - 1;
      KeptRunsAlike(p, events[..n]);
      RunConcat(p, KeptAll(events[..n]), Kept(events[n]));
      if Run(p, events[..n]).Some? {
        KeptAdvancesAlike(Run(p, events[..n]).value, events[n]);
      }
    }
  }
}
