// `Builder` (src/lossless.rs): the stack machine that folds events into the graph,
// field by field, against the states of `LosslessGraph`.
module LosslessBuilder {
  import opened Prelude
  import N = Nodes
  import opened LosslessGraph

  class Builder {
    var documents: seq<Document>
    var nodes: seq<GraphNode>
    var anchors: seq<AnchorDef>
    var aliases: seq<AliasRef>
    var active_anchors: map<string, AnchorId>
    var current_document: Option<OpenDocument>
    var stack: seq<Frame>

    ghost function Snapshot(): State
      reads this
    {
      State(documents, nodes, anchors, aliases, active_anchors, current_document, stack)
    }

    constructor ()
      ensures Snapshot() == INITIAL
    {
      documents, nodes, anchors, aliases := [], [], [], [];
      active_anchors, current_document, stack := map[], None, [];
    }

    method StartDocument(explicit: bool, directives: Directives, span: Span)
      requires FramesOk(Snapshot())
      modifies this
      ensures Step(old(Snapshot()), DocumentStart(explicit, directives, span)) == Ok(Snapshot())
    {
      active_anchors := map[];
      current_document := Some(OpenDocument(|documents|, explicit, directives, span, None));
    }

    method EndDocument(explicit: bool, span: Span) returns (r: Result<(), BuildError>)
      requires FramesOk(Snapshot())
      modifies this
      ensures Reports(old(Snapshot()), DocumentEnd(explicit, span), r)
    {
      if stack != [] {
        return Err(DocumentEndedInCollection);
      }
      if current_document.None? {
        return Err(DocumentEndWithoutStart);
      }
      documents := documents + [Finish(current_document.value, explicit, span)];
      current_document := None;
      return Ok(());
    }

    // The outcome of an event: the state of `Step`, or its error.
    ghost predicate Reports(before: State, event: Event, r: Result<(), BuildError>)
      requires FramesOk(before)
      reads this
    {
      match Step(before, event)
      case Err(e) => r == Err(e)
      case Ok(s) => r == Ok(()) && Snapshot() == s
    }

    method RegisterAnchor(node: NodeId, anchor: Option<EventAnchor>) returns (id: Option<AnchorId>)
      modifies this
      ensures (Snapshot(), id) == Registered(old(Snapshot()), node, anchor)
    {
      match anchor {
        case None => return None;
        case Some(a) =>
          id := Some(|anchors|);
          anchors := anchors + [AnchorDef(|anchors|, a.name, a.span, node)];
          active_anchors := active_anchors[a.name := |anchors| - 1];
      }
    }

    method AttachNode(id: NodeId)
      requires FramesOk(Snapshot())
      modifies this
      ensures Snapshot() == Attached(old(Snapshot()), id)
    {
      if stack != [] {
        var last := |stack| - 1;
        match stack[last] {
          case SequenceFrame(node, _) =>
            var parent := nodes[node];
            nodes := nodes[node := parent.(kind := Sequence(parent.kind.style, parent.kind.children + [id]))];
          case MappingFrame(node, span, Some(key)) =>
            stack := stack[last := MappingFrame(node, span, None)];
            var parent := nodes[node];
            nodes := nodes[node := parent.(kind := Mapping(parent.kind.style, parent.kind.entries + [(key, id)]))];
          case MappingFrame(node, span, None) =>
            stack := stack[last := MappingFrame(node, span, Some(id))];
        }
      } else if current_document.Some? {
        current_document := Some(current_document.value.(root := Some(id)));
      }
    }

    method PushNode(meta: EventMeta, span: Span, kind: Kind) returns (id: NodeId)
      requires FramesOk(Snapshot())
      modifies this
      ensures id == old(|nodes|)
      ensures Snapshot() == PushedNode(old(Snapshot()), meta, span, kind)
    {
      id := |nodes|;
      var anchor := RegisterAnchor(id, meta.anchor);
      nodes := nodes + [GraphNode(id, span, anchor, meta.tag, kind)];
      AttachNode(id);
    }

    method PushAliasNode(anchor: EventAnchor) returns (r: Result<(), BuildError>)
      requires FramesOk(Snapshot())
      modifies this
      ensures Reports(old(Snapshot()), AliasEvent(anchor), r)
    {
      if anchor.name !in active_anchors {
        return Err(UnknownAnchor(anchor.name));
      }
      var target := active_anchors[anchor.name];
      var node, alias := |nodes|, |aliases|;
      aliases := aliases + [AliasRef(alias, anchor.name, anchor.span, node, target)];
      nodes := nodes + [GraphNode(node, anchor.span, None, None, Alias(anchor.name, alias, target))];
      AttachNode(node);
      return Ok(());
    }

    method EndCollection(end_span: Span, sequence: bool) returns (r: Result<(), BuildError>)
      requires FramesOk(Snapshot())
      modifies this
      ensures Reports(old(Snapshot()), if sequence then SequenceEnd(end_span) else MappingEnd(end_span), r)
    {
      if stack == [] {
        return Err(EndWithoutStart);
      }
      var frame := stack[|stack| - 1];
      stack := stack[..|stack| - 1];
      if frame.SequenceFrame? != sequence {
        return Err(MismatchedEnd);
      }
      var node := nodes[frame.node];
      nodes := nodes[frame.node := node.(span := N.Span(node.span.start, end_span.end, node.span.line, node.span.column))];
      return Ok(());
    }

    method HandleEvent(event: Event) returns (r: Result<(), BuildError>)
      requires FramesOk(Snapshot())
      modifies this
      ensures Reports(old(Snapshot()), event, r)
    {
      r := Ok(());
      match event {
        case StreamStart =>
        case StreamEnd =>
        case DocumentStart(explicit, directives, span) => StartDocument(explicit, directives, span);
        case DocumentEnd(explicit, span) => r := EndDocument(explicit, span);
        case SequenceStart(meta, style, span) =>
          var id := PushNode(meta, span, Sequence(style, []));
          stack := stack + [SequenceFrame(id, span)];
        case SequenceEnd(span) => r := EndCollection(span, true);
        case MappingStart(meta, style, span) =>
          var id := PushNode(meta, span, Mapping(style, []));
          stack := stack + [MappingFrame(id, span, None)];
        case MappingEnd(span) => r := EndCollection(span, false);
        case AliasEvent(anchor) => r := PushAliasNode(anchor);
        case ScalarEvent(text, style, meta, span) =>
          var _ := PushNode(meta, span, Scalar(text, style));
      }
    }

    method Build(events: seq<Event>) returns (r: Result<Stream, BuildError>)
      requires Snapshot() == INITIAL
      modifies this
      ensures r == Built(events)
    {
      for i := 0 to |events|
        invariant Steps(events[..i]) == Ok(Snapshot())
      {
        assert events[..i + 1][..i] == events[..i];
        var outcome := HandleEvent(events[i]);
        if outcome.Err? {
          StepsFailForGood(events, i + 1);
          return Err(outcome.error);
        }
      }
      assert events[..|events|] == events;
      if stack != [] {
        return Err(UnclosedCollection);
      }
      if current_document.Some? {
        var document := current_document.value;
        current_document := None;
        documents := documents + [Finish(document, false, document.start_span)];
      }
      return Ok(Stream(documents, nodes, anchors, aliases));
    }
  }
}
