// Every event of a well-formed stream extends the replayed events by itself, so
// the built stream walks back to its events.
module LosslessRebuild {
  import opened Prelude
  import opened LosslessGraph
  import opened LosslessValid
  import opened LosslessRoundTrip
  import opened LosslessReplay

  // ----- Opening a collection ---------------------------------------------------------------------

  function Framed(s: State, frame: Frame): State {
    s.(stack := s.stack + [frame])
  }

  // `s'` grew from `s` by a collection, and `frame` opens it.
  ghost predicate Opens(s: State, s': State, frame: Frame) {
    && Grown(s, s') && Nested(s) && ReadyForNode(s)
    && frame.node == |s.nodes| < |s'.nodes|
    && (frame.MappingFrame? ==> frame.pending_key.None? && s'.nodes[|s.nodes|].kind.Mapping?)
    && (frame.SequenceFrame? ==> s'.nodes[|s.nodes|].kind.Sequence?)
  }

  lemma OpensKeepsValid(s: State, s': State, frame: Frame)
    requires Opens(s, s', frame)
    ensures Valid(s') && Valid(Framed(s', frame))
    ensures FrameKids(Framed(s', frame).nodes, frame) == []
  {
    hide GraphOk, StartOf, Kids, Valid, Nested, ReadyForNode;
    OpenedNode(s, s', frame);
    FramedIsValid(s', frame);
  }

  lemma OpenedNode(s: State, s': State, frame: Frame)
    requires Opens(s, s', frame)
    ensures Valid(s') && frame.node < |s'.nodes| && Kids(s'.nodes[frame.node]) == []
  {
    hide Valid, Nested, ReadyForNode, Kids, StartOf;
  }

  lemma FramedIsValid(s: State, frame: Frame)
    requires Valid(s) && frame.node < |s.nodes| && (frame.MappingFrame? ==> frame.pending_key.None? && s.nodes[frame.node].kind.Mapping?)
    requires frame.SequenceFrame? ==> s.nodes[frame.node].kind.Sequence?
    ensures Valid(Framed(s, frame))
  {
    hide GraphOk;
  }

  lemma OpensFrameIsNested(s: State, s': State, frame: Frame, k: nat)
    requires Opens(s, s', frame) && k <= |s.stack|
    ensures k < |Framed(s', frame).stack| && FramesOk(Framed(s', frame)) && FrameNested(Framed(s', frame), k)
  {
    hide Grown, Nested, StartOf, FrameKids, Valid, ReadyForNode;
    var s2 := Framed(s', frame);
    GrownFacts(s, s');
    NewNodeIsClosed(s, s');
    OpensKeepsValid(s, s', frame);
    FramesFacts(s2);
    if k < |s.stack| {
      NestedFacts(s, k);
      assert forall i :: s.stack[k].node < i < Upper(s, k) ==> s'.nodes[i] == s.nodes[i];
      if k + 1 < |s.stack| {
        SameFrameKids(s, s2, k);
      } else {
        assert s2.stack[k] == s'.stack[k];
        assert FrameKids(s2.nodes, s2.stack[k]) == FrameKids(s.nodes, s.stack[k]) + [|s.nodes|];
      }
    }
  }

  lemma OpensIsNested(s: State, s': State, frame: Frame)
    requires Opens(s, s', frame)
    ensures Nested(Framed(s', frame))
  {
    hide Grown, Valid, Kids, FrameNested, FrameKids, StartOf, DocumentsEvents;
    GrownFacts(s, s');
    GrownKeepsDocuments(s, s');
    if s.stack != [] { NestedFacts(s, 0); }
    OpensFrameIsNested(s, s', frame, 0);
    forall k | 0 <= k < |s.stack| + 1 ensures FrameNested(Framed(s', frame), k) {
      OpensFrameIsNested(s, s', frame, k);
    }
  }

  // The frame that was on top, seen from the new frame above it.
  lemma OpensTopEvents(s: State, s': State, frame: Frame)
    requires Opens(s, s', frame) && s.stack != []
    ensures Valid(s) && Valid(Framed(s', frame)) && |Framed(s', frame).stack| == |s.stack| + 1
    ensures OuterFrame(Framed(s', frame), |s.stack| - 1) == WholeFrame(s, |s.stack| - 1)
  {
    hide Grown, StartOf, Valid, Nested, FrameEvents, FrameKids, FrameNested, ReadyForNode;
    var t, s2 := |s.stack| - 1, Framed(s', frame);
    GrownFacts(s, s');
    OpensKeepsValid(s, s', frame);
    var kids := FrameKids(s.nodes, s.stack[t]);
    assert s2.stack[t] == s'.stack[t];
    assert FrameKids(s2.nodes, s2.stack[t]) == kids + [|s.nodes|];
    FrameKidsBetween(s, t);
    FramesFacts(s);
    FramesFacts(s2);
    GrownKeepsFrames(s, s', t);
    FrameEventsSame(s, s2, t, kids);
  }

  lemma OpensOuterEvents(s: State, s': State, frame: Frame)
    requires Opens(s, s', frame) && s.stack != []
    ensures Valid(s) && Valid(Framed(s', frame)) && |Framed(s', frame).stack| == |s.stack| + 1
    ensures OuterEvents(Framed(s', frame), |s.stack| - 1) == OuterEvents(s, |s.stack| - 1)
  {
    hide Grown, StartOf, Valid, Nested, FrameKids, OuterEvents, ReadyForNode;
    var s2 := Framed(s', frame);
    GrownFacts(s, s');
    OpensKeepsValid(s, s', frame);
    FramesFacts(s);
    FramesFacts(s2);
    forall k | 0 <= k < |s.stack| - 1 ensures KeepsFrame(s, s2, k) && FrameKids(s2.nodes, s2.stack[k]) == FrameKids(s.nodes, s.stack[k]) {
      GrownKeepsFrames(s, s', k);
      assert s2.stack[k] == s'.stack[k];
      SameFrameKids(s, s2, k);
    }
    OuterSame(s, s2, |s.stack| - 1);
  }

  lemma OpensReplays(s: State, s': State, frame: Frame)
    requires Opens(s, s', frame)
    ensures Valid(s) && Valid(s') && |s'.nodes| == |s.nodes| + 1 && Valid(Framed(s', frame))
    ensures Replay(Framed(s', frame)) == Replay(s) + [StartOf(G(s'), s'.nodes[|s.nodes|])]
  {
    hide Grown, StartOf, Valid, Nested, FrameKids, WholeFrame, OuterFrame, OuterEvents, OpenEvents, DocumentsEvents, Walk;
    var s2 := Framed(s', frame);
    GrownFacts(s, s');
    GrownKeepsDocuments(s, s');
    OpensKeepsValid(s, s', frame);
    OpenInCollection(s2);
    var t := |s.stack|;
    assert s2.stack[t] == frame;
    EmptyFrameEvents(s2, t);
    OuterStarts(s2);
    if s.stack != [] {
      OpenInCollection(s);
      OuterUnfolds(s2, t - 1);
      OpensTopEvents(s, s', frame);
      OpensOuterEvents(s, s', frame);
    } else {
      OpenAtRoot(s);
    }
  }

  lemma EmptyFrameEvents(s: State, k: nat)
    requires Valid(s) && k < |s.stack| && s.stack[k].node < |s.nodes| && FrameKids(s.nodes, s.stack[k]) == []
    ensures WholeFrame(s, k) == [StartOf(G(s), s.nodes[s.stack[k].node])]
  {
    hide StartOf, Kids, GraphOk;
    FramesFacts(s);
    assert Grounded(s.nodes);
    assert WalkAll(G(s), [], s.stack[k].node + 1) == [];
  }

  // ----- Closing a collection ----------------------------------------------------------------------

  // The top frame is complete and of the kind that ends.
  ghost predicate MayEnd(s: State, sequence: bool) {
    && Valid(s) && Nested(s) && s.current.Some? && s.stack != [] && s.current.value.root == Some(s.stack[0].node)
    && var top := s.stack[|s.stack| - 1];
    && top.SequenceFrame? == sequence && (top.MappingFrame? ==> top.pending_key.None?)
  }

  lemma EndFacts(s: State, end_span: Span, sequence: bool)
    requires MayEnd(s, sequence)
    ensures Valid(s) && Nested(s) && FramesOk(s) && Ended(s, end_span, sequence).Ok?
    ensures var s2, t := Ended(s, end_span, sequence).value, |s.stack| - 1;
            var n := s.stack[t].node;
            && s.stack != [] && Valid(s2) && FramesOk(s2) && s2.stack == s.stack[..t] && |s2.nodes| == |s.nodes| && n < |s.nodes|
            && s2.anchors == s.anchors && s2.documents == s.documents && s2.current == s.current
            && (forall i :: 0 <= i < |s.nodes| && i != n ==> s2.nodes[i] == s.nodes[i])
            && Kids(s2.nodes[n]) == Kids(s.nodes[n]) == FrameKids(s.nodes, s.stack[t])
            && StartOf(G(s2), s2.nodes[n]) == StartOf(G(s), s.nodes[n])
            && EndOf(s2.nodes[n]) == Kept(if sequence then SequenceEnd(end_span) else MappingEnd(end_span))
  {
    hide Valid, FramesOk, Nested, Ended, Kids, StartOf, EndOf, RootsOk;
    EndStep(s, end_span, sequence);
    EndedKeepsValid(s, end_span, sequence);
    FramesFacts(s);
    FramesFacts(Ended(s, end_span, sequence).value);
    var node := s.nodes[s.stack[|s.stack| - 1].node];
    EndNode(G(s), G(Ended(s, end_span, sequence).value), node, end_span);
    assert Kids(node) + [] == Kids(node);
  }

  // The state after the end, field by field.
  lemma EndStep(s: State, end_span: Span, sequence: bool)
    requires MayEnd(s, sequence)
    ensures Valid(s) && Nested(s) && FramesOk(s) && Ended(s, end_span, sequence).Ok? && s.stack != []
    ensures var n := s.stack[|s.stack| - 1].node;
            && n < |s.nodes| && s.nodes[n].kind.Sequence? == sequence && s.nodes[n].kind.Mapping? == !sequence
            && Ended(s, end_span, sequence).value
               == s.(stack := s.stack[..|s.stack| - 1], nodes := s.nodes[n := s.nodes[n].(span := EndSpan(s.nodes[n].span, end_span))])
  {
    hide GraphOk, Nested;
  }

  function EndSpan(span: Span, end_span: Span): Span {
    N.Span(span.start, end_span.end, span.line, span.column)
  }

  lemma EndNode(g: Graph, g': Graph, node: GraphNode, end_span: Span)
    requires g.anchors == g'.anchors && (node.kind.Sequence? || node.kind.Mapping?)
    ensures var ended := node.(span := EndSpan(node.span, end_span));
            && Kids(ended) == Kids(node) && StartOf(g', ended) == StartOf(g, node)
            && EndOf(ended) == Kept(if node.kind.Sequence? then SequenceEnd(end_span) else MappingEnd(end_span))
  {
  }

  lemma EndFrameIsNested(s: State, end_span: Span, sequence: bool, k: nat)
    requires MayEnd(s, sequence) && k + 1 < |s.stack|
    ensures FramesOk(s) && Ended(s, end_span, sequence).Ok?
    ensures var s2 := Ended(s, end_span, sequence).value; k < |s2.stack| && FramesOk(s2) && FrameNested(s2, k)
  {
    hide MayEnd, Valid, Nested, Ended, FrameKids, StartOf, FramesOk, EndOf;
    EndFacts(s, end_span, sequence);
    var s2, t := Ended(s, end_span, sequence).value, |s.stack| - 1;
    var n := s.stack[t].node;
    NestedFacts(s, k);
    NestedFacts(s, t);
    FramesFacts(s2);
    SameFrameKids(s, s2, k);
    FrameKidsBetween(s2, k);
    FrameKidsBetween(s, t);
    if k + 1 == t {
      assert forall i :: s.stack[k].node < i < |s.nodes| ==> AllBetween(Kids(s2.nodes[i]), i, |s.nodes|);
    }
  }

  // Closed stretches stay closed, and the last frame leaves one behind.
  lemma EndIsClosed(s: State, end_span: Span, sequence: bool)
    requires MayEnd(s, sequence)
    ensures FramesOk(s) && Ended(s, end_span, sequence).Ok?
    ensures var s2 := Ended(s, end_span, sequence).value;
            && Base(s2) == Base(s) <= |s2.nodes| && ClosedIn(s2.nodes, 0, Base(s2))
            && (s2.stack == [] ==> ClosedIn(s2.nodes, Base(s2), |s2.nodes|))
  {
    var s2, t := Ended(s, end_span, sequence).value, |s.stack| - 1;
    assert MayEnd(s, sequence) && Base(s) == s.stack[0].node;
    hide MayEnd, Valid, Ended, FrameKids, StartOf, EndOf, FrameNested;
    EndFacts(s, end_span, sequence);
    NestedFacts(s, 0);
    FrameKidsBetween(s, t);
    if t == 0 {
      assert ClosedIn(s.nodes, s.stack[0].node + 1, |s.nodes|) by { assert FrameNested(s, 0); TopIsClosed(s); }
      assert ClosedIn(s2.nodes, s.stack[0].node, |s.nodes|);
    }
    if t > 0 { StackGrows(s, 0, t); }
    assert ClosedIn(s2.nodes, 0, Base(s2));
  }

  lemma EndIsNested(s: State, end_span: Span, sequence: bool)
    requires MayEnd(s, sequence)
    ensures FramesOk(s) && Ended(s, end_span, sequence).Ok? && Nested(Ended(s, end_span, sequence).value)
  {
    hide MayEnd, Valid, Ended, FrameKids, StartOf, EndOf, FrameNested, ClosedIn;
    EndFacts(s, end_span, sequence);
    EndIsClosed(s, end_span, sequence);
    var s2 := Ended(s, end_span, sequence).value;
    forall k | 0 <= k < |s2.stack| ensures FrameNested(s2, k) {
      EndFrameIsNested(s, end_span, sequence, k);
    }
  }

  lemma TopIsClosed(s: State)
    requires Nested(s) && s.stack != []
    ensures ClosedIn(s.nodes, s.stack[|s.stack| - 1].node + 1, |s.nodes|)
  {
    hide ClosedIn;
    assert FrameNested(s, |s.stack| - 1);
  }

  // The closed collection, walked, is its open frame and its end.
  lemma EndWalks(s: State, s2: State, end_span: Span, sequence: bool)
    requires MayEnd(s, sequence) && FramesOk(s) && Ended(s, end_span, sequence) == Ok(s2)
    ensures Valid(s) && s.stack != [] && Grounded(s2.nodes) && s.stack[|s.stack| - 1].node < |s2.nodes|
    ensures Walk(G(s2), s.stack[|s.stack| - 1].node)
         == WholeFrame(s, |s.stack| - 1) + Kept(if sequence then SequenceEnd(end_span) else MappingEnd(end_span))
  {
    hide MayEnd, Valid, Nested, Ended, FrameKids, StartOf, EndOf, Kept, WalkAll, FramesOk;
    EndFacts(s, end_span, sequence);
    var t := |s.stack| - 1;
    FramesFacts(s);
    FramesFacts(s2);
    FrameKidsBetween(s, t);
    TopIsClosed(s);
    AgreeOn(s, s2, s.stack[t].node + 1, |s.nodes|);
    WalkAllSame(G(s), G(s2), FrameKids(s.nodes, s.stack[t]), s.stack[t].node + 1, |s.nodes|);
  }

  lemma EndKeepsFrame(s: State, end_span: Span, sequence: bool, k: nat)
    requires MayEnd(s, sequence) && k + 1 < |s.stack|
    ensures FramesOk(s) && Ended(s, end_span, sequence).Ok?
    ensures var s2 := Ended(s, end_span, sequence).value;
            && k < |s2.stack| && FramesOk(s2) && KeepsFrame(s, s2, k)
            && FrameKids(s2.nodes, s2.stack[k]) == FrameKids(s.nodes, s.stack[k])
  {
    hide MayEnd, Valid, Nested, Ended, FrameKids, StartOf, EndOf, Agree, FrameNested;
    EndFacts(s, end_span, sequence);
    var s2 := Ended(s, end_span, sequence).value;
    NestedFacts(s, k);
    StartSame(s, s2, s.stack[k].node);
    AgreeOn(s, s2, s.stack[k].node + 1, Upper(s, k));
    SameFrameKids(s, s2, k);
  }

  lemma EndKeepsOuter(s: State, s2: State, end_span: Span, sequence: bool)
    requires MayEnd(s, sequence) && |s.stack| > 1 && FramesOk(s) && Ended(s, end_span, sequence) == Ok(s2)
    ensures Valid(s) && Valid(s2) && |s2.stack| == |s.stack| - 1
    ensures OuterEvents(s2, |s.stack| - 2) == OuterEvents(s, |s.stack| - 2)
  {
    hide MayEnd, Valid, Nested, Ended, FrameKids, OuterEvents, KeepsFrame, FramesOk, EndOf, StartOf;
    EndFacts(s, end_span, sequence);
    FramesFacts(s);
    FramesFacts(s2);
    forall k | 0 <= k < |s.stack| - 2 ensures KeepsFrame(s, s2, k) && FrameKids(s2.nodes, s2.stack[k]) == FrameKids(s.nodes, s.stack[k]) {
      EndKeepsFrame(s, end_span, sequence, k);
    }
    OuterSame(s, s2, |s.stack| - 2);
  }

  lemma EndKeepsDocuments(s: State, end_span: Span, sequence: bool)
    requires MayEnd(s, sequence)
    ensures FramesOk(s) && Ended(s, end_span, sequence).Ok?
    ensures var s2 := Ended(s, end_span, sequence).value;
            Valid(s) && Valid(s2) && DocumentsEvents(G(s2), s2.documents) == DocumentsEvents(G(s), s.documents)
  {
    assert Base(s) == s.stack[0].node;
    hide MayEnd, Valid, Ended, FrameKids, StartOf, EndOf, FrameNested, Agree, Kids;
    EndFacts(s, end_span, sequence);
    var s2, t := Ended(s, end_span, sequence).value, |s.stack| - 1;
    FramesFacts(s);
    FramesFacts(s2);
    if t > 0 { StackGrows(s, 0, t); }
    AgreeOn(s, s2, 0, Base(s));
    DocumentsSame(G(s), G(s2), s.documents, Base(s));
  }

  // The frame that is on top again: its last child is the closed collection.
  lemma EndTopEvents(s: State, s2: State, end_span: Span, sequence: bool)
    requires MayEnd(s, sequence) && |s.stack| > 1 && FramesOk(s) && Ended(s, end_span, sequence) == Ok(s2)
    ensures Valid(s) && Valid(s2) && |s2.stack| == |s.stack| - 1 && Grounded(s2.nodes) && s.stack[|s.stack| - 1].node < |s2.nodes|
    ensures WholeFrame(s2, |s.stack| - 2) == OuterFrame(s, |s.stack| - 2) + Walk(G(s2), s.stack[|s.stack| - 1].node)
  {
    hide MayEnd, Valid, Nested, Ended, FrameKids, FrameEvents, KeepsFrame, EndOf, StartOf, Walk, FramesOk;
    var k, n := |s.stack| - 2, s.stack[|s.stack| - 1].node;
    EndFacts(s, end_span, sequence);
    EndKeepsFrame(s, end_span, sequence, k);
    OuterFrameSame(s, s2, k);
    FramesFacts(s2);
    FrameKidsBetween(s2, k);
    NestedFacts(s, k);
    var kids := FrameKids(s.nodes, s.stack[k]);
    assert kids == ButLast(kids) + [n];
    FrameEventsPush(s2, k, ButLast(kids), n);
  }

  lemma EndRoot(s: State, sequence: bool)
    requires MayEnd(s, sequence)
    ensures s.stack != [] && s.current.Some? && s.current.value.root == Some(s.stack[0].node)
  {
    hide Valid, Nested;
  }

  lemma EndReplays(s: State, s2: State, end_span: Span, sequence: bool)
    requires MayEnd(s, sequence) && FramesOk(s) && Ended(s, end_span, sequence) == Ok(s2)
    ensures Valid(s) && Valid(s2)
    ensures Replay(s2) == Replay(s) + Kept(if sequence then SequenceEnd(end_span) else MappingEnd(end_span))
  {
    hide MayEnd, Valid, Nested, Ended, FrameKids, StartOf, EndOf, OuterEvents, OuterFrame, WholeFrame, OpenEvents,
      DocumentsEvents, Walk, Kept, FramesOk;
    EndRoot(s, sequence);
    EndFacts(s, end_span, sequence);
    EndKeepsDocuments(s, end_span, sequence);
    EndWalks(s, s2, end_span, sequence);
    OpenInCollection(s);
    OuterStarts(s);
    if |s.stack| == 1 {
      OpenAtRoot(s2);
    } else {
      EndKeepsOuter(s, s2, end_span, sequence);
      EndTopEvents(s, s2, end_span, sequence);
      OpenInCollection(s2);
      OuterUnfolds(s, |s.stack| - 2);
    }
  }
}
