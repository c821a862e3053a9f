// The main results about the lossless builder.
module LosslessTheorems {
  import opened Prelude
  import opened LosslessGraph
  import opened LosslessValid
  import opened LosslessRoundTrip
  import opened LosslessReplay
  import opened LosslessRebuild

  // ----- One event ---------------------------------------------------------------------------

  // The state follows the grammar and has replayed everything so far.
  ghost predicate Follows(p: Place, s: State) {
    Valid(s) && Nested(s) && Mirrors(p, s)
  }

  lemma ReadyByGrammar(p: Place, s: State)
    requires Mirrors(p, s) && AfterNode(p).Some?
    ensures s.current.Some? && ReadyForNode(s)
  {
  }

  lemma GrownMirrors(p: Place, s: State, s': State)
    requires Grown(s, s') && Mirrors(p, s) && AfterNode(p).Some?
    ensures Mirrors(AfterNode(p).value, s')
  {
    hide Grown, Valid, FrameKids, StartOf;
    GrownFacts(s, s');
    if s.stack != [] {
      var t := |s.stack| - 1;
      assert FrameMatches(s.stack[t], p.frames[t]);
      var q := AfterNode(p).value;
      forall k | 0 <= k < |q.frames| ensures FrameMatches(s'.stack[k], q.frames[k]) {
        assert FrameMatches(s.stack[k], p.frames[k]);
      }
    }
  }

  lemma LeafFollows(p: Place, s: State, s': State)
    requires Follows(p, s) && Grown(s, s') && AfterNode(p).Some?
    requires |s.nodes| < |s'.nodes| && EndOf(s'.nodes[|s.nodes|]) == []
    ensures Follows(AfterNode(p).value, s')
    ensures Replay(s') == Replay(s) + [StartOf(G(s'), s'.nodes[|s.nodes|])]
  {
    hide Grown, Valid, Nested, Mirrors, Kids, Replay, StartOf, EndOf, ReadyForNode, AfterNode;
    ReadyByGrammar(p, s);
    GrownFacts(s, s');
    GrownMirrors(p, s, s');
    GrownIsNested(s, s');
    GrownReplays(s, s');
    LeafWalk(s, s');
  }

  lemma LeafWalk(s: State, s': State)
    requires Grown(s, s') && |s.nodes| < |s'.nodes| && EndOf(s'.nodes[|s.nodes|]) == [] && Grounded(s'.nodes)
    ensures Walk(G(s'), |s.nodes|) == [StartOf(G(s'), s'.nodes[|s.nodes|])]
  {
    hide Grown, StartOf, Kids;
    NewNodeIsClosed(s, s');
  }

  lemma FramedMirrors(q: Place, s: State, s': State, frame: Frame, open: Open)
    requires Grown(s, s') && Mirrors(q, s') && q.Inside? && FrameMatches(frame, open) && frame.node == |s.nodes|
    ensures Mirrors(Inside(q.rooted, q.frames + [open]), Framed(s', frame))
  {
    hide Valid, Kids, FrameKids, StartOf, Nested, Grown;
    GrownFacts(s, s');
  }

  lemma OpenFollows(p: Place, s: State, s': State, frame: Frame, open: Open)
    requires Follows(p, s) && Grown(s, s') && AfterNode(p).Some?
    requires frame.node == |s.nodes| < |s'.nodes| && FrameMatches(frame, open) && open != OpenMapping(true)
    requires if frame.MappingFrame? then s'.nodes[|s.nodes|].kind.Mapping? else s'.nodes[|s.nodes|].kind.Sequence?
    ensures var q := AfterNode(p).value;
            q.Inside? && Follows(Inside(q.rooted, q.frames + [open]), Framed(s', frame))
    ensures Replay(Framed(s', frame)) == Replay(s) + [StartOf(G(s'), s'.nodes[|s.nodes|])]
  {
    hide Grown, Valid, Nested, Mirrors, Kids, Replay, StartOf, EndOf, ReadyForNode;
    ReadyByGrammar(p, s);
    GrownFacts(s, s');
    GrownMirrors(p, s, s');
    FramedMirrors(AfterNode(p).value, s, s', frame, open);
    OpensKeepsValid(s, s', frame);
    OpensIsNested(s, s', frame);
    OpensReplays(s, s', frame);
  }

  lemma EndFollows(p: Place, s: State, end_span: Span, sequence: bool)
    requires Follows(p, s) && p.Inside? && p.frames != []
    requires p.frames[|p.frames| - 1] == if sequence then OpenSequence else OpenMapping(false)
    ensures FramesOk(s) && Ended(s, end_span, sequence).Ok?
    ensures var s2 := Ended(s, end_span, sequence).value;
            && Follows(Inside(p.rooted, p.frames[..|p.frames| - 1]), s2)
            && Replay(s2) == Replay(s) + Kept(if sequence then SequenceEnd(end_span) else MappingEnd(end_span))
  {
    EndMay(p, s, sequence);
    hide Valid, Nested, MayEnd, Mirrors, Kids, Replay, StartOf, EndOf, FrameKids, Kept, Ended, FramesOk;
    EndFacts(s, end_span, sequence);
    var s2 := Ended(s, end_span, sequence).value;
    EndIsNested(s, end_span, sequence);
    EndReplays(s, s2, end_span, sequence);
    EndMirrors(p, s, s2);
  }

  lemma EndMirrors(p: Place, s: State, s2: State)
    requires Mirrors(p, s) && p.Inside? && p.frames != []
    requires s.stack != [] && s2.stack == s.stack[..|s.stack| - 1] && s2.current == s.current
    ensures Mirrors(Inside(p.rooted, p.frames[..|p.frames| - 1]), s2)
  {
    forall k | 0 <= k < |s2.stack| ensures FrameMatches(s2.stack[k], p.frames[k]) {
      assert FrameMatches(s.stack[k], p.frames[k]);
    }
  }

  lemma EndMay(p: Place, s: State, sequence: bool)
    requires Follows(p, s) && p.Inside? && p.frames != []
    requires p.frames[|p.frames| - 1] == if sequence then OpenSequence else OpenMapping(false)
    ensures MayEnd(s, sequence)
  {
    hide Valid, Nested;
    assert FrameMatches(s.stack[|s.stack| - 1], p.frames[|p.frames| - 1]);
  }

  lemma StartFollows(s: State, event: Event)
    requires Follows(Outside, s) && event.DocumentStart?
    ensures Step(s, event).Ok?
    ensures Follows(Inside(false, []), Step(s, event).value) && Replay(Step(s, event).value) == Replay(s) + [event]
  {
    hide GraphOk, Kids, DocumentsEvents, ClosedIn;
    StepKeepsValid(s, event);
  }

  // The state after the open document has ended.
  ghost predicate Finishes(s: State, event: Event, s': State) {
    && s.stack == [] && s.current.Some? && event.DocumentEnd?
    && s' == s.(current := None, documents := s.documents + [Finish(s.current.value, event.explicit, event.span)])
  }

  lemma FinishIsNested(s: State, event: Event, s': State)
    requires Nested(s) && RootsOk(s) && Finishes(s, event, s')
    ensures Nested(s')
  {
    hide Kids;
    ClosedAll(s.nodes, Base(s));
  }

  lemma ClosedAll(nodes: seq<GraphNode>, base: nat)
    requires ClosedIn(nodes, 0, base) && ClosedIn(nodes, base, |nodes|) && base <= |nodes|
    ensures ClosedIn(nodes, 0, |nodes|)
  {
    hide Kids;
    forall i | 0 <= i < |nodes| ensures AllBetween(Kids(nodes[i]), i, |nodes|) {
      if i < base { assert AllBetween(Kids(nodes[i]), i, base); }
    }
  }

  lemma FinishReplays(s: State, event: Event, s': State)
    requires Valid(s) && Valid(s') && Finishes(s, event, s')
    ensures Replay(s') == Replay(s) + [event]
  {
    hide GraphOk, Kids, Walk, FramesOk, PendingOk;
    GraphFacts(s);
    var d := Finish(s.current.value, event.explicit, event.span);
    assert s'.documents[..|s.documents|] == s.documents && s'.documents[|s.documents|] == d;
    assert G(s') == G(s);
    assert DocumentsEvents(G(s'), s'.documents) == DocumentsEvents(G(s), s.documents) + DocumentEvents(G(s), d);
    assert DocumentEvents(G(s), d) == OpenEvents(s) + [event];
  }

  lemma GraphFacts(s: State)
    requires Valid(s)
    ensures Grounded(s.nodes) && RootsOk(s)
  {
  }

  lemma FinishFollows(p: Place, s: State, event: Event)
    requires Follows(p, s) && p.Inside? && p.frames == [] && event.DocumentEnd?
    ensures FramesOk(s) && Step(s, event).Ok?
    ensures Follows(Outside, Step(s, event).value) && Replay(Step(s, event).value) == Replay(s) + [event]
  {
    FollowsFacts(p, s);
    hide Valid, Nested, Replay, Finish, FramesOk, RootsOk, Grounded;
    GraphFacts(s);
    var s' := Step(s, event).value;
    StepKeepsValid(s, event);
    FinishIsNested(s, event, s');
    FinishReplays(s, event, s');
  }

  // Events that neither open nor add a node.
  lemma MarkerFollows(p: Place, s: State, event: Event)
    requires Follows(p, s) && Advance(p, event).Some? && FramesOk(s)
    requires event.StreamStart? || event.StreamEnd? || event.DocumentStart? || event.DocumentEnd? || event.SequenceEnd? || event.MappingEnd?
    ensures Step(s, event).Ok?
    ensures Follows(Advance(p, event).value, Step(s, event).value) && Replay(Step(s, event).value) == Replay(s) + Kept(event)
  {
    hide Replay, Follows, FramesOk, PushedNode, PushedAlias, Ended, AfterNode;
    match event {
      case DocumentStart(_, _, _) => StartFollows(s, event);
      case DocumentEnd(_, _) => FinishFollows(p, s, event);
      case SequenceEnd(span) => EndFollows(p, s, span, true);
      case MappingEnd(span) => EndFollows(p, s, span, false);
      case _ =>
    }
  }

  // Events that open a collection.
  lemma OpeningFollows(p: Place, s: State, event: Event)
    requires Follows(p, s) && Advance(p, event).Some? && FramesOk(s)
    requires event.SequenceStart? || event.MappingStart?
    ensures Step(s, event).Ok?
    ensures Follows(Advance(p, event).value, Step(s, event).value) && Replay(Step(s, event).value) == Replay(s) + Kept(event)
  {
    hide Replay, Follows, FramesOk, PushedNode, PushedAlias, Ended, AfterNode, Kept;
    match event {
      case SequenceStart(meta, style, span) =>
        CollectionFollows(p, s, event, Sequence(style, []), SequenceFrame(|s.nodes|, span), OpenSequence);
      case MappingStart(meta, style, span) =>
        CollectionFollows(p, s, event, Mapping(style, []), MappingFrame(|s.nodes|, span, None), OpenMapping(false));
    }
  }

  /** One event of the grammar: the builder accepts it, unless it is an alias of an
      unknown anchor, and has then replayed exactly this event more. */
  lemma StepFollows(p: Place, s: State, event: Event)
    requires Follows(p, s) && Advance(p, event).Some?
    ensures FramesOk(s) && (Step(s, event).Err? <==> event.AliasEvent? && event.anchor.name !in s.active)
    ensures Step(s, event).Ok? ==>
              && Follows(Advance(p, event).value, Step(s, event).value)
              && Replay(Step(s, event).value) == Replay(s) + Kept(event)
  {
    FollowsFacts(p, s);
    hide Replay, Follows, FramesOk, Step, AfterNode;
    match event {
      case ScalarEvent(_, _, _, _) => ScalarFollows(p, s, event);
      case AliasEvent(_) => AliasFollows(p, s, event);
      case SequenceStart(_, _, _) => OpeningFollows(p, s, event);
      case MappingStart(_, _, _) => OpeningFollows(p, s, event);
      case _ => MarkerFollows(p, s, event);
    }
  }

  lemma FollowsFacts(p: Place, s: State)
    requires Follows(p, s)
    ensures Valid(s) && FramesOk(s)
    ensures AfterNode(p).Some? ==> s.current.Some?
  {
    hide GraphOk, Nested;
  }

  lemma ScalarFollows(p: Place, s: State, event: Event)
    requires Follows(p, s) && event.ScalarEvent? && AfterNode(p).Some?
    ensures FramesOk(s) && Step(s, event).Ok? && Follows(AfterNode(p).value, Step(s, event).value)
    ensures Replay(Step(s, event).value) == Replay(s) + [event]
  {
    FollowsFacts(p, s);
    hide Valid, Nested, Mirrors, Replay, Grown, Follows, PushedNode, AfterNode, Meta, StartOf, EndOf, FramesOk, Step;
    ScalarStep(s, event);
    var s' := Step(s, event).value;
    PushedIsGrown(s, event.meta, event.span, Scalar(event.text, event.scalar_style));
    ScalarIsLeaf(G(s'), s'.nodes[|s.nodes|], event);
    LeafFollows(p, s, s');
  }

  lemma ScalarStep(s: State, event: Event)
    requires FramesOk(s) && event.ScalarEvent?
    ensures Step(s, event) == Ok(PushedNode(s, event.meta, event.span, Scalar(event.text, event.scalar_style)))
  {
    hide PushedNode;
  }

  lemma ScalarIsLeaf(g: Graph, node: GraphNode, event: Event)
    requires event.ScalarEvent? && node.kind == Scalar(event.text, event.scalar_style)
    requires node.span == event.span && Meta(g, node) == event.meta
    ensures StartOf(g, node) == event && EndOf(node) == []
  {
    hide Meta;
  }

  lemma AliasFollows(p: Place, s: State, event: Event)
    requires Follows(p, s) && event.AliasEvent? && AfterNode(p).Some?
    ensures FramesOk(s) && (Step(s, event).Ok? <==> event.anchor.name in s.active)
    ensures Step(s, event).Ok? ==>
              Follows(AfterNode(p).value, Step(s, event).value) && Replay(Step(s, event).value) == Replay(s) + [event]
  {
    FollowsFacts(p, s);
    if event.anchor.name in s.active {
      hide Valid, Nested, Mirrors, Replay, Grown, Follows, AfterNode, Kids;
      var s' := Step(s, event).value;
      AliasIsGrown(s, event.anchor);
      GrownFacts(s, s');
      NewAliasIsLeaf(s, event.anchor);
      LeafFollows(p, s, s');
      LeafWalk(s, s');
    }
  }

  lemma NewAliasIsLeaf(s: State, anchor: EventAnchor)
    requires FramesOk(s) && PushedAlias(s, anchor).Ok?
    ensures |PushedAlias(s, anchor).value.nodes| == |s.nodes| + 1
    ensures EndOf(PushedAlias(s, anchor).value.nodes[|s.nodes|]) == []
  {
  }

  lemma StartOfPushed(s: State, id: NodeId, event: Event)
    requires event.SequenceStart? || event.MappingStart?
    requires id < |s.nodes| && s.nodes[id].span == event.span && Meta(G(s), s.nodes[id]) == event.meta
    requires s.nodes[id].kind == if event.SequenceStart? then Sequence(event.style, []) else Mapping(event.style, [])
    ensures [StartOf(G(s), s.nodes[id])] == Kept(event)
  {
  }

  // Both kinds of collection start alike.
  lemma CollectionFollows(p: Place, s: State, event: Event, kind: Kind, frame: Frame, open: Open)
    requires Follows(p, s) && AfterNode(p).Some? && FramesOk(s)
    requires (event.SequenceStart? && kind == Sequence(event.style, []) && frame == SequenceFrame(|s.nodes|, event.span) && open == OpenSequence)
          || (event.MappingStart? && kind == Mapping(event.style, []) && frame == MappingFrame(|s.nodes|, event.span, None) && open == OpenMapping(false))
    ensures var q, s2 := AfterNode(p).value, Framed(PushedNode(s, event.meta, event.span, kind), frame);
            && q.Inside? && Follows(Inside(q.rooted, q.frames + [open]), s2)
            && Replay(s2) == Replay(s) + Kept(event)
  {
    FollowsFacts(p, s);
    hide Valid, Nested, Mirrors, Replay, Grown, Follows, PushedNode, AfterNode, Meta, FramesOk, StartOf, Kept;
    var s' := PushedNode(s, event.meta, event.span, kind);
    PushedIsGrown(s, event.meta, event.span, kind);
    GrownFacts(s, s');
    OpenFollows(p, s, s', frame, open);
    StartOfPushed(s', |s.nodes|, event);
  }

  // ----- Whole streams ---------------------------------------------------------------------------

  lemma NothingIsOk()
    ensures GraphOk([], [], [])
  {
  }

  lemma InitialIsValid()
    ensures Valid(INITIAL)
  {
    hide GraphOk;
    NothingIsOk();
  }

  lemma InitialIsNested()
    ensures Nested(INITIAL) && Mirrors(Outside, INITIAL)
  {
    hide Kids;
  }

  lemma InitialFollows()
    ensures Follows(Outside, INITIAL) && Valid(INITIAL) && Replay(INITIAL) == []
  {
    hide Valid, Nested, Mirrors;
    InitialIsValid();
    InitialIsNested();
    FramesFacts(INITIAL);
    assert OpenEvents(INITIAL) == [];
  }

  lemma {:induction false} StepsReplay(events: seq<Event>)
    requires Run(Outside, events).Some? && Steps(events).Ok?
    ensures Follows(Run(Outside, events).value, Steps(events).value)
    ensures Valid(Steps(events).value) && Replay(Steps(events).value) == KeptAll(events)
  {
    hide Valid, Nested, Mirrors, Replay, Advance, Step, Kept;
    if events == [] {
      InitialFollows();
    } else {
      var init, event := events[..|events| - 1], events[|events| - 1];
      StepsReplay(init);
      StepFollows(Run(Outside, init).value, Steps(init).value, event);
    }
  }

  lemma FinishedStream(s: State)
    requires Follows(Outside, s)
    ensures Closed(s).Ok? && StreamOk(Closed(s).value) && StreamEvents(Closed(s).value) == Replay(s)
  {
    hide GraphOk, Kids, DocumentsEvents;
    assert OpenEvents(s) == [];
  }

  /** Walking the built stream gives back what the graph keeps of the events,
      exactly for the streams of the event grammar. */
  lemma WalkReproducesEventsExactly(events: seq<Event>)
    requires Built(events).Ok?
    ensures StreamOk(Built(events).value)
    ensures StreamEvents(Built(events).value) == KeptAll(events) <==> WellFormed(events)
  {
    BuiltStreamIsOk(events);
    var stream := Built(events).value;
    if WellFormed(events) {
      StepsReplay(events);
      FinishedStream(Steps(events).value);
    } else if StreamEvents(stream) == KeptAll(events) {
      DocumentsAreWellFormed(Graph(stream.nodes, stream.anchors), stream.documents);
      KeptRunsAlike(Outside, events);
    }
  }

  // ----- Which well-formed streams are accepted -----------------------------------------------------

  function AnchorOf(event: Event): set<string> {
    match event
    case ScalarEvent(_, _, meta, _) => if meta.anchor.Some? then {meta.anchor.value.name} else {}
    case SequenceStart(meta, _, _) => if meta.anchor.Some? then {meta.anchor.value.name} else {}
    case MappingStart(meta, _, _) => if meta.anchor.Some? then {meta.anchor.value.name} else {}
    case _ => {}
  }

  /** The anchors defined so far in the document at the end of `events`. */
  function Defined(events: seq<Event>): set<string> {
    if events == [] then {}
    else
      var last := events[|events| - 1];
      if last.DocumentStart? then {} else Defined(events[..|events| - 1]) + AnchorOf(last)
  }

  ghost predicate AliasesBound(events: seq<Event>) {
    forall i :: 0 <= i < |events| && events[i].AliasEvent? ==> events[i].anchor.name in Defined(events[..i])
  }

  lemma ActiveAfterStep(s: State, event: Event)
    requires FramesOk(s) && Step(s, event).Ok?
    ensures Step(s, event).value.active.Keys == if event.DocumentStart? then {} else s.active.Keys + AnchorOf(event)
  {
  }

  lemma {:induction false} ActiveIsDefined(events: seq<Event>)
    requires Steps(events).Ok?
    ensures Steps(events).value.active.Keys == Defined(events)
  {
    hide Step, AnchorOf;
    if events != [] {
      ActiveIsDefined(events[..|events| - 1]);
      ActiveAfterStep(Steps(events[..|events| - 1]).value, events[|events| - 1]);
    } else {
      assert INITIAL.active.Keys == {};
    }
  }

  lemma {:induction false} StepsAccept(events: seq<Event>)
    requires Run(Outside, events).Some?
    ensures Steps(events).Ok? <==> AliasesBound(events)
  {
    hide Step, Advance, Valid, Nested, Mirrors, Replay;
    if events != [] {
      var n := |events| - 1;
      var init, event := events[..n], events[n];
      StepsAccept(init);
      assert AliasesBound(events) <==> AliasesBound(init) && (event.AliasEvent? ==> event.anchor.name in Defined(init)) by {
        assert forall i :: 0 <= i < n ==> init[i] == events[i] && init[..i] == events[..i];
      }
      if Steps(init).Ok? {
        StepsReplay(init);
        ActiveIsDefined(init);
        StepFollows(Run(Outside, init).value, Steps(init).value, event);
      }
    }
  }

  /** A well-formed stream is rejected only for an alias without an earlier anchor
      of its name in the same document. */
  lemma WellFormedIsAcceptedExactly(events: seq<Event>)
    requires WellFormed(events)
    ensures Built(events).Ok? <==> AliasesBound(events)
  {
    StepsAccept(events);
    if Steps(events).Ok? {
      StepsReplay(events);
      FinishedStream(Steps(events).value);
    }
  }
}
