// Which event lists the builder accepts, grammatical or not, and what its tables hold.
module LosslessAcceptance {
  import opened Prelude
  import opened LosslessGraph
  import opened LosslessTheorems

  // ----- What the events so far have left open -------------------------------------------------

  datatype Collection = OpenSequence | OpenMapping

  /** The collections started and not yet ended, innermost last. */
  function Unfinished(events: seq<Event>): seq<Collection> {
    if events == [] then []
    else
      var before, last := Unfinished(events[..|events| - 1]), events[|events| - 1];
      if last.SequenceStart? then before + [OpenSequence]
      else if last.MappingStart? then before + [OpenMapping]
      else if (last.SequenceEnd? || last.MappingEnd?) && before != [] then before[..|before| - 1]
      else before
  }

  /** The last document marker is a start. */
  function InDocument(events: seq<Event>): bool {
    if events == [] then false
    else
      var last := events[|events| - 1];
      if last.DocumentStart? then true else if last.DocumentEnd? then false else InDocument(events[..|events| - 1])
  }

  /** Why an event is refused behind the events before it. */
  function Refusal(before: seq<Event>, event: Event): Option<BuildError> {
    var unfinished := Unfinished(before);
    if event.DocumentEnd? then
      if unfinished != [] then Some(DocumentEndedInCollection)
      else if !InDocument(before) then Some(DocumentEndWithoutStart)
      else None
    else if event.SequenceEnd? || event.MappingEnd? then
      if unfinished == [] then Some(EndWithoutStart)
      else if event.SequenceEnd? != (unfinished[|unfinished| - 1] == OpenSequence) then Some(MismatchedEnd)
      else None
    else if event.AliasEvent? && event.anchor.name !in Defined(before) then Some(UnknownAnchor(event.anchor.name))
    else None
  }

  ghost predicate NoneRefused(events: seq<Event>) {
    forall i :: 0 <= i < |events| ==> Refusal(events[..i], events[i]) == None
  }

  // ----- The builder's state tells the same ------------------------------------------------------

  ghost predicate Tells(s: State, events: seq<Event>) {
    && |s.stack| == |Unfinished(events)|
    && (forall k :: 0 <= k < |s.stack| ==> s.stack[k].SequenceFrame? == (Unfinished(events)[k] == OpenSequence))
    && s.current.Some? == InDocument(events)
    && s.active.Keys == Defined(events)
  }

  lemma PushedTells(s: State, meta: EventMeta, span: Span, kind: Kind)
    requires FramesOk(s)
    ensures var s' := PushedNode(s, meta, span, kind);
            && |s'.stack| == |s.stack| && s'.current.Some? == s.current.Some?
            && forall k :: 0 <= k < |s.stack| ==> s'.stack[k].SequenceFrame? == s.stack[k].SequenceFrame?
  {
    hide AddKid;
  }

  lemma StepTells(s: State, events: seq<Event>, event: Event)
    requires FramesOk(s) && Tells(s, events)
    ensures match Refusal(events, event)
            case Some(e) => Step(s, event) == Err(e)
            case None => Step(s, event).Ok? && Tells(Step(s, event).value, events + [event])
  {
    hide PushedNode, AddKid, Defined, AnchorOf, FramesOk;
    var next := events + [event];
    assert next[..|next| - 1] == events;
    if Refusal(events, event).None? {
      if event.SequenceStart? || event.MappingStart? || event.ScalarEvent? {
        PushedTells(s, event.meta, event.span, KindOf(event));
      }
      ActiveAfterStep(s, event);
      DefinedNext(events, event);
    }
  }

  function KindOf(event: Event): Kind {
    match event
    case SequenceStart(_, style, _) => Sequence(style, [])
    case MappingStart(_, style, _) => Mapping(style, [])
    case ScalarEvent(text, style, _, _) => Scalar(text, style)
    case _ => Scalar("", Plain)
  }

  lemma DefinedNext(events: seq<Event>, event: Event)
    ensures Defined(events + [event]) == if event.DocumentStart? then {} else Defined(events) + AnchorOf(event)
  {
    hide AnchorOf;
    assert (events + [event])[..|events|] == events;
  }

  lemma NothingTells()
    ensures Tells(INITIAL, [])
  {
    assert INITIAL.active.Keys == {};
  }

  lemma {:induction false} StepsTell(events: seq<Event>)
    ensures Steps(events).Ok? <==> NoneRefused(events)
    ensures Steps(events).Ok? ==> Tells(Steps(events).value, events)
    decreases |events|
  {
    hide Tells, Refusal, Step;
    if events == [] {
      NothingTells();
    } else {
      var n := |events| - 1;
      var init, event := events[..n], events[n];
      assert events == init + [event];
      StepsTell(init);
      assert NoneRefused(events) <==> NoneRefused(init) && Refusal(init, event) == None by {
        assert forall i :: 0 <= i < n ==> init[i] == events[i] && init[..i] == events[..i];
      }
      if Steps(init).Ok? { StepTells(Steps(init).value, init, event); }
    }
  }

  /** Any list of events is accepted exactly if no event is refused behind those before
      it and no collection is left open; otherwise the first refusal is reported. */
  lemma AcceptsExactly(events: seq<Event>)
    ensures Built(events).Ok? <==> NoneRefused(events) && Unfinished(events) == []
    ensures NoneRefused(events) && Unfinished(events) != [] ==> Built(events) == Err(UnclosedCollection)
    ensures forall i :: 0 <= i < |events| && NoneRefused(events[..i]) && Refusal(events[..i], events[i]).Some? ==>
              Built(events) == Err(Refusal(events[..i], events[i]).value)
  {
    hide Refusal, Step, Unfinished;
    StepsTell(events);
    forall i | 0 <= i < |events| && NoneRefused(events[..i]) && Refusal(events[..i], events[i]).Some?
      ensures Built(events) == Err(Refusal(events[..i], events[i]).value)
    {
      var init, next := events[..i], events[..i + 1];
      assert next[..i] == init && next[i] == events[i];
      StepsTell(init);
      StepTells(Steps(init).value, init, events[i]);
      StepsFailForGood(events, i + 1);
    }
  }

  // ----- Tables ------------------------------------------------------------------------------------

  /** Documents are numbered in order, and an alias keeps the span of its node. */
  ghost predicate TablesOk(documents: seq<Document>, nodes: seq<GraphNode>, aliases: seq<AliasRef>) {
    && (forall d :: 0 <= d < |documents| ==> documents[d].index == d)
    && forall a :: 0 <= a < |aliases| ==>
         aliases[a].node < |nodes| && nodes[aliases[a].node].kind.Alias? && nodes[aliases[a].node].span == aliases[a].span
  }

  ghost predicate Tabled(s: State) {
    && TablesOk(s.documents, s.nodes, s.aliases)
    && (s.current.Some? ==> s.current.value.index == |s.documents|)
  }

  // Attaching the last node changes the kind of an open collection at most.
  lemma AttachedTabled(s: State, id: NodeId)
    requires FramesOk(s) && Tabled(s)
    ensures Tabled(Attached(s, id))
  {
    if s.stack != [] {
      var top := s.stack[|s.stack| - 1];
      assert AddKid(s.nodes[top.node], top, id).(kind := s.nodes[top.node].kind) == s.nodes[top.node];
    }
  }

  lemma StepTabled(s: State, event: Event)
    requires FramesOk(s) && Tabled(s) && Step(s, event).Ok?
    ensures Tabled(Step(s, event).value)
  {
    hide Attached;
    match event {
      case SequenceStart(meta, style, span) => PushedTabled(s, meta, span, Sequence(style, []));
      case MappingStart(meta, style, span) => PushedTabled(s, meta, span, Mapping(style, []));
      case ScalarEvent(text, style, meta, span) => PushedTabled(s, meta, span, Scalar(text, style));
      case AliasEvent(anchor) => AliasTabled(s, anchor);
      case _ =>
    }
  }

  lemma PushedTabled(s: State, meta: EventMeta, span: Span, kind: Kind)
    requires FramesOk(s) && Tabled(s)
    ensures Tabled(PushedNode(s, meta, span, kind))
  {
    hide Attached;
    var (s1, anchor) := Registered(s, |s.nodes|, meta.anchor);
    AttachedTabled(s1.(nodes := s1.nodes + [GraphNode(|s.nodes|, span, anchor, meta.tag, kind)]), |s.nodes|);
  }

  lemma AliasTabled(s: State, anchor: EventAnchor)
    requires FramesOk(s) && Tabled(s) && PushedAlias(s, anchor).Ok?
    ensures Tabled(PushedAlias(s, anchor).value)
  {
    hide Attached;
    var target := s.active[anchor.name];
    var node, alias := |s.nodes|, |s.aliases|;
    AttachedTabled(s.(aliases := s.aliases + [AliasRef(alias, anchor.name, anchor.span, node, target)],
                      nodes := s.nodes + [GraphNode(node, anchor.span, None, None, Alias(anchor.name, alias, target))]), node);
  }

  lemma {:induction false} StepsTabled(events: seq<Event>)
    requires Steps(events).Ok?
    ensures Tabled(Steps(events).value)
    decreases |events|
  {
    hide Step, Tabled;
    if events == [] {
      InitialTabled();
    } else {
      StepsTabled(events[..|events| - 1]);
      StepTabled(Steps(events[..|events| - 1]).value, events[|events| - 1]);
    }
  }

  lemma InitialTabled()
    ensures Tabled(INITIAL)
  {
  }

  /** In every built stream document `i` has index `i`, and every alias of the table has
      the span of its alias node. */
  lemma BuiltTablesAreOk(events: seq<Event>)
    requires Built(events).Ok?
    ensures TablesOk(Built(events).value.documents, Built(events).value.nodes, Built(events).value.aliases)
  {
    hide Steps;
    StepsTabled(events);
  }
}
