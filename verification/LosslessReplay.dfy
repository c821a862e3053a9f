// The builder replays its events: after every prefix of a well-formed stream, the
// finished documents and the open part of the current one spell that prefix.
module LosslessReplay {
  import opened Prelude
  import opened LosslessGraph
  import opened LosslessValid
  import opened LosslessRoundTrip

  function G(s: State): Graph {
    Graph(s.nodes, s.anchors)
  }

  // ----- Finished subtrees stay as they are ------------------------------------------------------

  ghost predicate ClosedIn(nodes: seq<GraphNode>, low: int, high: int) {
    forall i :: low <= i < high && 0 <= i < |nodes| ==> AllBetween(Kids(nodes[i]), i, high)
  }

  ghost predicate Agree(g: Graph, g': Graph, low: int, high: int) {
    && high <= |g.nodes| && high <= |g'.nodes|
    && (forall i :: low <= i < high && 0 <= i ==> g'.nodes[i] == g.nodes[i])
    && g.anchors <= g'.anchors
    && (forall i :: low <= i < high && 0 <= i && g.nodes[i].anchor.Some? ==> g.nodes[i].anchor.value < |g.anchors|)
  }

  lemma {:induction false} WalkSame(g: Graph, g': Graph, id: NodeId, high: int)
    requires Grounded(g.nodes) && Grounded(g'.nodes)
    requires id < high && ClosedIn(g.nodes, id, high) && Agree(g, g', id, high)
    ensures Walk(g, id) == Walk(g', id)
    decreases |g.nodes| - id, 0, 0
  {
    hide Grounded, Kids, StartOf, EndOf;
    KidsBetween(g.nodes, id);
    KidsBetween(g'.nodes, id);
    NodeSame(g, g', id, high);
    WalkAllSame(g, g', Kids(g.nodes[id]), id + 1, high);
  }

  lemma NodeSame(g: Graph, g': Graph, id: NodeId, high: int)
    requires id < high && ClosedIn(g.nodes, id, high) && Agree(g, g', id, high)
    ensures g'.nodes[id] == g.nodes[id] && StartOf(g', g'.nodes[id]) == StartOf(g, g.nodes[id])
    ensures AllBetween(Kids(g.nodes[id]), id, high)
  {
  }

  lemma {:induction false} WalkAllSame(g: Graph, g': Graph, ids: seq<NodeId>, low: nat, high: int)
    requires Grounded(g.nodes) && Grounded(g'.nodes)
    requires AllBetween(ids, low - 1, high) && ClosedIn(g.nodes, low, high) && Agree(g, g', low, high)
    ensures WalkAll(g, ids, low) == WalkAll(g', ids, low)
    decreases |g.nodes| - low, 1, |ids|
  {
    hide Walk, Kids;
    if ids != [] {
      WalkAllSame(g, g', ids[..|ids| - 1], low, high);
      WalkSame(g, g', ids[|ids| - 1], high);
    }
  }

  // ----- The replayed events of a state -----------------------------------------------------------

  /** The children of an open collection, a pending key included. */
  function FrameKids(nodes: seq<GraphNode>, frame: Frame): seq<NodeId>
    requires frame.node < |nodes|
  {
    Kids(nodes[frame.node])
    + if frame.MappingFrame? && frame.pending_key.Some? then [frame.pending_key.value] else []
  }

  lemma FrameKidsBetween(s: State, k: nat)
    requires Valid(s) && k < |s.stack|
    ensures AllBetween(FrameKids(s.nodes, s.stack[k]), s.stack[k].node, |s.nodes|)
  {
    KidsBetween(s.nodes, s.stack[k].node);
  }

  function ButLast(ids: seq<NodeId>): seq<NodeId> {
    if ids == [] then [] else ids[..|ids| - 1]
  }

  /** The events of frame `k` so far, over the given children. */
  ghost function FrameEvents(s: State, k: nat, ids: seq<NodeId>): seq<Event>
    requires Valid(s) && k < |s.stack| && AllBetween(ids, s.stack[k].node, |s.nodes|)
  {
    [StartOf(G(s), s.nodes[s.stack[k].node])] + WalkAll(G(s), ids, s.stack[k].node + 1)
  }

  /** The events of frame `k` with all its children. */
  ghost function WholeFrame(s: State, k: nat): seq<Event>
    requires Valid(s) && k < |s.stack|
  {
    FrameKidsBetween(s, k);
    FrameEvents(s, k, FrameKids(s.nodes, s.stack[k]))
  }

  /** The events of frame `k` without its last child, the next open collection. */
  ghost function OuterFrame(s: State, k: nat): seq<Event>
    requires Valid(s) && k < |s.stack|
  {
    FrameKidsBetween(s, k);
    FrameEvents(s, k, ButLast(FrameKids(s.nodes, s.stack[k])))
  }

  ghost function OuterEvents(s: State, k: nat): seq<Event>
    requires Valid(s) && k <= |s.stack|
  {
    if k == 0 then [] else OuterEvents(s, k - 1) + OuterFrame(s, k - 1)
  }

  ghost function OpenEvents(s: State): seq<Event>
    requires Valid(s)
  {
    match s.current
    case None => []
    case Some(d) =>
      [DocumentStart(d.explicit_start, d.directives, d.start_span)]
      + if s.stack != [] then OuterEvents(s, |s.stack| - 1) + WholeFrame(s, |s.stack| - 1)
        else if d.root.Some? then Walk(G(s), d.root.value)
        else []
  }

  ghost function Replay(s: State): seq<Event>
    requires Valid(s)
  {
    DocumentsEvents(G(s), s.documents) + OpenEvents(s)
  }

  // ----- How the state mirrors the grammar ---------------------------------------------------------

  predicate FrameMatches(frame: Frame, open: Open) {
    match open
    case OpenSequence => frame.SequenceFrame?
    case OpenMapping(waiting) => frame.MappingFrame? && frame.pending_key.Some? == waiting
  }

  ghost predicate Mirrors(p: Place, s: State) {
    match p
    case Outside => s.current.None? && s.stack == []
    case Inside(rooted, frames) =>
      && s.current.Some? && s.current.value.root.Some? == rooted
      && |frames| == |s.stack|
      && (forall k :: 0 <= k < |frames| ==> FrameMatches(s.stack[k], frames[k]))
      && (s.stack != [] ==> s.current.value.root == Some(s.stack[0].node))
  }

  /** The first node of the current document. */
  function Base(s: State): nat {
    if s.current.Some? && s.current.value.root.Some? then s.current.value.root.value else |s.nodes|
  }

  function Upper(s: State, k: nat): nat
    requires k < |s.stack|
  {
    if k + 1 < |s.stack| then s.stack[k + 1].node else |s.nodes|
  }

  function DoneKids(s: State, k: nat): seq<NodeId>
    requires k < |s.stack| && s.stack[k].node < |s.nodes|
  {
    if k + 1 < |s.stack| then ButLast(FrameKids(s.nodes, s.stack[k])) else FrameKids(s.nodes, s.stack[k])
  }

  // The part of the graph below frame `k` that is finished.
  ghost predicate FrameNested(s: State, k: nat)
    requires FramesOk(s) && k < |s.stack|
  {
    && s.stack[k].node < Upper(s, k)
    && ClosedIn(s.nodes, s.stack[k].node + 1, Upper(s, k))
    && AllBetween(DoneKids(s, k), s.stack[k].node, Upper(s, k))
    && (k + 1 < |s.stack| ==>
          var ids := FrameKids(s.nodes, s.stack[k]); ids != [] && ids[|ids| - 1] == s.stack[k + 1].node)
  }

  ghost predicate Nested(s: State) {
    && FramesOk(s)
    && Base(s) <= |s.nodes|
    && ClosedIn(s.nodes, 0, Base(s))
    && (forall d :: 0 <= d < |s.documents| && s.documents[d].root.Some? ==> s.documents[d].root.value < Base(s))
    && (s.stack == [] ==> ClosedIn(s.nodes, Base(s), |s.nodes|))
    && (forall k :: 0 <= k < |s.stack| ==> FrameNested(s, k))
  }

  lemma {:induction false} StackGrows(s: State, j: nat, k: nat)
    requires Nested(s) && j < k < |s.stack|
    ensures s.stack[j].node < s.stack[k].node
    decreases k
  {
    assert FrameNested(s, k - 1);
    if j < k - 1 { StackGrows(s, j, k - 1); }
  }

  // ----- Stability of the finished parts -------------------------------------------------------------

  lemma {:induction false} DocumentsSame(g: Graph, g': Graph, documents: seq<Document>, high: nat)
    requires Grounded(g.nodes) && Grounded(g'.nodes)
    requires ClosedIn(g.nodes, 0, high) && Agree(g, g', 0, high)
    requires forall d :: 0 <= d < |documents| && documents[d].root.Some? ==> documents[d].root.value < high
    ensures DocumentsEvents(g, documents) == DocumentsEvents(g', documents)
  {
    hide Walk, Kids;
    if documents != [] {
      var d := documents[|documents| - 1];
      DocumentsSame(g, g', documents[..|documents| - 1], high);
      if d.root.Some? {
        WalkSame(g, g', d.root.value, high);
      }
    }
  }

  // `s'` changes no node that frame `k` and its finished children use, except
  // that the frame's own node may have more children or another end.
  ghost predicate KeepsFrame(s: State, s': State, k: nat)
    requires FramesOk(s) && FramesOk(s') && k < |s.stack| && k < |s'.stack|
  {
    && s'.stack[k].node == s.stack[k].node
    && StartOf(G(s'), s'.nodes[s.stack[k].node]) == StartOf(G(s), s.nodes[s.stack[k].node])
    && Agree(G(s), G(s'), s.stack[k].node + 1, Upper(s, k))
  }

  lemma FrameEventsSame(s: State, s': State, k: nat, ids: seq<NodeId>)
    requires Valid(s) && Valid(s') && Nested(s) && k < |s.stack| && k < |s'.stack| && KeepsFrame(s, s', k)
    requires AllBetween(ids, s.stack[k].node, Upper(s, k)) && AllBetween(ids, s.stack[k].node, |s'.nodes|)
    ensures AllBetween(ids, s.stack[k].node, |s.nodes|)
    ensures FrameEvents(s', k, ids) == FrameEvents(s, k, ids)
  {
    hide Kids, WalkAll;
    assert FrameNested(s, k);
    WalkAllSame(G(s), G(s'), ids, s.stack[k].node + 1, Upper(s, k));
  }

  lemma FramesFacts(s: State)
    requires Valid(s)
    ensures FramesOk(s) && Grounded(s.nodes)
    ensures forall k :: 0 <= k < |s.stack| ==> s.stack[k].node < |s.nodes|
  {
  }

  lemma OuterStarts(s: State)
    requires Valid(s)
    ensures OuterEvents(s, 0) == []
  {
  }

  lemma OuterUnfolds(s: State, k: nat)
    requires Valid(s) && k < |s.stack|
    ensures OuterEvents(s, k + 1) == OuterEvents(s, k) + OuterFrame(s, k)
  {
    hide OuterFrame, GraphOk;
  }

  lemma {:induction false} OuterSame(s: State, s': State, k: nat)
    requires Valid(s) && Valid(s') && Nested(s) && k < |s.stack| && k <= |s'.stack| && FramesOk(s) && FramesOk(s')
    requires forall j :: 0 <= j < k ==> KeepsFrame(s, s', j) && FrameKids(s'.nodes, s'.stack[j]) == FrameKids(s.nodes, s.stack[j])
    ensures OuterEvents(s', k) == OuterEvents(s, k)
  {
    hide Valid, Nested, OuterFrame, FrameKids, KeepsFrame, OuterEvents, FramesOk;
    OuterStarts(s);
    OuterStarts(s');
    if k > 0 {
      OuterSame(s, s', k - 1);
      OuterUnfolds(s, k - 1);
      OuterUnfolds(s', k - 1);
      OuterFrameSame(s, s', k - 1);
    }
  }

  lemma OuterFrameSame(s: State, s': State, k: nat)
    requires Valid(s) && Valid(s') && Nested(s) && k + 1 < |s.stack| && k < |s'.stack|
    requires KeepsFrame(s, s', k) && FrameKids(s'.nodes, s'.stack[k]) == FrameKids(s.nodes, s.stack[k])
    ensures OuterFrame(s', k) == OuterFrame(s, k)
  {
    hide FrameEvents, FrameKids, Valid;
    assert FrameNested(s, k);
    FrameKidsBetween(s, k);
    FrameKidsBetween(s', k);
    FrameEventsSame(s, s', k, ButLast(FrameKids(s.nodes, s.stack[k])));
  }

  // ----- One more node ----------------------------------------------------------------------------------

  // `s'` is `s` with one childless node pushed and attached.
  ghost predicate Grown(s: State, s': State) {
    && Valid(s) && Valid(s')
    && s'.documents == s.documents && s.anchors <= s'.anchors
    && |s'.nodes| == |s.nodes| + 1 && Kids(s'.nodes[|s.nodes|]) == []
    && if s.stack == [] then
         && s'.stack == [] && s'.nodes[..|s.nodes|] == s.nodes
         && s.current.Some? && s'.current == Some(s.current.value.(root := Some(|s.nodes|)))
       else
         var t := |s.stack| - 1;
         && s'.current == s.current
         && |s'.stack| == |s.stack| && s'.stack[..t] == s.stack[..t] && s'.stack[t] == NextFrame(s.stack[t], |s.nodes|)
         && (forall i :: 0 <= i < |s.nodes| && i != s.stack[t].node ==> s'.nodes[i] == s.nodes[i])
         && StartOf(G(s'), s'.nodes[s.stack[t].node]) == StartOf(G(s), s.nodes[s.stack[t].node])
         && FrameKids(s'.nodes, s'.stack[t]) == FrameKids(s.nodes, s.stack[t]) + [|s.nodes|]
  }

  // The document is open and has no second root to lose.
  ghost predicate ReadyForNode(s: State) {
    && s.current.Some?
    && (if s.stack == [] then s.current.value.root.None? else s.current.value.root == Some(s.stack[0].node))
  }

  lemma AttachedIsGrown(s: State, s1: State)
    requires Valid(s) && Valid(s1) && s.current.Some?
    requires s1.documents == s.documents && s1.current == s.current && s1.stack == s.stack && s.anchors <= s1.anchors
    requires |s1.nodes| == |s.nodes| + 1 && s1.nodes[..|s.nodes|] == s.nodes && Kids(s1.nodes[|s.nodes|]) == []
    ensures Grown(s, Attached(s1, |s.nodes|))
  {
    hide Kids, AddKid, GraphOk;
    var id := |s.nodes|;
    AttachedKeepsValid(s1, id);
    var s' := Attached(s1, id);
    if s.stack != [] {
      var t := |s.stack| - 1;
      var top := s.stack[t];
      KidsAfterAdd(s1.nodes[top.node], top, id);
      assert s1.nodes[top.node] == s.nodes[top.node];
      StartAfterAdd(s, s1, top, id);
      if top.MappingFrame? && top.pending_key.Some? {
        assert FrameKids(s'.nodes, s'.stack[t]) == Kids(s.nodes[top.node]) + [top.pending_key.value, id];
      }
    }
  }

  lemma StartAfterAdd(s: State, s1: State, frame: Frame, id: NodeId)
    requires Valid(s) && s.anchors <= s1.anchors && frame.node < |s.nodes| <= |s1.nodes| && s1.nodes[frame.node] == s.nodes[frame.node]
    ensures StartOf(G(s1), AddKid(s1.nodes[frame.node], frame, id)) == StartOf(G(s), s.nodes[frame.node])
  {
  }

  lemma PushedIsGrown(s: State, meta: EventMeta, span: Span, kind: Kind)
    requires Valid(s) && s.current.Some? && Childless(kind)
    ensures Grown(s, PushedNode(s, meta, span, kind))
    ensures var s' := PushedNode(s, meta, span, kind);
            var node := s'.nodes[|s.nodes|];
            && node.kind == kind && node.span == span && Meta(G(s'), node) == meta
  {
    hide Valid, Grown, Attached;
    RegisteredKeepsValid(s, meta, span, kind);
    var id := |s.nodes|;
    var (s1, anchor) := Registered(s, id, meta.anchor);
    var s2 := s1.(nodes := s1.nodes + [GraphNode(id, span, anchor, meta.tag, kind)]);
    AttachedIsGrown(s, s2);
    FramesFacts(s);
    GrownFacts(s, PushedNode(s, meta, span, kind));
    AttachedKeepsLast(s2, id);
  }

  lemma AttachedKeepsLast(s: State, id: NodeId)
    requires FramesOk(s) && id < |s.nodes| && forall k :: 0 <= k < |s.stack| ==> s.stack[k].node < id
    ensures |Attached(s, id).nodes| == |s.nodes| && Attached(s, id).nodes[id] == s.nodes[id]
    ensures Attached(s, id).anchors == s.anchors
  {
  }

  lemma AliasIsGrown(s: State, anchor: EventAnchor)
    requires Valid(s) && s.current.Some? && PushedAlias(s, anchor).Ok?
    ensures Grown(s, PushedAlias(s, anchor).value)
    ensures var s' := PushedAlias(s, anchor).value;
            Walk(G(s'), |s.nodes|) == [AliasEvent(anchor)]
  {
    hide Valid, Grown, Attached;
    AliasAppended(s, anchor);
    FramesFacts(s);
    var target := s.active[anchor.name];
    var node, alias := |s.nodes|, |s.aliases|;
    var s1 := s.(aliases := s.aliases + [AliasRef(alias, anchor.name, anchor.span, node, target)],
                 nodes := s.nodes + [GraphNode(node, anchor.span, None, None, Alias(anchor.name, alias, target))]);
    AttachedIsGrown(s, s1);
    GrownFacts(s, PushedAlias(s, anchor).value);
    AttachedKeepsLast(s1, node);
    NewNodeIsClosed(s, PushedAlias(s, anchor).value);
  }

  lemma AgreeOn(s: State, s': State, low: int, high: int)
    requires Valid(s) && s.anchors <= s'.anchors && high <= |s.nodes| && high <= |s'.nodes|
    requires forall i :: low <= i < high && 0 <= i ==> s'.nodes[i] == s.nodes[i]
    ensures Agree(G(s), G(s'), low, high)
  {
  }

  lemma StartSame(s: State, s': State, i: NodeId)
    requires Valid(s) && s.anchors <= s'.anchors && i < |s.nodes| <= |s'.nodes| && s'.nodes[i] == s.nodes[i]
    ensures StartOf(G(s'), s'.nodes[i]) == StartOf(G(s), s.nodes[i])
  {
  }

  // What `Grown` says, in a form that is cheap to use.
  lemma GrownFacts(s: State, s': State)
    requires Grown(s, s')
    ensures Valid(s) && Valid(s') && FramesOk(s) && FramesOk(s') && Grounded(s.nodes) && Grounded(s'.nodes)
    ensures s.anchors <= s'.anchors && s'.documents == s.documents
    ensures |s'.nodes| == |s.nodes| + 1 && |s'.stack| == |s.stack|
    ensures s.stack == [] ==> forall i :: 0 <= i < |s.nodes| ==> s'.nodes[i] == s.nodes[i]
    ensures s.stack == [] ==> s.current.Some? && s'.current == Some(s.current.value.(root := Some(|s.nodes|)))
    ensures s.stack != [] ==> s'.current == s.current
    ensures forall k :: 0 <= k < |s.stack| - 1 ==> s'.stack[k] == s.stack[k]
    ensures s.stack != [] ==> s'.stack[|s.stack| - 1] == NextFrame(s.stack[|s.stack| - 1], |s.nodes|)
    ensures forall k :: 0 <= k < |s.stack| ==> s'.stack[k].node == s.stack[k].node < |s.nodes|
    ensures s.stack != [] ==>
              var t := |s.stack| - 1;
              && (forall i :: 0 <= i < |s.nodes| && i != s.stack[t].node ==> s'.nodes[i] == s.nodes[i])
              && StartOf(G(s'), s'.nodes[s.stack[t].node]) == StartOf(G(s), s.nodes[s.stack[t].node])
              && FrameKids(s'.nodes, s'.stack[t]) == FrameKids(s.nodes, s.stack[t]) + [|s.nodes|]
  {
    hide Kids, StartOf, FrameKids;
    if s.stack == [] {
      assert forall i :: 0 <= i < |s.nodes| ==> s'.nodes[..|s.nodes|][i] == s'.nodes[i];
    } else {
      assert forall j :: 0 <= j < |s.stack| - 1 ==> s'.stack[..|s.stack| - 1][j] == s'.stack[j];
    }
  }

  lemma NestedFacts(s: State, k: nat)
    requires Nested(s) && k < |s.stack|
    ensures FramesOk(s) && FrameNested(s, k) && s.stack[k].node < Upper(s, k) <= |s.nodes|
    ensures k + 1 < |s.stack| ==> Upper(s, k) <= s.stack[|s.stack| - 1].node
  {
    var t := |s.stack| - 1;
    assert FrameNested(s, k);
    if k + 1 < t { StackGrows(s, k + 1, t); }
  }

  lemma GrownKeepsFrames(s: State, s': State, k: nat)
    requires Grown(s, s') && Nested(s) && k < |s.stack|
    ensures k < |s'.stack| && FramesOk(s) && FramesOk(s') && KeepsFrame(s, s', k)
    ensures k + 1 < |s.stack| ==> s'.stack[k] == s.stack[k] && s'.nodes[s.stack[k].node] == s.nodes[s.stack[k].node]
  {
    hide Grown, Valid, Nested, FrameNested, Kids, StartOf, FrameKids, Agree;
    GrownFacts(s, s');
    NestedFacts(s, k);
    if k + 1 < |s.stack| {
      StartSame(s, s', s.stack[k].node);
    }
    AgreeOn(s, s', s.stack[k].node + 1, Upper(s, k));
  }

  lemma GrownKeepsDocuments(s: State, s': State)
    requires Grown(s, s') && Nested(s) && ReadyForNode(s)
    ensures DocumentsEvents(G(s'), s'.documents) == DocumentsEvents(G(s), s.documents)
    ensures Base(s') == Base(s) && forall i :: 0 <= i < Base(s) ==> s'.nodes[i] == s.nodes[i]
  {
    GrownFacts(s, s');
    if s.stack != [] { NestedFacts(s, 0); }
    hide Grown, Valid, Kids, FrameNested, Agree;
    AgreeOn(s, s', 0, Base(s));
    DocumentsSame(G(s), G(s'), s.documents, Base(s));
  }

  lemma GrownFrameIsNested(s: State, s': State, k: nat)
    requires Grown(s, s') && Nested(s) && k < |s.stack|
    ensures k < |s'.stack| && FramesOk(s') && FrameNested(s', k)
  {
    hide Grown, Valid, Nested, Kids, StartOf;
    GrownFacts(s, s');
    NestedFacts(s, k);
    assert forall i :: s.stack[k].node < i < Upper(s, k) ==> s'.nodes[i] == s.nodes[i];
    if k + 1 < |s.stack| {
      SameFrameKids(s, s', k);
    } else {
      var kids := FrameKids(s.nodes, s.stack[k]);
      assert FrameKids(s'.nodes, s'.stack[k]) == kids + [|s.nodes|];
      NewNodeIsClosed(s, s');
    }
  }

  lemma NewNodeIsClosed(s: State, s': State)
    requires Grown(s, s')
    ensures |s'.nodes| == |s.nodes| + 1 && Kids(s'.nodes[|s.nodes|]) == []
  {
  }

  lemma GrownIsNested(s: State, s': State)
    requires Grown(s, s') && Nested(s) && ReadyForNode(s)
    ensures Nested(s')
  {
    hide Grown, Valid, Kids, FrameNested, FrameKids, StartOf, DocumentsEvents;
    GrownFacts(s, s');
    GrownKeepsDocuments(s, s');
    NewNodeIsClosed(s, s');
    if s.stack != [] { NestedFacts(s, 0); }
    forall k | 0 <= k < |s'.stack| ensures FrameNested(s', k) {
      GrownFrameIsNested(s, s', k);
    }
  }

  lemma GrownTopReplays(s: State, s': State)
    requires Grown(s, s') && Nested(s) && s.stack != []
    ensures Valid(s) && Valid(s') && |s'.stack| == |s.stack| && Grounded(s'.nodes) && |s'.nodes| == |s.nodes| + 1
    ensures WholeFrame(s', |s.stack| - 1) == WholeFrame(s, |s.stack| - 1) + Walk(G(s'), |s.nodes|)
  {
    var t := |s.stack| - 1;
    hide Grown, Kids, WalkAll, Walk, StartOf, Valid, Nested, FrameEvents, FrameKids, KeepsFrame, FrameNested;
    GrownFacts(s, s');
    GrownKeepsFrames(s, s', t);
    FrameKidsBetween(s, t);
    FrameKidsBetween(s', t);
    var kids := FrameKids(s.nodes, s.stack[t]);
    FrameEventsPush(s', t, kids, |s.nodes|);
    FrameEventsSame(s, s', t, kids);
  }

  lemma GrownOuterReplays(s: State, s': State)
    requires Grown(s, s') && Nested(s) && s.stack != []
    ensures Valid(s) && Valid(s') && |s'.stack| == |s.stack| && OuterEvents(s', |s.stack| - 1) == OuterEvents(s, |s.stack| - 1)
  {
    hide Grown, Valid, Nested, FrameKids, OuterEvents, KeepsFrame;
    GrownFacts(s, s');
    forall k | 0 <= k < |s.stack| - 1 ensures KeepsFrame(s, s', k) && FrameKids(s'.nodes, s'.stack[k]) == FrameKids(s.nodes, s.stack[k]) {
      GrownKeepsFrames(s, s', k);
      SameFrameKids(s, s', k);
    }
    OuterSame(s, s', |s.stack| - 1);
  }

  lemma SameFrameKids(s: State, s': State, k: nat)
    requires k < |s.stack| && k < |s'.stack| && s'.stack[k] == s.stack[k]
    requires s.stack[k].node < |s.nodes| && s.stack[k].node < |s'.nodes| && s'.nodes[s.stack[k].node] == s.nodes[s.stack[k].node]
    ensures FrameKids(s'.nodes, s'.stack[k]) == FrameKids(s.nodes, s.stack[k])
  {
  }

  // `OpenEvents` while collections are open, and while none is.
  lemma OpenInCollection(s: State)
    requires Valid(s) && s.current.Some? && s.stack != []
    ensures var t, d := |s.stack| - 1, s.current.value;
            OpenEvents(s) == [DocumentStart(d.explicit_start, d.directives, d.start_span)] + (OuterEvents(s, t) + WholeFrame(s, t))
  {
    hide WholeFrame, OuterEvents, GraphOk;
  }

  lemma OpenAtRoot(s: State)
    requires Valid(s) && s.current.Some? && s.stack == []
    ensures var d := s.current.value;
            && (d.root.Some? ==> d.root.value < |s.nodes| && Grounded(s.nodes))
            && OpenEvents(s) == [DocumentStart(d.explicit_start, d.directives, d.start_span)]
                 + if d.root.Some? then Walk(G(s), d.root.value) else []
  {
    hide Walk, Kids;
  }

  lemma GrownReplays(s: State, s': State)
    requires Grown(s, s') && Nested(s) && ReadyForNode(s)
    ensures Valid(s) && Valid(s') && Grounded(s'.nodes) && |s'.nodes| == |s.nodes| + 1
    ensures Replay(s') == Replay(s) + Walk(G(s'), |s.nodes|)
  {
    hide Grown, Kids, Walk, WholeFrame, OuterEvents, Nested, Valid, FrameKids, OpenEvents, DocumentsEvents, StartOf;
    GrownFacts(s, s');
    GrownKeepsDocuments(s, s');
    if s.stack != [] {
      GrownOuterReplays(s, s');
      GrownTopReplays(s, s');
      OpenInCollection(s);
      OpenInCollection(s');
    } else {
      OpenAtRoot(s);
      OpenAtRoot(s');
    }
  }

  lemma FrameEventsPush(s: State, k: nat, ids: seq<NodeId>, id: NodeId)
    requires Valid(s) && k < |s.stack| && AllBetween(ids + [id], s.stack[k].node, |s.nodes|)
    ensures AllBetween(ids, s.stack[k].node, |s.nodes|) && id < |s.nodes|
    ensures FrameEvents(s, k, ids + [id]) == FrameEvents(s, k, ids) + Walk(G(s), id)
  {
    hide Walk, StartOf;
    var all := ids + [id];
    assert all[..|all| - 1] == ids && all[|ids|] == id;
    assert forall i :: 0 <= i < |ids| ==> all[i] == ids[i];
  }
}
