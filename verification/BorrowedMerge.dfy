// Merge expansion over borrowed nodes (src/de.rs), and its agreement with the
// owned strict merge.
module BorrowedMerge {
  import opened Prelude
  import opened Nodes
  import opened KeyIdentity
  import opened EntryLists
  import opened StrictMerge
  import opened NestedKeys
  import V = Values

  // ----- The operations ---------------------------------------------------------------

  /** `merged_node_ref_entries_at_depth`: nothing when there is no merge key. */
  function RefEntries(entries: seq<Entry>, depth: nat): Result<Option<seq<Entry>>, Error>
    decreases entries, 0
  {
    match MergePosition(entries)
    case None => Ok(None)
    case Some(i) =>
      match RefMergeEntries(entries[i], depth)
      case Err(e) => Err(e)
      case Ok(extra) => Ok(Some(InsertMissing(NodeEq, RemoveAt(entries, i), extra)))
  }

  /** The entries a reader sees: the merged ones, else the mapping's own. */
  function RefView(entries: seq<Entry>, depth: nat): Merged
    decreases entries, 1
  {
    match RefEntries(entries, depth)
    case Err(e) => Err(e)
    case Ok(None) => Ok(entries)
    case Ok(Some(merged)) => Ok(merged)
  }

  /** `node_ref_merge_entries`; `merge` is the merge entry of the mapping. */
  function RefMergeEntries(merge: Entry, depth: nat): Merged
    decreases merge, 0
  {
    if depth + 1 > MAX_DEPTH then Err(DepthExceeded)
    else match merge.1.value
      case Mapping(source) => RefView(source, depth + 1)
      case Sequence(items) => RefList([], items, depth + 1)
      case Tagged(_, _, _) => Err(SourceIsTagged)
      case _ => Err(SourceIsScalar)
  }

  function RefList(entries: seq<Entry>, items: seq<Node>, depth: nat): Merged
    decreases items, 1
  {
    if items == [] then Ok(entries)
    else match RefItem(items[0], depth)
      case Err(e) => Err(e)
      case Ok(extra) => RefList(InsertMissing(NodeEq, entries, extra), items[1..], depth)
  }

  function RefItem(item: Node, depth: nat): Merged
    decreases item, 0
  {
    match item.value
    case Mapping(source) => RefView(source, depth)
    case Sequence(_) => Err(ListItemIsSequence)
    case Tagged(_, _, _) => Err(SourceIsTagged)
    case _ => Err(ListItemIsScalar)
  }

  /** `insert_missing_node_ref_entries`, which grows its vector in place. */
  method InsertMissingNodeRefEntries(entries: seq<Entry>, extra: seq<Entry>) returns (r: seq<Entry>)
    ensures r == InsertMissing(NodeEq, entries, extra)
  {
    r := entries;
    for i := 0 to |extra|
      invariant InsertMissing(NodeEq, r, extra[i..]) == InsertMissing(NodeEq, entries, extra)
    {
      assert extra[i..][1..] == extra[i + 1..];
      if forall j :: 0 <= j < |r| ==> !NodeEq(r[j].0, extra[i].0) {
        r := r + [extra[i]];
      }
    }
  }

  // ----- Node equality ------------------------------------------------------------------

  // A form that is equal exactly for `==` nodes.
  function Norm(n: Node): Node
    decreases n, 0
  {
    Node(match n.value
         case Number(Integer(i)) => if i >= 0 then Number(V.Unsigned(i)) else n.value
         case Sequence(items) => Sequence(NormItems(items))
         case Mapping(entries) => Mapping(NormEntries(entries))
         case Tagged(t, s, inner) => Tagged(V.Tag([], V.TagKey(t)), s, Norm(inner))
         case _ => n.value,
         n.span)
  }

  function NormItems(items: seq<Node>): (r: seq<Node>)
    ensures |r| == |items|
    ensures forall i :: 0 <= i < |items| ==> r[i] == Norm(items[i])
    decreases items, 0
  {
    if items == [] then [] else [Norm(items[0])] + NormItems(items[1..])
  }

  function NormEntry(e: Entry): Entry
    decreases e, 1
  {
    (Norm(e.0), Norm(e.1))
  }

  function NormEntries(entries: seq<Entry>): (r: seq<Entry>)
    ensures |r| == |entries|
    ensures forall i :: 0 <= i < |entries| ==> r[i] == NormEntry(entries[i])
    decreases entries, 0
  {
    if entries == [] then [] else [NormEntry(entries[0])] + NormEntries(entries[1..])
  }

  lemma {:induction false} NodeEqIsNorm(a: Node, b: Node)
    ensures NodeEq(a, b) <==> Norm(a) == Norm(b)
    decreases a, 0
  {
    hide V.TagKey, NormItems, NormEntries;
    match a.value {
      case Sequence(xs) =>
        if b.value.Sequence? && |xs| == |b.value.items| {
          forall i | 0 <= i < |xs| ensures NodeEq(xs[i], b.value.items[i]) <==> NormItems(xs)[i] == NormItems(b.value.items)[i] {
            NodeEqIsNorm(xs[i], b.value.items[i]);
          }
          assert NormItems(xs) == NormItems(b.value.items)
            <==> forall i :: 0 <= i < |xs| ==> NormItems(xs)[i] == NormItems(b.value.items)[i];
        }
      case Mapping(xs) =>
        if b.value.Mapping? && |xs| == |b.value.entries| {
          forall i | 0 <= i < |xs| ensures EntryEq(xs[i], b.value.entries[i]) <==> NormEntries(xs)[i] == NormEntries(b.value.entries)[i] {
            EntryEqIsNorm(xs[i], b.value.entries[i]);
          }
          assert NormEntries(xs) == NormEntries(b.value.entries)
            <==> forall i :: 0 <= i < |xs| ==> NormEntries(xs)[i] == NormEntries(b.value.entries)[i];
        }
      case Tagged(_, _, inner) =>
        if b.value.Tagged? { NodeEqIsNorm(inner, b.value.node); }
      case _ =>
    }
  }

  lemma {:induction false} EntryEqIsNorm(x: Entry, y: Entry)
    ensures EntryEq(x, y) <==> NormEntry(x) == NormEntry(y)
    decreases x, 1
  {
    hide Norm, NodeEq;
    NodeEqIsNorm(x.0, y.0);
    NodeEqIsNorm(x.1, y.1);
  }

  lemma NodeEqIsEquivalence()
    ensures Equivalence(NodeEq)
  {
    hide NodeEq, Norm;
    forall a, b ensures NodeEq(a, b) <==> Norm(a) == Norm(b) {
      NodeEqIsNorm(a, b);
    }
  }

  lemma {:induction false} NormKeepsIdentity(n: Node)
    ensures Identity(Norm(n)) == Identity(n)
    decreases n, 0
  {
    hide V.TagKey, NormItems, NormEntries, Identities, IdentityPairs;
    match n.value {
      case Sequence(items) =>
        forall i | 0 <= i < |items| ensures Identity(NormItems(items)[i]) == Identity(items[i]) {
          NormKeepsIdentity(items[i]);
        }
        assert Identities(NormItems(items)) == Identities(items);
      case Mapping(entries) =>
        forall i | 0 <= i < |entries| ensures IdentityPair(NormEntries(entries)[i]) == IdentityPair(entries[i]) {
          NormKeepsPair(entries[i]);
        }
        assert IdentityPairs(NormEntries(entries)) == IdentityPairs(entries);
      case Tagged(_, _, inner) => NormKeepsIdentity(inner);
      case _ =>
    }
  }

  lemma {:induction false} NormKeepsPair(e: Entry)
    ensures IdentityPair(NormEntry(e)) == IdentityPair(e)
    decreases e, 1
  {
    NormKeepsIdentity(e.0);
    NormKeepsIdentity(e.1);
  }

  // Equal nodes have the same identity; the converse fails for spans and tags.
  lemma EqualNodesShareIdentity(a: Node, b: Node)
    ensures NodeEq(a, b) ==> ByIdentity(a, b)
  {
    NodeEqIsNorm(a, b);
    NormKeepsIdentity(a);
    NormKeepsIdentity(b);
  }

  // ----- The borrowed merge is the same flattening, under node equality ----------------------

  lemma {:induction false} RefMergeIsFlattening(entries: seq<Entry>, depth: nat)
    ensures RefView(entries, depth) == Flattened(NodeEq, entries, depth)
    ensures RefEntries(entries, depth).Ok? ==> (RefEntries(entries, depth).value.None? <==> MergePosition(entries).None?)
    decreases entries, 0
  {
    hide NodeEq;
    match MergePosition(entries) {
      case None =>
      case Some(i) =>
        var own := RemoveAt(entries, i);
        RefSourceIsFlattening(own, entries[i], depth);
        var sources := SourceCandidates(entries[i], depth);
        if sources.Ok? {
          assert (own + sources.value)[|own|..] == sources.value;
        }
    }
  }

  // The expanded source, inserted, against its flat candidates, inserted.
  ghost predicate InsertsLike(entries: seq<Entry>, expanded: Merged, candidates: Merged) {
    Applied(NodeEq, entries, expanded) == Applied(NodeEq, entries, candidates)
  }

  lemma {:induction false} RefSourceIsFlattening(entries: seq<Entry>, merge: Entry, depth: nat)
    ensures InsertsLike(entries, RefMergeEntries(merge, depth), SourceCandidates(merge, depth))
    decreases merge, 0
  {
    hide NodeEq;
    match merge.1.value {
      case Mapping(source) => RefViewInserts(entries, source, depth + 1);
      case Sequence(items) =>
        if depth + 1 <= MAX_DEPTH {
          RefListIsFlattening([], items, depth + 1);
          var c := ListCandidates(items, depth + 1);
          if c.Ok? {
            NodeEqIsEquivalence();
            InsertMissingFlattens(NodeEq, entries, [], c.value);
          }
        }
      case _ =>
    }
  }

  lemma {:induction false} RefListIsFlattening(entries: seq<Entry>, items: seq<Node>, depth: nat)
    ensures RefList(entries, items, depth) == Applied(NodeEq, entries, ListCandidates(items, depth))
    decreases items, 1
  {
    hide NodeEq;
    if items != [] {
      RefItemIsFlattening(entries, items[0], depth);
      var first, rest := ItemCandidates(items[0], depth), ListCandidates(items[1..], depth);
      if first.Ok? {
        RefListIsFlattening(InsertMissing(NodeEq, entries, first.value), items[1..], depth);
        if rest.Ok? {
          InsertMissingConcat(NodeEq, entries, first.value, rest.value);
        }
      }
    }
  }

  lemma {:induction false} RefItemIsFlattening(entries: seq<Entry>, item: Node, depth: nat)
    ensures InsertsLike(entries, RefItem(item, depth), ItemCandidates(item, depth))
    decreases item, 0
  {
    hide NodeEq;
    if item.value.Mapping? {
      RefViewInserts(entries, item.value.entries, depth);
    }
  }

  lemma {:induction false} RefViewInserts(entries: seq<Entry>, source: seq<Entry>, depth: nat)
    ensures InsertsLike(entries, RefView(source, depth), Candidates(source, depth))
    decreases source, 1
  {
    hide NodeEq;
    RefMergeIsFlattening(source, depth);
    if Candidates(source, depth).Ok? {
      var c, own := Candidates(source, depth).value, Own(source);
      OwnStartsCandidates(source, depth);
      assert c == own + c[|own|..];
      NodeEqIsEquivalence();
      InsertMissingFlattens(NodeEq, entries, own, c[|own|..]);
      InsertMissingConcat(NodeEq, entries, own, c[|own|..]);
    }
  }

  // ----- Agreement ------------------------------------------------------------------------------

  // Whenever an added key repeats the identity of an earlier key, it also equals
  // an earlier key as a node.
  ghost predicate RepeatsAreEqual(own: seq<Entry>, added: seq<Entry>) {
    forall i :: 0 <= i < |added| ==> RepeatIsEqual(own + added[..i], added[i].0)
  }

  ghost predicate RepeatIsEqual(before: seq<Entry>, key: Node) {
    HasKey(ByIdentity, before, key) ==> HasKey(NodeEq, before, key)
  }

  lemma NodeEqFindsNoMore(entries: seq<Entry>, key: Node)
    ensures HasKey(NodeEq, entries, key) ==> HasKey(ByIdentity, entries, key)
  {
    if HasKey(NodeEq, entries, key) {
      var i :| 0 <= i < |entries| && NodeEq(entries[i].0, key);
      EqualNodesShareIdentity(entries[i].0, key);
    }
  }

  lemma {:induction false} InsertionsAgreeExactly(own: seq<Entry>, added: seq<Entry>)
    ensures var x, y := InsertMissing(ByIdentity, own, added), InsertMissing(NodeEq, own, added);
            && |x| <= |y|
            && (|x| == |y| <==> RepeatsAreEqual(own, added))
            && (RepeatsAreEqual(own, added) ==> x == y)
    decreases |added|
  {
    hide NodeEq, ByIdentity, RepeatIsEqual;
    if added != [] {
      var n := |added| - 1;
      var before, e := added[..n], added[n];
      assert added == before + [e];
      InsertionsAgreeExactly(own, before);
      var x, y := InsertMissing(ByIdentity, own, before), InsertMissing(NodeEq, own, before);
      InsertMissingConcat(ByIdentity, own, before, [e]);
      InsertMissingConcat(NodeEq, own, before, [e]);
      assert InsertMissing(ByIdentity, x, [e]) == AddMissing(ByIdentity, x, e);
      assert InsertMissing(NodeEq, y, [e]) == AddMissing(NodeEq, y, e);
      StepAgrees(own, before, e.0);
      assert RepeatsAreEqual(own, added) <==> RepeatsAreEqual(own, before) && RepeatIsEqual(own + before, e.0) by {
        assert forall i :: 0 <= i < n ==> added[..i] == before[..i] && added[i] == before[i];
        assert added[..n] == before;
      }
    }
  }

  lemma StepAgrees(own: seq<Entry>, before: seq<Entry>, key: Node)
    ensures var x, y := InsertMissing(ByIdentity, own, before), InsertMissing(NodeEq, own, before);
            && (HasKey(NodeEq, y, key) ==> HasKey(ByIdentity, x, key))
            && (RepeatIsEqual(own + before, key) <==> (HasKey(ByIdentity, x, key) ==> HasKey(NodeEq, y, key)))
  {
    hide NodeEq, ByIdentity;
    IdentityIsEquivalence();
    NodeEqIsEquivalence();
    KeysAfterInsert(ByIdentity, own, before, key);
    KeysAfterInsert(NodeEq, own, before, key);
    HasKeyConcat(ByIdentity, own, before, key);
    HasKeyConcat(NodeEq, own, before, key);
    NodeEqFindsNoMore(own, key);
    NodeEqFindsNoMore(before, key);
  }

  /** When the flat candidates exist, the borrowed merge returns entries, the owned one
      does exactly if no comparison meets a key past the identity limit, and they
      return the same entries exactly if moreover every repeated key is repeated as an
      equal node. When they do not, both fail; with keys within the limit, alike. */
  lemma OwnedAndBorrowedAgreeExactly(entries: seq<Entry>, depth: nat)
    ensures RefView(entries, depth).Ok? <==> Added(entries, depth).Ok?
    ensures Added(entries, depth).Ok? ==>
              var own, rest := Own(entries), Added(entries, depth).value;
              && (MergeEntries(entries, depth).Ok? <==> Scans(own, rest))
              && (MergeEntries(entries, depth) == RefView(entries, depth) <==> Scans(own, rest) && RepeatsAreEqual(own, rest))
    ensures Added(entries, depth).Err? ==>
              && RefView(entries, depth) == Added(entries, depth)
              && (MergeEntries(entries, depth) == RefView(entries, depth) || MergeEntries(entries, depth) == Err(DepthExceeded))
              && (KeysHold(InLimit, entries) ==> MergeEntries(entries, depth) == RefView(entries, depth))
  {
    hide RepeatsAreEqual, Scans, KeysHold;
    StrictMergeIsFlattening(entries, depth);
    RefMergeIsFlattening(entries, depth);
    if Candidates(entries, depth).Ok? {
      OwnStartsCandidates(entries, depth);
      InsertionsAgreeExactly(Own(entries), Added(entries, depth).value);
    } else if KeysHold(InLimit, entries) {
      MergeFailsAsCandidates(InLimit, entries, depth);
    }
  }

  /** String keys on one span. */
  function PlainString(span: Span): KeyTest {
    (key: Node) => key.value.String? && key.span == span
  }

  /** On nodes with one common span whose keys are strings, both paths agree. */
  lemma OwnedAndBorrowedAgreeOnStringKeys(entries: seq<Entry>, depth: nat, span: Span)
    requires KeysHold(PlainString(span), entries)
    ensures MergeEntries(entries, depth) == RefView(entries, depth)
  {
    hide RepeatsAreEqual, Scans;
    var plain := PlainString(span);
    OwnedAndBorrowedAgreeExactly(entries, depth);
    MergeFailsAsCandidates(plain, entries, depth);
    if Candidates(entries, depth).Ok? {
      CandidateKeys(plain, entries, depth);
      var c, own := Candidates(entries, depth).value, Own(entries);
      OwnStartsCandidates(entries, depth);
      PlainKeysAgree(own, c[|own|..], span);
    }
  }

  lemma PlainKeysAgree(own: seq<Entry>, added: seq<Entry>, span: Span)
    requires FlatKeysHold(PlainString(span), own + added)
    ensures Scans(own, added) && RepeatsAreEqual(own, added)
  {
    hide Scans;
    var c, plain := own + added, PlainString(span);
    forall i | 0 <= i < |own| ensures plain(own[i].0) {
      assert own[i] == c[i];
    }
    forall i | 0 <= i < |added| ensures plain(added[i].0) && RepeatIsEqual(own + added[..i], added[i].0) {
      var before := own + added[..i];
      assert before == c[..|own| + i] && added[i] == c[|own| + i];
      if HasKey(ByIdentity, before, added[i].0) {
        var j :| 0 <= j < |before| && ByIdentity(before[j].0, added[i].0);
        assert before[j] == c[j];
        assert NodeEq(before[j].0, added[i].0);
      }
    }
    ScansWithin(plain, own, added);
  }

  // `{a: 1, <<: {a: 2}}`, built by a caller with the spans of two lines of text.
  const FIRST_A: Entry := (Node(String("a"), Span(0, 1, 1, 1)), Node(Number(V.Unsigned(1)), Span(3, 4, 1, 4)))
  const SECOND_A: Entry := (Node(String("a"), Span(12, 13, 2, 8)), Node(Number(V.Unsigned(2)), Span(15, 16, 2, 11)))
  const MERGE_OF_A: Entry := (Node(String("<<"), Span(5, 7, 2, 1)), Node(Mapping([SECOND_A]), Span(11, 17, 2, 7)))

  /** With source spans the paths can differ: the borrowed one keeps both keys. */
  lemma OwnedAndBorrowedDifferOnSpans()
    ensures MergeEntries([FIRST_A, MERGE_OF_A], 0) == Ok([FIRST_A])
    ensures RefView([FIRST_A, MERGE_OF_A], 0) == Ok([FIRST_A, SECOND_A])
  {
    var entries := [FIRST_A, MERGE_OF_A];
    assert entries[1..] == [MERGE_OF_A];
    assert MergePosition(entries) == Some(1);
    assert RemoveAt(entries, 1) == [FIRST_A];
    assert MergePosition([SECOND_A]) == None;
    SameKeyIdentityDecides(FIRST_A.0, SECOND_A.0);
    assert KeyPositionFrom([FIRST_A], SECOND_A.0, 0) == Ok(Some(0));
    assert InsertMissingChecked([FIRST_A], [SECOND_A]) == Ok([FIRST_A]);
    assert MergeSource([FIRST_A], MERGE_OF_A, 0) == Ok([FIRST_A]);
    assert !NodeEq(FIRST_A.0, SECOND_A.0);
    assert InsertMissing(NodeEq, [FIRST_A], [SECOND_A]) == [FIRST_A, SECOND_A];
    assert RefEntries([SECOND_A], 1) == Ok(None);
    assert RefMergeEntries(MERGE_OF_A, 0) == Ok([SECOND_A]);
  }
}
