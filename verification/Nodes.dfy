// Spanful document nodes (src/ast.rs). A retained scalar spelling is not kept:
// a node is its payload and its span.
module Nodes {
  import opened Prelude
  import V = Values

  datatype Span = Span(start: nat, end: nat, line: nat, column: nat)

  datatype Node = Node(value: NodeValue, span: Span)

  datatype NodeValue =
    | Null
    | Bool(b: bool)
    | Number(n: V.Number)
    | String(s: string)
    | Sequence(items: seq<Node>)
    | Mapping(entries: seq<Entry>)
    | Tagged(tag: V.Tag, tag_span: Span, node: Node)

  type Entry = (Node, Node)

  /** The messages merging and key identity can fail with. */
  datatype Error =
    | DepthExceeded
    | ListItemIsSequence
    | ListItemIsScalar
    | SourceIsTagged
    | SourceIsScalar

  /** `DEFAULT_MAX_NESTING_DEPTH`, which is also `MAX_MERGE_DEPTH`. */
  const MAX_DEPTH: nat := 128

  /** `Node::as_str`. */
  function AsStr(n: Node): Option<string>
    decreases n
  {
    match n.value
    case String(s) => Some(s)
    case Tagged(_, _, inner) => AsStr(inner)
    case _ => None
  }

  predicate IsMergeKey(key: Node) {
    match key.value
    case String(s) => s == "<<"
    case Tagged(tag, _, inner) => tag.IsMerge() && AsStr(inner) == Some("<<")
    case _ => false
  }

  /** The derived `==` of nodes: spans count, numbers and tags use their own `==`. */
  predicate NodeEq(a: Node, b: Node)
    decreases a, 0
  {
    && a.span == b.span
    && match a.value
       case Null => b.value.Null?
       case Bool(x) => b.value.Bool? && x == b.value.b
       case Number(x) => b.value.Number? && V.NumberEq(x, b.value.n)
       case String(x) => b.value.String? && x == b.value.s
       case Sequence(xs) =>
         b.value.Sequence? && |xs| == |b.value.items| && forall i :: 0 <= i < |xs| ==> NodeEq(xs[i], b.value.items[i])
       case Mapping(xs) =>
         b.value.Mapping? && |xs| == |b.value.entries| && forall i :: 0 <= i < |xs| ==> EntryEq(xs[i], b.value.entries[i])
       case Tagged(t, s, x) =>
         b.value.Tagged? && V.TagEq(t, b.value.tag) && s == b.value.tag_span && NodeEq(x, b.value.node)
  }

  predicate EntryEq(x: Entry, y: Entry)
    decreases x, 1
  {
    NodeEq(x.0, y.0) && NodeEq(x.1, y.1)
  }

  /** How many levels a node nests, itself included. */
  function Nesting(n: Node): (r: nat)
    ensures r >= 1
    decreases n, 0
  {
    match n.value
    case Sequence(items) => 1 + NestingItems(items)
    case Mapping(entries) => 1 + NestingEntries(entries)
    case Tagged(_, _, inner) => 1 + Nesting(inner)
    case _ => 1
  }

  function NestingItems(items: seq<Node>): nat
    decreases items, 0
  {
    if items == [] then 0 else Max(Nesting(items[0]), NestingItems(items[1..]))
  }

  function NestingEntry(e: Entry): nat
    decreases e, 1
  {
    Max(Nesting(e.0), Nesting(e.1))
  }

  function NestingEntries(entries: seq<Entry>): nat
    decreases entries, 0
  {
    if entries == [] then 0 else Max(NestingEntry(entries[0]), NestingEntries(entries[1..]))
  }

  lemma {:induction false} NestingOfItem(items: seq<Node>, i: nat)
    requires i < |items|
    ensures Nesting(items[i]) <= NestingItems(items)
  {
    if i > 0 { NestingOfItem(items[1..], i - 1); }
  }

  lemma {:induction false} NestingOfEntry(entries: seq<Entry>, i: nat)
    requires i < |entries|
    ensures NestingEntry(entries[i]) <= NestingEntries(entries)
  {
    if i > 0 { NestingOfEntry(entries[1..], i - 1); }
  }

  /** Every subset of entries nests at most as deep. */
  lemma {:induction false} NestingOfSome(some: seq<Entry>, entries: seq<Entry>)
    requires forall e :: e in some ==> e in entries
    ensures NestingEntries(some) <= NestingEntries(entries)
  {
    if some != [] {
      assert some[0] in entries;
      var i :| 0 <= i < |entries| && entries[i] == some[0];
      NestingOfEntry(entries, i);
      NestingOfSome(some[1..], entries);
    }
  }
}
