// `apply_merge_keys_in_node` (src/ast.rs) under either policy: the worklist of mutable
// references, against the recursion of `TreeMerge`.
module TreeWorklist {
  import opened Prelude
  import opened Nodes
  import opened StrictMerge
  import opened TreeMerge
  import P = Places
  import Y = Yaml11Merge

  // ----- The nodes the worklist may queue --------------------------------------------------------

  function ValuesOf(entries: seq<Entry>): (r: seq<Node>)
    ensures |r| == |entries| && forall i :: 0 <= i < |r| ==> r[i] == entries[i].1
  {
    if entries == [] then [] else [entries[0].1] + ValuesOf(entries[1..])
  }

  function WithValues(entries: seq<Entry>, values: seq<Node>): (r: seq<Entry>)
    requires |values| == |entries|
    ensures |r| == |entries| && forall i :: 0 <= i < |r| ==> r[i] == (entries[i].0, values[i])
  {
    if entries == [] then [] else [(entries[0].0, values[0])] + WithValues(entries[1..], values[1..])
  }

  function Kids(n: Node): seq<Node> {
    match n.value
    case Sequence(items) => items
    case Mapping(entries) => ValuesOf(entries)
    case Tagged(_, _, inner) => [inner]
    case _ => []
  }

  function WithKids(n: Node, kids: seq<Node>): (r: Node)
    ensures |kids| == |Kids(n)| ==> Kids(r) == kids
  {
    if |kids| != |Kids(n)| then n
    else match n.value
      case Sequence(_) => n.(value := Sequence(kids))
      case Mapping(entries) => n.(value := Mapping(WithValues(entries, kids)))
      case Tagged(tag, span, _) => n.(value := Tagged(tag, span, kids[0]))
      case _ => n
  }

  const SHAPE: P.Shape<Node> := P.Shape(Kids, WithKids)

  lemma WithKidsSame(n: Node)
    ensures WithKids(n, Kids(n)) == n
  {
    if n.value.Mapping? {
      assert WithValues(n.value.entries, ValuesOf(n.value.entries)) == n.value.entries;
    }
  }

  lemma WithKidsTwice(n: Node, x: seq<Node>, y: seq<Node>)
    requires |x| == |y| == |Kids(n)|
    ensures WithKids(WithKids(n, x), y) == WithKids(n, y)
  {
    if n.value.Mapping? {
      assert WithValues(WithValues(n.value.entries, x), y) == WithValues(n.value.entries, y);
    }
  }

  lemma ShapeIsLawful()
    ensures P.Lawful(SHAPE)
  {
    hide Kids, WithKids;
    forall n ensures SHAPE.with_kids(n, SHAPE.kids(n)) == n {
      WithKidsSame(n);
    }
    forall n, x, y | |x| == |y| == |SHAPE.kids(n)|
      ensures SHAPE.with_kids(SHAPE.with_kids(n, x), y) == SHAPE.with_kids(n, y)
    {
      WithKidsTwice(n, x, y);
    }
  }

  // ----- Sizes: merging moves entries, it does not copy them -------------------------------------

  function Size(n: Node): (r: nat)
    ensures r >= 1
    decreases n, 0
  {
    match n.value
    case Sequence(items) => 1 + SizeItems(items)
    case Mapping(entries) => 1 + SizeEntries(entries)
    case Tagged(_, _, inner) => 1 + Size(inner)
    case _ => 1
  }

  function SizeItems(items: seq<Node>): nat
    decreases items, 0
  {
    if items == [] then 0 else Size(items[0]) + SizeItems(items[1..])
  }

  function SizeEntry(e: Entry): nat
    decreases e, 0
  {
    Size(e.1)
  }

  function SizeEntries(entries: seq<Entry>): nat
    decreases entries, 0
  {
    if entries == [] then 0 else SizeEntry(entries[0]) + SizeEntries(entries[1..])
  }

  lemma {:induction false} SizeOfConcat(x: seq<Entry>, y: seq<Entry>)
    ensures SizeEntries(x + y) == SizeEntries(x) + SizeEntries(y)
  {
    hide SizeEntry;
    if x == [] {
      assert x + y == y;
    } else {
      assert (x + y)[1..] == x[1..] + y;
      SizeOfConcat(x[1..], y);
    }
  }

  lemma SizeWithout(entries: seq<Entry>, i: nat)
    requires i < |entries|
    ensures SizeEntries(entries) == SizeEntries(RemoveAt(entries, i)) + SizeEntry(entries[i])
  {
    hide SizeEntry;
    SplitAt(entries, i);
    SizeOfConcat(entries[..i], entries[i + 1..]);
    SizeOfConcat(entries[..i] + [entries[i]], entries[i + 1..]);
    SizeOfConcat(entries[..i], [entries[i]]);
    assert [entries[i]][1..] == [];
  }

  lemma {:induction false} SizeAfterInsert(entries: seq<Entry>, extra: seq<Entry>)
    requires InsertMissingChecked(entries, extra).Ok?
    ensures SizeEntries(InsertMissingChecked(entries, extra).value) <= SizeEntries(entries) + SizeEntries(extra)
    decreases extra
  {
    hide SizeEntry, KeyPosition;
    if extra != [] {
      var position := KeyPosition(entries, extra[0].0).value;
      SizeOfConcat(entries, [extra[0]]);
      assert [extra[0]][1..] == [];
      SizeAfterInsert(if position.Some? then entries else entries + [extra[0]], extra[1..]);
    }
  }

  lemma {:induction false} SizeAfterMerge(entries: seq<Entry>, depth: nat)
    requires MergeEntries(entries, depth).Ok?
    ensures SizeEntries(MergeEntries(entries, depth).value) <= SizeEntries(entries)
    decreases entries, 0
  {
    match MergePosition(entries) {
      case None =>
      case Some(i) =>
        SizeWithout(entries, i);
        SizeAfterSource(RemoveAt(entries, i), entries[i], depth);
    }
  }

  lemma {:induction false} SizeAfterSource(entries: seq<Entry>, merge: Entry, depth: nat)
    requires MergeSource(entries, merge, depth).Ok?
    ensures SizeEntries(MergeSource(entries, merge, depth).value) <= SizeEntries(entries) + SizeEntry(merge)
    decreases merge, 0
  {
    match merge.1.value {
      case Mapping(source) =>
        SizeAfterMerge(source, depth + 1);
        SizeAfterInsert(entries, MergeEntries(source, depth + 1).value);
      case Sequence(items) => SizeAfterList(entries, items, depth + 1);
    }
  }

  lemma {:induction false} SizeAfterList(entries: seq<Entry>, items: seq<Node>, depth: nat)
    requires MergeList(entries, items, depth).Ok?
    ensures SizeEntries(MergeList(entries, items, depth).value) <= SizeEntries(entries) + SizeItems(items)
    decreases items, 1
  {
    hide Size;
    if items != [] {
      SizeAfterItem(entries, items[0], depth);
      SizeAfterList(MergeItem(entries, items[0], depth).value, items[1..], depth);
    }
  }

  lemma {:induction false} SizeAfterItem(entries: seq<Entry>, item: Node, depth: nat)
    requires MergeItem(entries, item, depth).Ok?
    ensures SizeEntries(MergeItem(entries, item, depth).value) <= SizeEntries(entries) + Size(item)
    decreases item, 0
  {
    SizeAfterMerge(item.value.entries, depth);
    SizeAfterInsert(entries, MergeEntries(item.value.entries, depth).value);
  }

  lemma SizeOfOne(e: Entry)
    ensures SizeEntries([e]) == SizeEntry(e)
  {
    assert [e][1..] == [];
  }

  lemma SizeAfterUpdate(entries: seq<Entry>, i: nat, e: Entry)
    requires i < |entries|
    ensures SizeEntries(entries[i := e]) <= SizeEntries(entries) + SizeEntry(e)
  {
    hide SizeEntry, SizeEntries;
    var next := entries[i := e];
    SizeWithout(entries, i);
    SizeWithout(next, i);
    assert RemoveAt(next, i) == RemoveAt(entries, i);
  }

  lemma {:induction false} SizeAfterUpsert(entries: seq<Entry>, extra: seq<Entry>)
    requires Y.UpsertChecked(entries, extra).Ok?
    ensures SizeEntries(Y.UpsertChecked(entries, extra).value) <= SizeEntries(entries) + SizeEntries(extra)
    decreases |extra|
  {
    hide SizeEntry, SizeEntries, KeyPositionFrom;
    if extra != [] {
      var init, last := extra[..|extra| - 1], extra[|extra| - 1];
      assert extra == init + [last];
      SizeAfterUpsert(entries, init);
      SizeOfConcat(init, [last]);
      SizeOfOne(last);
      var before := Y.UpsertChecked(entries, init).value;
      match KeyPosition(before, last.0).value {
        case Some(i) => SizeAfterUpdate(before, i, last);
        case None => SizeOfConcat(before, [last]);
      }
    }
  }

  function SizeOfSplit(split: Y.Split): nat {
    SizeEntries(split.explicit) + SizeEntries(split.merged)
  }

  lemma {:induction false} SizeAfterCollect(entries: seq<Entry>, depth: nat)
    requires Y.Collect(entries, depth).Ok?
    ensures SizeOfSplit(Y.Collect(entries, depth).value) <= SizeEntries(entries)
    decreases entries, 0
  {
    hide SizeEntry, SizeEntries, IsMergeKey, Y.Mergeable;
    if entries != [] {
      var init, last := entries[..|entries| - 1], entries[|entries| - 1];
      assert entries == init + [last];
      SizeAfterCollect(init, depth);
      SizeOfConcat(init, [last]);
      SizeOfOne(last);
      var before := Y.Collect(init, depth).value;
      if Y.IsMergeEntry(last) {
        SizeAfterPayload(last, depth);
        SizeAfterUpsert(before.merged, Y.Payload(last, depth).value);
      } else {
        SizeOfConcat(before.explicit, [last]);
      }
    } else {
      NoEntriesNoSize();
    }
  }

  lemma NoEntriesNoSize()
    ensures SizeEntries([]) == 0
  {
  }

  lemma {:induction false} SizeAfterExpand(entries: seq<Entry>, depth: nat)
    requires Y.Expand(entries, depth).Ok?
    ensures SizeEntries(Y.Expand(entries, depth).value) <= SizeEntries(entries)
    decreases entries, 1
  {
    hide SizeEntries;
    SizeAfterCollect(entries, depth);
    var split := Y.Collect(entries, depth).value;
    SizeAfterInsert(split.explicit, split.merged);
  }

  lemma {:induction false} SizeAfterPayload(merge: Entry, depth: nat)
    requires Y.IsMergeEntry(merge) && Y.Payload(merge, depth).Ok?
    ensures SizeEntries(Y.Payload(merge, depth).value) <= SizeEntry(merge)
    decreases merge, 0
  {
    match merge.1.value {
      case Mapping(source) => SizeAfterExpand(source, depth + 1);
      case Sequence(items) => SizeAfterExpandedList(items, depth + 1);
    }
  }

  lemma {:induction false} SizeAfterExpandedList(items: seq<Node>, depth: nat)
    requires forall i :: 0 <= i < |items| ==> items[i].value.Mapping?
    requires Y.ExpandList(items, depth).Ok?
    ensures SizeEntries(Y.ExpandList(items, depth).value) <= SizeItems(items)
    decreases items, 1
  {
    hide Size, SizeEntries;
    if items != [] {
      var n := |items| - 1;
      SizeAfterExpandedList(items[..n], depth);
      SizeAfterExpandedItem(items[n], depth);
      SizeAfterInsert(Y.ExpandList(items[..n], depth).value, Y.ExpandItem(items[n], depth).value);
      SizeOfLast(items[..n], items[n]);
      assert items == items[..n] + [items[n]];
    } else {
      NoEntriesNoSize();
    }
  }

  lemma {:induction false} SizeAfterExpandedItem(item: Node, depth: nat)
    requires item.value.Mapping? && Y.ExpandItem(item, depth).Ok?
    ensures SizeEntries(Y.ExpandItem(item, depth).value) <= Size(item)
    decreases item, 0
  {
    SizeAfterExpand(item.value.entries, depth);
  }

  lemma VisitDoesNotGrow(policy: MergePolicy, n: Node)
    requires VisitNode(policy, n).Ok?
    ensures Size(VisitNode(policy, n).value) <= Size(n)
  {
    hide SizeEntries, MergeEntries, Y.Expand;
    if n.value.Mapping? {
      match policy {
        case Strict => SizeAfterMerge(n.value.entries, 0);
        case Yaml11Compatible => SizeAfterExpand(n.value.entries, 0);
      }
    }
  }

  lemma {:induction false} SumOfItems(items: seq<Node>)
    ensures P.SumSize(Size, items) == SizeItems(items)
    decreases |items|
  {
    hide Size;
    if items != [] {
      var n := |items| - 1;
      SumOfItems(items[..n]);
      SizeOfLast(items[..n], items[n]);
      assert items == items[..n] + [items[n]];
    }
  }

  lemma {:induction false} SizeOfLast(items: seq<Node>, last: Node)
    ensures SizeItems(items + [last]) == SizeItems(items) + Size(last)
    decreases |items|
  {
    hide Size;
    var all := items + [last];
    if items == [] {
      assert all[1..] == [];
    } else {
      assert all[1..] == items[1..] + [last];
      SizeOfLast(items[1..], last);
    }
  }

  lemma {:induction false} SizeOfValues(entries: seq<Entry>)
    ensures SizeItems(ValuesOf(entries)) == SizeEntries(entries)
  {
    hide Size;
    if entries != [] { SizeOfValues(entries[1..]); }
  }

  lemma SizeOfKids(n: Node)
    ensures P.SumSize(Size, Kids(n)) < Size(n)
  {
    SumOfItems(Kids(n));
    match n.value {
      case Mapping(entries) => SizeOfValues(entries);
      case Tagged(_, _, inner) => assert [inner][1..] == [];
      case _ =>
    }
  }

  // ----- The recursion, kid by kid -----------------------------------------------------------------

  function MergeAt(policy: MergePolicy): ((), Node) -> Result<Node, Error> {
    (data: (), n: Node) => MergeTree(policy, n)
  }

  function NoData(i: nat): () {
    ()
  }

  lemma {:induction false} ItemsOneByOne(policy: MergePolicy, items: seq<Node>)
    ensures MergeItems(policy, items) == P.ApplyKids(MergeAt(policy), NoData, items)
    decreases |items|
  {
    hide MergeTree;
    if items != [] { ItemsOneByOne(policy, items[..|items| - 1]); }
  }

  lemma {:induction false} ValuesOneByOne(policy: MergePolicy, entries: seq<Entry>)
    ensures MergeValues(policy, entries) == match P.ApplyKids(MergeAt(policy), NoData, ValuesOf(entries))
                                    case Err(e) => Err(e)
                                    case Ok(values) => Ok(WithValues(entries, values))
    decreases |entries|
  {
    hide MergeTree, WithValues, ValuesOf;
    var n := |entries| - 1;
    if entries != [] {
      ValuesOneByOne(policy, entries[..n]);
      assert ValuesOf(entries)[..n] == ValuesOf(entries[..n]) && ValuesOf(entries)[n] == entries[n].1;
      var done := P.ApplyKids(MergeAt(policy), NoData, ValuesOf(entries));
      if done.Ok? { WithValuesPush(entries, done.value); }
    } else {
      WithNoValues();
    }
  }

  lemma WithNoValues()
    ensures ValuesOf([]) == [] && WithValues([], []) == []
  {
  }

  lemma WithValuesPush(entries: seq<Entry>, values: seq<Node>)
    requires entries != [] && |values| == |entries|
    ensures var n := |entries| - 1;
            WithValues(entries, values) == WithValues(entries[..n], values[..n]) + [(entries[n].0, values[n])]
  {
    hide WithValues;
  }

  lemma MergeTreeOneByOne(policy: MergePolicy, n: Node)
    requires VisitNode(policy, n).Ok?
    ensures MergeTree(policy, n) == match P.ApplyKids(MergeAt(policy), NoData, Kids(VisitNode(policy, n).value))
                            case Err(e) => Err(e)
                            case Ok(kids) => Ok(WithKids(VisitNode(policy, n).value, kids))
  {
    var v := VisitNode(policy, n).value;
    match v.value {
      case Sequence(items) => ItemsOneByOne(policy, items);
      case Mapping(entries) => ValuesOneByOne(policy, entries);
      case Tagged(_, _, inner) => assert [inner][..0] == [];
      case _ =>
    }
  }

  /** `apply_merge_keys_in_node`: it terminates, and computes the recursion. */
  method ApplyMergeKeysInNode(node: Node, policy: MergePolicy) returns (r: Result<Node, Error>)
    ensures r == MergeTree(policy, node)
  {
    hide VisitNode, Kids, WithKids, Size, MergeTree, P.At, P.Put, P.KidWork, P.Remaining, P.Live, P.Lawful, P.WorkSize, P.SumSize, P.ApplyKids;
    ShapeIsLawful();
    var root := node;
    var values: P.Work<()> := [((), [])];
    P.OnlyRootRemains(SHAPE, MergeAt(policy), root, ());
    while values != []
      invariant P.Live(SHAPE, root, values)
      invariant P.Remaining(SHAPE, MergeAt(policy), root, values) == MergeTree(policy, node)
      decreases P.WorkSize(SHAPE, Size, root, values)
    {
      var n := |values| - 1;
      var (data, path) := values[n];
      assert values == values[..n] + [(data, path)];
      values := values[..n];
      var visited := VisitNode(policy, P.At(SHAPE, root, path));
      if visited.Err? {
        FailingVisit(policy, P.At(SHAPE, root, path));
        P.FailureRemains(SHAPE, MergeAt(policy), root, values, data, path);
        return Err(visited.error);
      }
      VisitDoesNotGrow(policy, P.At(SHAPE, root, path));
      SizeOfKids(visited.value);
      MergeTreeOneByOne(policy, P.At(SHAPE, root, path));
      P.VisitKeepsLive(SHAPE, Size, NoData, root, values, data, path, visited.value);
      P.VisitRemains(SHAPE, MergeAt(policy), NoData, root, values, data, path, visited.value);
      root := P.Put(SHAPE, root, path, visited.value);
      values := values + P.KidWork(NoData, path, |Kids(visited.value)|);
    }
    P.OnlyRootRemains(SHAPE, MergeAt(policy), root, ());
    return Ok(root);
  }

  lemma FailingVisit(policy: MergePolicy, n: Node)
    requires VisitNode(policy, n).Err?
    ensures MergeTree(policy, n) == Err(VisitNode(policy, n).error)
  {
  }
}
