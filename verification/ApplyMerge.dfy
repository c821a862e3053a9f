// `Value::apply_merge` (src/ast.rs): one pass over a value that flattens one
// level of merging per visited mapping, driven by a worklist of references.
module ApplyMerge {
  import opened Prelude
  import opened Values
  import opened EntryLists
  import N = Nodes
  import P = Places

  type Error = N.Error

  const MAX_DEPTH := N.MAX_DEPTH

  function AsStr(v: Value): Option<string> {
    match v
    case String(s) => Some(s)
    case Tagged(_, inner) => AsStr(inner)
    case _ => None
  }

  predicate IsMergeKey(key: Value) {
    match key
    case String(s) => s == "<<"
    case Tagged(tag, inner) => tag.IsMerge() && AsStr(inner) == Some("<<")
    case _ => false
  }

  function MergePosition(entries: seq<Entry>): (r: Option<nat>)
    ensures r.Some? ==> r.value < |entries| && IsMergeKey(entries[r.value].0)
    ensures r.Some? ==> forall i :: 0 <= i < r.value ==> !IsMergeKey(entries[i].0)
    ensures r.None? ==> forall i :: 0 <= i < |entries| ==> !IsMergeKey(entries[i].0)
  {
    if entries == [] then None
    else if IsMergeKey(entries[0].0) then Some(0)
    else match MergePosition(entries[1..])
      case None => assert forall i :: 0 < i < |entries| ==> entries[i] == entries[1..][i - 1]; None
      case Some(i) => assert forall j :: 0 < j <= i ==> entries[j] == entries[1..][j - 1]; Some(i + 1)
  }

  // ----- The values a value holds --------------------------------------------------------

  function ValuesOf(entries: seq<Entry>): (r: seq<Value>)
    ensures |r| == |entries|
    ensures forall i :: 0 <= i < |r| ==> r[i] == entries[i].1
  {
    if entries == [] then [] else [entries[0].1] + ValuesOf(entries[1..])
  }

  function Kids(v: Value): seq<Value> {
    match v
    case Sequence(items) => items
    case Mapping(entries) => ValuesOf(entries)
    case Tagged(_, inner) => [inner]
    case _ => []
  }

  function WithValues(entries: seq<Entry>, values: seq<Value>): (r: seq<Entry>)
    requires |values| == |entries|
    ensures |r| == |entries|
    ensures forall i :: 0 <= i < |r| ==> r[i] == (entries[i].0, values[i])
  {
    if entries == [] then [] else [(entries[0].0, values[0])] + WithValues(entries[1..], values[1..])
  }

  function WithKids(v: Value, kids: seq<Value>): (r: Value)
    requires |kids| == |Kids(v)|
    ensures Kids(r) == kids
  {
    match v
    case Sequence(_) => Sequence(kids)
    case Mapping(entries) => Mapping(WithValues(entries, kids))
    case Tagged(tag, _) => Tagged(tag, kids[0])
    case _ => v
  }

  function Size(v: Value): (n: nat)
    ensures n >= 1
    decreases v, 0
  {
    match v
    case Sequence(items) => 1 + SumSize(items)
    case Mapping(entries) => 1 + SizeEntries(entries)
    case Tagged(_, inner) => 1 + Size(inner)
    case _ => 1
  }

  function SumSize(items: seq<Value>): nat
    decreases items, 0
  {
    if items == [] then 0 else SumSize(items[..|items| - 1]) + Size(items[|items| - 1])
  }

  function SizeEntry(e: Entry): (n: nat)
    ensures n >= 1
    decreases e, 0
  {
    Size(e.1)
  }

  function SizeEntries(entries: seq<Entry>): nat
    decreases entries, 0
  {
    if entries == [] then 0 else SizeEntries(entries[..|entries| - 1]) + SizeEntry(entries[|entries| - 1])
  }

  lemma {:induction false} SizeOfValues(entries: seq<Entry>)
    ensures SumSize(ValuesOf(entries)) == SizeEntries(entries)
    decreases |entries|
  {
    if entries != [] {
      var n := |entries| - 1;
      SizeOfValues(entries[..n]);
      assert ValuesOf(entries)[..n] == ValuesOf(entries[..n]);
    }
  }

  lemma SizeOfKids(v: Value)
    ensures SumSize(Kids(v)) == Size(v) - 1
  {
    match v {
      case Mapping(entries) => SizeOfValues(entries);
      case Tagged(_, inner) => assert [inner][..0] == [];
      case _ =>
    }
  }

  lemma {:induction false} SizeOfConcat(x: seq<Entry>, y: seq<Entry>)
    ensures SizeEntries(x + y) == SizeEntries(x) + SizeEntries(y)
    decreases |y|
  {
    if y == [] {
      assert x + y == x;
    } else {
      assert (x + y)[..|x + y| - 1] == x + y[..|y| - 1];
      SizeOfConcat(x, y[..|y| - 1]);
    }
  }

  lemma {:induction false} SizeOfKid(kids: seq<Value>, i: nat)
    requires i < |kids|
    ensures Size(kids[i]) <= SumSize(kids)
    decreases |kids|
  {
    if i < |kids| - 1 {
      SizeOfKid(kids[..|kids| - 1], i);
    }
  }

  // ----- One visit -------------------------------------------------------------------------

  /** `merge_mapping` is `InsertMissing(ValueEq, ...)`; a list applies it per mapping. */
  function MergeListInto(entries: seq<Entry>, items: seq<Value>): Result<seq<Entry>, Error>
    decreases |items|
  {
    if items == [] then Ok(entries)
    else match items[0]
      case Mapping(source) => MergeListInto(InsertMissing(ValueEq, entries, source), items[1..])
      case Sequence(_) => Err(N.ListItemIsSequence)
      case Tagged(_, _) => Err(N.SourceIsTagged)
      case _ => Err(N.ListItemIsScalar)
  }

  function MergeInto(entries: seq<Entry>, merge: Value): Result<seq<Entry>, Error> {
    match merge
    case Mapping(source) => Ok(InsertMissing(ValueEq, entries, source))
    case Sequence(items) => MergeListInto(entries, items)
    case Tagged(_, _) => Err(N.SourceIsTagged)
    case _ => Err(N.SourceIsScalar)
  }

  /** A value after its own merge, with the depth a residual `<<` is queued at. */
  datatype Visit = Visit(value: Value, residual_depth: nat)

  function VisitValue(depth: nat, v: Value): Result<Visit, Error> {
    match v
    case Mapping(entries) =>
      (match MergePosition(entries)
       case None => Ok(Visit(v, 0))
       case Some(i) =>
         if depth + 1 > MAX_DEPTH then Err(N.DepthExceeded)
         else match MergeInto(RemoveAt(entries, i), entries[i].1)
           case Err(e) => Err(e)
           case Ok(merged) => Ok(Visit(Mapping(merged), depth + 2)))
    case _ => Ok(Visit(v, 0))
  }

  /** The depth at which `push_mapping_values` queues kid `i`. */
  function KidDepth(visit: Visit, i: nat): nat {
    if visit.value.Mapping? && i < |visit.value.entries| && IsMergeKey(visit.value.entries[i].0) then visit.residual_depth else 0
  }

  lemma {:induction false} SizeAfterInsert(entries: seq<Entry>, extra: seq<Entry>)
    ensures SizeEntries(InsertMissing(ValueEq, entries, extra)) <= SizeEntries(entries) + SizeEntries(extra)
    decreases extra
  {
    if extra != [] {
      var next := AddMissing(ValueEq, entries, extra[0]);
      SizeAfterInsert(next, extra[1..]);
      SizeOfConcat(entries, [extra[0]]);
      SizeOfConcat([extra[0]], extra[1..]);
      assert extra == [extra[0]] + extra[1..];
      assert [extra[0]][..0] == [];
    }
  }

  lemma {:induction false} SizeAfterList(entries: seq<Entry>, items: seq<Value>)
    requires MergeListInto(entries, items).Ok?
    ensures SizeEntries(MergeListInto(entries, items).value) <= SizeEntries(entries) + SumSize(items)
    decreases |items|
  {
    if items != [] {
      var source := items[0].entries;
      SizeAfterList(InsertMissing(ValueEq, entries, source), items[1..]);
      SizeAfterInsert(entries, source);
      SumSizeFront(items);
    }
  }

  lemma {:induction false} SumSizeFront(items: seq<Value>)
    requires items != []
    ensures SumSize(items) == Size(items[0]) + SumSize(items[1..])
    decreases |items|
  {
    var n := |items| - 1;
    if n > 0 {
      SumSizeFront(items[..n]);
      assert items[..n][1..] == items[1..][..n - 1];
    }
  }

  // A visit never grows a value: entries move, they are not copied.
  lemma VisitDoesNotGrow(depth: nat, v: Value)
    requires VisitValue(depth, v).Ok?
    ensures Size(VisitValue(depth, v).value.value) <= Size(v)
  {
    hide InsertMissing, MergeListInto, RemoveAt;
    if v.Mapping? && MergePosition(v.entries).Some? {
      var entries, i := v.entries, MergePosition(v.entries).value;
      SizeWithout(entries, i);
      match entries[i].1 {
        case Mapping(source) => SizeAfterInsert(RemoveAt(entries, i), source);
        case Sequence(items) => SizeAfterList(RemoveAt(entries, i), items);
      }
    }
  }

  lemma SizeOfPush(x: seq<Entry>, e: Entry)
    ensures SizeEntries(x + [e]) == SizeEntries(x) + Size(e.1)
  {
    assert (x + [e])[..|x|] == x;
  }

  lemma SizeWithout(entries: seq<Entry>, i: nat)
    requires i < |entries|
    ensures SizeEntries(entries) == SizeEntries(RemoveAt(entries, i)) + Size(entries[i].1)
  {
    hide SizeEntries, Size;
    SizeAround(entries[..i], entries[i], entries[i + 1..]);
    SplitAt(entries, i);
  }

  lemma SizeAround(x: seq<Entry>, e: Entry, y: seq<Entry>)
    ensures SizeEntries(x + [e] + y) == SizeEntries(x + y) + Size(e.1)
  {
    hide SizeEntries, Size;
    SizeOfConcat(x, y);
    SizeOfConcat(x + [e], y);
    SizeOfPush(x, e);
  }

  // ----- The whole pass --------------------------------------------------------------------

  /** The result of one pass, the last-queued value first. */
  function Apply(depth: nat, v: Value): Result<Value, Error>
    decreases Size(v), 0, 0
  {
    match VisitValue(depth, v)
    case Err(e) => Err(e)
    case Ok(visit) =>
      VisitDoesNotGrow(depth, v);
      SizeOfKids(visit.value);
      match ApplyKids(visit, Kids(visit.value))
      case Err(e) => Err(e)
      case Ok(kids) => Ok(WithKids(visit.value, kids))
  }

  function ApplyKids(visit: Visit, kids: seq<Value>): (r: Result<seq<Value>, Error>)
    ensures r.Ok? ==> |r.value| == |kids|
    decreases SumSize(kids), 1, |kids|
  {
    if kids == [] then Ok([])
    else
      var n := |kids| - 1;
      match Apply(KidDepth(visit, n), kids[n])
      case Err(e) => Err(e)
      case Ok(last) =>
        match ApplyKids(visit, kids[..n])
        case Err(e) => Err(e)
        case Ok(before) => Ok(before + [last])
  }

  // ----- The worklist -----------------------------------------------------------------------

  lemma WithKidsTwice(v: Value, x: seq<Value>, y: seq<Value>)
    requires |x| == |y| == |Kids(v)|
    ensures WithKids(WithKids(v, x), y) == WithKids(v, y)
  {
    if v.Mapping? {
      assert WithValues(WithValues(v.entries, x), y) == WithValues(v.entries, y);
    }
  }

  lemma WithKidsSame(v: Value)
    ensures WithKids(v, Kids(v)) == v
  {
    if v.Mapping? {
      assert WithValues(v.entries, ValuesOf(v.entries)) == v.entries;
    }
  }

  // The references of the worklist point into a value.
  const SHAPE: P.Shape<Value> := P.Shape(Kids, (v, kids) => if |kids| == |Kids(v)| then WithKids(v, kids) else v)

  lemma ShapeIsLawful()
    ensures P.Lawful(SHAPE)
  {
    hide Kids, WithKids;
    forall v ensures SHAPE.with_kids(v, SHAPE.kids(v)) == v {
      WithKidsSame(v);
    }
    forall v, x, y | |x| == |y| == |SHAPE.kids(v)|
      ensures SHAPE.with_kids(SHAPE.with_kids(v, x), y) == SHAPE.with_kids(v, y)
    {
      WithKidsTwice(v, x, y);
    }
  }

  function KidDepths(visit: Visit): nat -> nat {
    i => KidDepth(visit, i)
  }

  lemma {:induction false} ApplyKidsOneByOne(visit: Visit, kids: seq<Value>)
    ensures ApplyKids(visit, kids) == P.ApplyKids(Apply, KidDepths(visit), kids)
    decreases |kids|
  {
    hide Apply;
    if kids != [] { ApplyKidsOneByOne(visit, kids[..|kids| - 1]); }
  }

  lemma {:induction false} SumSizeOneByOne(items: seq<Value>)
    ensures P.SumSize(Size, items) == SumSize(items)
    decreases |items|
  {
    if items != [] { SumSizeOneByOne(items[..|items| - 1]); }
  }

  /** `Value::apply_merge`: it terminates, and computes the recursive pass. */
  method ApplyMerge(value: Value) returns (r: Result<Value, Error>)
    ensures r == Apply(0, value)
  {
    hide VisitValue, Kids, WithKids, Size, P.At, P.Put, P.KidWork, P.Remaining, P.Live, P.Lawful, P.WorkSize, P.SumSize, P.ApplyKids;
    ShapeIsLawful();
    var root := value;
    var work: P.Work<nat> := [(0, [])];
    P.OnlyRootRemains(SHAPE, Apply, root, 0);
    while work != []
      invariant P.Live(SHAPE, root, work)
      invariant P.Remaining(SHAPE, Apply, root, work) == Apply(0, value)
      decreases P.WorkSize(SHAPE, Size, root, work)
    {
      var n := |work| - 1;
      var (depth, path) := work[n];
      assert work == work[..n] + [(depth, path)];
      work := work[..n];
      match VisitValue(depth, P.At(SHAPE, root, path)) {
        case Err(e) =>
          P.FailureRemains(SHAPE, Apply, root, work, depth, path);
          return Err(e);
        case Ok(visit) =>
          var visited, kids := visit.value, KidDepths(visit);
          VisitDoesNotGrow(depth, P.At(SHAPE, root, path));
          SizeOfKids(visited);
          SumSizeOneByOne(Kids(visited));
          ApplyKidsOneByOne(visit, Kids(visited));
          P.VisitKeepsLive(SHAPE, Size, kids, root, work, depth, path, visited);
          P.VisitRemains(SHAPE, Apply, kids, root, work, depth, path, visited);
          root := P.Put(SHAPE, root, path, visited);
          work := work + P.KidWork(kids, path, |Kids(visited)|);
      }
    }
    P.OnlyRootRemains(SHAPE, Apply, root, 0);
    return Ok(root);
  }
}
