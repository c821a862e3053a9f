// What a merged tree holds, level by level, and where its merging fails.
module MergedTree {
  import opened Prelude
  import opened Nodes
  import opened EntryLists
  import opened StrictMerge
  import opened TreeMerge
  import Y = Yaml11Merge
  import O = Yaml11Order

  // ----- The merged tree -------------------------------------------------------------------------

  /** The entries of a mapping after its own merge. Strict: the first candidate of every
      key. YAML 1.1: the entries that do not merge, then the keys the merge keys offer in
      document order, and for every key the entry that takes precedence. */
  ghost predicate IsLevel(policy: MergePolicy, entries: seq<Entry>, level: seq<Entry>) {
    match policy
    case Strict => Flattened(ByIdentity, entries, 0) == Ok(level)
    case Yaml11Compatible =>
      && Y.Explicit(entries) <= level
      && O.SameKeys(level, InsertMissing(ByIdentity, Y.Explicit(entries), O.Offers(entries, 0)))
      && forall key :: Lookup(ByIdentity, level, key) == Precedent(entries, key)
  }

  function Precedent(entries: seq<Entry>, key: Node): Option<Entry> {
    var own := Lookup(ByIdentity, Y.Explicit(entries), key);
    if own.Some? then own else Y.LastSupplied(entries, 0, key)
  }

  /** `r` is the tree `n` with every mapping merged that is reachable through values:
      mappings level by level, sequences and tagged nodes item by item. */
  ghost predicate IsMerged(policy: MergePolicy, n: Node, r: Node)
    decreases r, 0
  {
    && r.span == n.span
    && match n.value
       case Mapping(entries) =>
         r.value.Mapping? && exists level :: IsLevel(policy, entries, level) && EntriesMerged(policy, level, r.value.entries)
       case Sequence(items) =>
         && r.value.Sequence? && |r.value.items| == |items|
         && forall i :: 0 <= i < |items| ==> IsMerged(policy, items[i], r.value.items[i])
       case Tagged(tag, span, inner) =>
         r.value.Tagged? && r.value.tag == tag && r.value.tag_span == span && IsMerged(policy, inner, r.value.node)
       case _ => r.value == n.value
  }

  ghost predicate EntriesMerged(policy: MergePolicy, level: seq<Entry>, r: seq<Entry>)
    decreases r, 0
  {
    |r| == |level| && forall i :: 0 <= i < |r| ==> EntryMerged(policy, level[i], r[i])
  }

  ghost predicate EntryMerged(policy: MergePolicy, e: Entry, r: Entry)
    decreases r, 0
  {
    r.0 == e.0 && IsMerged(policy, e.1, r.1)
  }

  /** A mapping's own merge. */
  function OwnMerge(policy: MergePolicy, entries: seq<Entry>): Merged {
    match policy
    case Strict => MergeEntries(entries, 0)
    case Yaml11Compatible => Y.Expand(entries, 0)
  }

  lemma OwnMergeIsLevel(policy: MergePolicy, entries: seq<Entry>)
    requires OwnMerge(policy, entries).Ok?
    ensures IsLevel(policy, entries, OwnMerge(policy, entries).value)
  {
    hide Flattened, MergeEntries, Y.Expand, Lookup, ByIdentity, InsertMissing;
    match policy {
      case Strict => StrictMergeIsFlattening(entries, 0);
      case Yaml11Compatible =>
        O.ExpandsInOrder(entries, 0);
        forall key ensures Lookup(ByIdentity, Y.Expand(entries, 0).value, key) == Precedent(entries, key) {
          Y.Yaml11Precedence(entries, 0, key);
        }
    }
  }

  // The recursion, with a mapping's own merge in place of the visit.
  lemma TreeByLevels(policy: MergePolicy, n: Node)
    ensures n.value.Mapping? && OwnMerge(policy, n.value.entries).Err? ==> MergeTree(policy, n) == Err(OwnMerge(policy, n.value.entries).error)
    ensures n.value.Mapping? && OwnMerge(policy, n.value.entries).Ok? ==>
              var values := MergeValues(policy, OwnMerge(policy, n.value.entries).value);
              && MergeTree(policy, n).Ok? == values.Ok?
              && (values.Ok? ==> MergeTree(policy, n).value == n.(value := Mapping(values.value)))
              && (values.Err? ==> MergeTree(policy, n).error == values.error)
    ensures n.value.Mapping? && OwnMerge(policy, n.value.entries).Ok? ==>
              NestingEntries(OwnMerge(policy, n.value.entries).value) < Nesting(n)
    ensures !n.value.Mapping? && !n.value.Sequence? && !n.value.Tagged? ==> MergeTree(policy, n) == Ok(n)
  {
    hide MergeEntries, Y.Expand, MergeValues;
    VisitDoesNotNest(policy, n);
  }

  /** Whenever merging a tree succeeds, it gives the merged tree. */
  lemma {:induction false} TreeIsMerged(policy: MergePolicy, n: Node)
    requires MergeTree(policy, n).Ok?
    ensures IsMerged(policy, n, MergeTree(policy, n).value)
    decreases Nesting(n), 0, 0
  {
    hide MergeEntries, Y.Expand, OwnMerge, IsLevel, EntriesMerged;
    TreeByLevels(policy, n);
    match n.value {
      case Mapping(entries) =>
        var level := OwnMerge(policy, entries).value;
        OwnMergeIsLevel(policy, entries);
        ValuesAreMerged(policy, level);
      case Sequence(items) => ItemsAreMerged(policy, items);
      case Tagged(_, _, inner) => TreeIsMerged(policy, inner);
      case _ =>
    }
  }

  lemma {:induction false} ValuesAreMerged(policy: MergePolicy, level: seq<Entry>)
    requires MergeValues(policy, level).Ok?
    ensures EntriesMerged(policy, level, MergeValues(policy, level).value)
    decreases NestingEntries(level), 1, |level|
  {
    hide MergeTree, IsMerged;
    if level != [] {
      var n := |level| - 1;
      NestingOfEntry(level, n);
      NestingOfSome(level[..n], level);
      ValuesAreMerged(policy, level[..n]);
      TreeIsMerged(policy, level[n].1);
    }
  }

  lemma {:induction false} ItemsAreMerged(policy: MergePolicy, items: seq<Node>)
    requires MergeItems(policy, items).Ok?
    ensures forall i :: 0 <= i < |items| ==> IsMerged(policy, items[i], MergeItems(policy, items).value[i])
    decreases NestingItems(items), 1, |items|
  {
    hide MergeTree, IsMerged;
    if items != [] {
      var n := |items| - 1;
      NestingOfItem(items, n);
      NestingOfFirst(items, n);
      ItemsAreMerged(policy, items[..n]);
      TreeIsMerged(policy, items[n]);
    }
  }

  // ----- Where merging fails -----------------------------------------------------------------------

  /** A way down the tree, in its merged levels: which entry, item or tagged node. */
  type Place = seq<nat>

  type Faults = (Place, Error) -> bool

  /** The own merge of the mapping at the place fails. */
  ghost predicate TreeFault(policy: MergePolicy, n: Node, place: Place, e: Error)
    decreases |place|, 1
  {
    match n.value
    case Mapping(entries) =>
      (match OwnMerge(policy, entries)
       case Err(f) => place == [] && e == f
       case Ok(level) => ValueFault(policy, level, place, e))
    case Sequence(items) => ItemFault(policy, items, place, e)
    case Tagged(_, _, inner) => ItemFault(policy, [inner], place, e)
    case _ => false
  }

  ghost predicate ValueFault(policy: MergePolicy, level: seq<Entry>, place: Place, e: Error)
    decreases |place|, 0
  {
    place != [] && place[0] < |level| && TreeFault(policy, level[place[0]].1, place[1..], e)
  }

  ghost predicate ItemFault(policy: MergePolicy, items: seq<Node>, place: Place, e: Error)
    decreases |place|, 0
  {
    place != [] && place[0] < |items| && TreeFault(policy, items[place[0]], place[1..], e)
  }

  /** Later in the tree: larger at the first step that differs. */
  predicate Behind(p: Place, q: Place) {
    p != [] && q != [] && (p[0] > q[0] || (p[0] == q[0] && Behind(p[1..], q[1..])))
  }

  ghost predicate IsLast(faults: Faults, p: Place, e: Error) {
    faults(p, e) && forall q, f :: faults(q, f) ==> (q == p && f == e) || Behind(p, q)
  }

  /** A result reports the last of the faults, or there is none. */
  ghost predicate Reports<T>(r: Result<T, Error>, faults: Faults) {
    && (r.Ok? ==> forall p, e :: !faults(p, e))
    && (r.Err? ==> exists p :: IsLast(faults, p, r.error))
  }

  // The faults of a list: those of its last element, and in front of them the others.
  ghost predicate InitAndLast(init: Faults, last: Faults, n: nat, all: Faults) {
    && (forall p, e :: init(p, e) ==> p != [] && p[0] < n)
    && (forall p, e :: all(p, e) <==> init(p, e) || (p != [] && p[0] == n && last(p[1..], e)))
  }

  lemma LastReports<T, U>(r: Result<T, Error>, init: Faults, last: Faults, n: nat, all: Faults, done: Result<U, Error>)
    requires r.Err? && Reports(r, last) && InitAndLast(init, last, n, all) && done == Err(r.error)
    ensures Reports(done, all)
  {
    var p :| IsLast(last, p, r.error);
    var place := [n] + p;
    assert place[1..] == p;
    forall q, f | all(q, f) ensures (q == place && f == r.error) || Behind(place, q) {
      if !init(q, f) { assert q == [n] + q[1..] && last(q[1..], f); }
    }
    assert IsLast(all, place, r.error);
  }

  lemma InitReports<T, U>(r: Result<T, Error>, init: Faults, last: Faults, n: nat, all: Faults, done: Result<U, Error>)
    requires Reports(r, init) && InitAndLast(init, last, n, all) && forall p, e :: !last(p, e)
    requires done.Ok? == r.Ok? && (r.Err? ==> done == Err(r.error))
    ensures Reports(done, all)
  {
    if r.Err? {
      var p :| IsLast(init, p, r.error);
      assert IsLast(all, p, r.error);
    }
  }

  ghost function FaultsOf(policy: MergePolicy, n: Node): Faults {
    (p, e) => TreeFault(policy, n, p, e)
  }

  ghost function FaultsOfValues(policy: MergePolicy, level: seq<Entry>): Faults {
    (p, e) => ValueFault(policy, level, p, e)
  }

  ghost function FaultsOfItems(policy: MergePolicy, items: seq<Node>): Faults {
    (p, e) => ItemFault(policy, items, p, e)
  }

  lemma ReportsAlike<T, U>(r: Result<T, Error>, faults: Faults, done: Result<U, Error>, alike: Faults)
    requires Reports(r, faults) && done.Ok? == r.Ok? && (r.Err? ==> done == Err(r.error))
    requires forall p, e :: faults(p, e) <==> alike(p, e)
    ensures Reports(done, alike)
  {
    if r.Err? {
      var p :| IsLast(faults, p, r.error);
      assert IsLast(alike, p, r.error);
    }
  }

  lemma ValuesAreInitAndLast(policy: MergePolicy, level: seq<Entry>)
    requires level != []
    ensures var n := |level| - 1;
            InitAndLast(FaultsOfValues(policy, level[..n]), FaultsOf(policy, level[n].1), n, FaultsOfValues(policy, level))
  {
    hide TreeFault;
  }

  lemma ItemsAreInitAndLast(policy: MergePolicy, items: seq<Node>)
    requires items != []
    ensures var n := |items| - 1;
            InitAndLast(FaultsOfItems(policy, items[..n]), FaultsOf(policy, items[n]), n, FaultsOfItems(policy, items))
  {
    hide TreeFault;
  }

  /** Merging a tree fails exactly if the own merge of a mapping fails that values lead
      to, and reports the last such mapping. */
  lemma {:induction false} LastFaultIsReported(policy: MergePolicy, n: Node)
    ensures Reports(MergeTree(policy, n), FaultsOf(policy, n))
    decreases Nesting(n), 0, 0
  {
    hide OwnMerge, ValueFault, ItemFault, Reports, MergeValues, MergeItems;
    TreeByLevels(policy, n);
    match n.value {
      case Mapping(entries) =>
        match OwnMerge(policy, entries) {
          case Err(e) => OwnFault(policy, n, e);
          case Ok(level) =>
            ValuesReport(policy, level);
            ReportsAlike(MergeValues(policy, level), FaultsOfValues(policy, level), MergeTree(policy, n), FaultsOf(policy, n));
        }
      case Sequence(items) =>
        ItemsReport(policy, items);
        ReportsAlike(MergeItems(policy, items), FaultsOfItems(policy, items), MergeTree(policy, n), FaultsOf(policy, n));
      case Tagged(_, _, inner) =>
        LastFaultIsReported(policy, inner);
        TaggedReports(policy, n);
      case _ => NoFault(policy, n);
    }
  }

  lemma OwnFault(policy: MergePolicy, n: Node, e: Error)
    requires n.value.Mapping? && OwnMerge(policy, n.value.entries) == Err(e) && MergeTree(policy, n) == Err(e)
    ensures Reports(MergeTree(policy, n), FaultsOf(policy, n))
  {
    hide OwnMerge, MergeTree;
    assert IsLast(FaultsOf(policy, n), [], e);
  }

  lemma NoFault(policy: MergePolicy, n: Node)
    requires !n.value.Mapping? && !n.value.Sequence? && !n.value.Tagged? && MergeTree(policy, n).Ok?
    ensures Reports(MergeTree(policy, n), FaultsOf(policy, n))
  {
    hide MergeTree;
  }

  lemma TaggedReports(policy: MergePolicy, n: Node)
    requires n.value.Tagged? && Reports(MergeTree(policy, n.value.node), FaultsOf(policy, n.value.node))
    ensures Reports(MergeTree(policy, n), FaultsOf(policy, n))
  {
    hide TreeFault, Reports, OwnMerge;
    var inner := n.value.node;
    var r, done := MergeTree(policy, inner), MergeTree(policy, n);
    var none: Faults := (p, e) => false;
    ItemsAreInitAndLast(policy, [inner]);
    TaggedFaults(policy, n);
    assert InitAndLast(none, FaultsOf(policy, inner), 0, FaultsOf(policy, n));
    if r.Err? {
      LastReports(r, none, FaultsOf(policy, inner), 0, FaultsOf(policy, n), done);
    } else {
      NoneReported(r, FaultsOf(policy, inner));
      var nothing: Result<seq<Node>, Error> := Ok([]);
      NothingReported(nothing, none);
      InitReports(nothing, none, FaultsOf(policy, inner), 0, FaultsOf(policy, n), done);
    }
  }

  lemma TaggedFaults(policy: MergePolicy, n: Node)
    requires n.value.Tagged?
    ensures forall p, e :: TreeFault(policy, n, p, e) <==> p != [] && p[0] == 0 && TreeFault(policy, n.value.node, p[1..], e)
  {
    forall p: Place, e
      ensures TreeFault(policy, n, p, e) <==> p != [] && p[0] == 0 && TreeFault(policy, n.value.node, p[1..], e)
    {
      assert TreeFault(policy, n, p, e) <==> ItemFault(policy, [n.value.node], p, e);
    }
  }

  lemma NoneReported<T>(r: Result<T, Error>, faults: Faults)
    requires Reports(r, faults) && r.Ok?
    ensures forall p, e :: !faults(p, e)
  {
  }

  lemma NothingReported<T>(r: Result<T, Error>, faults: Faults)
    requires r.Ok? && forall p, e :: !faults(p, e)
    ensures Reports(r, faults)
  {
  }

  lemma {:induction false} ValuesReport(policy: MergePolicy, level: seq<Entry>)
    ensures Reports(MergeValues(policy, level), FaultsOfValues(policy, level))
    decreases NestingEntries(level), 1, |level|
  {
    hide MergeTree, TreeFault, Reports, InitAndLast;
    if level == [] {
      NothingReported(MergeValues(policy, level), FaultsOfValues(policy, level));
    } else {
      var n := |level| - 1;
      NestingOfEntry(level, n);
      NestingOfSome(level[..n], level);
      LastFaultIsReported(policy, level[n].1);
      ValuesAreInitAndLast(policy, level);
      var init, last, all := FaultsOfValues(policy, level[..n]), FaultsOf(policy, level[n].1), FaultsOfValues(policy, level);
      if MergeTree(policy, level[n].1).Err? {
        LastReports(MergeTree(policy, level[n].1), init, last, n, all, MergeValues(policy, level));
      } else {
        ValuesReport(policy, level[..n]);
        NoneReported(MergeTree(policy, level[n].1), last);
        InitReports(MergeValues(policy, level[..n]), init, last, n, all, MergeValues(policy, level));
      }
    }
  }

  lemma {:induction false} ItemsReport(policy: MergePolicy, items: seq<Node>)
    ensures Reports(MergeItems(policy, items), FaultsOfItems(policy, items))
    decreases NestingItems(items), 1, |items|
  {
    hide MergeTree, TreeFault, Reports, InitAndLast;
    if items == [] {
      NothingReported(MergeItems(policy, items), FaultsOfItems(policy, items));
    } else {
      var n := |items| - 1;
      NestingOfItem(items, n);
      NestingOfFirst(items, n);
      LastFaultIsReported(policy, items[n]);
      ItemsAreInitAndLast(policy, items);
      var init, last, all := FaultsOfItems(policy, items[..n]), FaultsOf(policy, items[n]), FaultsOfItems(policy, items);
      if MergeTree(policy, items[n]).Err? {
        LastReports(MergeTree(policy, items[n]), init, last, n, all, MergeItems(policy, items));
      } else {
        ItemsReport(policy, items[..n]);
        NoneReported(MergeTree(policy, items[n]), last);
        InitReports(MergeItems(policy, items[..n]), init, last, n, all, MergeItems(policy, items));
      }
    }
  }
}
