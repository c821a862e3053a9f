// Strict merge-key expansion of owned nodes (src/ast.rs). Only the first merge
// key of a mapping is expanded, and every nested `<<` costs one level of depth.
module StrictMerge {
  import opened Prelude
  import opened Nodes
  import opened KeyIdentity
  import opened EntryLists

  type Merged = Result<seq<Entry>, Error>

  // ----- The operations ------------------------------------------------------------

  /** `node_mapping_key_position`. */
  function KeyPosition(entries: seq<Entry>, key: Node): Result<Option<nat>, Error> {
    KeyPositionFrom(entries, key, 0)
  }

  function KeyPositionFrom(entries: seq<Entry>, key: Node, from: nat): (r: Result<Option<nat>, Error>)
    requires from <= |entries|
    ensures r.Ok? && r.value.Some? ==> r.value.value < |entries|
    decreases |entries| - from
  {
    if from == |entries| then Ok(None)
    else match SameKeyIdentity(entries[from].0, key)
      case Err(e) => Err(e)
      case Ok(same) => if same then Ok(Some(from)) else KeyPositionFrom(entries, key, from + 1)
  }

  function InsertMissingChecked(entries: seq<Entry>, extra: seq<Entry>): Merged
    decreases extra
  {
    if extra == [] then Ok(entries)
    else match KeyPosition(entries, extra[0].0)
      case Err(e) => Err(e)
      case Ok(position) => InsertMissingChecked(if position.Some? then entries else entries + [extra[0]], extra[1..])
  }

  function MergePosition(entries: seq<Entry>): (r: Option<nat>)
    ensures r.Some? ==> r.value < |entries| && IsMergeKey(entries[r.value].0)
    ensures r.Some? ==> forall i :: 0 <= i < r.value ==> !IsMergeKey(entries[i].0)
    ensures r.None? ==> forall i :: 0 <= i < |entries| ==> !IsMergeKey(entries[i].0)
  {
    if entries == [] then None
    else if IsMergeKey(entries[0].0) then Some(0)
    else match MergePosition(entries[1..])
      case None => assert forall i :: 0 < i < |entries| ==> entries[i] == entries[1..][i - 1]; None
      case Some(i) => assert forall j :: 0 < j <= i ==> entries[j] == entries[1..][j - 1]; Some(i + 1)
  }

  /** The result of `apply_strict_merge_entries`. */
  function MergeEntries(entries: seq<Entry>, depth: nat): Merged
    decreases entries, 0
  {
    match MergePosition(entries)
    case None => Ok(entries)
    case Some(i) => MergeSource(RemoveAt(entries, i), entries[i], depth)
  }

  /** The result of `merge_node_mapping`; `merge` is the removed entry. */
  function MergeSource(entries: seq<Entry>, merge: Entry, depth: nat): Merged
    decreases merge, 0
  {
    if depth + 1 > MAX_DEPTH then Err(DepthExceeded)
    else match merge.1.value
      case Mapping(source) =>
        (match MergeEntries(source, depth + 1)
         case Err(e) => Err(e)
         case Ok(expanded) => InsertMissingChecked(entries, expanded))
      case Sequence(items) => MergeList(entries, items, depth + 1)
      case Tagged(_, _, _) => Err(SourceIsTagged)
      case _ => Err(SourceIsScalar)
  }

  function MergeList(entries: seq<Entry>, items: seq<Node>, depth: nat): Merged
    decreases items, 1
  {
    if items == [] then Ok(entries)
    else match MergeItem(entries, items[0], depth)
      case Err(e) => Err(e)
      case Ok(next) => MergeList(next, items[1..], depth)
  }

  function MergeItem(entries: seq<Entry>, item: Node, depth: nat): Merged
    decreases item, 0
  {
    match item.value
    case Mapping(source) =>
      (match MergeEntries(source, depth)
       case Err(e) => Err(e)
       case Ok(expanded) => InsertMissingChecked(entries, expanded))
    case Sequence(_) => Err(ListItemIsSequence)
    case Tagged(_, _, _) => Err(SourceIsTagged)
    case _ => Err(ListItemIsScalar)
  }

  // The methods work on the entry vector step by step, as the source does.

  method InsertMissingNodeEntries(entries: seq<Entry>, extra: seq<Entry>) returns (r: Merged)
    ensures r == InsertMissingChecked(entries, extra)
  {
    var current := entries;
    for i := 0 to |extra|
      invariant InsertMissingChecked(current, extra[i..]) == InsertMissingChecked(entries, extra)
    {
      assert extra[i..][1..] == extra[i + 1..];
      match KeyPosition(current, extra[i].0) {
        case Err(e) => return Err(e);
        case Ok(position) =>
          if position.None? {
            current := current + [extra[i]];
          }
      }
    }
    return Ok(current);
  }

  method ApplyStrictMergeEntries(entries: seq<Entry>, depth: nat) returns (r: Merged)
    ensures r == MergeEntries(entries, depth)
    decreases entries, 0
  {
    match MergePosition(entries) {
      case None => r := Ok(entries);
      case Some(i) => r := MergeNodeMapping(RemoveAt(entries, i), entries[i], depth);
    }
  }

  method MergeNodeMapping(entries: seq<Entry>, merge: Entry, depth: nat) returns (r: Merged)
    ensures r == MergeSource(entries, merge, depth)
    decreases merge, 0
  {
    var next_depth := depth + 1;
    if next_depth > MAX_DEPTH {
      return Err(DepthExceeded);
    }
    match merge.1.value {
      case Mapping(source) =>
        var expanded := ApplyStrictMergeEntries(source, next_depth);
        if expanded.Err? { return expanded; }
        r := InsertMissingNodeEntries(entries, expanded.value);
      case Sequence(items) =>
        var current := entries;
        for i := 0 to |items|
          invariant MergeList(current, items[i..], next_depth) == MergeList(entries, items, next_depth)
        {
          assert items[i..][1..] == items[i + 1..];
          match items[i].value {
            case Mapping(source) =>
              var expanded := ApplyStrictMergeEntries(source, next_depth);
              if expanded.Err? { return expanded; }
              var next := InsertMissingNodeEntries(current, expanded.value);
              if next.Err? { return next; }
              current := next.value;
            case Sequence(_) => return Err(ListItemIsSequence);
            case Tagged(_, _, _) => return Err(SourceIsTagged);
            case _ => return Err(ListItemIsScalar);
          }
        }
        return Ok(current);
      case Tagged(_, _, _) => return Err(SourceIsTagged);
      case _ => return Err(SourceIsScalar);
    }
  }

  // ----- The flat reference ------------------------------------------------------------

  // Every entry the merge may keep, in order of precedence: the mapping's own
  // entries, then those of its sources, recursively. Nothing is dropped here.
  function Candidates(entries: seq<Entry>, depth: nat): Merged
    decreases entries, 0
  {
    match MergePosition(entries)
    case None => Ok(entries)
    case Some(i) =>
      match SourceCandidates(entries[i], depth)
      case Err(e) => Err(e)
      case Ok(sources) => Ok(RemoveAt(entries, i) + sources)
  }

  function SourceCandidates(merge: Entry, depth: nat): Merged
    decreases merge, 0
  {
    if depth + 1 > MAX_DEPTH then Err(DepthExceeded)
    else match merge.1.value
      case Mapping(source) => Candidates(source, depth + 1)
      case Sequence(items) => ListCandidates(items, depth + 1)
      case Tagged(_, _, _) => Err(SourceIsTagged)
      case _ => Err(SourceIsScalar)
  }

  function ListCandidates(items: seq<Node>, depth: nat): Merged
    decreases items, 1
  {
    if items == [] then Ok([])
    else match ItemCandidates(items[0], depth)
      case Err(e) => Err(e)
      case Ok(first) =>
        match ListCandidates(items[1..], depth)
        case Err(e) => Err(e)
        case Ok(rest) => Ok(first + rest)
  }

  function ItemCandidates(item: Node, depth: nat): Merged
    decreases item, 0
  {
    match item.value
    case Mapping(source) => Candidates(source, depth)
    case Sequence(_) => Err(ListItemIsSequence)
    case Tagged(_, _, _) => Err(SourceIsTagged)
    case _ => Err(ListItemIsScalar)
  }

  /** The entries a mapping keeps as they are: all but its first merge key. */
  function Own(entries: seq<Entry>): seq<Entry> {
    match MergePosition(entries)
    case None => entries
    case Some(i) => RemoveAt(entries, i)
  }

  lemma OwnStartsCandidates(entries: seq<Entry>, depth: nat)
    requires Candidates(entries, depth).Ok?
    ensures Own(entries) <= Candidates(entries, depth).value
  {
  }

  predicate ByIdentity(a: Node, b: Node) {
    Identity(a) == Identity(b)
  }

  lemma IdentityIsEquivalence()
    ensures Equivalence(ByIdentity)
  {
  }

  // ----- Which comparisons succeed -------------------------------------------------------

  predicate InLimit(key: Node) {
    Nesting(key) <= MAX_DEPTH
  }

  /** Looking for `key` from the front meets no key past the identity limit before
      its first match. */
  predicate ScanOk(entries: seq<Entry>, key: Node) {
    entries == []
    || (InLimit(key) && InLimit(entries[0].0) && (ByIdentity(entries[0].0, key) || ScanOk(entries[1..], key)))
  }

  /** Every added key can be looked for among the keys before it. */
  predicate Scans(own: seq<Entry>, added: seq<Entry>) {
    added == []
    || (Scans(own, added[..|added| - 1]) && ScanOk(own + added[..|added| - 1], added[|added| - 1].0))
  }

  lemma {:induction false} ScanConcat(x: seq<Entry>, y: seq<Entry>, key: Node)
    ensures ScanOk(x + y, key) <==> ScanOk(x, key) && (HasKey(ByIdentity, x, key) || ScanOk(y, key))
  {
    hide ByIdentity, InLimit;
    if x == [] {
      assert x + y == y;
    } else {
      assert (x + y)[1..] == x[1..] + y;
      ScanConcat(x[1..], y, key);
      assert HasKey(ByIdentity, x, key) <==> ByIdentity(x[0].0, key) || HasKey(ByIdentity, x[1..], key) by {
        assert x == [x[0]] + x[1..];
      }
    }
  }

  lemma ScanOne(e: Entry, key: Node)
    ensures ScanOk([e], key) <==> InLimit(key) && InLimit(e.0)
  {
    assert [e][1..] == [];
  }

  lemma {:induction false} ScanAlike(entries: seq<Entry>, a: Node, b: Node)
    requires ByIdentity(a, b) && InLimit(b) && ScanOk(entries, a)
    ensures ScanOk(entries, b)
  {
    if entries != [] && !ByIdentity(entries[0].0, a) { ScanAlike(entries[1..], a, b); }
  }

  lemma {:induction false} ScanWithin(entries: seq<Entry>, key: Node)
    requires InLimit(key) && forall i :: 0 <= i < |entries| ==> InLimit(entries[i].0)
    ensures ScanOk(entries, key)
  {
    if entries != [] { ScanWithin(entries[1..], key); }
  }

  // The scan is what `node_mapping_key_position` does.
  lemma {:induction false} PositionScans(entries: seq<Entry>, key: Node, from: nat)
    requires from <= |entries|
    ensures KeyPositionFrom(entries, key, from).Ok? <==> ScanOk(entries[from..], key)
    ensures KeyPositionFrom(entries, key, from).Ok? ==>
              (KeyPositionFrom(entries, key, from).value.Some? <==> exists i :: from <= i < |entries| && ByIdentity(entries[i].0, key))
    ensures KeyPositionFrom(entries, key, from).Err? ==> KeyPositionFrom(entries, key, from).error == DepthExceeded
    decreases |entries| - from
  {
    if from < |entries| {
      IdentityFailsExactlyPastLimit(entries[from].0, 1, Some(MAX_DEPTH));
      IdentityFailsExactlyPastLimit(key, 1, Some(MAX_DEPTH));
      assert entries[from..][1..] == entries[from + 1..];
      PositionScans(entries, key, from + 1);
    }
  }

  lemma InsertOne(entries: seq<Entry>, e: Entry)
    ensures InsertMissing(ByIdentity, entries, [e]) == AddMissing(ByIdentity, entries, e)
    ensures InsertMissingChecked(entries, [e]).Ok? <==> ScanOk(entries, e.0)
    ensures InsertMissingChecked(entries, [e]) == if ScanOk(entries, e.0) then Ok(AddMissing(ByIdentity, entries, e)) else Err(DepthExceeded)
  {
    PositionScans(entries, e.0, 0);
    assert entries[0..] == entries && [e][1..] == [];
    var position := KeyPosition(entries, e.0);
    if position.Ok? {
      var next := if position.value.Some? then entries else entries + [e];
      assert InsertMissingChecked(next, []) == Ok(next);
    }
  }

  lemma {:induction false} InsertCheckedConcat(entries: seq<Entry>, x: seq<Entry>, y: seq<Entry>)
    ensures InsertMissingChecked(entries, x + y) == match InsertMissingChecked(entries, x)
                                                   case Err(e) => Err(e)
                                                   case Ok(next) => InsertMissingChecked(next, y)
    decreases |x|
  {
    hide KeyPosition;
    if x == [] {
      assert x + y == y;
    } else {
      assert (x + y)[1..] == x[1..] + y;
      match KeyPosition(entries, x[0].0) {
        case Err(e) =>
        case Ok(position) => InsertCheckedConcat(if position.Some? then entries else entries + [x[0]], x[1..], y);
      }
    }
  }

  lemma InsertedKeys(own: seq<Entry>, added: seq<Entry>, key: Node)
    ensures HasKey(ByIdentity, InsertMissing(ByIdentity, own, added), key) <==> HasKey(ByIdentity, own + added, key)
  {
    hide ByIdentity, InsertMissing, HasKey;
    IdentityIsEquivalence();
    KeysAfterInsert(ByIdentity, own, added, key);
    HasKeyConcat(ByIdentity, own, added, key);
  }

  // One more key, kept in one list and dropped from the other if it is known.
  lemma ScanAfterAdd(before: seq<Entry>, current: seq<Entry>, e: Entry, key: Node)
    requires ScanOk(before, e.0) && (ScanOk(current, key) <==> ScanOk(before, key))
    requires HasKey(ByIdentity, current, e.0) <==> HasKey(ByIdentity, before, e.0)
    requires HasKey(ByIdentity, current, key) <==> HasKey(ByIdentity, before, key)
    ensures ScanOk(AddMissing(ByIdentity, current, e), key) <==> ScanOk(before + [e], key)
  {
    hide ByIdentity, InLimit, ScanOk;
    ScanConcat(before, [e], key);
    ScanConcat(current, [e], key);
    ScanOne(e, key);
    if HasKey(ByIdentity, before, e.0) && ScanOk(before, key) {
      ScanIsInLimit(before, e.0);
      ScanIsInLimit(before, key);
    }
  }

  // Dropped repetitions do not change what a scan meets.
  lemma {:induction false} ScanAfterInsert(own: seq<Entry>, added: seq<Entry>, key: Node)
    requires Scans(own, added)
    ensures ScanOk(InsertMissing(ByIdentity, own, added), key) <==> ScanOk(own + added, key)
    ensures HasKey(ByIdentity, InsertMissing(ByIdentity, own, added), key) <==> HasKey(ByIdentity, own + added, key)
    decreases |added|
  {
    hide ScanOk, InsertMissing, AddMissing, HasKey;
    InsertedKeys(own, added, key);
    if added == [] {
      assert own + added == own;
      NothingScans(own);
    } else {
      var n := |added| - 1;
      var before, e := added[..n], added[n];
      assert added == before + [e] && own + added == own + before + [e];
      InsertLast(own, before, e);
      ScanAfterInsert(own, before, key);
      ScanAfterInsert(own, before, e.0);
      ScanAfterAdd(own + before, InsertMissing(ByIdentity, own, before), e, key);
    }
  }

  lemma InsertLast(own: seq<Entry>, before: seq<Entry>, e: Entry)
    ensures InsertMissing(ByIdentity, own, before + [e]) == AddMissing(ByIdentity, InsertMissing(ByIdentity, own, before), e)
  {
    hide ByIdentity, HasKey, AddMissing;
    InsertMissingConcat(ByIdentity, own, before, [e]);
    var current := InsertMissing(ByIdentity, own, before);
    assert [e][1..] == [];
    assert InsertMissing(ByIdentity, current, [e]) == AddMissing(ByIdentity, current, e);
  }

  lemma ScanIsInLimit(entries: seq<Entry>, key: Node)
    requires ScanOk(entries, key) && entries != []
    ensures InLimit(key)
  {
  }

  lemma NothingScans(own: seq<Entry>)
    ensures Scans(own, []) && InsertMissing(ByIdentity, own, []) == own
  {
  }

  /** The checked insertion succeeds exactly if every added key can be looked for,
      and keeps then the first entry of every key. */
  lemma {:induction false} InsertionScans(own: seq<Entry>, added: seq<Entry>)
    ensures InsertMissingChecked(own, added)
         == if Scans(own, added) then Ok(InsertMissing(ByIdentity, own, added)) else Err(DepthExceeded)
    decreases |added|
  {
    hide ScanOk;
    if added != [] {
      var n := |added| - 1;
      var before, e := added[..n], added[n];
      assert added == before + [e];
      InsertionScans(own, before);
      InsertCheckedConcat(own, before, [e]);
      if Scans(own, before) {
        var current := InsertMissing(ByIdentity, own, before);
        InsertMissingConcat(ByIdentity, own, before, [e]);
        InsertOne(current, e);
        ScanAfterInsert(own, before, e.0);
      }
    }
  }

  lemma ScansPush(own: seq<Entry>, added: seq<Entry>, e: Entry)
    ensures Scans(own, added + [e]) <==> Scans(own, added) && ScanOk(own + added, e.0)
  {
    assert (added + [e])[..|added|] == added;
  }

  // Two lists in a row.
  lemma {:induction false} ScansConcat(own: seq<Entry>, x: seq<Entry>, y: seq<Entry>)
    ensures Scans(own, x + y) <==> Scans(own, x) && Scans(InsertMissing(ByIdentity, own, x), y)
    decreases |y|
  {
    hide ScanOk;
    if y == [] {
      assert x + y == x;
    } else {
      var n := |y| - 1;
      var before, e := y[..n], y[n];
      assert y == before + [e] && x + y == x + before + [e] && own + (x + before) == own + x + before;
      ScansConcat(own, x, before);
      ScansPush(own, x + before, e);
      if Scans(own, x) {
        var current := InsertMissing(ByIdentity, own, x);
        ScanAfterInsert(own, x, e.0);
        ScanConcat(own + x, before, e.0);
        ScanConcat(current, before, e.0);
      }
    }
  }

  // With something to compare with, every key that was added is within the limit.
  lemma {:induction false} ScannedInLimit(own: seq<Entry>, added: seq<Entry>, i: nat)
    requires own != [] && Scans(own, added) && i < |added|
    ensures InLimit(added[i].0)
    decreases |added|
  {
    var n := |added| - 1;
    if i < n { ScannedInLimit(own, added[..n], i); }
  }

  lemma {:induction false} ScannedAgainstOwn(own: seq<Entry>, added: seq<Entry>, i: nat)
    requires Scans(own, added) && i < |added|
    ensures ScanOk(own, added[i].0)
    decreases |added|
  {
    var n := |added| - 1;
    if i < n {
      ScannedAgainstOwn(own, added[..n], i);
    } else {
      ScanConcat(own, added[..n], added[n].0);
    }
  }

  // A key that occurs among the added ones scans them and the own ones alike.
  lemma ScanOfRepeat(own: seq<Entry>, z: seq<Entry>, key: Node)
    requires Scans(own, z) && HasKey(ByIdentity, z, key)
    ensures ScanOk(own + z, key) <==> ScanOk(z, key)
  {
    hide ByIdentity, InLimit;
    ScanConcat(own, z, key);
    var i :| 0 <= i < |z| && ByIdentity(z[i].0, key);
    if ScanOk(z, key) {
      ScannedAgainstOwn(own, z, i);
      ScanIsInLimit(z, key);
      ScanAlike(own, z[i].0, key);
    }
    if ScanOk(own, key) && HasKey(ByIdentity, own, key) {
      AddedScan(own, z, key);
    }
  }

  lemma AddedScan(own: seq<Entry>, z: seq<Entry>, key: Node)
    requires own != [] && Scans(own, z) && ScanOk(own, key)
    ensures ScanOk(z, key)
  {
    ScanIsInLimit(own, key);
    forall i | 0 <= i < |z| ensures InLimit(z[i].0) {
      ScannedInLimit(own, z, i);
    }
    ScanWithin(z, key);
  }

  // A source expanded first and inserted then scans like its flat candidates.
  lemma {:induction false} ScansFlattened(own: seq<Entry>, x: seq<Entry>, y: seq<Entry>)
    ensures Scans(own, x + y) <==> Scans(x, y) && Scans(own, InsertMissing(ByIdentity, x, y))
    decreases |y|
  {
    hide ScanOk;
    if y == [] {
      assert x + y == x;
    } else {
      var n := |y| - 1;
      var before, e := y[..n], y[n];
      var z, kept := x + before, InsertMissing(ByIdentity, x, before);
      assert y == before + [e] && x + y == z + [e];
      ScansFlattened(own, x, before);
      ScansPush(own, z, e);
      InsertMissingConcat(ByIdentity, x, before, [e]);
      InsertOne(kept, e);
      if Scans(own, z) {
        FlattenedStep(own, x, before, e);
      }
    }
  }

  lemma FlattenedStep(own: seq<Entry>, x: seq<Entry>, before: seq<Entry>, e: Entry)
    requires Scans(own, x + before) && Scans(x, before) && Scans(own, InsertMissing(ByIdentity, x, before))
    ensures ScanOk(own + (x + before), e.0)
       <==> ScanOk(x + before, e.0) && Scans(own, AddMissing(ByIdentity, InsertMissing(ByIdentity, x, before), e))
  {
    hide ScanOk, ByIdentity;
    var z, kept := x + before, InsertMissing(ByIdentity, x, before);
    ScanAfterInsert(x, before, e.0);
    if HasKey(ByIdentity, z, e.0) {
      ScanOfRepeat(own, z, e.0);
    } else {
      ScansPush(own, kept, e);
      ScanConcat(own, kept, e.0);
      ScanConcat(own, z, e.0);
      if ScanOk(own, e.0) && HasKey(ByIdentity, own, e.0) {
        AddedScan(own, z, e.0);
      }
    }
  }

  // ----- Merging is flattening, then keeping the first entry of every key -----------------

  // `c` applied to a target: add the missing entries, or fail as `c` does.
  function Applied(same: Same<Node>, entries: seq<Entry>, c: Merged): Merged {
    match c
    case Err(e) => Err(e)
    case Ok(candidates) => Ok(InsertMissing(same, entries, candidates))
  }

  /** The candidates with repetitions removed; own entries are never compared. */
  function Flattened(same: Same<Node>, entries: seq<Entry>, depth: nat): Merged {
    match Candidates(entries, depth)
    case Err(e) => Err(e)
    case Ok(c) => OwnStartsCandidates(entries, depth); Ok(InsertMissing(same, Own(entries), c[|Own(entries)|..]))
  }

  /** `r` is the checked outcome of adding `c`: the first entry of every key, or the
      depth error if a key cannot be looked for. A failing `c` fails as it does,
      unless a key past the limit was met before. */
  ghost predicate Outcome(own: seq<Entry>, c: Merged, r: Merged) {
    match c
    case Err(e) => r == Err(e) || r == Err(DepthExceeded)
    case Ok(added) => r == if Scans(own, added) then Ok(InsertMissing(ByIdentity, own, added)) else Err(DepthExceeded)
  }

  function Added(entries: seq<Entry>, depth: nat): Merged {
    match Candidates(entries, depth)
    case Err(e) => Err(e)
    case Ok(c) => OwnStartsCandidates(entries, depth); Ok(c[|Own(entries)|..])
  }

  /** Strict merging keeps, of the flat candidates, the first entry of every key,
      and fails exactly if the candidates do or an added key cannot be looked for
      among those before it. */
  lemma {:induction false} StrictMergeIsFlattening(entries: seq<Entry>, depth: nat)
    ensures Outcome(Own(entries), Added(entries, depth), MergeEntries(entries, depth))
    ensures MergeEntries(entries, depth).Ok? ==> MergeEntries(entries, depth) == Flattened(ByIdentity, entries, depth)
    decreases entries, 0
  {
    hide Scans;
    match MergePosition(entries) {
      case None => NothingScans(entries); assert entries[|entries|..] == [];
      case Some(i) =>
        var own := RemoveAt(entries, i);
        MergeSourceIsFlattening(own, entries[i], depth);
        var sources := SourceCandidates(entries[i], depth);
        if sources.Ok? {
          assert (own + sources.value)[|own|..] == sources.value;
        }
    }
  }

  lemma {:induction false} MergeSourceIsFlattening(entries: seq<Entry>, merge: Entry, depth: nat)
    ensures Outcome(entries, SourceCandidates(merge, depth), MergeSource(entries, merge, depth))
    decreases merge, 0
  {
    match merge.1.value {
      case Mapping(source) => InsertExpanded(entries, source, depth + 1);
      case Sequence(items) => MergeListIsFlattening(entries, items, depth + 1);
      case _ =>
    }
  }

  lemma {:induction false} MergeListIsFlattening(entries: seq<Entry>, items: seq<Node>, depth: nat)
    ensures Outcome(entries, ListCandidates(items, depth), MergeList(entries, items, depth))
    decreases items, 1
  {
    hide Scans;
    if items == [] {
      NothingScans(entries);
    } else {
      var next := MergeItem(entries, items[0], depth);
      MergeItemIsFlattening(entries, items[0], depth);
      var first, rest := ItemCandidates(items[0], depth), ListCandidates(items[1..], depth);
      if next.Ok? {
        MergeListIsFlattening(next.value, items[1..], depth);
      }
      if first.Ok? && rest.Ok? {
        InsertMissingConcat(ByIdentity, entries, first.value, rest.value);
        ScansConcat(entries, first.value, rest.value);
      }
    }
  }

  lemma {:induction false} MergeItemIsFlattening(entries: seq<Entry>, item: Node, depth: nat)
    ensures Outcome(entries, ItemCandidates(item, depth), MergeItem(entries, item, depth))
    decreases item, 0
  {
    if item.value.Mapping? {
      InsertExpanded(entries, item.value.entries, depth);
    }
  }

  function Inserted(entries: seq<Entry>, expanded: Merged): Merged {
    match expanded
    case Err(e) => Err(e)
    case Ok(source) => InsertMissingChecked(entries, source)
  }

  // A source expanded first and inserted then, against its flat candidates.
  lemma {:induction false} InsertExpanded(entries: seq<Entry>, source: seq<Entry>, depth: nat)
    ensures Outcome(entries, Candidates(source, depth), Inserted(entries, MergeEntries(source, depth)))
    decreases source, 1
  {
    hide Scans, InsertMissing, Own;
    StrictMergeIsFlattening(source, depth);
    if Candidates(source, depth).Ok? {
      var c, own := Candidates(source, depth).value, Own(source);
      OwnStartsCandidates(source, depth);
      var rest := c[|own|..];
      assert c == own + rest;
      ScansFlattened(entries, own, rest);
      IdentityIsEquivalence();
      InsertMissingFlattens(ByIdentity, entries, own, rest);
      InsertMissingConcat(ByIdentity, entries, own, rest);
      InsertionScans(entries, InsertMissing(ByIdentity, own, rest));
    } else if MergeEntries(source, depth).Ok? {
      assert false;
    }
  }
}
