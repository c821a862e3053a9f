// `Mapping` as an ordered store (src/ast.rs): plain insertion, and the bulk
// construction that switches to a hash table for long inputs.
module MappingStore {
  import opened Prelude
  import opened V = Values
  import opened ValueHash

  const HASHED_DEDUP_THRESHOLD := 128

  function Position(entries: seq<Entry>, key: Value): (r: Option<nat>)
    ensures r.Some? ==> r.value < |entries| && ValueEq(entries[r.value].0, key)
    ensures r.Some? ==> forall i :: 0 <= i < r.value ==> !ValueEq(entries[i].0, key)
    ensures r.None? ==> forall i :: 0 <= i < |entries| ==> !ValueEq(entries[i].0, key)
  {
    PositionFrom(entries, key, 0)
  }

  function PositionFrom(entries: seq<Entry>, key: Value, from: nat): (r: Option<nat>)
    requires from <= |entries|
    ensures r.Some? ==> from <= r.value < |entries| && ValueEq(entries[r.value].0, key)
    ensures r.Some? ==> forall i :: from <= i < r.value ==> !ValueEq(entries[i].0, key)
    ensures r.None? ==> forall i :: from <= i < |entries| ==> !ValueEq(entries[i].0, key)
    decreases |entries| - from
  {
    if from == |entries| then None
    else if ValueEq(entries[from].0, key) then Some(from)
    else PositionFrom(entries, key, from + 1)
  }

  /** The entries after inserting one: the key that is already there stays. */
  function Inserted(entries: seq<Entry>, e: Entry): seq<Entry> {
    match Position(entries, e.0)
    case Some(i) => entries[i := (entries[i].0, e.1)]
    case None => entries + [e]
  }

  function InsertedAll(list: seq<Entry>): seq<Entry> {
    if list == [] then [] else Inserted(InsertedAll(list[..|list| - 1]), list[|list| - 1])
  }

  // ----- What inserting a whole list means -------------------------------------

  ghost predicate ValidKeys(list: seq<Entry>) {
    forall i :: 0 <= i < |list| ==> Valid(list[i].0)
  }

  function LastPosition(list: seq<Entry>, key: Value): (r: Option<nat>)
    ensures r.Some? ==> r.value < |list| && ValueEq(list[r.value].0, key)
    ensures r.Some? ==> forall i :: r.value < i < |list| ==> !ValueEq(list[i].0, key)
    ensures r.None? ==> forall i :: 0 <= i < |list| ==> !ValueEq(list[i].0, key)
  {
    if list == [] then None
    else if ValueEq(list[|list| - 1].0, key) then Some(|list| - 1)
    else LastPosition(list[..|list| - 1], key)
  }

  // The key comes from its first place in the list, the value from its last.
  ghost predicate FirstKeyLastValue(list: seq<Entry>, e: Entry) {
    && Position(list, e.0).Some? && list[Position(list, e.0).value].0 == e.0
    && LastPosition(list, e.0).Some? && list[LastPosition(list, e.0).value].1 == e.1
  }

  function FirstPlace(list: seq<Entry>, key: Value): int {
    if Position(list, key).Some? then Position(list, key).value else |list|
  }

  // Equality of valid keys is an equivalence: it is equality of canonical forms.
  lemma KeyEqIsCanonical()
    ensures forall a, b :: Valid(a) && Valid(b) ==> (ValueEq(a, b) <==> Canon(a) == Canon(b))
  {
    forall a, b | Valid(a) && Valid(b) ensures ValueEq(a, b) <==> Canon(a) == Canon(b) {
      EqIsCanonicalEquality(a, b);
    }
  }

  lemma InsertedKeepsInvariant(entries: seq<Entry>, e: Entry)
    requires ValidKeys(entries) && UniqueKeys(entries) && Valid(e.0)
    ensures ValidKeys(Inserted(entries, e)) && UniqueKeys(Inserted(entries, e))
  {
    hide ValueEq, Canon, Valid;
    KeyEqIsCanonical();
  }

  lemma PositionAfterPush(list: seq<Entry>, e: Entry, key: Value)
    ensures Position(list, key).Some? ==> Position(list + [e], key) == Position(list, key)
    ensures Position(list, key).None? && ValueEq(e.0, key) ==> Position(list + [e], key) == Some(|list|)
  {
    hide ValueEq;
    var after := list + [e];
    var p, q := Position(list, key), Position(after, key);
    if p.Some? {
      assert after[p.value] == list[p.value];
      assert q.Some? && q.value <= p.value;
    } else if ValueEq(e.0, key) {
      assert after[|list|] == e;
    }
  }

  lemma NewKeyIsNotInList(list: seq<Entry>, s: seq<Entry>, key: Value)
    requires ValidKeys(list) && ValidKeys(s) && Valid(key)
    requires forall p :: 0 <= p < |list| ==> Position(s, list[p].0).Some?
    requires Position(s, key).None?
    ensures Position(list, key).None?
  {
    KeyEqIsCanonical();
    hide ValueEq, Canon, Valid;
    forall q | 0 <= q < |list| ensures !ValueEq(list[q].0, key) {
      var i := Position(s, list[q].0).value;
      assert !ValueEq(s[i].0, key);
    }
  }

  // A key of the store equals the new key exactly at the position found for it.
  lemma OnlyAtPosition(s: seq<Entry>, e: Entry, i: nat)
    requires ValidKeys(s) && UniqueKeys(s) && Valid(e.0) && i < |s|
    ensures ValueEq(e.0, s[i].0) <==> Position(s, e.0) == Some(i)
  {
    KeyEqIsCanonical();
    hide ValueEq, Canon, Valid;
    if Position(s, e.0).Some? {
      var p := Position(s, e.0).value;
      if p < i { assert !ValueEq(s[p].0, s[i].0); }
      if i < p { assert !ValueEq(s[i].0, s[p].0); }
    }
  }

  lemma KeysStayFindable(s: seq<Entry>, e: Entry, key: Value)
    requires ValidKeys(s) && Valid(e.0) && Valid(key)
    requires Position(s, key).Some? || key == e.0
    ensures Position(Inserted(s, e), key).Some?
  {
    KeyEqIsCanonical();
    hide ValueEq, Canon, Valid;
    var r := Inserted(s, e);
    var i := if Position(s, key).Some? then Position(s, key).value else |s|;
    assert ValueEq(r[i].0, key);
  }

  // One entry of the store, before and after one more insertion.
  lemma SourceAfterPush(list: seq<Entry>, e: Entry, old_entry: Entry)
    requires FirstKeyLastValue(list, old_entry)
    ensures FirstKeyLastValue(list + [e], if ValueEq(e.0, old_entry.0) then (old_entry.0, e.1) else old_entry)
    ensures FirstPlace(list + [e], old_entry.0) == FirstPlace(list, old_entry.0) < |list|
  {
    hide ValueEq;
    PositionAfterPush(list, e, old_entry.0);
    assert (list + [e])[..|list|] == list;
  }

  lemma SourceOfNew(list: seq<Entry>, e: Entry)
    requires Position(list, e.0).None? && Valid(e.0)
    ensures FirstKeyLastValue(list + [e], e)
    ensures FirstPlace(list + [e], e.0) == |list|
  {
    hide ValueEq;
    SameKeyIsEqual(e.0);
    PositionAfterPush(list, e, e.0);
  }

  /** Inserting a list keeps first keys and positions, and last values. */
  lemma {:induction false} InsertedAllMeaning(list: seq<Entry>)
    requires ValidKeys(list)
    ensures var r := InsertedAll(list);
            && ValidKeys(r) && UniqueKeys(r)
            && (forall i :: 0 <= i < |r| ==> FirstKeyLastValue(list, r[i]))
            && (forall i, j :: 0 <= i < j < |r| ==> FirstPlace(list, r[i].0) < FirstPlace(list, r[j].0))
            && (forall p :: 0 <= p < |list| ==> Position(r, list[p].0).Some?)
  {
    hide ValueEq, Valid, FirstKeyLastValue, FirstPlace, UniqueKeys;
    if list == [] {
      NoKeysAreUnique();
    } else {
      var before, e := list[..|list| - 1], list[|list| - 1];
      var s, r := InsertedAll(before), InsertedAll(list);
      assert list == before + [e];
      InsertedAllMeaning(before);
      InsertedKeepsInvariant(s, e);
      forall i | 0 <= i < |s|
        ensures FirstKeyLastValue(list, r[i]) && FirstPlace(list, r[i].0) == FirstPlace(before, s[i].0) < |before|
      {
        OnlyAtPosition(s, e, i);
        SourceAfterPush(before, e, s[i]);
      }
      if Position(s, e.0).None? {
        NewKeyIsNotInList(before, s, e.0);
        SourceOfNew(before, e);
      }
      forall q | 0 <= q < |list| ensures Position(r, list[q].0).Some? {
        KeysStayFindable(s, e, list[q].0);
      }
    }
  }

  lemma SameKeyIsEqual(key: Value)
    requires Valid(key)
    ensures ValueEq(key, key)
  {
    EqIsCanonicalEquality(key, key);
  }

  lemma NoKeysAreUnique()
    ensures UniqueKeys([])
  {
  }

  // ----- The class --------------------------------------------------------------

  // The hash table of positions: per hash, the stored keys with their positions.
  type Buckets = map<Word, seq<(Value, nat)>>

  function Bucket(table: Buckets, hash: Word): seq<(Value, nat)> {
    if hash in table then table[hash] else []
  }

  function FindIn(bucket: seq<(Value, nat)>, key: Value): (r: Option<nat>)
    ensures r.Some? ==> exists i :: 0 <= i < |bucket| && ValueEq(bucket[i].0, key) && bucket[i].1 == r.value
    ensures r.None? ==> forall i :: 0 <= i < |bucket| ==> !ValueEq(bucket[i].0, key)
  {
    if bucket == [] then None
    else if ValueEq(bucket[0].0, key) then Some(bucket[0].1)
    else
      var r := FindIn(bucket[1..], key);
      assert r.Some? ==> exists i :: 0 <= i < |bucket| - 1 && ValueEq(bucket[1..][i].0, key) && bucket[1..][i].1 == r.value;
      assert forall i :: 0 <= i < |bucket| - 1 ==> bucket[1..][i] == bucket[i + 1];
      r
  }

  ghost predicate IsStored(h: Hashers, table: Buckets, key: Value, position: nat) {
    (key, position) in Bucket(table, HashOf(h, key))
  }

  ghost predicate Indexes(h: Hashers, table: Buckets, entries: seq<Entry>) {
    && (forall hash: Word, x: (Value, nat) :: hash in table && x in table[hash] ==> x.1 < |entries| && entries[x.1].0 == x.0)
    && (forall p :: 0 <= p < |entries| ==> IsStored(h, table, entries[p].0, p))
  }

  // Looking a key up by hash finds what a scan of the entries finds.
  lemma LookupIsPosition(h: Hashers, table: Buckets, entries: seq<Entry>, key: Value)
    requires ValidKeys(entries) && UniqueKeys(entries) && Valid(key) && Indexes(h, table, entries)
    ensures FindIn(Bucket(table, HashOf(h, key)), key) == Position(entries, key)
  {
    var bucket := Bucket(table, HashOf(h, key));
    var found, p := FindIn(bucket, key), Position(entries, key);
    hide ValueEq, Valid, HashOf, FindIn, Position;
    if p.Some? {
      EqualValuesHashEqually(h, entries[p.value].0, key);
      assert IsStored(h, table, entries[p.value].0, p.value);
    }
    if found.Some? {
      var i :| 0 <= i < |bucket| && ValueEq(bucket[i].0, key) && bucket[i].1 == found.value;
      assert bucket[i] in bucket && entries[found.value].0 == bucket[i].0;
      OnlyAtPosition(entries, (key, key), found.value);
      EqIsSymmetric(bucket[i].0, key);
    }
  }

  lemma EqIsSymmetric(a: Value, b: Value)
    requires Valid(a) && Valid(b)
    ensures ValueEq(a, b) <==> ValueEq(b, a)
  {
    EqIsCanonicalEquality(a, b);
    EqIsCanonicalEquality(b, a);
  }

  lemma NothingIsIndexed(h: Hashers)
    ensures Indexes(h, map[], [])
  {
  }

  // The table after storing one more position, and after a value changed.
  lemma IndexesAfterPush(h: Hashers, table: Buckets, entries: seq<Entry>, e: Entry)
    requires Indexes(h, table, entries)
    ensures var hash := HashOf(h, e.0);
            Indexes(h, table[hash := Bucket(table, hash) + [(e.0, |entries|)]], entries + [e])
  {
    hide HashOf;
    var hash := HashOf(h, e.0);
    var bucket: seq<(Value, nat)> := Bucket(table, hash) + [(e.0, |entries|)];
    var table', entries' := table[hash := bucket], entries + [e];
    forall p | 0 <= p < |entries'| ensures IsStored(h, table', entries'[p].0, p) {
      if p < |entries| {
        var key := entries[p].0;
        assert entries'[p] == entries[p] && IsStored(h, table, key, p);
        assert Bucket(table, HashOf(h, key)) <= Bucket(table', HashOf(h, key));
      } else {
        assert Bucket(table', hash)[|bucket| - 1] == (e.0, |entries|);
      }
    }
  }

  lemma IndexesAfterUpdate(h: Hashers, table: Buckets, entries: seq<Entry>, i: nat, value: Value)
    requires Indexes(h, table, entries) && i < |entries|
    ensures Indexes(h, table, entries[i := (entries[i].0, value)])
  {
    hide HashOf, IsStored;
    var entries' := entries[i := (entries[i].0, value)];
    forall p | 0 <= p < |entries'| ensures IsStored(h, table, entries'[p].0, p) {
      assert entries'[p].0 == entries[p].0;
    }
  }

  class Mapping {
    var entries: seq<Entry>

    ghost predicate Invariant()
      reads this
    {
      ValidKeys(entries) && UniqueKeys(entries)
    }

    constructor ()
      ensures entries == []
    {
      entries := [];
    }

    method Insert(key: Value, value: Value) returns (old_value: Option<Value>)
      requires Invariant() && Valid(key)
      modifies this
      ensures Invariant()
      ensures entries == Inserted(old(entries), (key, value))
      ensures old_value == match Position(old(entries), key)
                           case Some(i) => Some(old(entries)[i].1)
                           case None => None
    {
      InsertedKeepsInvariant(entries, (key, value));
      hide ValueEq, Valid, UniqueKeys, ValidKeys;
      var i := 0;
      while i < |entries|
        invariant 0 <= i <= |entries|
        invariant forall j :: 0 <= j < i ==> !ValueEq(entries[j].0, key)
        invariant entries == old(entries)
      {
        if ValueEq(entries[i].0, key) {
          old_value := Some(entries[i].1);
          entries := entries[i := (entries[i].0, value)];
          return;
        }
        i := i + 1;
      }
      entries := entries + [(key, value)];
      old_value := None;
    }

    // `hasher` is the randomly keyed hasher of the table, with the default one
    // inside mappings.
    constructor FromDeserializedEntries(list: seq<Entry>, hasher: Hashers)
      requires ValidKeys(list)
      ensures Invariant()
      ensures entries == InsertedAll(list)
    {
      entries := [];
      new;
      hide ValueEq, Valid, UniqueKeys, HashOf, Indexes;
      NoKeysAreUnique();
      if |list| < HASHED_DEDUP_THRESHOLD {
        for i := 0 to |list|
          invariant Invariant() && entries == InsertedAll(list[..i])
        {
          var _ := Insert(list[i].0, list[i].1);
          assert list[..i + 1][..i] == list[..i];
        }
      } else {
        var positions: Buckets := map[];
        assert Indexes(hasher, positions, []) by { NothingIsIndexed(hasher); }
        for i := 0 to |list|
          invariant Invariant() && entries == InsertedAll(list[..i])
          invariant Indexes(hasher, positions, entries)
        {
          var (key, value) := list[i];
          var hash := HashOf(hasher, key);
          LookupIsPosition(hasher, positions, entries, key);
          InsertedKeepsInvariant(entries, list[i]);
          match FindIn(Bucket(positions, hash), key) {
            case Some(index) =>
              IndexesAfterUpdate(hasher, positions, entries, index, value);
              entries := entries[index := (entries[index].0, value)];
            case None =>
              IndexesAfterPush(hasher, positions, entries, list[i]);
              positions := positions[hash := Bucket(positions, hash) + [(key, |entries|)]];
              entries := entries + [(key, value)];
          }
          assert list[..i + 1][..i] == list[..i];
        }
      }
      assert list[..|list|] == list;
    }
  }
}
