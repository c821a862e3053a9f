// Entry lists and the operation every merge path is built from: append the
// entries whose key is not there yet, under some notion of equal keys.
module EntryLists {
  import opened Prelude

  type Same<!K> = (K, K) -> bool

  predicate HasKey<K, V>(same: Same<K>, entries: seq<(K, V)>, key: K) {
    exists i :: 0 <= i < |entries| && same(entries[i].0, key)
  }

  lemma HasKeyConcat<K, V>(same: Same<K>, x: seq<(K, V)>, y: seq<(K, V)>, key: K)
    ensures HasKey(same, x + y, key) <==> HasKey(same, x, key) || HasKey(same, y, key)
  {
    var s := x + y;
    assert forall i :: 0 <= i < |x| ==> s[i] == x[i];
    assert forall i :: 0 <= i < |y| ==> s[|x| + i] == y[i];
  }

  function AddMissing<K, V>(same: Same<K>, entries: seq<(K, V)>, e: (K, V)): seq<(K, V)> {
    if HasKey(same, entries, e.0) then entries else entries + [e]
  }

  function InsertMissing<K, V>(same: Same<K>, entries: seq<(K, V)>, extra: seq<(K, V)>): seq<(K, V)>
    decreases extra
  {
    if extra == [] then entries
    else InsertMissing(same, AddMissing(same, entries, extra[0]), extra[1..])
  }

  ghost predicate Equivalence<K(!new)>(same: Same<K>) {
    && (forall a :: same(a, a))
    && (forall a, b :: same(a, b) ==> same(b, a))
    && (forall a, b, c :: same(a, b) && same(b, c) ==> same(a, c))
  }

  lemma {:induction false} InsertMissingConcat<K, V>(same: Same<K>, entries: seq<(K, V)>, x: seq<(K, V)>, y: seq<(K, V)>)
    ensures InsertMissing(same, entries, x + y) == InsertMissing(same, InsertMissing(same, entries, x), y)
    decreases x
  {
    if x == [] {
      assert x + y == y;
    } else {
      assert (x + y)[1..] == x[1..] + y;
      InsertMissingConcat(same, AddMissing(same, entries, x[0]), x[1..], y);
    }
  }

  lemma {:induction false} InsertMissingExtends<K, V>(same: Same<K>, entries: seq<(K, V)>, extra: seq<(K, V)>)
    ensures entries <= InsertMissing(same, entries, extra)
    decreases extra
  {
    if extra != [] {
      InsertMissingExtends(same, AddMissing(same, entries, extra[0]), extra[1..]);
    }
  }

  lemma {:induction false} InsertMissingTakesFrom<K, V>(same: Same<K>, entries: seq<(K, V)>, extra: seq<(K, V)>)
    ensures forall e :: e in InsertMissing(same, entries, extra) ==> e in entries || e in extra
    decreases extra
  {
    if extra != [] {
      InsertMissingTakesFrom(same, AddMissing(same, entries, extra[0]), extra[1..]);
    }
  }

  // The keys present afterwards are the keys of both lists.
  lemma {:induction false} KeysAfterInsert<K(!new), V>(same: Same<K>, entries: seq<(K, V)>, extra: seq<(K, V)>, key: K)
    requires Equivalence(same)
    ensures HasKey(same, InsertMissing(same, entries, extra), key) <==> HasKey(same, entries, key) || HasKey(same, extra, key)
    decreases extra
  {
    if extra != [] {
      var e := extra[0];
      var next := AddMissing(same, entries, e);
      KeysAfterInsert(same, next, extra[1..], key);
      assert HasKey(same, extra, key) <==> same(e.0, key) || HasKey(same, extra[1..], key) by {
        assert extra == [e] + extra[1..];
      }
      assert HasKey(same, next, key) <==> HasKey(same, entries, key) || same(e.0, key) by {
        if !HasKey(same, entries, e.0) {
          assert next[|entries|] == e;
          assert forall i :: 0 <= i < |entries| ==> next[i] == entries[i];
        }
      }
    }
  }

  // Removing repetitions early, inside a source, changes nothing at the target.
  lemma {:induction false} InsertMissingFlattens<K(!new), V>(same: Same<K>, entries: seq<(K, V)>, x: seq<(K, V)>, y: seq<(K, V)>)
    requires Equivalence(same)
    ensures InsertMissing(same, entries, InsertMissing(same, x, y)) == InsertMissing(same, InsertMissing(same, entries, x), y)
    decreases y
  {
    if y != [] {
      var e := y[0];
      InsertMissingFlattens(same, entries, AddMissing(same, x, e), y[1..]);
      KeysAfterInsert(same, entries, x, e.0);
      InsertMissingConcat(same, entries, x, [e]);
      assert InsertMissing(same, InsertMissing(same, entries, x), [e]) == AddMissing(same, InsertMissing(same, entries, x), e);
    }
  }

  /** The first entry with the key. */
  function Lookup<K, V>(same: Same<K>, entries: seq<(K, V)>, key: K): Option<(K, V)> {
    if entries == [] then None
    else if same(entries[0].0, key) then Some(entries[0])
    else Lookup(same, entries[1..], key)
  }

  lemma {:induction false} LookupConcat<K, V>(same: Same<K>, x: seq<(K, V)>, y: seq<(K, V)>, key: K)
    ensures Lookup(same, x + y, key) == if Lookup(same, x, key).Some? then Lookup(same, x, key) else Lookup(same, y, key)
  {
    if x == [] {
      assert x + y == y;
    } else {
      assert (x + y)[1..] == x[1..] + y;
      LookupConcat(same, x[1..], y, key);
    }
  }

  lemma {:induction false} LookupFindsKey<K, V>(same: Same<K>, entries: seq<(K, V)>, key: K)
    ensures Lookup(same, entries, key).Some? <==> HasKey(same, entries, key)
  {
    if entries != [] {
      LookupFindsKey(same, entries[1..], key);
      assert entries == [entries[0]] + entries[1..];
    }
  }

  // Precedence: what is there first wins.
  lemma {:induction false} LookupAfterInsert<K(!new), V>(same: Same<K>, entries: seq<(K, V)>, extra: seq<(K, V)>, key: K)
    requires Equivalence(same)
    ensures Lookup(same, InsertMissing(same, entries, extra), key)
         == if Lookup(same, entries, key).Some? then Lookup(same, entries, key) else Lookup(same, extra, key)
    decreases extra
  {
    if extra != [] {
      var e := extra[0];
      LookupAfterInsert(same, AddMissing(same, entries, e), extra[1..], key);
      LookupConcat(same, entries, [e], key);
      LookupFindsKey(same, entries, key);
      LookupFindsKey(same, entries, e.0);
    }
  }

  // From position `from` on, no key repeats an earlier one.
  ghost predicate NewKeysFrom<K, V>(same: Same<K>, entries: seq<(K, V)>, from: nat) {
    forall i, j :: 0 <= i < j < |entries| && from <= j ==> !same(entries[i].0, entries[j].0)
  }

  lemma {:induction false} InsertMissingAddsNewKeys<K, V>(same: Same<K>, entries: seq<(K, V)>, extra: seq<(K, V)>, from: nat)
    requires NewKeysFrom(same, entries, from)
    ensures NewKeysFrom(same, InsertMissing(same, entries, extra), from)
    decreases extra
  {
    if extra != [] {
      InsertMissingAddsNewKeys(same, AddMissing(same, entries, extra[0]), extra[1..], from);
    }
  }
}
