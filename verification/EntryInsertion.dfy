// Which entries `InsertMissing` adds, place by place, for any notion of equal keys.
module EntryInsertion {
  import opened EntryLists

  // ----- Which entries are added -----------------------------------------------------------------

  /** The entries at the chosen places, in order. */
  function Chosen<K, V>(extra: seq<(K, V)>, places: set<nat>): seq<(K, V)> {
    if extra == [] then []
    else Chosen(extra[..|extra| - 1], places) + if |extra| - 1 in places then [extra[|extra| - 1]] else []
  }

  /** A place is chosen exactly if its key is neither there nor at an earlier chosen place. */
  ghost predicate ChoosesMissing<K, V>(same: Same<K>, entries: seq<(K, V)>, extra: seq<(K, V)>, places: set<nat>) {
    forall j: nat :: j < |extra| ==>
      (j in places <==> !HasKey(same, entries, extra[j].0) && forall i: nat :: i < j && i in places ==> !same(extra[i].0, extra[j].0))
  }

  lemma {:induction false} ChosenKeys<K, V>(same: Same<K>, extra: seq<(K, V)>, places: set<nat>, key: K)
    ensures HasKey(same, Chosen(extra, places), key) <==> exists i: nat :: i < |extra| && i in places && same(extra[i].0, key)
  {
    if extra != [] {
      var n := |extra| - 1;
      var last := if n in places then [extra[n]] else [];
      ChosenKeys(same, extra[..n], places, key);
      HasKeyConcat(same, Chosen(extra[..n], places), last, key);
      assert HasKey(same, last, key) <==> n in places && same(extra[n].0, key) by {
        if n in places { assert last[0] == extra[n]; }
      }
      assert forall i: nat :: i < n ==> extra[..n][i] == extra[i];
    }
  }

  lemma {:induction false} ChosenBelow<K, V>(extra: seq<(K, V)>, x: set<nat>, y: set<nat>)
    requires forall i: nat :: i < |extra| ==> (i in x <==> i in y)
    ensures Chosen(extra, x) == Chosen(extra, y)
  {
    if extra != [] { ChosenBelow(extra[..|extra| - 1], x, y); }
  }

  lemma ChooseLast<K, V>(same: Same<K>, entries: seq<(K, V)>, extra: seq<(K, V)>, places: set<nat>)
    requires extra != [] && ChoosesMissing(same, entries, extra[..|extra| - 1], places) && |extra| - 1 !in places
    ensures var n := |extra| - 1;
            var all := if HasKey(same, entries + Chosen(extra[..n], places), extra[n].0) then places else places + {n as nat};
            ChoosesMissing(same, entries, extra, all)
  {
    var n: nat := |extra| - 1;
    var key := extra[n].0;
    ChosenKeys(same, extra[..n], places, key);
    HasKeyConcat(same, entries, Chosen(extra[..n], places), key);
    var all := if HasKey(same, entries + Chosen(extra[..n], places), key) then places else places + {n};
    forall j: nat | j < |extra|
      ensures j in all <==> !HasKey(same, entries, extra[j].0) && forall i: nat :: i < j && i in all ==> !same(extra[i].0, extra[j].0)
    {
      if j < n { assert extra[..n][j] == extra[j]; }
      assert forall i: nat :: i < n ==> extra[..n][i] == extra[i];
    }
  }

  /** What is inserted: behind the entries the new ones, in order, of every key that is
      missing the first, whatever is called equal. */
  lemma {:induction false} InsertedInOrder<K, V>(same: Same<K>, entries: seq<(K, V)>, extra: seq<(K, V)>) returns (places: set<nat>)
    ensures ChoosesMissing(same, entries, extra, places) && forall i :: i in places ==> i < |extra|
    ensures InsertMissing(same, entries, extra) == entries + Chosen(extra, places)
    decreases |extra|
  {
    hide InsertMissing, ChoosesMissing, HasKey;
    if extra == [] {
      places := {};
      NothingInserted(same, entries, extra);
    } else {
      var n := |extra| - 1;
      var before := InsertedInOrder(same, entries, extra[..n]);
      places := if HasKey(same, entries + Chosen(extra[..n], before), extra[n].0) then before else before + {n as nat};
      ChooseLast(same, entries, extra, before);
      ChosenBelow(extra[..n], before, places);
      LastInserted(same, entries, extra);
      assert entries + (Chosen(extra[..n], before) + [extra[n]]) == entries + Chosen(extra[..n], before) + [extra[n]];
    }
  }

  lemma NothingInserted<K, V>(same: Same<K>, entries: seq<(K, V)>, extra: seq<(K, V)>)
    requires extra == []
    ensures InsertMissing(same, entries, extra) == entries && ChoosesMissing(same, entries, extra, {})
  {
  }

  lemma LastInserted<K, V>(same: Same<K>, entries: seq<(K, V)>, extra: seq<(K, V)>)
    requires extra != []
    ensures var n := |extra| - 1; InsertMissing(same, entries, extra) == AddMissing(same, InsertMissing(same, entries, extra[..n]), extra[n])
  {
    hide HasKey;
    var n := |extra| - 1;
    InsertMissingConcat(same, entries, extra[..n], [extra[n]]);
    assert extra == extra[..n] + [extra[n]];
    assert [extra[n]][1..] == [];
  }
}
