// The tracker of seen keys (src/key_identity.rs): four inline slots that spill
// into a hash map at the fifth distinct key.
module DuplicateTracker {
  import opened Prelude
  import opened Nodes
  import opened KeyIdentity

  const INLINE_LIMIT := 4

  type Seen = map<DuplicateKey, Span>
  type Slot = Option<(DuplicateKey, Span)>

  /** The reference: a plain map that keeps the first span of every key. */
  function Remember(seen: Seen, key: DuplicateKey, span: Span): Seen {
    if key in seen then seen else seen[key := span]
  }

  function Answer(seen: Seen, key: DuplicateKey): Slot {
    if key in seen then Some((key, seen[key])) else None
  }

  function SlotMap(slots: seq<Slot>): Seen {
    if slots == [] then map[]
    else
      var rest := SlotMap(slots[..|slots| - 1]);
      match slots[|slots| - 1]
      case None => rest
      case Some((key, span)) => rest[key := span]
  }

  // Slots fill from the left and never repeat a key.
  ghost predicate Filled(slots: seq<Slot>, count: nat) {
    && count <= |slots|
    && (forall i :: 0 <= i < |slots| ==> (slots[i].Some? <==> i < count))
    && (forall i, j :: 0 <= i < j < count ==> slots[i].value.0 != slots[j].value.0)
  }

  lemma {:induction false} SlotMapLookup(slots: seq<Slot>, count: nat)
    requires Filled(slots, count)
    ensures forall key :: key in SlotMap(slots) <==> exists i :: 0 <= i < count && slots[i].value.0 == key
    ensures forall i :: 0 <= i < count ==> SlotMap(slots)[slots[i].value.0] == slots[i].value.1
  {
    if slots != [] {
      var init := slots[..|slots| - 1];
      SlotMapLookup(init, if count == |slots| then count - 1 else count);
      forall i | 0 <= i < count ensures slots[i].value.0 in SlotMap(slots) && SlotMap(slots)[slots[i].value.0] == slots[i].value.1 {
        if i < |init| { assert init[i] == slots[i]; }
      }
      forall key | key in SlotMap(slots) ensures exists i :: 0 <= i < count && slots[i].value.0 == key {
        if key in SlotMap(init) {
          var i :| 0 <= i < |init| && init[i].Some? && init[i].value.0 == key;
          assert slots[i] == init[i];
        } else {
          assert slots[|slots| - 1].value.0 == key;
        }
      }
    }
  }

  class DuplicateKeyTracker {
    const inline: array<Slot>
    var overflow: Option<Seen>

    ghost predicate Valid()
      reads this, inline
    {
      && inline.Length == INLINE_LIMIT
      && if overflow.Some? then forall i :: 0 <= i < INLINE_LIMIT ==> inline[i].None?
         else exists count: nat :: Filled(inline[..], count)
    }

    /** The keys seen so far, wherever they are stored. */
    ghost function Contents(): Seen
      reads this, inline
    {
      match overflow
      case Some(seen) => seen
      case None => SlotMap(inline[..])
    }

    constructor ()
      ensures Valid() && fresh(inline)
      ensures Contents() == map[]
    {
      inline := new Slot[INLINE_LIMIT](_ => None);
      overflow := None;
      new;
      assert Filled(inline[..], 0);
      SlotMapLookup(inline[..], 0);
    }

    // Moves every occupied slot into a new map.
    method Spill(ghost count: nat) returns (seen: Seen)
      requires inline.Length == INLINE_LIMIT && Filled(inline[..], count) && count == INLINE_LIMIT
      modifies inline
      ensures seen == SlotMap(old(inline[..]))
      ensures forall i :: 0 <= i < INLINE_LIMIT ==> inline[i].None?
    {
      seen := map[];
      for i := 0 to INLINE_LIMIT
        invariant seen == SlotMap(old(inline[..i]))
        invariant forall j :: 0 <= j < INLINE_LIMIT ==> inline[j] == if j < i then None else old(inline[j])
      {
        assert old(inline[..i + 1])[..i] == old(inline[..i]);
        seen := seen[inline[i].value.0 := inline[i].value.1];
        inline[i] := None;
      }
      assert old(inline[..INLINE_LIMIT]) == old(inline[..]);
    }

    method Insert(key: DuplicateKey, span: Span) returns (duplicate: Slot)
      requires Valid()
      modifies this, inline
      ensures Valid()
      ensures duplicate == Answer(old(Contents()), key)
      ensures Contents() == Remember(old(Contents()), key, span)
    {
      hide SlotMap;
      if overflow.Some? {
        duplicate := Answer(overflow.value, key);
        overflow := Some(Remember(overflow.value, key, span));
        return;
      }
      ghost var count: nat :| Filled(inline[..], count);
      SlotMapLookup(inline[..], count);

      for i := 0 to INLINE_LIMIT
        invariant forall j :: 0 <= j < i && j < count ==> inline[j].value.0 != key
      {
        if inline[i].Some? && inline[i].value.0 == key {
          return Some((key, inline[i].value.1));
        }
      }

      for i := 0 to INLINE_LIMIT
        invariant i <= count
      {
        if inline[i].None? {
          inline[i] := Some((key, span));
          SlotAdded(old(inline[..]), count, key, span);
          assert inline[..] == old(inline[..])[count := Some((key, span))];
          return None;
        }
      }

      var seen := Spill(count);
      duplicate := Answer(seen, key);
      seen := Remember(seen, key, span);
      overflow := Some(seen);
    }
  }

  lemma SlotsAgree(before: seq<Slot>, after: seq<Slot>, count: nat)
    requires Filled(before, count) && Filled(after, count + 1) && |before| == |after|
    requires forall i :: 0 <= i < count ==> before[i] == after[i]
    ensures SlotMap(after) == SlotMap(before)[after[count].value.0 := after[count].value.1]
  {
    SlotMapLookup(before, count);
    SlotMapLookup(after, count + 1);
    var m, n := SlotMap(before)[after[count].value.0 := after[count].value.1], SlotMap(after);
    forall key ensures key in m <==> key in n {
      if key in m && key != after[count].value.0 {
        var i :| 0 <= i < count && before[i].value.0 == key;
        assert after[i].value.0 == key;
      }
    }
    forall key | key in n ensures m[key] == n[key] {
      var i :| 0 <= i < count + 1 && after[i].value.0 == key;
    }
  }

  // A key no slot holds takes the first free one.
  lemma SlotAdded(before: seq<Slot>, count: nat, key: DuplicateKey, span: Span)
    requires Filled(before, count) && count < |before| && forall j :: 0 <= j < count ==> before[j].value.0 != key
    ensures var after := before[count := Some((key, span))];
            && Filled(after, count + 1) && SlotMap(after) == Remember(SlotMap(before), key, span) && Answer(SlotMap(before), key) == None
  {
    hide SlotMap;
    var after := before[count := Some((key, span))];
    SlotMapLookup(before, count);
    SlotsAgree(before, after, count);
  }

  // ----- Whole runs -------------------------------------------------------------------

  type Insertion = (DuplicateKey, Span)

  function SeenAfter(run: seq<Insertion>): Seen {
    if run == [] then map[]
    else Remember(SeenAfter(run[..|run| - 1]), run[|run| - 1].0, run[|run| - 1].1)
  }

  /** What a tracker must answer at step `i`: the first earlier use of the key. */
  ghost predicate AnswersFirstUse(run: seq<Insertion>, i: nat, answer: Slot)
    requires i < |run|
  {
    match answer
    case None => forall j :: 0 <= j < i ==> run[j].0 != run[i].0
    case Some((key, span)) =>
      && key == run[i].0
      && exists j :: 0 <= j < i && run[j] == (key, span) && forall k :: 0 <= k < j ==> run[k].0 != key
  }

  lemma {:induction false} SeenAfterKeepsFirstSpans(run: seq<Insertion>, key: DuplicateKey)
    ensures key !in SeenAfter(run) ==> forall j :: 0 <= j < |run| ==> run[j].0 != key
    ensures key in SeenAfter(run) ==>
              exists j :: 0 <= j < |run| && run[j] == (key, SeenAfter(run)[key]) && forall k :: 0 <= k < j ==> run[k].0 != key
  {
    if run != [] {
      var init := run[..|run| - 1];
      SeenAfterKeepsFirstSpans(init, key);
      if key in SeenAfter(init) {
        var j :| 0 <= j < |init| && init[j] == (key, SeenAfter(init)[key]) && forall k :: 0 <= k < j ==> init[k].0 != key;
        assert run[j] == init[j];
        assert forall k :: 0 <= k < j ==> run[k] == init[k];
      } else {
        assert forall k :: 0 <= k < |init| ==> run[k] == init[k];
        assert key in SeenAfter(run) ==> run[|run| - 1] == (key, SeenAfter(run)[key]);
      }
    }
  }

  lemma AnswerIsFirstUse(run: seq<Insertion>, i: nat)
    requires i < |run|
    ensures AnswersFirstUse(run, i, Answer(SeenAfter(run[..i]), run[i].0))
  {
    var before, key := run[..i], run[i].0;
    SeenAfterKeepsFirstSpans(before, key);
    assert forall j :: 0 <= j < i ==> before[j] == run[j];
  }

  /** One run over a fresh tracker, as the loader checks the keys of a mapping. */
  method TrackAll(run: seq<Insertion>) returns (answers: seq<Slot>)
    ensures |answers| == |run|
    ensures forall i :: 0 <= i < |run| ==> AnswersFirstUse(run, i, answers[i])
  {
    hide AnswersFirstUse;
    var tracker := new DuplicateKeyTracker();
    answers := [];
    for i := 0 to |run|
      invariant tracker.Valid() && fresh(tracker) && fresh(tracker.inline)
      invariant tracker.Contents() == SeenAfter(run[..i])
      invariant |answers| == i
      invariant forall j :: 0 <= j < i ==> AnswersFirstUse(run, j, answers[j])
    {
      var answer := tracker.Insert(run[i].0, run[i].1);
      AnswerIsFirstUse(run, i);
      assert run[..i + 1][..i] == run[..i];
      answers := answers + [answer];
    }
  }
}
