// A source-preserving edit session (src/lossless.rs): replacements are collected,
// sorted, checked for overlap and spliced into the source with a moving cursor.
// Reparsing the result is a parameter.
module LosslessEdit {
  import opened Prelude
  import N = Nodes

  newtype Byte = x: int | 0 <= x < 256
  type Bytes = seq<Byte>
  type Span = N.Span

  /** No UTF-8 continuation byte starts at the offset. */
  predicate IsBoundary(source: Bytes, i: nat) {
    i == 0 || i == |source| || (i < |source| && !(128 <= source[i] < 192))
  }

  /** `str::get` of a range. */
  function Get(source: Bytes, start: nat, end: nat): Option<Bytes> {
    if start <= end <= |source| && IsBoundary(source, start) && IsBoundary(source, end)
    then Some(source[start..end]) else None
  }

  datatype EditError = OutsideSource | NotOnBoundary | Overlap(span: Span) | NotYaml

  datatype Replacement = Replacement(order: nat, start: nat, end: nat, span: Span, text: Bytes)

  predicate InSource(source: Bytes, r: Replacement) {
    r.start <= r.end <= |source| && IsBoundary(source, r.start) && IsBoundary(source, r.end)
  }

  // ----- Sorting ---------------------------------------------------------------------------

  predicate PlaceBefore(a: Replacement, b: Replacement) {
    a.start < b.start || (a.start == b.start && a.end <= b.end)
  }

  predicate SamePlace(a: Replacement, b: Replacement) {
    a.start == b.start && a.end == b.end
  }

  /** The sort key `(start, end, order)`. */
  predicate KeyBefore(a: Replacement, b: Replacement) {
    if SamePlace(a, b) then a.order <= b.order else PlaceBefore(a, b)
  }

  function Insert(r: Replacement, rs: seq<Replacement>): seq<Replacement> {
    if rs == [] || KeyBefore(r, rs[0]) then [r] + rs else [rs[0]] + Insert(r, rs[1..])
  }

  function Sorted(rs: seq<Replacement>): seq<Replacement> {
    if rs == [] then [] else Insert(rs[0], Sorted(rs[1..]))
  }

  ghost predicate InOrder(rs: seq<Replacement>) {
    forall i, j :: 0 <= i < j < |rs| ==> KeyBefore(rs[i], rs[j])
  }

  lemma {:induction false} InsertAdds(r: Replacement, rs: seq<Replacement>)
    ensures multiset(Insert(r, rs)) == multiset(rs) + multiset{r}
  {
    hide KeyBefore;
    if rs != [] && !KeyBefore(r, rs[0]) {
      InsertAdds(r, rs[1..]);
      ConsMultiset(rs);
    }
  }

  lemma KeyOrder(a: Replacement, b: Replacement, c: Replacement)
    ensures KeyBefore(a, b) || KeyBefore(b, a)
    ensures KeyBefore(a, b) && KeyBefore(b, c) ==> KeyBefore(a, c)
  {
  }

  // Something that is not after the first of an ordered list can stand in front.
  lemma InFront(r: Replacement, rs: seq<Replacement>)
    requires InOrder(rs) && (rs == [] || KeyBefore(r, rs[0]))
    ensures InOrder([r] + rs)
  {
    hide KeyBefore;
    forall k | 0 <= k < |rs| ensures KeyBefore(r, rs[k]) {
      if k > 0 { KeyOrder(r, rs[0], rs[k]); }
    }
  }

  lemma {:induction false} InsertKeepsOrder(r: Replacement, rs: seq<Replacement>)
    requires InOrder(rs)
    ensures InOrder(Insert(r, rs))
    ensures multiset(Insert(r, rs)) == multiset(rs) + multiset{r}
  {
    hide KeyBefore;
    InsertAdds(r, rs);
    if rs != [] && !KeyBefore(r, rs[0]) {
      var rest := Insert(r, rs[1..]);
      InsertKeepsOrder(r, rs[1..]);
      KeyOrder(r, rs[0], r);
      assert rest[0] == r || rest[0] == rs[1];
      InFront(rs[0], rest);
    } else {
      InFront(r, rs);
    }
  }

  lemma {:induction false} SortedIsOrdered(rs: seq<Replacement>)
    ensures InOrder(Sorted(rs)) && multiset(Sorted(rs)) == multiset(rs)
  {
    hide KeyBefore;
    if rs != [] {
      SortedIsOrdered(rs[1..]);
      InsertKeepsOrder(rs[0], Sorted(rs[1..]));
      ConsMultiset(rs);
    }
  }

  lemma SortedHasSame(rs: seq<Replacement>)
    ensures |Sorted(rs)| == |rs| && forall r :: r in Sorted(rs) <==> r in rs
  {
    SortedIsOrdered(rs);
    assert |multiset(Sorted(rs))| == |multiset(rs)|;
    assert forall r :: r in Sorted(rs) <==> r in multiset(Sorted(rs));
  }

  // ----- Overlap -----------------------------------------------------------------------------

  /** Two replacements touch a common byte, or one inserts inside the other. */
  predicate Conflict(a: Replacement, b: Replacement) {
    a.start < b.end && b.start < a.end
  }

  ghost predicate Compatible(rs: seq<Replacement>) {
    forall a, b :: a in rs && b in rs && a.order != b.order ==> !Conflict(a, b)
  }

  /** `validate_replacements`, on the sorted list. */
  function Validated(source: Bytes, rs: seq<Replacement>, cursor: nat): Option<EditError> {
    if rs == [] then
      if Get(source, cursor, |source|).None? then Some(NotOnBoundary) else None
    else if rs[0].start < cursor then Some(Overlap(rs[0].span))
    else if Get(source, cursor, rs[0].start).None? then Some(NotOnBoundary)
    else Validated(source, rs[1..], rs[0].end)
  }

  // Every replacement starts where the previous one ended, or later.
  predicate Chained(rs: seq<Replacement>, cursor: nat) {
    rs == [] || (cursor <= rs[0].start && Chained(rs[1..], rs[0].end))
  }

  ghost predicate AllInSource(source: Bytes, rs: seq<Replacement>) {
    forall i :: 0 <= i < |rs| ==> InSource(source, rs[i])
  }

  // On spans inside the source only overlap is ever reported.
  lemma {:induction false} ValidatedIsChained(source: Bytes, rs: seq<Replacement>, cursor: nat)
    requires AllInSource(source, rs) && cursor <= |source| && IsBoundary(source, cursor)
    ensures Validated(source, rs, cursor).None? <==> Chained(rs, cursor)
    ensures Validated(source, rs, cursor).Some? ==> Validated(source, rs, cursor).value.Overlap?
  {
    if rs != [] && cursor <= rs[0].start {
      ValidatedIsChained(source, rs[1..], rs[0].end);
    }
  }

  lemma {:induction false} ChainedStarts(rs: seq<Replacement>, cursor: nat, j: nat)
    requires Chained(rs, cursor) && j < |rs| && forall i :: 0 <= i < |rs| ==> rs[i].start <= rs[i].end
    ensures cursor <= rs[j].start
  {
    if j > 0 { ChainedStarts(rs[1..], rs[0].end, j - 1); }
  }

  ghost predicate Apart(r: Replacement, rs: seq<Replacement>) {
    forall j :: 0 <= j < |rs| ==> !Conflict(r, rs[j])
  }

  lemma CompatibleFront(rs: seq<Replacement>)
    requires rs != [] && forall i, j :: 0 <= i < j < |rs| ==> rs[i].order != rs[j].order
    ensures Compatible(rs) <==> Apart(rs[0], rs[1..]) && Compatible(rs[1..])
  {
    var rest := rs[1..];
    assert rs == [rs[0]] + rest;
    if Compatible(rs) {
      forall j | 0 <= j < |rest| ensures !Conflict(rs[0], rest[j]) {
        assert rest[j] == rs[j + 1] && rest[j] in rs;
      }
    }
    if Apart(rs[0], rest) && Compatible(rest) {
      forall a, b | a in rs && b in rs && a.order != b.order ensures !Conflict(a, b) {
        assert a == rs[0] || a in rest;
        assert b == rs[0] || b in rest;
      }
    }
  }

  // In order, replacements are apart exactly if the first ends before the others start.
  lemma ApartInOrder(rs: seq<Replacement>)
    requires rs != [] && InOrder(rs) && forall i :: 0 <= i < |rs| ==> rs[i].start <= rs[i].end
    ensures Apart(rs[0], rs[1..]) <==> forall j :: 0 <= j < |rs[1..]| ==> rs[0].end <= rs[1..][j].start
  {
    forall j | 0 <= j < |rs[1..]| ensures !Conflict(rs[0], rs[1..][j]) <==> rs[0].end <= rs[1..][j].start {
      assert rs[1..][j] == rs[j + 1] && KeyBefore(rs[0], rs[j + 1]);
    }
  }

  lemma {:induction false} ChainedIsCompatible(rs: seq<Replacement>, cursor: nat)
    requires InOrder(rs) && forall i :: 0 <= i < |rs| ==> cursor <= rs[i].start <= rs[i].end
    requires forall i, j :: 0 <= i < j < |rs| ==> rs[i].order != rs[j].order
    ensures Chained(rs, cursor) <==> Compatible(rs)
  {
    hide Compatible, Apart, KeyBefore;
    if rs == [] {
      NothingConflicts();
    } else {
      var rest := rs[1..];
      CompatibleFront(rs);
      ApartInOrder(rs);
      if Chained(rs, cursor) {
        forall j | 0 <= j < |rest| ensures rs[0].end <= rest[j].start {
          ChainedStarts(rest, rs[0].end, j);
        }
      }
      if forall j :: 0 <= j < |rest| ==> rs[0].end <= rest[j].start {
        ChainedIsCompatible(rest, rs[0].end);
      }
    }
  }

  lemma NothingConflicts()
    ensures Compatible([])
  {
  }

  // ----- Splicing -----------------------------------------------------------------------------

  /** The replacements lie one after the other between `cursor` and `length`. */
  predicate Fits(rs: seq<Replacement>, cursor: nat, length: nat) {
    if rs == [] then cursor <= length
    else cursor <= rs[0].start <= rs[0].end && Fits(rs[1..], rs[0].end, length)
  }

  lemma {:induction false} FitsBelow(rs: seq<Replacement>, cursor: nat, length: nat)
    requires Fits(rs, cursor, length)
    ensures cursor <= length
    ensures forall i :: 0 <= i < |rs| ==> cursor <= rs[i].start <= rs[i].end <= length
  {
    if rs != [] { FitsBelow(rs[1..], rs[0].end, length); }
  }

  lemma {:induction false} ChainedFits(source: Bytes, rs: seq<Replacement>, cursor: nat)
    requires AllInSource(source, rs) && cursor <= |source|
    ensures Fits(rs, cursor, |source|) <==> Chained(rs, cursor)
  {
    if rs != [] { ChainedFits(source, rs[1..], rs[0].end); }
  }

  /** The output of the splice loop from `cursor` on. */
  function Spliced(source: Bytes, rs: seq<Replacement>, cursor: nat): Bytes
    requires Fits(rs, cursor, |source|)
  {
    FitsBelow(rs, cursor, |source|);
    if rs == [] then source[cursor..]
    else source[cursor..rs[0].start] + rs[0].text + Spliced(source, rs[1..], rs[0].end)
  }

  /** One replacement, on its own. */
  function ReplaceAt(source: Bytes, r: Replacement): (t: Bytes)
    requires r.start <= r.end <= |source|
    ensures |t| == |source| - (r.end - r.start) + |r.text|
  {
    source[..r.start] + r.text + source[r.end..]
  }

  /** The replacements one at a time, the last of the list first. */
  function RightToLeft(source: Bytes, rs: seq<Replacement>): Bytes
    requires Fits(rs, 0, |source|)
    decreases |rs|
  {
    if rs == [] then source
    else
      var n := |rs| - 1;
      FitsBelow(rs, 0, |source|);
      LastFits(source, rs, 0);
      RightToLeft(ReplaceAt(source, rs[n]), rs[..n])
  }

  lemma {:induction false} LastFits(source: Bytes, rs: seq<Replacement>, cursor: nat)
    requires rs != [] && Fits(rs, cursor, |source|)
    ensures var n := |rs| - 1;
            && rs[n].start <= rs[n].end <= |source| && cursor <= rs[n].start
            && Fits(rs[..n], cursor, rs[n].start)
            && Fits(rs[..n], cursor, |ReplaceAt(source, rs[n])|)
  {
    FitsBelow(rs, cursor, |source|);
    var n := |rs| - 1;
    if n > 0 {
      LastFits(source, rs[1..], rs[0].end);
      assert rs[1..][..n - 1] == rs[..n][1..];
    }
  }

  // What comes later does not matter to the earlier replacements.
  lemma {:induction false} SpliceLast(source: Bytes, rs: seq<Replacement>, cursor: nat)
    requires rs != [] && Fits(rs, cursor, |source|)
    ensures var n := |rs| - 1;
            && rs[n].start <= rs[n].end <= |source|
            && Fits(rs[..n], cursor, |ReplaceAt(source, rs[n])|)
            && Spliced(ReplaceAt(source, rs[n]), rs[..n], cursor) == Spliced(source, rs, cursor)
  {
    LastFits(source, rs, cursor);
    var n := |rs| - 1;
    var next := ReplaceAt(source, rs[n]);
    if n == 0 {
      assert next[cursor..] == source[cursor..rs[0].start] + rs[0].text + source[rs[0].end..];
      assert Spliced(source, rs[1..], rs[0].end) == source[rs[0].end..];
    } else {
      SpliceLast(source, rs[1..], rs[0].end);
      assert rs[1..][..n - 1] == rs[..n][1..];
      FitsBelow(rs[..n], cursor, rs[n].start);
      SamePrefix(source, rs[n], cursor, rs[0].start);
    }
  }

  lemma SamePrefix(source: Bytes, r: Replacement, from: nat, to: nat)
    requires from <= to <= r.start <= r.end <= |source|
    ensures ReplaceAt(source, r)[from..to] == source[from..to]
  {
  }

  /** One pass with a cursor equals applying the replacements from right to left. */
  lemma {:induction false} SpliceIsRightToLeft(source: Bytes, rs: seq<Replacement>)
    requires Fits(rs, 0, |source|)
    ensures Spliced(source, rs, 0) == RightToLeft(source, rs)
    decreases |rs|
  {
    if rs != [] {
      var n := |rs| - 1;
      LastFits(source, rs, 0);
      SpliceLast(source, rs, 0);
      SpliceIsRightToLeft(ReplaceAt(source, rs[n]), rs[..n]);
    }
  }

  // ----- Sizes and surviving bytes ------------------------------------------------------------

  function Removed(rs: seq<Replacement>): int {
    if rs == [] then 0 else Removed(rs[..|rs| - 1]) + (rs[|rs| - 1].end - rs[|rs| - 1].start)
  }

  function Added(rs: seq<Replacement>): nat {
    if rs == [] then 0 else Added(rs[..|rs| - 1]) + |rs[|rs| - 1].text|
  }

  /** Replacements that fit never remove more than there is. */
  lemma {:induction false} SplicedLength(source: Bytes, rs: seq<Replacement>)
    requires Fits(rs, 0, |source|)
    ensures 0 <= Removed(rs) <= |source|
    ensures |Spliced(source, rs, 0)| == |source| - Removed(rs) + Added(rs)
    decreases |rs|
  {
    if rs != [] {
      var n := |rs| - 1;
      LastFits(source, rs, 0);
      SpliceLast(source, rs, 0);
      SplicedLength(source[..rs[n].start], rs[..n]);
      SplicedLength(ReplaceAt(source, rs[n]), rs[..n]);
    }
  }

  /** How far the byte at `i` moves: what is removed and added up to it. */
  function Shift(rs: seq<Replacement>, i: nat): int {
    if rs == [] then 0
    else (if rs[0].end <= i then |rs[0].text| - (rs[0].end - rs[0].start) else 0) + Shift(rs[1..], i)
  }

  predicate Covered(rs: seq<Replacement>, i: nat) {
    exists k :: 0 <= k < |rs| && rs[k].start <= i < rs[k].end
  }

  lemma PartsAt(a: Bytes, b: Bytes, c: Bytes, k: int)
    ensures 0 <= k < |a| ==> (a + b + c)[k] == a[k]
    ensures 0 <= k < |c| ==> (a + b + c)[|a| + |b| + k] == c[k]
  {
  }

  /** Every byte outside the replaced spans survives, at its shifted place. */
  lemma {:induction false} BytesSurvive(source: Bytes, rs: seq<Replacement>, cursor: nat, i: nat)
    requires Fits(rs, cursor, |source|) && cursor <= i < |source| && !Covered(rs, i)
    ensures 0 <= i - cursor + Shift(rs, i) < |Spliced(source, rs, cursor)|
    ensures Spliced(source, rs, cursor)[i - cursor + Shift(rs, i)] == source[i]
  {
    if rs != [] {
      FitsBelow(rs, cursor, |source|);
      hide Covered;
      var r, rest := rs[0], rs[1..];
      FirstUncovered(rs, i);
      var head, tail := source[cursor..r.start], Spliced(source, rest, r.end);
      assert Spliced(source, rs, cursor) == head + r.text + tail;
      if i < r.start {
        FitsBelow(rest, r.end, |source|);
        NoShift(rs, i);
        PartsAt(head, r.text, tail, i - cursor);
        assert head[i - cursor] == source[i];
      } else {
        BytesSurvive(source, rest, r.end, i);
        PartsAt(head, r.text, tail, i - r.end + Shift(rest, i));
      }
    }
  }

  lemma FirstUncovered(rs: seq<Replacement>, i: nat)
    requires rs != [] && !Covered(rs, i)
    ensures !(rs[0].start <= i < rs[0].end) && !Covered(rs[1..], i)
  {
    assert forall k :: 0 <= k < |rs[1..]| ==> rs[1..][k] == rs[k + 1];
  }

  lemma {:induction false} NoShift(rs: seq<Replacement>, i: nat)
    requires forall k :: 0 <= k < |rs| ==> i < rs[k].end
    ensures Shift(rs, i) == 0
  {
    if rs != [] { NoShift(rs[1..], i); }
  }

  // Survivors keep their order.
  lemma {:induction false} ShiftKeepsOrder(rs: seq<Replacement>, cursor: nat, length: nat, i: nat, j: nat)
    requires Fits(rs, cursor, length) && cursor <= i < j && !Covered(rs, i) && !Covered(rs, j)
    ensures i + Shift(rs, i) < j + Shift(rs, j)
  {
    if rs != [] {
      FitsBelow(rs, cursor, length);
      var rest := rs[1..];
      assert forall k :: 0 <= k < |rest| ==> rest[k] == rs[k + 1];
      assert !(rs[0].start <= i < rs[0].end) && !(rs[0].start <= j < rs[0].end);
      if rs[0].end <= i {
        ShiftKeepsOrder(rest, rs[0].end, length, i, j);
      } else {
        FitsBelow(rest, rs[0].end, length);
        NoShift(rs, i);
        if rs[0].end <= j { ShiftAtLeast(rest, rs[0].end, length, j); } else { NoShift(rs, j); }
      }
    }
  }

  lemma {:induction false} ShiftAtLeast(rs: seq<Replacement>, cursor: nat, length: nat, j: nat)
    requires Fits(rs, cursor, length) && cursor <= j && !Covered(rs, j)
    ensures cursor <= j + Shift(rs, j)
  {
    if rs != [] {
      FitsBelow(rs, cursor, length);
      var rest := rs[1..];
      assert forall k :: 0 <= k < |rest| ==> rest[k] == rs[k + 1];
      assert !(rs[0].start <= j < rs[0].end);
      if rs[0].end <= j {
        ShiftAtLeast(rest, rs[0].end, length, j);
      } else {
        FitsBelow(rest, rs[0].end, length);
        NoShift(rs, j);
      }
    }
  }

  // ----- The order of pushes --------------------------------------------------------------------

  /** A pushed replacement without its number. */
  datatype Push = Push(start: nat, end: nat, span: Span, text: Bytes)

  function Plain(r: Replacement): Push {
    Push(r.start, r.end, r.span, r.text)
  }

  function Plains(rs: seq<Replacement>): seq<Push> {
    if rs == [] then [] else [Plain(rs[0])] + Plains(rs[1..])
  }

  /** The pushes at one place, in the order of the list. */
  function AtPlace(rs: seq<Replacement>, start: nat, end: nat): seq<Push> {
    if rs == [] then []
    else (if rs[0].start == start && rs[0].end == end then [Plain(rs[0])] else []) + AtPlace(rs[1..], start, end)
  }

  // Numbered in push order.
  ghost predicate Numbered(rs: seq<Replacement>) {
    forall i, j :: 0 <= i < j < |rs| ==> rs[i].order < rs[j].order
  }

  lemma {:induction false} InsertKeepsPlaces(r: Replacement, rs: seq<Replacement>, start: nat, end: nat)
    requires forall i :: 0 <= i < |rs| ==> r.order < rs[i].order
    ensures AtPlace(Insert(r, rs), start, end) == AtPlace([r] + rs, start, end)
  {
    assert ([r] + rs)[1..] == rs;
    if rs != [] && !KeyBefore(r, rs[0]) {
      InsertKeepsPlaces(r, rs[1..], start, end);
      assert ([r] + rs[1..])[1..] == rs[1..];
      assert ([rs[0]] + Insert(r, rs[1..]))[1..] == Insert(r, rs[1..]);
      assert !SamePlace(r, rs[0]);
    }
  }

  lemma {:induction false} SortKeepsPlaces(rs: seq<Replacement>, start: nat, end: nat)
    requires Numbered(rs)
    ensures AtPlace(Sorted(rs), start, end) == AtPlace(rs, start, end)
  {
    if rs != [] {
      SortKeepsPlaces(rs[1..], start, end);
      SortedHasSame(rs[1..]);
      forall i | 0 <= i < |Sorted(rs[1..])| ensures rs[0].order < Sorted(rs[1..])[i].order {
        assert Sorted(rs[1..])[i] in rs[1..];
      }
      InsertKeepsPlaces(rs[0], Sorted(rs[1..]), start, end);
      assert ([rs[0]] + Sorted(rs[1..]))[1..] == Sorted(rs[1..]);
    }
  }

  ghost predicate ByPlace(rs: seq<Replacement>) {
    forall i, j :: 0 <= i < j < |rs| ==> PlaceBefore(rs[i], rs[j])
  }

  ghost predicate SamePlaces(a: seq<Replacement>, b: seq<Replacement>) {
    forall start, end :: AtPlace(a, start, end) == AtPlace(b, start, end)
  }

  lemma {:induction false} SomewhereFirst(rs: seq<Replacement>, start: nat, end: nat)
    requires ByPlace(rs) && AtPlace(rs, start, end) != []
    ensures rs != [] && (rs[0].start < start || (rs[0].start == start && rs[0].end <= end))
  {
    var i := PlaceIndex(rs, start, end);
  }

  lemma {:induction false} PlaceIndex(rs: seq<Replacement>, start: nat, end: nat) returns (i: nat)
    requires AtPlace(rs, start, end) != []
    ensures i < |rs| && rs[i].start == start && rs[i].end == end
  {
    if rs[0].start == start && rs[0].end == end {
      i := 0;
    } else {
      var j := PlaceIndex(rs[1..], start, end);
      i := j + 1;
    }
  }

  lemma FirstPush(rs: seq<Replacement>)
    requires rs != []
    ensures var here := AtPlace(rs, rs[0].start, rs[0].end); here != [] && here[0] == Plain(rs[0])
  {
  }

  lemma SameFirst(a: seq<Replacement>, b: seq<Replacement>)
    requires ByPlace(a) && ByPlace(b) && SamePlaces(a, b) && (a != [] || b != [])
    ensures a != [] && b != [] && Plain(a[0]) == Plain(b[0])
  {
    hide AtPlace, ByPlace, Plain;
    if a != [] {
      FirstPush(a);
      SomewhereFirst(b, a[0].start, a[0].end);
    } else {
      FirstPush(b);
      SomewhereFirst(a, b[0].start, b[0].end);
    }
    FirstPush(a);
    FirstPush(b);
    SomewhereFirst(a, b[0].start, b[0].end);
    SomewhereFirst(b, a[0].start, a[0].end);
  }

  // A list sorted by place is determined by its pushes at every place.
  lemma {:induction false} PlacesDecide(a: seq<Replacement>, b: seq<Replacement>)
    requires ByPlace(a) && ByPlace(b) && SamePlaces(a, b)
    ensures Plains(a) == Plains(b)
  {
    hide AtPlace;
    if a != [] || b != [] {
      SameFirst(a, b);
      forall start, end ensures AtPlace(a[1..], start, end) == AtPlace(b[1..], start, end) {
        FirstPlace(a, start, end);
        FirstPlace(b, start, end);
      }
      PlacesDecide(a[1..], b[1..]);
    }
  }

  lemma FirstPlace(rs: seq<Replacement>, start: nat, end: nat)
    requires rs != []
    ensures AtPlace(rs[1..], start, end) ==
              if rs[0].start == start && rs[0].end == end then AtPlace(rs, start, end)[1..] else AtPlace(rs, start, end)
  {
  }

  // ----- The outcome of a session ----------------------------------------------------------------

  ghost predicate SessionOk(source: Bytes, rs: seq<Replacement>) {
    AllInSource(source, rs) && forall i :: 0 <= i < |rs| ==> rs[i].order == i
  }

  lemma SortedFacts(source: Bytes, rs: seq<Replacement>)
    requires SessionOk(source, rs)
    ensures var sorted := Sorted(rs);
            && AllInSource(source, sorted) && InOrder(sorted)
            && (Chained(sorted, 0) <==> Compatible(rs)) && (Fits(sorted, 0, |source|) <==> Chained(sorted, 0))
            && (Validated(source, sorted, 0).None? <==> Chained(sorted, 0))
            && (Validated(source, sorted, 0).Some? ==> Validated(source, sorted, 0).value.Overlap?)
  {
    var sorted := Sorted(rs);
    SortedIsOrdered(rs);
    SortedHasSame(rs);
    forall i | 0 <= i < |sorted| ensures InSource(source, sorted[i]) {
      assert sorted[i] in rs;
    }
    DistinctOrders(rs, sorted);
    assert Compatible(sorted) <==> Compatible(rs);
    ChainedIsCompatible(sorted, 0);
    ChainedFits(source, sorted, 0);
    ValidatedIsChained(source, sorted, 0);
  }

  /** The result of `finish_with_options` for the pushed replacements. */
  ghost function Finished(source: Bytes, rs: seq<Replacement>, parses: Bytes -> bool): Result<Bytes, EditError>
    requires SessionOk(source, rs)
  {
    var sorted := Sorted(rs);
    match Validated(source, sorted, 0)
    case Some(e) => Err(e)
    case None =>
      SortedFacts(source, rs);
      var output := Spliced(source, sorted, 0);
      if parses(output) then Ok(output) else Err(NotYaml)
  }

  // A permutation of replacements with different numbers has different numbers.
  lemma DistinctOrders(rs: seq<Replacement>, sorted: seq<Replacement>)
    requires multiset(sorted) == multiset(rs) && forall i :: 0 <= i < |rs| ==> rs[i].order == i
    ensures forall i, j :: 0 <= i < j < |sorted| ==> sorted[i].order != sorted[j].order
  {
    forall i, j | 0 <= i < j < |sorted| ensures sorted[i].order != sorted[j].order {
      if sorted[i].order == sorted[j].order {
        assert sorted[i] in multiset(rs) && sorted[j] in multiset(rs);
        SameByOrder(rs, sorted[i], sorted[j]);
        TwiceIn(sorted, i, j);
        OnceByOrder(rs, sorted[i]);
      }
    }
  }

  lemma SameByOrder(rs: seq<Replacement>, a: Replacement, b: Replacement)
    requires (forall i :: 0 <= i < |rs| ==> rs[i].order == i) && a in rs && b in rs && a.order == b.order
    ensures a == b
  {
    var i :| 0 <= i < |rs| && rs[i] == a;
    var j :| 0 <= j < |rs| && rs[j] == b;
  }

  lemma TwiceIn(rs: seq<Replacement>, i: nat, j: nat)
    requires i < j < |rs| && rs[i] == rs[j]
    ensures multiset(rs)[rs[i]] >= 2
  {
    var before, after := rs[..j], rs[j..];
    assert rs == before + after && before[i] == rs[i] && after[0] == rs[i];
    assert multiset(rs) == multiset(before) + multiset(after);
  }

  lemma OnceByOrder(rs: seq<Replacement>, r: Replacement)
    requires forall i :: 0 <= i < |rs| ==> rs[i].order == i
    requires r in rs
    ensures multiset(rs)[r] == 1
  {
    var i := r.order;
    assert rs[i] == r;
    assert rs == rs[..i] + [r] + rs[i + 1..];
    assert r !in rs[..i] && r !in rs[i + 1..];
  }

  /** A session fails before reparsing exactly when two of its replacements
      conflict, and otherwise reparses the right-to-left application. */
  lemma FinishedMeaning(source: Bytes, rs: seq<Replacement>, parses: Bytes -> bool)
    requires SessionOk(source, rs)
    ensures Finished(source, rs, parses).Err? && Finished(source, rs, parses).error.Overlap? <==> !Compatible(rs)
    ensures Compatible(rs) ==>
              && Fits(Sorted(rs), 0, |source|)
              && var output := RightToLeft(source, Sorted(rs));
                 && Finished(source, rs, parses) == (if parses(output) then Ok(output) else Err(NotYaml))
                 && |output| == |source| - Removed(Sorted(rs)) + Added(Sorted(rs)) && 0 <= Removed(Sorted(rs)) <= |source|
  {
    SortedFacts(source, rs);
    if Compatible(rs) {
      SpliceIsRightToLeft(source, Sorted(rs));
      SplicedLength(source, Sorted(rs));
    }
  }

  lemma {:induction false} PlainsDecide(source: Bytes, a: seq<Replacement>, b: seq<Replacement>, cursor: nat)
    requires Plains(a) == Plains(b)
    ensures Validated(source, a, cursor) == Validated(source, b, cursor)
    ensures Fits(a, cursor, |source|) == Fits(b, cursor, |source|)
    ensures Fits(a, cursor, |source|) ==> Spliced(source, a, cursor) == Spliced(source, b, cursor)
  {
    if a != [] {
      assert b != [];
      assert Plains(a)[0] == Plains(b)[0] && Plains(a)[1..] == Plains(a[1..]) && Plains(b)[1..] == Plains(b[1..]);
      PlainsDecide(source, a[1..], b[1..], a[0].end);
    } else {
      assert b == [];
    }
  }

  /** Two sessions that push the same replacements at every single place, however
      the pushes at different places interleave, have the same outcome. */
  lemma PushOrderDoesNotMatter(source: Bytes, a: seq<Replacement>, b: seq<Replacement>, parses: Bytes -> bool)
    requires SessionOk(source, a) && SessionOk(source, b) && SamePlaces(a, b)
    ensures Finished(source, a, parses) == Finished(source, b, parses)
  {
    SortedFacts(source, a);
    SortedFacts(source, b);
    forall start, end ensures AtPlace(Sorted(a), start, end) == AtPlace(Sorted(b), start, end) {
      SortKeepsPlaces(a, start, end);
      SortKeepsPlaces(b, start, end);
      assert AtPlace(a, start, end) == AtPlace(b, start, end);
    }
    PlacesDecide(Sorted(a), Sorted(b));
    PlainsDecide(source, Sorted(a), Sorted(b), 0);
  }

  // ----- The session ---------------------------------------------------------------------------

  class LosslessEdit {
    const source: Bytes
    var replacements: seq<Replacement>

    ghost predicate Valid()
      reads this
    {
      SessionOk(source, replacements)
    }

    constructor (source: Bytes)
      ensures Valid() && this.source == source && replacements == []
    {
      this.source := source;
      replacements := [];
    }

    method PushReplacement(span: Span, text: Bytes)
      requires Valid() && InSource(source, Replacement(0, span.start, span.end, span, text))
      modifies this
      ensures Valid()
      ensures replacements == old(replacements) + [Replacement(old(|replacements|), span.start, span.end, span, text)]
    {
      var order := |replacements|;
      replacements := replacements + [Replacement(order, span.start, span.end, span, text)];
    }

    /** `checked_source_span`. */
    function CheckedSourceSpan(span: Span): (r: Result<Span, EditError>)
      ensures r.Ok? <==> span.start <= span.end && Get(source, span.start, span.end).Some?
      ensures r.Ok? ==> r.value == span
    {
      if span.start > span.end || span.end > |source| then Err(OutsideSource)
      else if Get(source, span.start, span.end).None? then Err(NotOnBoundary)
      else Ok(span)
    }

    method ReplaceSourceSpan(span: Span, text: Bytes) returns (r: Result<(), EditError>)
      requires Valid()
      modifies this
      ensures Valid()
      ensures r.Ok? <==> span.start <= span.end <= |source| && IsBoundary(source, span.start) && IsBoundary(source, span.end)
      ensures replacements == old(replacements) +
                if r.Ok? then [Replacement(old(|replacements|), span.start, span.end, span, text)] else []
    {
      var checked := CheckedSourceSpan(span);
      if checked.Err? {
        return Err(checked.error);
      }
      PushReplacement(checked.value, text);
      return Ok(());
    }

    /** `span_for_source_range`: the position of the range in lines and columns. */
    method SourceSpan(start: nat, end: nat) returns (r: Result<Span, EditError>)
      ensures r.Ok? <==> start <= end && Get(source, start, end).Some?
      ensures r.Ok? ==> r.value.start == start && r.value.end == end && start <= |source|
      ensures r.Ok? ==> IsPosition(source[..start], r.value.line, r.value.column)
    {
      if start > end || end > |source| {
        return Err(OutsideSource);
      }
      if Get(source, start, end).None? {
        return Err(NotOnBoundary);
      }
      var prefix := source[..start];
      var line, column := 1, 1;
      for i := 0 to |prefix|
        invariant IsPosition(prefix[..i], line, column)
      {
        assert prefix[..i + 1] == prefix[..i] + [prefix[i]];
        if prefix[i] == NEWLINE {
          line, column := line + 1, 1;
        } else {
          column := column + 1;
        }
      }
      assert prefix[..|prefix|] == prefix;
      return Ok(N.Span(start, end, line, column));
    }

    method InsertSource(offset: nat, insertion: Bytes) returns (r: Result<(), EditError>)
      requires Valid()
      modifies this
      ensures Valid()
      ensures r.Ok? <==> offset <= |source| && IsBoundary(source, offset)
      ensures r.Err? ==> replacements == old(replacements)
      ensures r.Ok? ==>
                exists span: Span :: span.start == span.end == offset &&
                  replacements == old(replacements) + [Replacement(old(|replacements|), offset, offset, span, insertion)]
    {
      var span := SourceSpan(offset, offset);
      if span.Err? {
        return Err(span.error);
      }
      PushReplacement(span.value, insertion);
      return Ok(());
    }

    method DeleteSourceSpan(span: Span) returns (r: Result<(), EditError>)
      requires Valid()
      modifies this
      ensures Valid()
      ensures r.Ok? <==> span.start <= span.end <= |source| && IsBoundary(source, span.start) && IsBoundary(source, span.end)
      ensures replacements == old(replacements) +
                if r.Ok? then [Replacement(old(|replacements|), span.start, span.end, span, [])] else []
    {
      r := ReplaceSourceSpan(span, []);
    }

    method ValidateReplacements() returns (r: Option<EditError>)
      ensures r == Validated(source, replacements, 0)
    {
      var cursor := 0;
      for i := 0 to |replacements|
        invariant Validated(source, replacements[i..], cursor) == Validated(source, replacements, 0)
      {
        var replacement := replacements[i];
        assert replacements[i..][1..] == replacements[i + 1..];
        if replacement.start < cursor {
          return Some(Overlap(replacement.span));
        }
        if Get(source, cursor, replacement.start).None? {
          return Some(NotOnBoundary);
        }
        cursor := replacement.end;
      }
      if Get(source, cursor, |source|).None? {
        return Some(NotOnBoundary);
      }
      return None;
    }

    /** The size of the output, computed without running below zero. */
    method EditedCapacity() returns (capacity: nat)
      requires Fits(replacements, 0, |source|)
      ensures capacity == |Spliced(source, replacements, 0)|
    {
      FitsBelow(replacements, 0, |source|);
      var removed, added := 0, 0;
      for i := 0 to |replacements|
        invariant removed == Removed(replacements[..i]) && added == Added(replacements[..i])
      {
        assert replacements[..i + 1][..i] == replacements[..i];
        removed := removed + (replacements[i].end - replacements[i].start);
        added := added + |replacements[i].text|;
      }
      assert replacements[..|replacements|] == replacements;
      SplicedLength(source, replacements);
      capacity := |source| - removed + added;
    }

    /** The splice loop; all its ranges are on character boundaries. */
    method SpliceReplacements() returns (output: Bytes)
      requires Fits(replacements, 0, |source|) && AllInSource(source, replacements)
      ensures output == Spliced(source, replacements, 0)
    {
      output := [];
      var cursor: nat := 0;
      for i := 0 to |replacements|
        invariant Fits(replacements[i..], cursor, |source|) && cursor <= |source| && IsBoundary(source, cursor)
        invariant output + Spliced(source, replacements[i..], cursor) == Spliced(source, replacements, 0)
      {
        var replacement := replacements[i];
        assert replacements[i..][1..] == replacements[i + 1..] && replacements[i..][0] == replacement;
        FitsBelow(replacements[i..], cursor, |source|);
        assert InSource(source, replacement);
        var prefix := Get(source, cursor, replacement.start);
        SplicedMore(output, prefix.value, replacement.text, Spliced(source, replacements[i + 1..], replacement.end));
        output := output + prefix.value + replacement.text;
        cursor := replacement.end;
      }
      var suffix := Get(source, cursor, |source|);
      output := output + suffix.value;
    }

    method FinishWithOptions(parses: Bytes -> bool) returns (r: Result<Bytes, EditError>)
      requires Valid()
      modifies this
      ensures SessionOk(source, old(replacements)) && r == Finished(source, old(replacements), parses)
    {
      SortedFacts(source, replacements);
      replacements := Sorted(replacements);
      var invalid := ValidateReplacements();
      if invalid.Some? {
        return Err(invalid.value);
      }
      var capacity := EditedCapacity();
      var output := SpliceReplacements();
      assert |output| == capacity;
      if !parses(output) {
        return Err(NotYaml);
      }
      return Ok(output);
    }
  }

  lemma SplicedMore(a: Bytes, b: Bytes, c: Bytes, d: Bytes)
    ensures a + (b + c + d) == a + b + c + d
  {
  }

  const NEWLINE: Byte := 10

  /** Lines count newlines, columns the bytes since the last one; both from 1. */
  ghost predicate IsPosition(prefix: Bytes, line: nat, column: nat) {
    && line == 1 + multiset(prefix)[NEWLINE]
    && 1 <= column <= |prefix| + 1
    && NEWLINE !in prefix[|prefix| + 1 - column..]
    && (column <= |prefix| ==> prefix[|prefix| - column] == NEWLINE)
  }
}
