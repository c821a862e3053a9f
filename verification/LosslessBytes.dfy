// What an edit session writes where (src/lossless.rs): character boundaries of UTF-8
// text, the order of the replacements, and the place of every inserted text.
module LosslessBytes {
  import opened LosslessEdit

  // ----- Character boundaries --------------------------------------------------------------------

  /** The UTF-8 encoding of a code point (section 3 of RFC 3629). */
  function Utf8Char(c: char): (b: Bytes)
    ensures 1 <= |b| <= 4
  {
    var n := c as int;
    if n < 0x80 then [n as Byte]
    else if n < 0x800 then [(0xc0 + n / 0x40) as Byte, Tail(n)]
    else if n < 0x1_0000 then [(0xe0 + n / 0x1000) as Byte, Tail(n / 0x40), Tail(n)]
    else [(0xf0 + n / 0x4_0000) as Byte, Tail(n / 0x1000), Tail(n / 0x40), Tail(n)]
  }

  function Tail(n: nat): Byte {
    (0x80 + n % 0x40) as Byte
  }

  function Utf8(s: string): Bytes {
    if s == "" then [] else Utf8Char(s[0]) + Utf8(s[1..])
  }

  lemma CharBytes(c: char, i: nat)
    requires i < |Utf8Char(c)|
    ensures 128 <= Utf8Char(c)[i] < 192 <==> i > 0
  {
  }

  lemma {:induction false} Utf8Starts(s: string)
    requires s != ""
    ensures Utf8(s) != [] && !(128 <= Utf8(s)[0] < 192)
  {
    CharBytes(s[0], 0);
  }

  /** The offsets at which a string of text may be cut are those between its characters. */
  lemma {:induction false} BoundariesAreBetweenCharacters(s: string, i: nat)
    ensures IsBoundary(Utf8(s), i) <==> exists k: nat :: k <= |s| && i == |Utf8(s[..k])|
  {
    hide Utf8Char;
    if s == "" {
      assert s[..0] == "";
    } else {
      var head, rest := Utf8Char(s[0]), Utf8(s[1..]);
      if i < |head| {
        InsideFirst(s, i);
      } else {
        BoundariesAreBetweenCharacters(s[1..], i - |head|);
        BehindFirst(s, i);
        PrefixesBehindFirst(s, i);
      }
    }
  }

  lemma InsideFirst(s: string, i: nat)
    requires s != "" && i < |Utf8Char(s[0])|
    ensures IsBoundary(Utf8(s), i) <==> exists k: nat :: k <= |s| && i == |Utf8(s[..k])|
  {
    hide Utf8Char;
    CharBytes(s[0], i);
    if i == 0 {
      assert s[..0] == "" && |Utf8(s[..0])| == 0;
    } else {
      forall k: nat | k <= |s| ensures i != |Utf8(s[..k])| {
        if k > 0 { assert s[..k][0] == s[0]; } else { assert s[..k] == ""; }
      }
    }
  }

  lemma BehindFirst(s: string, i: nat)
    requires s != "" && i >= |Utf8Char(s[0])|
    ensures IsBoundary(Utf8(s), i) <==> IsBoundary(Utf8(s[1..]), i - |Utf8Char(s[0])|)
  {
    hide Utf8Char;
    if i == |Utf8Char(s[0])| && s[1..] != "" { Utf8Starts(s[1..]); }
  }

  lemma PrefixesBehindFirst(s: string, i: nat)
    requires s != "" && i >= |Utf8Char(s[0])|
    ensures (exists k: nat :: k <= |s| && i == |Utf8(s[..k])|)
       <==> (exists k: nat :: k <= |s[1..]| && i - |Utf8Char(s[0])| == |Utf8(s[1..][..k])|)
  {
    hide Utf8Char;
    forall k: nat | 0 < k <= |s| ensures |Utf8(s[..k])| == |Utf8Char(s[0])| + |Utf8(s[1..][..k - 1])| {
      assert s[..k][0] == s[0] && s[..k][1..] == s[1..][..k - 1];
    }
    assert s[..0] == "";
    if k: nat :| k <= |s| && i == |Utf8(s[..k])| {
      assert i - |Utf8Char(s[0])| == |Utf8(s[1..][..k - 1])|;
    }
    if k: nat :| k <= |s[1..]| && i - |Utf8Char(s[0])| == |Utf8(s[1..][..k])| {
      assert i == |Utf8(s[..k + 1])|;
    }
  }

  // ----- The order of the replacements --------------------------------------------------------------

  /** A session sorts its replacements by place, and keeps the order of pushes at one. */
  lemma SortedByPlace(rs: seq<Replacement>)
    requires Numbered(rs)
    ensures multiset(Sorted(rs)) == multiset(rs)
    ensures forall i, j :: 0 <= i < j < |Sorted(rs)| ==> PlaceBefore(Sorted(rs)[i], Sorted(rs)[j])
    ensures forall start, end :: AtPlace(Sorted(rs), start, end) == AtPlace(rs, start, end)
  {
    SortedIsOrdered(rs);
    forall start, end ensures AtPlace(Sorted(rs), start, end) == AtPlace(rs, start, end) {
      SortKeepsPlaces(rs, start, end);
    }
  }

  // ----- The place of every text ---------------------------------------------------------------------

  /** What the replacements in front of the k-th one add or take away. */
  function Growth(rs: seq<Replacement>, k: nat): int
    requires k <= |rs|
  {
    if k == 0 then 0 else Growth(rs, k - 1) + |rs[k - 1].text| - (rs[k - 1].end - rs[k - 1].start)
  }

  lemma {:induction false} GrowthFront(rs: seq<Replacement>, k: nat)
    requires 0 < k <= |rs|
    ensures Growth(rs, k) == |rs[0].text| - (rs[0].end - rs[0].start) + Growth(rs[1..], k - 1)
  {
    if k > 1 { GrowthFront(rs, k - 1); }
  }

  lemma MiddleAt(a: Bytes, b: Bytes, c: Bytes)
    ensures (a + b + c)[|a|..|a| + |b|] == b
  {
  }

  lemma BehindAt(a: Bytes, b: Bytes, c: Bytes, at: nat, text: Bytes)
    requires at + |text| <= |c| && c[at..at + |text|] == text
    ensures var i := |a| + |b| + at; (a + b + c)[i..i + |text|] == text
  {
  }

  lemma SplicedFront(source: Bytes, rs: seq<Replacement>, cursor: nat)
    requires Fits(rs, cursor, |source|) && rs != []
    ensures cursor <= rs[0].start <= rs[0].end <= |source| && Fits(rs[1..], rs[0].end, |source|)
    ensures Spliced(source, rs, cursor) == source[cursor..rs[0].start] + rs[0].text + Spliced(source, rs[1..], rs[0].end)
  {
    FitsBelow(rs, cursor, |source|);
  }

  /** Every replacement's text stands in the output where its span was, moved by what the
      replacements in front of it changed. */
  lemma {:induction false} TextsLand(source: Bytes, rs: seq<Replacement>, cursor: nat, k: nat)
    requires Fits(rs, cursor, |source|) && k < |rs|
    ensures 0 <= rs[k].start - cursor + Growth(rs, k)
    ensures rs[k].start - cursor + Growth(rs, k) + |rs[k].text| <= |Spliced(source, rs, cursor)|
    ensures var at := rs[k].start - cursor + Growth(rs, k); Spliced(source, rs, cursor)[at..at + |rs[k].text|] == rs[k].text
  {
    hide Spliced, Fits;
    SplicedFront(source, rs, cursor);
    var r, rest := rs[0], rs[1..];
    var head, tail := source[cursor..r.start], Spliced(source, rest, r.end);
    if k == 0 {
      MiddleAt(head, r.text, tail);
    } else {
      TextsLand(source, rest, r.end, k - 1);
      GrowthFront(rs, k);
      BehindAt(head, r.text, tail, rs[k].start - r.end + Growth(rest, k - 1), rs[k].text);
    }
  }

  // ----- The output is text ----------------------------------------------------------------------------

  ghost predicate IsText(b: Bytes) {
    exists t: string :: b == Utf8(t)
  }

  lemma {:induction false} Utf8Concat(x: string, y: string)
    ensures Utf8(x + y) == Utf8(x) + Utf8(y)
  {
    hide Utf8Char;
    if x == "" {
      assert x + y == y;
    } else {
      Utf8Concat(x[1..], y);
      assert (x + y)[1..] == x[1..] + y;
    }
  }

  lemma TextsConcat(x: Bytes, y: Bytes)
    requires IsText(x) && IsText(y)
    ensures IsText(x + y)
  {
    hide Utf8;
    var s: string :| x == Utf8(s);
    var t: string :| y == Utf8(t);
    Utf8Concat(s, t);
  }

  // Cut at its boundaries, text falls into text.
  lemma CutsAreText(s: string, i: nat)
    requires i <= |Utf8(s)| && IsBoundary(Utf8(s), i)
    ensures IsText(Utf8(s)[..i]) && IsText(Utf8(s)[i..])
  {
    hide Utf8;
    BoundariesAreBetweenCharacters(s, i);
    var k: nat :| k <= |s| && i == |Utf8(s[..k])|;
    Utf8Concat(s[..k], s[k..]);
    assert s == s[..k] + s[k..];
    assert Utf8(s)[..i] == Utf8(s[..k]) && Utf8(s)[i..] == Utf8(s[k..]);
  }

  lemma PiecesAreText(s: string, i: nat, j: nat)
    requires i <= j <= |Utf8(s)| && IsBoundary(Utf8(s), i) && IsBoundary(Utf8(s), j)
    ensures IsText(Utf8(s)[i..j])
  {
    hide Utf8;
    CutsAreText(s, i);
    var t: string :| Utf8(s)[i..] == Utf8(t);
    assert Utf8(t)[..j - i] == Utf8(s)[i..j];
    CutsAreText(t, j - i);
  }

  /** Texts pushed into text, at boundaries, leave text: no character is ever cut. */
  lemma {:induction false} OutputIsText(s: string, rs: seq<Replacement>, cursor: nat)
    requires AllInSource(Utf8(s), rs) && Fits(rs, cursor, |Utf8(s)|) && IsBoundary(Utf8(s), cursor)
    requires forall i :: 0 <= i < |rs| ==> IsText(rs[i].text)
    ensures IsText(Spliced(Utf8(s), rs, cursor))
  {
    hide Utf8, IsText, IsBoundary, Spliced;
    FitsBelow(rs, cursor, |Utf8(s)|);
    if rs == [] {
      CutsAreText(s, cursor);
      SplicedNothing(Utf8(s), cursor);
    } else {
      SplicedFront(Utf8(s), rs, cursor);
      assert InSource(Utf8(s), rs[0]);
      PiecesAreText(s, cursor, rs[0].start);
      OutputIsText(s, rs[1..], rs[0].end);
      TextsConcat(Utf8(s)[cursor..rs[0].start], rs[0].text);
      TextsConcat(Utf8(s)[cursor..rs[0].start] + rs[0].text, Spliced(Utf8(s), rs[1..], rs[0].end));
    }
  }

  lemma SplicedNothing(source: Bytes, cursor: nat)
    requires cursor <= |source|
    ensures Spliced(source, [], cursor) == source[cursor..]
  {
  }

  /** So a finished session is text whenever its source and its pushes are. */
  lemma FinishedIsText(s: string, rs: seq<Replacement>, parses: Bytes -> bool)
    requires SessionOk(Utf8(s), rs) && forall i :: 0 <= i < |rs| ==> IsText(rs[i].text)
    ensures Finished(Utf8(s), rs, parses).Ok? ==> IsText(Finished(Utf8(s), rs, parses).value)
  {
    hide Utf8, IsText, Spliced;
    SortedFacts(Utf8(s), rs);
    SortedHasSame(rs);
    if Fits(Sorted(rs), 0, |Utf8(s)|) {
      forall i | 0 <= i < |Sorted(rs)| ensures IsText(Sorted(rs)[i].text) {
        assert Sorted(rs)[i] in rs;
      }
      OutputIsText(s, Sorted(rs), 0);
    }
  }
}
