// Shared vocabulary: results, orderings and a few facts about sequences.
module Prelude {
  datatype Option<+T> = None | Some(value: T)

  datatype Result<+T, +E> = Ok(value: T) | Err(error: E)

  /** The three answers of a comparison. */
  datatype Ordering = Less | Equal | Greater {
    function Then(next: Ordering): Ordering {
      if this == Equal then next else this
    }

    function Reverse(): Ordering {
      match this
      case Less => Greater
      case Equal => Equal
      case Greater => Less
    }
  }

  function Max(a: nat, b: nat): nat {
    if a < b then b else a
  }

  function CmpInt(a: int, b: int): Ordering {
    if a < b then Less else if a == b then Equal else Greater
  }

  function CmpBool(a: bool, b: bool): Ordering {
    if a == b then Equal else if b then Less else Greater
  }

  /** Lexicographic order on code points, a proper prefix first. */
  function CmpString(a: string, b: string): Ordering {
    if a == [] then
      if b == [] then Equal else Less
    else if b == [] then Greater
    else CmpInt(a[0] as int, b[0] as int).Then(CmpString(a[1..], b[1..]))
  }

  lemma {:induction false} CmpStringEqual(a: string, b: string)
    ensures CmpString(a, b) == Equal <==> a == b
    ensures CmpString(b, a) == CmpString(a, b).Reverse()
  {
    if a != [] && b != [] {
      CmpStringEqual(a[1..], b[1..]);
      assert a == [a[0]] + a[1..] && b == [b[0]] + b[1..];
    }
  }

  lemma {:induction false} CmpStringTransitive(a: string, b: string, c: string)
    requires CmpString(a, b) != Greater && CmpString(b, c) != Greater
    ensures CmpString(a, c) != Greater
  {
    if a != [] && b != [] && c != [] {
      if a[0] == b[0] == c[0] {
        CmpStringTransitive(a[1..], b[1..], c[1..]);
      }
    }
  }

  /** A proper prefix, or the smaller code point at the first place that differs. */
  predicate Precedes(a: string, b: string) {
    exists i :: 0 <= i <= |a| && i < |b| && a[..i] == b[..i] && (i == |a| || a[i] < b[i])
  }

  lemma {:induction false} CmpStringPrecedes(a: string, b: string)
    ensures CmpString(a, b) == Less <==> Precedes(a, b)
  {
    if a == [] {
      if b != [] { assert a[..0] == b[..0]; }
    } else if b != [] {
      CmpStringPrecedes(a[1..], b[1..]);
      if a[0] == b[0] {
        PrecedesBehind(a, b);
      } else {
        assert a[..0] == b[..0];
        forall i | 0 < i <= |a| && i < |b| ensures a[..i] != b[..i] {
          assert a[..i][0] != b[..i][0];
        }
      }
    }
  }

  lemma PrecedesBehind(a: string, b: string)
    requires a != "" && b != "" && a[0] == b[0]
    ensures Precedes(a, b) <==> Precedes(a[1..], b[1..])
  {
    hide Precedes;
    if Precedes(a, b) { PrecedesInRest(a, b); }
    if Precedes(a[1..], b[1..]) { PrecedesInFront(a, b); }
  }

  lemma PrecedesInRest(a: string, b: string)
    requires a != "" && b != "" && a[0] == b[0] && Precedes(a, b)
    ensures Precedes(a[1..], b[1..])
  {
    var x, y := a[1..], b[1..];
    var i :| 0 <= i <= |a| && i < |b| && a[..i] == b[..i] && (i == |a| || a[i] < b[i]);
    assert i > 0;
    assert x[..i - 1] == a[..i][1..] && y[..i - 1] == b[..i][1..];
  }

  lemma PrecedesInFront(a: string, b: string)
    requires a != "" && b != "" && a[0] == b[0] && Precedes(a[1..], b[1..])
    ensures Precedes(a, b)
  {
    var x, y := a[1..], b[1..];
    var i :| 0 <= i <= |x| && i < |y| && x[..i] == y[..i] && (i == |x| || x[i] < y[i]);
    assert a[..i + 1] == [a[0]] + x[..i] && b[..i + 1] == [b[0]] + y[..i];
  }

  function RemoveAt<T>(s: seq<T>, i: nat): (r: seq<T>)
    requires i < |s|
    ensures |r| == |s| - 1
  {
    s[..i] + s[i + 1..]
  }

  lemma SplitAt<T>(s: seq<T>, i: nat)
    requires i < |s|
    ensures s == s[..i] + [s[i]] + s[i + 1..]
    ensures RemoveAt(s, i) == s[..i] + s[i + 1..]
  {
  }

  lemma RemoveAtIndex<T>(s: seq<T>, i: nat, k: nat)
    requires i < |s| && k < |s| - 1
    ensures RemoveAt(s, i)[k] == if k < i then s[k] else s[k + 1]
  {
  }

  lemma RemoveAtMultiset<T>(s: seq<T>, i: nat)
    requires i < |s|
    ensures multiset(RemoveAt(s, i)) == multiset(s) - multiset{s[i]}
    ensures multiset(s) == multiset(RemoveAt(s, i)) + multiset{s[i]}
  {
    var x, y := s[..i], s[i + 1..];
    assert s == x + ([s[i]] + y);
    assert multiset([s[i]] + y) == multiset{s[i]} + multiset(y);
    assert multiset(s) == multiset(x) + (multiset{s[i]} + multiset(y));
    assert multiset(RemoveAt(s, i)) == multiset(x) + multiset(y);
  }

  lemma ConsMultiset<T>(s: seq<T>)
    requires s != []
    ensures multiset(s) == multiset{s[0]} + multiset(s[1..])
  {
    assert s == [s[0]] + s[1..];
  }

  ghost predicate NoRepeats<T>(s: seq<T>) {
    forall i, j :: 0 <= i < j < |s| ==> s[i] != s[j]
  }

  lemma StaysAfterRemoval<T>(x: T, t: seq<T>, j: nat)
    requires j < |t| && x in t && x != t[j]
    ensures x in RemoveAt(t, j)
  {
    var k :| 0 <= k < |t| && t[k] == x;
    assert RemoveAt(t, j)[if k < j then k else k - 1] == x;
  }

  // A list without repetitions whose elements all occur in another list of the
  // same length is a permutation of it.
  lemma {:induction false} IncludedIsPermutation<T>(s: seq<T>, t: seq<T>)
    requires NoRepeats(s) && |s| == |t|
    requires forall x :: x in s ==> x in t
    ensures multiset(s) == multiset(t)
  {
    if s != [] {
      var x := s[0];
      assert x in t;
      var j :| 0 <= j < |t| && t[j] == x;
      forall y | y in s[1..] ensures y in RemoveAt(t, j) {
        StaysAfterRemoval(y, t, j);
      }
      IncludedIsPermutation(s[1..], RemoveAt(t, j));
      RemoveAtMultiset(t, j);
      assert s == [x] + s[1..];
    }
  }
}
