// Worklists of mutable references into a tree: a reference is the path to the
// place it points to. Whatever the tree type is, emptying a worklist from its end
// does what the plain recursion does, the last queued place first.
module Places {
  import opened Prelude

  /** How a tree type holds its children. */
  datatype Shape<!T> = Shape(kids: T -> seq<T>, with_kids: (T, seq<T>) -> T)

  ghost predicate Lawful<T(!new)>(s: Shape<T>) {
    && (forall v, k :: |k| == |s.kids(v)| ==> s.kids(s.with_kids(v, k)) == k)
    && (forall v :: s.with_kids(v, s.kids(v)) == v)
    && (forall v, x, y :: |x| == |y| == |s.kids(v)| ==> s.with_kids(s.with_kids(v, x), y) == s.with_kids(v, y))
  }

  type Path = seq<nat>

  function At<T>(s: Shape<T>, v: T, path: Path): T
    decreases path
  {
    if path == [] || path[0] >= |s.kids(v)| then v else At(s, s.kids(v)[path[0]], path[1..])
  }

  function Put<T>(s: Shape<T>, v: T, path: Path, x: T): T
    decreases path
  {
    if path == [] then x
    else if path[0] >= |s.kids(v)| then v
    else s.with_kids(v, s.kids(v)[path[0] := Put(s, s.kids(v)[path[0]], path[1..], x)])
  }

  predicate IsPath<T>(s: Shape<T>, v: T, path: Path)
    decreases path
  {
    path != [] ==> path[0] < |s.kids(v)| && IsPath(s, s.kids(v)[path[0]], path[1..])
  }

  predicate Apart(p: Path, q: Path) {
    !(p <= q) && !(q <= p)
  }

  // ----- Reading and replacing at a place -------------------------------------------------------

  lemma {:induction false} AtPut<T(!new)>(s: Shape<T>, v: T, p: Path, x: T)
    requires Lawful(s) && IsPath(s, v, p)
    ensures At(s, Put(s, v, p, x), p) == x && IsPath(s, Put(s, v, p, x), p)
    decreases p
  {
    if p != [] { AtPut(s, s.kids(v)[p[0]], p[1..], x); }
  }

  lemma {:induction false} PutElsewhere<T(!new)>(s: Shape<T>, v: T, p: Path, q: Path, x: T)
    requires Lawful(s) && IsPath(s, v, p) && IsPath(s, v, q) && Apart(p, q)
    ensures At(s, Put(s, v, p, x), q) == At(s, v, q) && IsPath(s, Put(s, v, p, x), q)
    decreases p
  {
    if p[0] == q[0] {
      assert p == [p[0]] + p[1..] && q == [q[0]] + q[1..];
      PutElsewhere(s, s.kids(v)[p[0]], p[1..], q[1..], x);
    }
  }

  lemma {:induction false} PathToKid<T>(s: Shape<T>, v: T, p: Path, i: nat)
    requires IsPath(s, v, p)
    ensures IsPath(s, v, p + [i]) <==> i < |s.kids(At(s, v, p))|
    ensures i < |s.kids(At(s, v, p))| ==> At(s, v, p + [i]) == s.kids(At(s, v, p))[i]
    decreases p
  {
    if p == [] {
      assert (p + [i])[1..] == [];
    } else {
      assert (p + [i])[1..] == p[1..] + [i];
      PathToKid(s, s.kids(v)[p[0]], p[1..], i);
    }
  }

  lemma {:induction false} PutKid<T>(s: Shape<T>, v: T, p: Path, i: nat, x: T)
    requires IsPath(s, v, p) && i < |s.kids(At(s, v, p))|
    ensures Put(s, v, p + [i], x) == Put(s, v, p, s.with_kids(At(s, v, p), s.kids(At(s, v, p))[i := x]))
    decreases p
  {
    if p == [] {
      assert (p + [i])[1..] == [];
    } else {
      assert (p + [i])[1..] == p[1..] + [i];
      PutKid(s, s.kids(v)[p[0]], p[1..], i, x);
    }
  }

  lemma {:induction false} PutTwice<T(!new)>(s: Shape<T>, v: T, p: Path, x: T, y: T)
    requires Lawful(s) && IsPath(s, v, p)
    ensures Put(s, Put(s, v, p, x), p, y) == Put(s, v, p, y)
    decreases p
  {
    if p != [] {
      PutTwice(s, s.kids(v)[p[0]], p[1..], x, y);
      var k, i := s.kids(v), p[0];
      var a, b := Put(s, k[i], p[1..], x), Put(s, k[i], p[1..], y);
      assert k[i := a][i := b] == k[i := b];
    }
  }

  lemma {:induction false} PutSame<T(!new)>(s: Shape<T>, v: T, p: Path)
    requires Lawful(s)
    ensures Put(s, v, p, At(s, v, p)) == v
    decreases p
  {
    if p != [] && p[0] < |s.kids(v)| {
      PutSame(s, s.kids(v)[p[0]], p[1..]);
      assert s.kids(v)[p[0] := s.kids(v)[p[0]]] == s.kids(v);
    }
  }

  lemma SiblingsApart(p: Path, i: nat, j: nat)
    requires i != j
    ensures Apart(p + [i], p + [j])
  {
    assert (p + [i])[|p|] != (p + [j])[|p|];
  }

  lemma ApartFromKid(p: Path, q: Path, i: nat)
    requires Apart(p, q)
    ensures Apart(p, q + [i])
  {
  }

  // ----- The worklist ----------------------------------------------------------------------------

  // Every reference carries what the visit needs besides the place.
  type Work<D> = seq<(D, Path)>

  // The references on the worklist are live and point to separate places.
  ghost predicate Live<T, D>(s: Shape<T>, root: T, work: Work<D>) {
    && (forall i :: 0 <= i < |work| ==> IsPath(s, root, work[i].1))
    && (forall i, j :: 0 <= i < j < |work| ==> Apart(work[i].1, work[j].1))
  }

  /** The recursion over the kids, from the last to the first. */
  ghost function ApplyKids<T, D, E>(apply: (D, T) -> Result<T, E>, kid: nat -> D, kids: seq<T>): (r: Result<seq<T>, E>)
    ensures r.Ok? ==> |r.value| == |kids|
    decreases |kids|
  {
    if kids == [] then Ok([])
    else
      var n := |kids| - 1;
      match apply(kid(n), kids[n])
      case Err(e) => Err(e)
      case Ok(last) =>
        match ApplyKids(apply, kid, kids[..n])
        case Err(e) => Err(e)
        case Ok(before) => Ok(before + [last])
  }

  // What the loop still has to do to the root.
  ghost function Remaining<T, D, E>(s: Shape<T>, apply: (D, T) -> Result<T, E>, root: T, work: Work<D>): Result<T, E>
    decreases |work|
  {
    if work == [] then Ok(root)
    else
      var (data, path) := work[|work| - 1];
      match apply(data, At(s, root, path))
      case Err(e) => Err(e)
      case Ok(x) => Remaining(s, apply, Put(s, root, path, x), work[..|work| - 1])
  }

  function KidWork<D>(kid: nat -> D, path: Path, count: nat): (r: Work<D>)
    ensures |r| == count
    ensures forall i :: 0 <= i < count ==> r[i] == (kid(i), path + [i])
  {
    if count == 0 then [] else KidWork(kid, path, count - 1) + [(kid(count - 1), path + [count - 1])]
  }

  // Queueing the kids of a visited place does what the recursion does to them.
  lemma {:induction false} KidsRemain<T(!new), D, E>(s: Shape<T>, apply: (D, T) -> Result<T, E>, kid: nat -> D,
                                                     root: T, work: Work<D>, path: Path, count: nat)
    requires Lawful(s) && IsPath(s, root, path) && count <= |s.kids(At(s, root, path))|
    ensures Remaining(s, apply, root, work + KidWork(kid, path, count))
         == match ApplyKids(apply, kid, s.kids(At(s, root, path))[..count])
            case Err(e) => Err(e)
            case Ok(done) =>
              Remaining(s, apply, Put(s, root, path, s.with_kids(At(s, root, path), done + s.kids(At(s, root, path))[count..])), work)
    decreases count
  {
    hide At, Put, Lawful, IsPath;
    var v := At(s, root, path);
    var kids := s.kids(v);
    var queue := work + KidWork(kid, path, count);
    if count == 0 {
      assert queue == work;
      assert [] + kids[0..] == kids;
      SameKids(s, v, kids);
      PutSame(s, root, path);
    } else {
      var i := count - 1;
      assert queue[..|queue| - 1] == work + KidWork(kid, path, i);
      assert queue[|queue| - 1] == (kid(i), path + [i]);
      PathToKid(s, root, path, i);
      assert kids[..count][..i] == kids[..i] && kids[..count][i] == kids[i];
      var last := apply(kid(i), kids[i]);
      if last.Ok? {
        var x := last.value;
        var root' := Put(s, root, path, s.with_kids(v, kids[i := x]));
        PutKid(s, root, path, i, x);
        SameKids(s, v, kids[i := x]);
        AtPut(s, root, path, s.with_kids(v, kids[i := x]));
        KidsRemain(s, apply, kid, root', work, path, i);
        assert kids[i := x][..i] == kids[..i];
        if ApplyKids(apply, kid, kids[..i]).Ok? {
          OneKidMore(s, root, path, i, x, ApplyKids(apply, kid, kids[..i]).value);
        }
      }
    }
  }

  lemma SameKids<T(!new)>(s: Shape<T>, v: T, kids: seq<T>)
    requires Lawful(s) && |kids| == |s.kids(v)|
    ensures s.kids(s.with_kids(v, kids)) == kids
    ensures kids == s.kids(v) ==> s.with_kids(v, kids) == v
  {
  }

  lemma OneKidMore<T(!new)>(s: Shape<T>, root: T, path: Path, i: nat, x: T, before: seq<T>)
    requires Lawful(s) && IsPath(s, root, path) && i < |s.kids(At(s, root, path))| && |before| == i
    ensures var v := At(s, root, path);
            var kids := s.kids(v);
            var v' := s.with_kids(v, kids[i := x]);
            Put(s, Put(s, root, path, v'), path, s.with_kids(v', before + kids[i := x][i..]))
              == Put(s, root, path, s.with_kids(v, (before + [x]) + kids[i + 1..]))
  {
    hide At, Put;
    var v := At(s, root, path);
    var kids := s.kids(v);
    var v' := s.with_kids(v, kids[i := x]);
    var all := before + kids[i := x][i..];
    assert all == (before + [x]) + kids[i + 1..];
    PutTwice(s, root, path, v', s.with_kids(v, all));
  }

  /** One visit: the popped place is replaced, and its kids are queued. */
  lemma VisitRemains<T(!new), D, E>(s: Shape<T>, apply: (D, T) -> Result<T, E>, kid: nat -> D,
                                    root: T, work: Work<D>, data: D, path: Path, visited: T)
    requires Lawful(s) && IsPath(s, root, path)
    requires apply(data, At(s, root, path)) == match ApplyKids(apply, kid, s.kids(visited))
                                               case Err(e) => Err(e)
                                               case Ok(kids) => Ok(s.with_kids(visited, kids))
    ensures Remaining(s, apply, root, work + [(data, path)])
         == Remaining(s, apply, Put(s, root, path, visited), work + KidWork(kid, path, |s.kids(visited)|))
  {
    var all := work + [(data, path)];
    assert all[..|all| - 1] == work;
    var kids := s.kids(visited);
    AtPut(s, root, path, visited);
    KidsRemain(s, apply, kid, Put(s, root, path, visited), work, path, |kids|);
    assert kids[..|kids|] == kids;
    var done := ApplyKids(apply, kid, kids);
    if done.Ok? {
      assert done.value + kids[|kids|..] == done.value;
      PutTwice(s, root, path, visited, s.with_kids(visited, done.value));
    }
  }

  /** A worklist of one reference to the root. */
  lemma OnlyRootRemains<T, D, E>(s: Shape<T>, apply: (D, T) -> Result<T, E>, root: T, data: D)
    ensures Live(s, root, [(data, [])])
    ensures Remaining(s, apply, root, [(data, [])]) == apply(data, root)
    ensures Remaining(s, apply, root, []) == Ok(root)
  {
    var work: Work<D> := [(data, [])];
    assert work[..0] == [];
  }

  lemma FailureRemains<T, D, E>(s: Shape<T>, apply: (D, T) -> Result<T, E>, root: T, work: Work<D>, data: D, path: Path)
    requires apply(data, At(s, root, path)).Err?
    ensures Remaining(s, apply, root, work + [(data, path)]) == Err(apply(data, At(s, root, path)).error)
  {
    assert (work + [(data, path)])[|work|] == (data, path);
  }

  // ----- Live references and the work behind them ---------------------------------------------------

  // Replacing the popped place leaves every other reference as it was.
  lemma PutKeepsOthers<T(!new), D>(s: Shape<T>, root: T, work: Work<D>, data: D, path: Path, x: T)
    requires Lawful(s) && Live(s, root, work + [(data, path)])
    ensures IsPath(s, root, path)
    ensures forall i :: 0 <= i < |work| ==>
              && IsPath(s, Put(s, root, path, x), work[i].1) && At(s, Put(s, root, path, x), work[i].1) == At(s, root, work[i].1)
              && Apart(work[i].1, path)
    ensures forall i, j :: 0 <= i < j < |work| ==> Apart(work[i].1, work[j].1)
  {
    hide At, Put, IsPath, Apart, Lawful;
    var all := work + [(data, path)];
    assert all[|work|] == (data, path);
    forall i | 0 <= i < |work|
      ensures IsPath(s, Put(s, root, path, x), work[i].1)
      ensures At(s, Put(s, root, path, x), work[i].1) == At(s, root, work[i].1) && Apart(work[i].1, path)
    {
      assert all[i] == work[i] && Apart(all[i].1, all[|work|].1);
      ApartIsSymmetric(work[i].1, path);
      PutElsewhere(s, root, path, work[i].1, x);
    }
    forall i, j | 0 <= i < j < |work| ensures Apart(work[i].1, work[j].1) {
      assert all[i] == work[i] && all[j] == work[j];
    }
  }

  lemma ApartIsSymmetric(p: Path, q: Path)
    requires Apart(p, q)
    ensures Apart(q, p)
  {
  }

  // Queueing the kids of the place at `path` keeps the references live.
  lemma KidsAreLive<T, D>(s: Shape<T>, root: T, work: Work<D>, path: Path, visited: T, kid: nat -> D)
    requires IsPath(s, root, path) && At(s, root, path) == visited
    requires Live(s, root, work) && forall i :: 0 <= i < |work| ==> Apart(work[i].1, path)
    ensures Live(s, root, work + KidWork(kid, path, |s.kids(visited)|))
    ensures forall i :: 0 <= i < |s.kids(visited)| ==> At(s, root, path + [i]) == s.kids(visited)[i]
  {
    hide At, IsPath, Apart, KidWork;
    var count := |s.kids(visited)|;
    var queue := work + KidWork(kid, path, count);
    forall i | 0 <= i < count ensures IsPath(s, root, path + [i]) && At(s, root, path + [i]) == s.kids(visited)[i] {
      PathToKid(s, root, path, i);
    }
    forall i, j | 0 <= i < j < |queue| ensures Apart(queue[i].1, queue[j].1) {
      if j >= |work| {
        if i < |work| {
          ApartFromKid(work[i].1, path, j - |work|);
        } else {
          SiblingsApart(path, i - |work|, j - |work|);
        }
      }
    }
  }

  function SumSize<T>(size: T -> nat, items: seq<T>): nat {
    if items == [] then 0 else SumSize(size, items[..|items| - 1]) + size(items[|items| - 1])
  }

  ghost function WorkSize<T, D>(s: Shape<T>, size: T -> nat, root: T, work: Work<D>): nat {
    if work == [] then 0
    else WorkSize(s, size, root, work[..|work| - 1]) + size(At(s, root, work[|work| - 1].1))
  }

  lemma {:induction false} WorkSizeSame<T, D>(s: Shape<T>, size: T -> nat, root: T, root': T, work: Work<D>)
    requires forall i :: 0 <= i < |work| ==> At(s, root', work[i].1) == At(s, root, work[i].1)
    ensures WorkSize(s, size, root', work) == WorkSize(s, size, root, work)
    decreases |work|
  {
    if work != [] { WorkSizeSame(s, size, root, root', work[..|work| - 1]); }
  }

  lemma WorkSizePush<T, D>(s: Shape<T>, size: T -> nat, root: T, work: Work<D>, data: D, path: Path)
    ensures WorkSize(s, size, root, work + [(data, path)]) == WorkSize(s, size, root, work) + size(At(s, root, path))
  {
    hide At;
    assert (work + [(data, path)])[..|work|] == work;
  }

  lemma SumSizePush<T>(size: T -> nat, kids: seq<T>, n: nat)
    requires n < |kids|
    ensures SumSize(size, kids[..n + 1]) == SumSize(size, kids[..n]) + size(kids[n])
  {
    assert kids[..n + 1][..n] == kids[..n];
  }

  lemma {:induction false} WorkSizeOfKids<T, D>(s: Shape<T>, size: T -> nat, root: T, work: Work<D>, path: Path,
                                                visited: T, kid: nat -> D, count: nat)
    requires count <= |s.kids(visited)|
    requires forall i :: 0 <= i < count ==> At(s, root, path + [i]) == s.kids(visited)[i]
    ensures WorkSize(s, size, root, work + KidWork(kid, path, count))
         == WorkSize(s, size, root, work) + SumSize(size, s.kids(visited)[..count])
    decreases count
  {
    hide At, WorkSize;
    if count == 0 {
      assert work + KidWork(kid, path, 0) == work;
    } else {
      hide SumSize;
      var n := count - 1;
      WorkSizeOfKids(s, size, root, work, path, visited, kid, n);
      WorkSizePush(s, size, root, work + KidWork(kid, path, n), kid(n), path + [n]);
      SumSizePush(size, s.kids(visited), n);
      assert work + KidWork(kid, path, count) == work + KidWork(kid, path, n) + [(kid(n), path + [n])];
    }
  }

  /** One visit keeps the references live, and shrinks the total size behind them
      if the visit does not grow the place and the kids are smaller than it. */
  lemma VisitKeepsLive<T(!new), D>(s: Shape<T>, size: T -> nat, kid: nat -> D,
                                   root: T, work: Work<D>, data: D, path: Path, visited: T)
    requires Lawful(s) && Live(s, root, work + [(data, path)])
    requires SumSize(size, s.kids(visited)) < size(visited) <= size(At(s, root, path))
    ensures IsPath(s, root, path)
    ensures var root', work' := Put(s, root, path, visited), work + KidWork(kid, path, |s.kids(visited)|);
            && Live(s, root', work')
            && WorkSize(s, size, root', work') < WorkSize(s, size, root, work + [(data, path)])
  {
    hide At, Put, IsPath, Apart, KidWork, Lawful;
    var root' := Put(s, root, path, visited);
    var kids := s.kids(visited);
    PutKeepsOthers(s, root, work, data, path, visited);
    AtPut(s, root, path, visited);
    KidsAreLive(s, root', work, path, visited, kid);
    WorkSizeSame(s, size, root, root', work);
    WorkSizeOfKids(s, size, root', work, path, visited, kid, |kids|);
    assert (work + [(data, path)])[..|work|] == work;
    assert kids[..|kids|] == kids;
  }
}
