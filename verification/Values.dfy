// Spanless values (src/ast.rs): numbers, tags, the total order on values, and
// equality of values, where a mapping is compared without regard to entry order.
module Values {
  import opened Prelude
  import C = Canonical

  type Float = C.Float

  type i128 = x: int | -0x8000_0000_0000_0000_0000_0000_0000_0000 <= x < 0x8000_0000_0000_0000_0000_0000_0000_0000
  type u128 = x: int | 0 <= x < 0x1_0000_0000_0000_0000_0000_0000_0000_0000

  datatype Number = Integer(i: i128) | Unsigned(u: u128) | Float(f: Float)

  datatype Tag = Tag(handle: string, suffix: string) {
    predicate IsYamlCore(core: string) {
      if handle == "!!" then suffix == core
      else handle == "!" && suffix == "tag:yaml.org,2002:" + core
    }

    predicate IsMerge() {
      IsYamlCore("merge")
    }
  }

  datatype Value =
    | Null
    | Bool(b: bool)
    | Number(n: Number)
    | String(s: string)
    | Sequence(items: seq<Value>)
    | Mapping(entries: seq<Entry>)
    | Tagged(tag: Tag, value: Value)

  type Entry = (Value, Value)

  // ----- Tags ---------------------------------------------------------------

  predicate IsWhitespace(c: char) {
    var u := c as int;
    || 0x09 <= u <= 0x0D || u == 0x20 || u == 0x85 || u == 0xA0 || u == 0x1680
    || 0x2000 <= u <= 0x200A || u == 0x2028 || u == 0x2029 || u == 0x202F || u == 0x205F || u == 0x3000
  }

  predicate NeedsVerbatim(suffix: string) {
    && suffix != []
    && (|| "tag:" <= suffix
        || suffix[0] == ':'
        || suffix[0] == '<'
        || suffix[|suffix| - 1] == ':'
        || exists c :: c in suffix && (c == '!' || IsWhitespace(c) || c in ",[]{}"))
  }

  function TagText(t: Tag): string {
    if t.handle == "!" && NeedsVerbatim(t.suffix) then "!<" + t.suffix + ">" else t.handle + t.suffix
  }

  /** Tags are equal, ordered and hashed by their text without a leading bang. */
  function TagKey(t: Tag): string {
    var text := TagText(t);
    if |text| > 1 && text[0] == '!' then text[1..] else text
  }

  predicate TagEq(a: Tag, b: Tag) {
    TagKey(a) == TagKey(b)
  }

  // ----- Numbers ------------------------------------------------------------

  function TotalNumberCmp(a: Number, b: Number): Ordering {
    match (a, b)
    case (Integer(x), Integer(y)) => CmpInt(x, y)
    case (Unsigned(x), Unsigned(y)) => CmpInt(x, y)
    case (Integer(x), Unsigned(y)) => if x < 0 then Less else CmpInt(x, y)
    case (Unsigned(x), Integer(y)) => if y < 0 then Greater else CmpInt(x, y)
    case (Float(x), Float(y)) =>
      if x != C.NaN && y != C.NaN then C.CmpFloat(x, y)
      else if x != C.NaN then Less
      else if y != C.NaN then Greater
      else Equal
    case (_, Float(_)) => Less
    case (Float(_), _) => Greater
  }

  predicate NumberEq(a: Number, b: Number) {
    match (a, b)
    case (Float(x), Float(y)) => x == y
    case (Float(_), _) => false
    case (_, Float(_)) => false
    case _ => TotalNumberCmp(a, b) == Equal
  }

  function CanonNumber(n: Number): (t: C.Tree)
    ensures t.Integer? || t.Unsigned? || t.Float?
  {
    match n
    case Integer(i) => if i < 0 then C.Integer(i) else C.Unsigned(i)
    case Unsigned(u) => C.Unsigned(u)
    case Float(f) => C.Float(f)
  }

  // ----- The order on values ------------------------------------------------

  function Height(v: Value): nat
    decreases v, 0
  {
    match v
    case Sequence(items) => 1 + HeightItems(items)
    case Mapping(entries) => 1 + HeightEntries(entries)
    case Tagged(_, inner) => 1 + Height(inner)
    case _ => 0
  }

  function HeightItems(items: seq<Value>): nat
    decreases items, 0
  {
    if items == [] then 0 else Max(Height(items[0]), HeightItems(items[1..]))
  }

  function HeightEntry(e: Entry): nat
    decreases e, 1
  {
    Max(Height(e.0), Height(e.1))
  }

  function HeightEntries(entries: seq<Entry>): nat
    decreases entries, 0
  {
    if entries == [] then 0 else Max(HeightEntry(entries[0]), HeightEntries(entries[1..]))
  }

  function TotalValueCmp(a: Value, b: Value): Ordering
    decreases Max(Height(a), Height(b)), 0, 0
  {
    match a
    case Null => if b.Null? then Equal else Less
    case Bool(x) => if b.Null? then Greater else if b.Bool? then CmpBool(x, b.b) else Less
    case Number(x) =>
      if b.Null? || b.Bool? then Greater
      else if b.Number? then TotalNumberCmp(x, b.n)
      else Less
    case String(x) =>
      if b.Null? || b.Bool? || b.Number? then Greater
      else if b.String? then CmpString(x, b.s)
      else Less
    case Sequence(xs) =>
      if b.Sequence? then CmpItems(xs, b.items)
      else if b.Mapping? || b.Tagged? then Less
      else Greater
    case Mapping(xs) =>
      if b.Mapping? then CmpEntries(SortEntries(xs), SortEntries(b.entries))
      else if b.Tagged? then Less
      else Greater
    case Tagged(t, x) =>
      if b.Tagged? then CmpString(TagKey(t), TagKey(b.tag)).Then(TotalValueCmp(x, b.value)) else Greater
  }

  function CmpItems(xs: seq<Value>, ys: seq<Value>): Ordering
    decreases Max(HeightItems(xs), HeightItems(ys)), 1, |xs|
  {
    if xs == [] then
      if ys == [] then Equal else Less
    else if ys == [] then Greater
    else TotalValueCmp(xs[0], ys[0]).Then(CmpItems(xs[1..], ys[1..]))
  }

  function CmpEntry(x: Entry, y: Entry): Ordering
    decreases Max(HeightEntry(x), HeightEntry(y)), 1, 0
  {
    TotalValueCmp(x.0, y.0).Then(TotalValueCmp(x.1, y.1))
  }

  function CmpEntries(xs: seq<Entry>, ys: seq<Entry>): Ordering
    decreases Max(HeightEntries(xs), HeightEntries(ys)), 2, |xs|
  {
    if xs == [] then
      if ys == [] then Equal else Less
    else if ys == [] then Greater
    else CmpEntry(xs[0], ys[0]).Then(CmpEntries(xs[1..], ys[1..]))
  }

  // The stable sort of `Mapping::partial_cmp`, as insertion from the right.
  function InsertEntry(e: Entry, s: seq<Entry>): (r: seq<Entry>)
    ensures HeightEntries(r) == Max(HeightEntry(e), HeightEntries(s))
    decreases Max(HeightEntry(e), HeightEntries(s)), 2, |s|
  {
    if s == [] || CmpEntry(e, s[0]) != Greater then
      assert ([e] + s)[1..] == s;
      [e] + s
    else
      var rest := InsertEntry(e, s[1..]);
      assert ([s[0]] + rest)[1..] == rest;
      [s[0]] + rest
  }

  function SortEntries(s: seq<Entry>): (r: seq<Entry>)
    ensures HeightEntries(r) == HeightEntries(s)
    decreases HeightEntries(s), 3, |s|
  {
    if s == [] then [] else InsertEntry(s[0], SortEntries(s[1..]))
  }

  // ----- Equality -----------------------------------------------------------

  predicate ValueEq(a: Value, b: Value)
    decreases a, 0
  {
    match a
    case Null => b.Null?
    case Bool(x) => b.Bool? && x == b.b
    case Number(x) => b.Number? && NumberEq(x, b.n)
    case String(x) => b.String? && x == b.s
    case Sequence(xs) => b.Sequence? && |xs| == |b.items| && forall i :: 0 <= i < |xs| ==> ValueEq(xs[i], b.items[i])
    case Mapping(xs) => b.Mapping? && |xs| == |b.entries| && forall i :: 0 <= i < |xs| ==> HasEqualEntry(xs[i], b.entries)
    case Tagged(t, x) => b.Tagged? && TagEq(t, b.tag) && ValueEq(x, b.value)
  }

  // `other.get(key)` finds the first equal key; its value must be equal too.
  predicate HasEqualEntry(e: Entry, ys: seq<Entry>)
    decreases e, 1, |ys|
  {
    && ys != []
    && if ValueEq(e.0, ys[0].0) then ValueEq(e.1, ys[0].1) else HasEqualEntry(e, ys[1..])
  }

  // The invariant every `Mapping` keeps, at all nesting levels.
  ghost predicate Valid(v: Value)
    decreases v, 0
  {
    match v
    case Sequence(items) => forall i :: 0 <= i < |items| ==> Valid(items[i])
    case Mapping(entries) => ValidEntries(entries)
    case Tagged(_, inner) => Valid(inner)
    case _ => true
  }

  ghost predicate ValidEntries(entries: seq<Entry>)
    decreases entries, 0
  {
    && (forall i :: 0 <= i < |entries| ==> ValidEntry(entries[i]))
    && UniqueKeys(entries)
  }

  ghost predicate ValidEntry(e: Entry)
    decreases e, 1
  {
    Valid(e.0) && Valid(e.1)
  }

  ghost predicate UniqueKeys(entries: seq<Entry>) {
    forall i, j :: 0 <= i < j < |entries| ==> !ValueEq(entries[i].0, entries[j].0)
  }

  // ----- The canonical form, and what it decides ----------------------------

  function Canon(v: Value): C.Tree
    decreases v, 0
  {
    match v
    case Null => C.Null
    case Bool(b) => C.Bool(b)
    case Number(n) => CanonNumber(n)
    case String(s) => C.String(s)
    case Sequence(items) => C.Sequence(CanonItems(items))
    case Mapping(entries) => C.Mapping(C.Sort(CanonEntries(entries)))
    case Tagged(t, inner) => C.Tagged(TagKey(t), Canon(inner))
  }

  function CanonItems(items: seq<Value>): (r: seq<C.Tree>)
    ensures |r| == |items|
    ensures forall i :: 0 <= i < |items| ==> r[i] == Canon(items[i])
    decreases items, 0
  {
    if items == [] then [] else [Canon(items[0])] + CanonItems(items[1..])
  }

  function CanonEntry(e: Entry): (C.Tree, C.Tree)
    decreases e, 1
  {
    (Canon(e.0), Canon(e.1))
  }

  function CanonEntries(entries: seq<Entry>): (r: seq<(C.Tree, C.Tree)>)
    ensures |r| == |entries|
    ensures forall i :: 0 <= i < |entries| ==> r[i] == CanonEntry(entries[i])
    decreases entries, 0
  {
    if entries == [] then [] else [CanonEntry(entries[0])] + CanonEntries(entries[1..])
  }

  function Kind(v: Value): nat {
    match v
    case Null => 0
    case Bool(_) => 1
    case Number(_) => 2
    case String(_) => 3
    case Sequence(_) => 4
    case Mapping(_) => 5
    case Tagged(_, _) => 6
  }

  lemma CmpAcrossKinds(a: Value, b: Value)
    requires Kind(a) != Kind(b)
    ensures TotalValueCmp(a, b) == C.Order(Canon(a), Canon(b))
  {
    hide C.Sort, CmpString;
    assert Kind(a) < Kind(b) ==> C.Rank(Canon(a)) < C.Rank(Canon(b));
    assert Kind(a) > Kind(b) ==> C.Rank(Canon(a)) > C.Rank(Canon(b));
  }

  lemma NumberCmpIsCanonicalOrder(a: Number, b: Number)
    ensures TotalNumberCmp(a, b) == C.Order(CanonNumber(a), CanonNumber(b))
    ensures NumberEq(a, b) <==> CanonNumber(a) == CanonNumber(b)
  {
  }

  // Comparing values is comparing canonical forms; sorting commutes with `Canon`.
  lemma {:induction false} CmpIsCanonicalOrder(a: Value, b: Value)
    ensures TotalValueCmp(a, b) == C.Order(Canon(a), Canon(b))
    decreases Max(Height(a), Height(b)), 0, 0
  {
    hide CmpEntries, CmpItems, C.Sort, SortEntries, C.OrderItems, C.OrderEntries, CmpString, TotalNumberCmp, CanonNumber, TagKey,
      CanonItems, CanonEntries, HeightItems, HeightEntries;
    if Kind(a) != Kind(b) {
      CmpAcrossKinds(a, b);
    } else {
      match a
      case Sequence(xs) =>
        CmpItemsIsCanonicalOrder(xs, b.items);
      case Mapping(xs) =>
        SortIsCanonicalSort(xs);
        SortIsCanonicalSort(b.entries);
        CmpEntriesIsCanonicalOrder(SortEntries(xs), SortEntries(b.entries));
      case Tagged(_, x) =>
        CmpIsCanonicalOrder(x, b.value);
      case Number(n) =>
        NumberCmpIsCanonicalOrder(n, b.n);
      case _ =>
    }
  }

  lemma {:induction false} CmpItemsIsCanonicalOrder(xs: seq<Value>, ys: seq<Value>)
    ensures CmpItems(xs, ys) == C.OrderItems(CanonItems(xs), CanonItems(ys))
    decreases Max(HeightItems(xs), HeightItems(ys)), 1, |xs|
  {
    if xs != [] && ys != [] {
      CmpIsCanonicalOrder(xs[0], ys[0]);
      CmpItemsIsCanonicalOrder(xs[1..], ys[1..]);
      assert CanonItems(xs)[1..] == CanonItems(xs[1..]);
      assert CanonItems(ys)[1..] == CanonItems(ys[1..]);
    }
  }

  lemma {:induction false} CmpEntryIsCanonicalOrder(x: Entry, y: Entry)
    ensures CmpEntry(x, y) == C.OrderEntry(CanonEntry(x), CanonEntry(y))
    decreases Max(HeightEntry(x), HeightEntry(y)), 1, 0
  {
    CmpIsCanonicalOrder(x.0, y.0);
    CmpIsCanonicalOrder(x.1, y.1);
  }

  lemma {:induction false} CmpEntriesIsCanonicalOrder(xs: seq<Entry>, ys: seq<Entry>)
    ensures CmpEntries(xs, ys) == C.OrderEntries(CanonEntries(xs), CanonEntries(ys))
    decreases Max(HeightEntries(xs), HeightEntries(ys)), 2, |xs|
  {
    if xs != [] && ys != [] {
      CmpEntryIsCanonicalOrder(xs[0], ys[0]);
      CmpEntriesIsCanonicalOrder(xs[1..], ys[1..]);
      assert CanonEntries(xs)[1..] == CanonEntries(xs[1..]);
      assert CanonEntries(ys)[1..] == CanonEntries(ys[1..]);
    }
  }

  lemma {:induction false} InsertIsCanonicalInsert(e: Entry, s: seq<Entry>)
    ensures CanonEntries(InsertEntry(e, s)) == C.Insert(CanonEntry(e), CanonEntries(s))
    decreases Max(HeightEntry(e), HeightEntries(s)), 2, |s|
  {
    if s != [] {
      CmpEntryIsCanonicalOrder(e, s[0]);
      InsertIsCanonicalInsert(e, s[1..]);
      assert CanonEntries(s)[1..] == CanonEntries(s[1..]);
    }
    assert InsertEntry(e, s)[1..] == if s == [] || CmpEntry(e, s[0]) != Greater then s else InsertEntry(e, s[1..]);
  }

  lemma {:induction false} SortIsCanonicalSort(s: seq<Entry>)
    ensures CanonEntries(SortEntries(s)) == C.Sort(CanonEntries(s))
    decreases HeightEntries(s), 3, |s|
  {
    if s != [] {
      SortIsCanonicalSort(s[1..]);
      InsertIsCanonicalInsert(s[0], SortEntries(s[1..]));
      assert CanonEntries(s)[1..] == CanonEntries(s[1..]);
    }
  }

  // ----- Equality decides the canonical form ----------------------------------

  lemma {:induction false} ItemHeight(items: seq<Value>, i: nat)
    requires i < |items|
    ensures Height(items[i]) <= HeightItems(items)
  {
    if i > 0 { ItemHeight(items[1..], i - 1); }
  }

  lemma {:induction false} EntryHeight(entries: seq<Entry>, i: nat)
    requires i < |entries|
    ensures HeightEntry(entries[i]) <= HeightEntries(entries)
  {
    if i > 0 { EntryHeight(entries[1..], i - 1); }
  }

  ghost predicate DistinctKeys(s: seq<(C.Tree, C.Tree)>) {
    forall i, j :: 0 <= i < j < |s| ==> s[i].0 != s[j].0
  }

  lemma SameEntriesIffIncluded(s: seq<(C.Tree, C.Tree)>, t: seq<(C.Tree, C.Tree)>)
    requires DistinctKeys(s) && DistinctKeys(t) && |s| == |t|
    ensures (forall x :: x in s ==> x in t) <==> multiset(s) == multiset(t)
  {
    if forall x :: x in s ==> x in t {
      IncludedIsPermutation(s, t);
    } else if multiset(s) == multiset(t) {
      forall x | x in s ensures x in t {
        assert x in multiset(t);
      }
    }
  }

  lemma {:induction false} EqIsCanonicalEquality(a: Value, b: Value)
    requires Valid(a) && Valid(b)
    ensures ValueEq(a, b) <==> Canon(a) == Canon(b)
    decreases Max(Height(a), Height(b)), 0, 0
  {
    hide C.Sort, TagKey, CanonNumber, NumberEq, CanonItems, CanonEntries, HasEqualEntry, ValidEntries, HeightItems, HeightEntries;
    if Kind(a) == Kind(b) {
      match a
      case Number(n) =>
        NumberCmpIsCanonicalOrder(n, b.n);
      case Sequence(xs) =>
        ItemsEqIsCanonicalEquality(xs, b.items);
      case Mapping(xs) =>
        MappingEqIsPermutation(xs, b.entries);
        C.SortEqualIffSameEntries(CanonEntries(xs), CanonEntries(b.entries));
      case Tagged(_, x) =>
        EqIsCanonicalEquality(x, b.value);
      case _ =>
    }
  }

  lemma {:induction false} ItemsEqIsCanonicalEquality(xs: seq<Value>, ys: seq<Value>)
    requires (forall i :: 0 <= i < |xs| ==> Valid(xs[i])) && (forall i :: 0 <= i < |ys| ==> Valid(ys[i]))
    ensures (|xs| == |ys| && forall i :: 0 <= i < |xs| ==> ValueEq(xs[i], ys[i])) <==> CanonItems(xs) == CanonItems(ys)
    decreases Max(HeightItems(xs), HeightItems(ys)), 1, 0
  {
    hide ValueEq, Canon, CanonItems;
    if |xs| == |ys| {
      forall i | 0 <= i < |xs| ensures ValueEq(xs[i], ys[i]) <==> CanonItems(xs)[i] == CanonItems(ys)[i] {
        ItemHeight(xs, i);
        ItemHeight(ys, i);
        EqIsCanonicalEquality(xs[i], ys[i]);
      }
    }
  }

  lemma {:induction false} UniqueKeysCanonically(entries: seq<Entry>)
    requires ValidEntries(entries)
    ensures DistinctKeys(CanonEntries(entries))
    decreases HeightEntries(entries), 1, 0
  {
    forall i, j | 0 <= i < j < |entries| ensures Canon(entries[i].0) != Canon(entries[j].0) {
      EntryHeight(entries, i);
      EntryHeight(entries, j);
      EqIsCanonicalEquality(entries[i].0, entries[j].0);
    }
  }

  lemma {:induction false} HasEqualEntryCanonically(e: Entry, ys: seq<Entry>)
    requires ValidEntry(e) && ValidEntries(ys)
    requires DistinctKeys(CanonEntries(ys))
    ensures HasEqualEntry(e, ys) <==> CanonEntry(e) in CanonEntries(ys)
    decreases Max(HeightEntry(e), HeightEntries(ys)), 1, |ys|
  {
    hide ValueEq, Canon, Valid, Height;
    if ys != [] {
      var cs := CanonEntries(ys);
      EntryHeight(ys, 0);
      EqIsCanonicalEquality(e.0, ys[0].0);
      EqIsCanonicalEquality(e.1, ys[0].1);
      assert cs[1..] == CanonEntries(ys[1..]);
      HasEqualEntryCanonically(e, ys[1..]);
      assert cs == [cs[0]] + cs[1..];
    }
  }

  lemma {:induction false} MappingEqIsPermutation(xs: seq<Entry>, ys: seq<Entry>)
    requires ValidEntries(xs) && ValidEntries(ys)
    ensures (|xs| == |ys| && forall i :: 0 <= i < |xs| ==> HasEqualEntry(xs[i], ys))
       <==> multiset(CanonEntries(xs)) == multiset(CanonEntries(ys))
    decreases Max(HeightEntries(xs), HeightEntries(ys)), 2, 0
  {
    if |xs| != |ys| {
      assert |multiset(CanonEntries(xs))| != |multiset(CanonEntries(ys))|;
    } else {
      UniqueKeysCanonically(xs);
      UniqueKeysCanonically(ys);
      forall i | 0 <= i < |xs| ensures HasEqualEntry(xs[i], ys) <==> CanonEntry(xs[i]) in CanonEntries(ys) {
        EntryHeight(xs, i);
        HasEqualEntryCanonically(xs[i], ys);
      }
      AllEqualIffPermutation(xs, ys);
    }
  }

  lemma AllEqualIffPermutation(xs: seq<Entry>, ys: seq<Entry>)
    requires |xs| == |ys|
    requires DistinctKeys(CanonEntries(xs)) && DistinctKeys(CanonEntries(ys))
    requires forall i :: 0 <= i < |xs| ==> (HasEqualEntry(xs[i], ys) <==> CanonEntry(xs[i]) in CanonEntries(ys))
    ensures (forall i :: 0 <= i < |xs| ==> HasEqualEntry(xs[i], ys))
       <==> multiset(CanonEntries(xs)) == multiset(CanonEntries(ys))
  {
    var cx, cy := CanonEntries(xs), CanonEntries(ys);
    SameEntriesIffIncluded(cx, cy);
    if forall i :: 0 <= i < |xs| ==> HasEqualEntry(xs[i], ys) {
      assert forall x :: x in cx ==> x in cy;
    } else {
      var i :| 0 <= i < |xs| && !HasEqualEntry(xs[i], ys);
      assert cx[i] in cx;
    }
  }

  // ----- Main results ---------------------------------------------------------

  /** `total_value_cmp` is a total order up to its own `Equal`, on every value. */
  lemma TotalValueCmpIsTotalOrder(a: Value, b: Value, c: Value)
    ensures TotalValueCmp(a, a) == Equal
    ensures TotalValueCmp(b, a) == TotalValueCmp(a, b).Reverse()
    ensures TotalValueCmp(a, b) != Greater && TotalValueCmp(b, c) != Greater ==> TotalValueCmp(a, c) != Greater
    ensures TotalValueCmp(a, b) == Equal ==> TotalValueCmp(a, c) == TotalValueCmp(b, c)
  {
    CmpIsCanonicalOrder(a, a);
    CmpIsCanonicalOrder(a, b);
    CmpIsCanonicalOrder(b, a);
    CmpIsCanonicalOrder(b, c);
    CmpIsCanonicalOrder(a, c);
    C.OrderAntisymmetric(Canon(a), Canon(b));
    C.OrderAntisymmetric(Canon(a), Canon(a));
    if TotalValueCmp(a, b) != Greater && TotalValueCmp(b, c) != Greater {
      C.OrderTransitive(Canon(a), Canon(b), Canon(c));
    }
  }

  /** The order answers `Equal` exactly on values that are `==`. */
  lemma TotalValueCmpAgreesWithEq(a: Value, b: Value)
    requires Valid(a) && Valid(b)
    ensures TotalValueCmp(a, b) == Equal <==> ValueEq(a, b)
  {
    CmpIsCanonicalOrder(a, b);
    C.OrderAntisymmetric(Canon(a), Canon(b));
    EqIsCanonicalEquality(a, b);
  }

  /** Equality of mappings does not see the order of entries. */
  lemma MappingEqIgnoresOrder(xs: seq<Entry>, ys: seq<Entry>)
    requires ValidEntries(xs) && ValidEntries(ys) && multiset(xs) == multiset(ys)
    ensures ValueEq(Mapping(xs), Mapping(ys))
  {
    UniqueKeysCanonically(ys);
    assert |multiset(xs)| == |xs| && |multiset(ys)| == |ys|;
    forall i | 0 <= i < |xs| ensures HasEqualEntry(xs[i], ys) {
      assert xs[i] in multiset(ys);
      var k :| 0 <= k < |ys| && ys[k] == xs[i];
      assert CanonEntries(ys)[k] == CanonEntry(xs[i]);
      HasEqualEntryCanonically(xs[i], ys);
    }
  }
}
