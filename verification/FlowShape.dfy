// The flow text itself: how it is put together, that it is one printable line, and in
// which order sorted keys come.
module FlowShape {
  import opened Prelude
  import opened Nodes
  import opened FlowPrinter
  import opened FlowTheorems
  import opened FlowCanonical
  import D = Decimal

  // ----- Parts and commas --------------------------------------------------------------------

  /** The parts with a comma and a space between any two. */
  function Listed(parts: seq<string>): string {
    if parts == [] then "" else parts[0] + Behind(parts[1..])
  }

  function Behind(parts: seq<string>): string {
    if parts == [] then "" else ", " + parts[0] + Behind(parts[1..])
  }

  function ItemTexts(items: seq<Node>, o: Options): (r: seq<string>)
    ensures |r| == |items| && forall i :: 0 <= i < |items| ==> r[i] == Inline(items[i], o)
  {
    if items == [] then [] else [Inline(items[0], o)] + ItemTexts(items[1..], o)
  }

  function EntryTexts(entries: seq<Entry>, o: Options): (r: seq<string>)
    ensures |r| == |entries| && forall i :: 0 <= i < |entries| ==> r[i] == Inline(entries[i].0, o) + ": " + Inline(entries[i].1, o)
  {
    if entries == [] then []
    else [Inline(entries[0].0, o) + ": " + Inline(entries[0].1, o)] + EntryTexts(entries[1..], o)
  }

  lemma {:induction false} ItemsListed(items: seq<Node>, o: Options)
    ensures InlineItems(items, false, o) == Behind(ItemTexts(items, o))
    ensures InlineItems(items, true, o) == Listed(ItemTexts(items, o))
  {
    hide Inline;
    if items != [] {
      ItemsListed(items[1..], o);
      var text, rest := Inline(items[0], o), InlineItems(items[1..], false, o);
      assert ItemTexts(items, o)[1..] == ItemTexts(items[1..], o);
      assert ", " + (text + rest) == ", " + text + rest && "" + (text + rest) == text + rest;
    }
  }

  lemma {:induction false} EntriesListed(entries: seq<Entry>, o: Options)
    ensures InlineEntries(entries, false, o) == Behind(EntryTexts(entries, o))
    ensures InlineEntries(entries, true, o) == Listed(EntryTexts(entries, o))
  {
    hide Inline;
    if entries != [] {
      EntriesListed(entries[1..], o);
      var key, value, rest := Inline(entries[0].0, o), Inline(entries[0].1, o), InlineEntries(entries[1..], false, o);
      assert EntryTexts(entries, o)[1..] == EntryTexts(entries[1..], o);
      assert key + (": " + value) == key + ": " + value;
      var text := key + ": " + value;
      assert ", " + (text + rest) == ", " + text + rest && "" + (text + rest) == text + rest;
    }
  }

  ghost predicate HasShape(n: Node, o: Options) {
    match n.value
    case Null => Inline(n, o) == "null"
    case Bool(b) => Inline(n, o) == if b then "true" else "false"
    case Number(Integer(i)) => (var k: int := i; Inline(n, o) == if k < 0 then "-" + D.Decimal(-k) else D.Decimal(k))
    case Number(Unsigned(u)) => Inline(n, o) == D.Decimal(u)
    case Number(Float(f)) => Inline(n, o) == o.float_text(f)
    case String(s) => Inline(n, o) == "\"" + Escaped(s) + "\""
    case Sequence(items) => Inline(n, o) == "[" + Listed(ItemTexts(items, o)) + "]"
    case Mapping(entries) => Inline(n, o) == "{" + Listed(EntryTexts(Ordered(entries, o), o)) + "}"
    case Tagged(tag, _, inner) => Inline(n, o) == o.tag_text(tag) + " " + Inline(inner, o)
  }

  /** Collections list the texts of their parts between brackets or braces; a scalar is
      its name, its decimal digits or its quoted characters. */
  lemma FlowTextShape(n: Node, o: Options)
    ensures HasShape(n, o)
  {
    hide InlineItems, InlineEntries, Ordered, D.Decimal, Escaped;
    match n.value {
      case Sequence(items) =>
        ItemsListed(items, o);
        assert "[" + (Listed(ItemTexts(items, o)) + "]") == "[" + Listed(ItemTexts(items, o)) + "]";
      case Mapping(entries) =>
        EntriesListed(Ordered(entries, o), o);
        assert "{" + (Listed(EntryTexts(Ordered(entries, o), o)) + "}") == "{" + Listed(EntryTexts(Ordered(entries, o), o)) + "}";
      case _ =>
    }
  }

  // ----- One printable line ------------------------------------------------------------------------

  predicate Printable(c: char) {
    !IsYamlLineBreak(c) && !IsControl(c)
  }

  predicate OneLine(s: string) {
    forall i :: 0 <= i < |s| ==> Printable(s[i])
  }

  lemma OneLineConcat(x: string, y: string)
    ensures OneLine(x + y) <==> OneLine(x) && OneLine(y)
  {
    hide Printable;
    assert forall i :: 0 <= i < |x| ==> (x + y)[i] == x[i];
    assert forall i :: 0 <= i < |y| ==> (x + y)[|x| + i] == y[i];
  }

  lemma EscapeIsPrintable(c: char)
    ensures OneLine(Escape(c)) && (Printable(c) && c !in {'"', '\\'} ==> Escape(c) == [c])
  {
    hide Hex4;
    if (IsYamlLineBreak(c) || IsControl(c)) && c !in {'\n', '\r', '\t', '\0'} {
      HexIsPrintable(c as int);
      OneLineConcat("\\u", Hex4(c as int));
    }
  }

  /** Six characters have a two-character escape, printable ones stand for themselves, and
      all others are spelled with four upper-case hexadecimal digits. */
  lemma EscapeLengths(c: char)
    ensures c in {'"', '\\', '\n', '\r', '\t', '\0'} ==> |Escape(c)| == 2
    ensures c !in {'"', '\\', '\n', '\r', '\t', '\0'} ==> |Escape(c)| == (if Printable(c) then 1 else 6)
    ensures |Escape(c)| == 6 ==> forall i :: 2 <= i < 6 ==> '0' <= Escape(c)[i] <= '9' || 'A' <= Escape(c)[i] <= 'F'
  {
  }

  lemma HexIsPrintable(n: nat)
    requires n < 0x1_0000
    ensures OneLine(Hex4(n))
  {
    forall d: nat | d < 16 ensures Printable(HexDigit(d)) {
    }
  }

  lemma {:induction false} EscapedIsOneLine(s: string)
    ensures OneLine(Escaped(s)) && OneLine(DoubleQuoted(s))
  {
    hide Escape, OneLine;
    if s != "" {
      EscapeIsPrintable(s[0]);
      EscapedIsOneLine(s[1..]);
      OneLineConcat(Escape(s[0]), Escaped(s[1..]));
    }
    Marks();
    OneLineConcat("\"", Escaped(s));
    OneLineConcat("\"" + Escaped(s), "\"");
  }

  lemma Marks()
    ensures OneLine("") && OneLine("\"") && OneLine(", ") && OneLine(": ") && OneLine("[") && OneLine("]") && OneLine("{") && OneLine("}")
    ensures OneLine("null") && OneLine("true") && OneLine("false") && OneLine("-")
  {
  }

  lemma {:induction false} DecimalIsOneLine(n: nat)
    ensures OneLine(D.Decimal(n))
  {
    var s := D.Decimal(n);
    forall i | 0 <= i < |s| ensures Printable(s[i]) { assert D.IsDigit(s[i]); }
  }

  /** A tree without tags and floats prints as one line of printable characters. */
  lemma {:induction false} FlowTextIsOneLine(n: Node, o: Options)
    requires Untagged(n)
    ensures OneLine(Inline(n, o))
    decreases Nesting(n), 0
  {
    hide OneLine, DoubleQuoted, Ordered, D.Decimal;
    Marks();
    match n.value {
      case Number(Integer(i)) =>
        var k: int := i;
        DecimalIsOneLine(if k < 0 then -k else k);
        OneLineConcat("-", D.Decimal(if k < 0 then -k else k));
      case Number(Unsigned(u)) => DecimalIsOneLine(u);
      case String(s) => EscapedIsOneLine(s);
      case Sequence(items) =>
        ItemsAreOneLine(items, true, o);
        OneLineConcat(InlineItems(items, true, o), "]");
        OneLineConcat("[", InlineItems(items, true, o) + "]");
      case Mapping(entries) =>
        OrderedNests(entries, o);
        OrderedUntagged(entries, o);
        EntriesAreOneLine(Ordered(entries, o), true, o);
        OneLineConcat(InlineEntries(Ordered(entries, o), true, o), "}");
        OneLineConcat("{", InlineEntries(Ordered(entries, o), true, o) + "}");
      case _ =>
    }
  }

  lemma {:induction false} ItemsAreOneLine(items: seq<Node>, first: bool, o: Options)
    requires forall i :: 0 <= i < |items| ==> Untagged(items[i])
    ensures OneLine(InlineItems(items, first, o))
    decreases NestingItems(items), 1, |items|
  {
    hide OneLine, Inline;
    Marks();
    if items != [] {
      FlowTextIsOneLine(items[0], o);
      ItemsAreOneLine(items[1..], false, o);
      OneLineConcat(Inline(items[0], o), InlineItems(items[1..], false, o));
      OneLineConcat(Comma(first), Inline(items[0], o) + InlineItems(items[1..], false, o));
    }
  }

  lemma {:induction false} EntriesAreOneLine(entries: seq<Entry>, first: bool, o: Options)
    requires forall i :: 0 <= i < |entries| ==> UntaggedEntry(entries[i])
    ensures OneLine(InlineEntries(entries, first, o))
    decreases NestingEntries(entries), 1, |entries|
  {
    hide OneLine, Inline;
    Marks();
    if entries != [] {
      var e, rest := entries[0], InlineEntries(entries[1..], false, o);
      assert Nesting(e.0) <= NestingEntry(e) && Nesting(e.1) <= NestingEntry(e);
      FlowTextIsOneLine(e.0, o);
      FlowTextIsOneLine(e.1, o);
      EntriesAreOneLine(entries[1..], false, o);
      OneLineConcat(": ", Inline(e.1, o));
      OneLineConcat(Inline(e.0, o), ": " + Inline(e.1, o));
      OneLineConcat(EntryText(e, o), rest);
      OneLineConcat(Comma(first), EntryText(e, o) + rest);
    }
  }

  // ----- Sorted keys ---------------------------------------------------------------------------------

  /** The entries whose key prints as the text, in their order. */
  function WithKey(entries: seq<Entry>, text: string, o: Options): seq<Entry> {
    if entries == [] then []
    else (if Inline(entries[0].0, o) == text then [entries[0]] else []) + WithKey(entries[1..], text, o)
  }

  function KeyedWith(keyed: seq<Keyed>, text: string): seq<Entry> {
    if keyed == [] then [] else (if keyed[0].0 == text then [keyed[0].1] else []) + KeyedWith(keyed[1..], text)
  }

  lemma KeyedFront(x: Keyed, xs: seq<Keyed>, text: string)
    ensures KeyedWith([x] + xs, text) == (if x.0 == text then [x.1] else []) + KeyedWith(xs, text)
  {
    assert ([x] + xs)[1..] == xs;
  }

  lemma {:induction false} InsertIsStable(x: Keyed, xs: seq<Keyed>, text: string)
    ensures KeyedWith(InsertKeyed(x, xs), text) == KeyedWith([x] + xs, text)
  {
    hide CmpString, KeyedWith;
    if xs != [] && CmpString(x.0, xs[0].0) == Greater {
      var rest := xs[1..];
      assert xs == [xs[0]] + rest;
      CmpStringEqual(x.0, xs[0].0);
      InsertIsStable(x, rest, text);
      KeyedFront(xs[0], InsertKeyed(x, rest), text);
      KeyedFront(x, rest, text);
      KeyedFront(xs[0], rest, text);
      KeyedFront(x, xs, text);
    }
  }

  lemma {:induction false} SortIsStable(xs: seq<Keyed>, text: string)
    ensures KeyedWith(SortKeyed(xs), text) == KeyedWith(xs, text)
  {
    hide InsertKeyed;
    if xs != [] {
      SortIsStable(xs[1..], text);
      InsertIsStable(xs[0], SortKeyed(xs[1..]), text);
      assert ([xs[0]] + SortKeyed(xs[1..]))[1..] == SortKeyed(xs[1..]);
    }
  }

  ghost predicate KeyedByText(keyed: seq<Keyed>, o: Options) {
    forall i :: 0 <= i < |keyed| ==> keyed[i].0 == Inline(keyed[i].1.0, o)
  }

  lemma {:induction false} KeyedWithKey(keyed: seq<Keyed>, text: string, o: Options)
    requires KeyedByText(keyed, o)
    ensures KeyedWith(keyed, text) == WithKey(EntriesOf(keyed), text, o)
  {
    hide Inline;
    if keyed != [] {
      KeyedWithKey(keyed[1..], text, o);
      assert EntriesOf(keyed)[1..] == EntriesOf(keyed[1..]);
    }
  }

  lemma SortedKeyedTexts(entries: seq<Entry>, o: Options)
    ensures KeyedByText(SortKeyed(KeyedEntries(entries, o)), o)
  {
    hide Inline, SortKeyed;
    var keyed := KeyedEntries(entries, o);
    SortKeyedPermutes(keyed);
    KeyedTexts(entries, o);
    forall i | 0 <= i < |SortKeyed(keyed)| ensures SortKeyed(keyed)[i].0 == Inline(SortKeyed(keyed)[i].1.0, o) {
      assert SortKeyed(keyed)[i] in multiset(keyed);
    }
  }

  /** With sorted keys a mapping prints its entries in ascending order of their key
      texts, entries with the same key text in the order they had; otherwise as they are. */
  lemma KeysAreOrdered(entries: seq<Entry>, o: Options)
    ensures multiset(Ordered(entries, o)) == multiset(entries)
    ensures !o.sorts_keys ==> Ordered(entries, o) == entries
    ensures o.sorts_keys ==>
              forall i, j :: 0 <= i < j < |Ordered(entries, o)| ==> !Precedes(Inline(Ordered(entries, o)[j].0, o), Inline(Ordered(entries, o)[i].0, o))
    ensures forall text :: WithKey(Ordered(entries, o), text, o) == WithKey(entries, text, o)
  {
    hide Inline, SortKeyed, CmpString, Precedes, KeyedEntries;
    OrderedPermutes(entries, o);
    if o.sorts_keys {
      var keyed := KeyedEntries(entries, o);
      var sorted := SortKeyed(keyed);
      SortKeyedRises(keyed);
      SortedKeyedTexts(entries, o);
      forall i, j | 0 <= i < j < |sorted| ensures !Precedes(Inline(Ordered(entries, o)[j].0, o), Inline(Ordered(entries, o)[i].0, o)) {
        CmpStringPrecedes(sorted[j].0, sorted[i].0);
        CmpStringEqual(sorted[i].0, sorted[j].0);
        assert Ordered(entries, o)[i] == sorted[i].1 && Ordered(entries, o)[j] == sorted[j].1;
      }
      forall text ensures WithKey(Ordered(entries, o), text, o) == WithKey(entries, text, o) {
        SortIsStable(keyed, text);
        KeyedWithKey(sorted, text, o);
        KeyedTextsAre(entries, o);
        KeyedWithKey(keyed, text, o);
      }
    }
  }

  lemma KeyedTextsAre(entries: seq<Entry>, o: Options)
    ensures KeyedByText(KeyedEntries(entries, o), o)
  {
    hide Inline;
    KeyedTexts(entries, o);
  }
}
