// The flow printer (src/emit.rs), with double-quoted strings: one line of text
// for a whole tree. Float and tag texts are parameters.
module FlowPrinter {
  import opened Prelude
  import opened Nodes
  import D = Decimal
  import V = Values

  datatype Options = Options(sorts_keys: bool, float_text: V.Float -> string, tag_text: V.Tag -> string)

  // ----- Double-quoted strings ------------------------------------------------------------------

  /** `is_yaml_line_break`. */
  predicate IsYamlLineBreak(c: char) {
    c as int in {0x0a, 0x0d, 0x85, 0x2028, 0x2029}
  }

  /** `char::is_control`. */
  predicate IsControl(c: char) {
    c as int < 0x20 || 0x7f <= c as int < 0xa0
  }

  function HexDigit(d: nat): char
    requires d < 16
  {
    if d < 10 then ('0' as int + d) as char else ('A' as int + d - 10) as char
  }

  /** The format `{:04X}`, for code points of four digits. */
  function Hex4(n: nat): (s: string)
    requires n < 0x1_0000
    ensures |s| == 4
  {
    [HexDigit(n / 0x1000), HexDigit(n / 0x100 % 16), HexDigit(n / 0x10 % 16), HexDigit(n % 16)]
  }

  function Escape(c: char): string {
    if c == '"' then "\\\""
    else if c == '\\' then "\\\\"
    else if c == '\n' then "\\n"
    else if c == '\r' then "\\r"
    else if c == '\t' then "\\t"
    else if c == '\0' then "\\0"
    else if IsYamlLineBreak(c) || IsControl(c) then "\\u" + Hex4(c as int)
    else [c]
  }

  function Escaped(value: string): string {
    if value == "" then "" else Escape(value[0]) + Escaped(value[1..])
  }

  function DoubleQuoted(value: string): string {
    "\"" + Escaped(value) + "\""
  }

  // ----- Sorting by key text ---------------------------------------------------------------------

  type Keyed = (string, Entry)

  function InsertKeyed(x: Keyed, xs: seq<Keyed>): seq<Keyed> {
    if xs == [] || CmpString(x.0, xs[0].0) != Greater then [x] + xs else [xs[0]] + InsertKeyed(x, xs[1..])
  }

  /** A stable sort by the key text. */
  function SortKeyed(xs: seq<Keyed>): seq<Keyed> {
    if xs == [] then [] else InsertKeyed(xs[0], SortKeyed(xs[1..]))
  }

  lemma {:induction false} InsertKeyedAdds(x: Keyed, xs: seq<Keyed>)
    ensures multiset(InsertKeyed(x, xs)) == multiset(xs) + multiset{x}
  {
    if xs != [] && CmpString(x.0, xs[0].0) == Greater {
      InsertKeyedAdds(x, xs[1..]);
      ConsMultiset(xs);
    }
  }

  lemma {:induction false} SortKeyedPermutes(xs: seq<Keyed>)
    ensures multiset(SortKeyed(xs)) == multiset(xs) && |SortKeyed(xs)| == |xs|
  {
    if xs != [] {
      SortKeyedPermutes(xs[1..]);
      InsertKeyedAdds(xs[0], SortKeyed(xs[1..]));
      ConsMultiset(xs);
    }
    assert |multiset(SortKeyed(xs))| == |multiset(xs)|;
  }

  function EntriesOf(xs: seq<Keyed>): (es: seq<Entry>)
    ensures |es| == |xs| && forall i :: 0 <= i < |xs| ==> es[i] == xs[i].1
  {
    if xs == [] then [] else [xs[0].1] + EntriesOf(xs[1..])
  }

  lemma {:induction false} EntriesOfMultiset(xs: seq<Keyed>, ys: seq<Keyed>)
    requires multiset(xs) == multiset(ys)
    ensures multiset(EntriesOf(xs)) == multiset(EntriesOf(ys))
  {
    hide EntriesOf, RemoveAt;
    if xs == [] {
      assert |multiset(ys)| == |multiset(xs)|;
    } else {
      assert xs[0] in multiset(ys);
      var j :| 0 <= j < |ys| && ys[j] == xs[0];
      RemoveAtMultiset(ys, j);
      ConsMultiset(xs);
      EntriesOfMultiset(xs[1..], RemoveAt(ys, j));
      EntriesWithout(ys, j);
      EntriesBehindFirst(xs);
    }
  }

  lemma EntriesBehindFirst(xs: seq<Keyed>)
    requires xs != []
    ensures multiset(EntriesOf(xs)) == multiset(EntriesOf(xs[1..])) + multiset{xs[0].1}
  {
    ConsMultiset(EntriesOf(xs));
    assert EntriesOf(xs)[1..] == EntriesOf(xs[1..]);
  }

  lemma EntriesWithout(ys: seq<Keyed>, j: nat)
    requires j < |ys|
    ensures multiset(EntriesOf(ys)) == multiset(EntriesOf(RemoveAt(ys, j))) + multiset{ys[j].1}
  {
    var es := EntriesOf(ys);
    RemoveAtMultiset(es, j);
    var without := EntriesOf(RemoveAt(ys, j));
    forall k | 0 <= k < |without| ensures without[k] == RemoveAt(es, j)[k] {
      RemoveAtIndex(ys, j, k);
      RemoveAtIndex(es, j, k);
    }
    assert without == RemoveAt(es, j);
  }

  // ----- The text of a node ------------------------------------------------------------------------

  function IntegerText(i: int): string {
    if i < 0 then "-" + D.Decimal(-i) else D.Decimal(i)
  }

  /** What `write_inline` appends. */
  function Inline(n: Node, o: Options): string
    decreases Nesting(n), 0, 0
  {
    match n.value
    case Null => "null"
    case Bool(b) => if b then "true" else "false"
    case Number(Integer(i)) => IntegerText(i)
    case Number(Unsigned(u)) => IntegerText(u)
    case Number(Float(f)) => o.float_text(f)
    case String(s) => DoubleQuoted(s)
    case Sequence(items) => "[" + (InlineItems(items, true, o) + "]")
    case Mapping(entries) =>
      OrderedNests(entries, o);
      "{" + (InlineEntries(Ordered(entries, o), true, o) + "}")
    case Tagged(tag, _, inner) => o.tag_text(tag) + " " + Inline(inner, o)
  }

  // A comma before every item but the first.
  function Comma(first: bool): string {
    if first then "" else ", "
  }

  function InlineItems(items: seq<Node>, first: bool, o: Options): string
    decreases NestingItems(items), 1, |items|
  {
    if items == [] then "" else Comma(first) + (Inline(items[0], o) + InlineItems(items[1..], false, o))
  }

  function EntryText(e: Entry, o: Options): string
    decreases NestingEntry(e), 1, 0
  {
    Inline(e.0, o) + (": " + Inline(e.1, o))
  }

  function InlineEntries(entries: seq<Entry>, first: bool, o: Options): string
    decreases NestingEntries(entries), 1, |entries|
  {
    if entries == [] then "" else Comma(first) + (EntryText(entries[0], o) + InlineEntries(entries[1..], false, o))
  }

  function KeyedEntries(entries: seq<Entry>, o: Options): (r: seq<Keyed>)
    ensures |r| == |entries| && EntriesOf(r) == entries
    decreases NestingEntries(entries), 1, |entries|
  {
    if entries == [] then []
    else
      assert Nesting(entries[0].0) <= NestingEntry(entries[0]) <= NestingEntries(entries);
      [(Inline(entries[0].0, o), entries[0])] + KeyedEntries(entries[1..], o)
  }

  /** `ordered_entries`. */
  function Ordered(entries: seq<Entry>, o: Options): seq<Entry>
    decreases NestingEntries(entries), 2, |entries|
  {
    if o.sorts_keys then EntriesOf(SortKeyed(KeyedEntries(entries, o))) else entries
  }

  lemma OrderedPermutes(entries: seq<Entry>, o: Options)
    ensures multiset(Ordered(entries, o)) == multiset(entries)
    decreases NestingEntries(entries), 3, 0
  {
    var keyed := KeyedEntries(entries, o);
    SortKeyedPermutes(keyed);
    EntriesOfMultiset(SortKeyed(keyed), keyed);
  }

  lemma OrderedNests(entries: seq<Entry>, o: Options)
    ensures NestingEntries(Ordered(entries, o)) <= NestingEntries(entries)
    decreases NestingEntries(entries), 4, 0
  {
    OrderedPermutes(entries, o);
    forall e | e in Ordered(entries, o) ensures e in entries {
      assert e in multiset(Ordered(entries, o));
    }
    NestingOfSome(Ordered(entries, o), entries);
  }

  // ----- The methods, on one output buffer --------------------------------------------------------

  class Output {
    var text: string

    constructor ()
      ensures text == ""
    {
      text := "";
    }

    method Push(s: string)
      modifies this
      ensures text == old(text) + s
    {
      text := text + s;
    }
  }

  method DoubleQuote(value: string) returns (r: string)
    ensures r == DoubleQuoted(value)
  {
    var out := "\"";
    assert value[0..] == value;
    for i := 0 to |value|
      invariant out + Escaped(value[i..]) == "\"" + Escaped(value)
    {
      assert value[i..][1..] == value[i + 1..];
      ghost var rest := Escaped(value[i + 1..]);
      assert out + (Escape(value[i]) + rest) == out + Escape(value[i]) + rest;
      out := out + Escape(value[i]);
    }
    assert value[|value|..] == "";
    assert out + "" == out;
    return out + "\"";
  }

  method FormatInline(node: Node, o: Options) returns (r: string)
    ensures r == Inline(node, o)
    decreases Nesting(node), 1
  {
    var out := new Output();
    WriteInline(node, o, out);
    return out.text;
  }

  /** `format_key`: strings are quoted, other keys are written inline. */
  method FormatKey(node: Node, o: Options) returns (r: string)
    ensures r == Inline(node, o)
    decreases Nesting(node), 2
  {
    if node.value.String? {
      r := DoubleQuote(node.value.s);
    } else {
      r := FormatInline(node, o);
    }
  }

  method OrderedEntries(entries: seq<Entry>, o: Options) returns (r: seq<Entry>)
    ensures r == Ordered(entries, o)
    decreases NestingEntries(entries), 3
  {
    if !o.sorts_keys {
      return entries;
    }
    var keyed: seq<Keyed> := [];
    assert entries[0..] == entries;
    for i := 0 to |entries|
      invariant keyed + KeyedEntries(entries[i..], o) == KeyedEntries(entries, o)
    {
      assert entries[i..][1..] == entries[i + 1..];
      NestingOfEntry(entries, i);
      assert Nesting(entries[i].0) <= NestingEntry(entries[i]);
      var key := FormatInline(entries[i].0, o);
      KeyedMore(keyed, (key, entries[i]), KeyedEntries(entries[i + 1..], o));
      keyed := keyed + [(key, entries[i])];
    }
    assert entries[|entries|..] == [] && keyed + [] == keyed;
    return EntriesOf(SortKeyed(keyed));
  }

  lemma KeyedMore(a: seq<Keyed>, x: Keyed, b: seq<Keyed>)
    ensures a + ([x] + b) == a + [x] + b
  {
  }

  // Three pushes are one.
  lemma Pushed(a: string, b: string, c: string, d: string)
    ensures a + (b + (c + d)) == a + b + c + d
    ensures a + (b + c) == a + b + c
  {
  }

  method WriteInline(node: Node, o: Options, out: Output)
    modifies out
    ensures out.text == old(out.text) + Inline(node, o)
    decreases Nesting(node), 0
  {
    match node.value {
      case Null => out.Push("null");
      case Bool(b) => out.Push(if b then "true" else "false");
      case Number(Integer(i)) => out.Push(IntegerText(i));
      case Number(Unsigned(u)) => out.Push(IntegerText(u));
      case Number(Float(f)) => out.Push(o.float_text(f));
      case String(s) =>
        var quoted := DoubleQuote(s);
        out.Push(quoted);
      case Sequence(items) =>
        Pushed(out.text, "[", InlineItems(items, true, o), "]");
        out.Push("[");
        WriteItems(items, o, out);
        out.Push("]");
      case Mapping(entries) =>
        var ordered := OrderedEntries(entries, o);
        OrderedNests(entries, o);
        Pushed(out.text, "{", InlineEntries(ordered, true, o), "}");
        out.Push("{");
        WriteEntries(ordered, o, out);
        out.Push("}");
      case Tagged(tag, _, inner) =>
        ghost var before := out.text;
        out.Push(o.tag_text(tag));
        out.Push(" ");
        WriteInline(inner, o, out);
        assert out.text == before + (o.tag_text(tag) + " " + Inline(inner, o));
    }
  }

  method WriteItems(items: seq<Node>, o: Options, out: Output)
    modifies out
    ensures out.text == old(out.text) + InlineItems(items, true, o)
    decreases NestingItems(items), 4
  {
    hide Nesting, NestingItems, Inline;
    ghost var whole := out.text + InlineItems(items, true, o);
    assert items[0..] == items;
    for idx := 0 to |items|
      invariant out.text + InlineItems(items[idx..], idx == 0, o) == whole
    {
      assert items[idx..][1..] == items[idx + 1..];
      NestingOfItem(items, idx);
      Pushed(out.text, Comma(idx == 0), Inline(items[idx], o), InlineItems(items[idx + 1..], false, o));
      WriteComma(idx == 0, out);
      WriteInline(items[idx], o, out);
    }
  }

  method WriteComma(first: bool, out: Output)
    modifies out
    ensures out.text == old(out.text) + Comma(first)
  {
    if !first {
      out.Push(", ");
    } else {
      assert out.text + "" == out.text;
    }
  }

  method WriteEntry(e: Entry, o: Options, out: Output)
    modifies out
    ensures out.text == old(out.text) + EntryText(e, o)
    decreases NestingEntry(e), 3
  {
    hide Nesting, Inline;
    Pushed(out.text, Inline(e.0, o), ": ", Inline(e.1, o));
    var key := FormatKey(e.0, o);
    out.Push(key);
    out.Push(": ");
    WriteInline(e.1, o, out);
  }

  method WriteEntries(ordered: seq<Entry>, o: Options, out: Output)
    modifies out
    ensures out.text == old(out.text) + InlineEntries(ordered, true, o)
    decreases NestingEntries(ordered), 4
  {
    hide NestingEntry, NestingEntries, EntryText;
    ghost var whole := out.text + InlineEntries(ordered, true, o);
    assert ordered[0..] == ordered;
    for idx := 0 to |ordered|
      invariant out.text + InlineEntries(ordered[idx..], idx == 0, o) == whole
    {
      assert ordered[idx..][1..] == ordered[idx + 1..];
      NestingOfEntry(ordered, idx);
      Pushed(out.text, Comma(idx == 0), EntryText(ordered[idx], o), InlineEntries(ordered[idx + 1..], false, o));
      WriteComma(idx == 0, out);
      WriteEntry(ordered[idx], o, out);
    }
  }
}
