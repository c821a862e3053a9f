// Flow text is read back, so it determines the tree it was printed from.
module FlowTheorems {
  import opened Prelude
  import opened Nodes
  import opened FlowPrinter
  import opened FlowReader
  import D = Decimal

  // ----- Strings -----------------------------------------------------------------------------

  lemma HexPush(s: string, n: nat, d: nat)
    requires HexNumber(s) == Some(n) && d < 16
    ensures HexNumber(s + [HexDigit(d)]) == Some(16 * n + d)
  {
    HexDigitRead(d);
    assert (s + [HexDigit(d)])[..|s|] == s;
  }

  lemma FourHexDigits(a: nat, b: nat, c: nat, d: nat)
    requires a < 16 && b < 16 && c < 16 && d < 16
    ensures HexNumber([HexDigit(a), HexDigit(b), HexDigit(c), HexDigit(d)]) == Some(16 * (16 * (16 * a + b) + c) + d)
  {
    hide HexNumber, HexDigit;
    NoHexDigits();
    HexPush("", 0, a);
    var one: string := "" + [HexDigit(a)];
    HexPush(one, a, b);
    var two := one + [HexDigit(b)];
    HexPush(two, 16 * a + b, c);
    var three := two + [HexDigit(c)];
    HexPush(three, 16 * (16 * a + b) + c, d);
    assert three + [HexDigit(d)] == [HexDigit(a), HexDigit(b), HexDigit(c), HexDigit(d)];
  }

  lemma HexSplit(n: nat)
    requires n < 0x1_0000
    ensures n / 0x1000 < 16 && 16 * (16 * (16 * (n / 0x1000) + n / 0x100 % 16) + n / 0x10 % 16) + n % 16 == n
  {
  }

  lemma HexDigitsRead(n: nat)
    requires n < 0x1_0000
    ensures HexNumber(Hex4(n)) == Some(n)
  {
    hide HexNumber, HexDigit;
    HexSplit(n);
    FourHexDigits(n / 0x1000, n / 0x100 % 16, n / 0x10 % 16, n % 16);
  }

  lemma NoHexDigits()
    ensures HexNumber("") == Some(0)
  {
  }

  lemma HexDigitRead(d: nat)
    requires d < 16
    ensures HexValue(HexDigit(d)) == Some(d)
  {
  }

  lemma BackslashIsRead(tail: string, c: char, rest: string)
    requires Unescape(tail) == Some((c, rest))
    ensures ReadQuoted("\\" + tail) == Prefixed(c, ReadQuoted(rest))
  {
    hide Unescape;
    assert ("\\" + tail)[1..] == tail;
  }

  lemma LetterIsRead(letter: char, c: char, rest: string)
    requires HexWidth(letter) == 0 && SimpleEscape(letter) == Some(c)
    ensures Unescape([letter] + rest) == Some((c, rest))
  {
    assert ([letter] + rest)[1..] == rest;
  }

  lemma HexIsRead(c: char, rest: string)
    requires c as int < 0x1_0000
    ensures Unescape("u" + (Hex4(c as int) + rest)) == Some((c, rest))
  {
    hide HexNumber, Hex4;
    var hex := Hex4(c as int);
    var s := "u" + (hex + rest);
    HexDigitsRead(c as int);
    assert s[1..5] == hex && s[5..] == rest;
  }

  lemma OrdinaryIsRead(c: char, rest: string)
    requires c !in {'"', '\\', '\n', '\r'}
    ensures ReadQuoted([c] + rest) == Prefixed(c, ReadQuoted(rest))
  {
    assert ([c] + rest)[1..] == rest;
  }

  predicate ShortEscape(c: char) {
    c in {'"', '\\', '\n', '\r', '\t', '\0'}
  }

  lemma EscapeLetter(c: char) returns (letter: char)
    requires ShortEscape(c)
    ensures Escape(c) == "\\" + [letter] && HexWidth(letter) == 0 && SimpleEscape(letter) == Some(c)
  {
    letter := if c == '\n' then 'n' else if c == '\r' then 'r' else if c == '\t' then 't' else if c == '\0' then '0' else c;
  }

  lemma LongEscape(c: char)
    requires !ShortEscape(c)
    ensures c as int < 0x1_0000 && (IsYamlLineBreak(c) || IsControl(c)) ==> Escape(c) == "\\u" + Hex4(c as int)
    ensures (IsYamlLineBreak(c) || IsControl(c)) ==> c as int < 0x1_0000
    ensures !(IsYamlLineBreak(c) || IsControl(c)) ==> Escape(c) == [c]
    ensures c !in {'"', '\\', '\n', '\r'}
  {
    hide Hex4;
  }

  lemma ShortIsRead(c: char, rest: string)
    requires ShortEscape(c)
    ensures ReadQuoted(Escape(c) + rest) == Prefixed(c, ReadQuoted(rest))
  {
    hide ReadQuoted, Unescape, Escape, ShortEscape, Prefixed, SimpleEscape, HexWidth;
    var letter := EscapeLetter(c);
    LetterIsRead(letter, c, rest);
    BackslashIsRead([letter] + rest, c, rest);
    assert "\\" + [letter] + rest == "\\" + ([letter] + rest);
  }

  lemma HexRegrouped(hex: string, rest: string)
    ensures "\\u" + hex + rest == "\\" + ("u" + (hex + rest))
  {
  }

  lemma LongIsRead(c: char, rest: string)
    requires c as int < 0x1_0000 && Escape(c) == "\\u" + Hex4(c as int)
    ensures ReadQuoted(Escape(c) + rest) == Prefixed(c, ReadQuoted(rest))
  {
    hide ReadQuoted, Unescape, Hex4, Escape, Prefixed;
    var hex := Hex4(c as int);
    HexIsRead(c, rest);
    BackslashIsRead("u" + (hex + rest), c, rest);
    HexRegrouped(hex, rest);
  }

  lemma EscapeIsRead(c: char, rest: string)
    ensures ReadQuoted(Escape(c) + rest) == Prefixed(c, ReadQuoted(rest))
  {
    hide ReadQuoted, Hex4, Escape, IsYamlLineBreak, IsControl, ShortEscape, Prefixed;
    if ShortEscape(c) {
      ShortIsRead(c, rest);
    } else {
      LongEscape(c);
      if IsYamlLineBreak(c) || IsControl(c) {
        LongIsRead(c, rest);
      } else {
        OrdinaryIsRead(c, rest);
      }
    }
  }

  lemma {:induction false} QuotedIsRead(value: string, rest: string)
    ensures ReadQuoted(Escaped(value) + ("\"" + rest)) == Some((value, rest))
  {
    hide Escape, ReadQuoted;
    if value == "" {
      assert Escaped(value) + ("\"" + rest) == "\"" + rest;
      ClosingQuote(rest);
    } else {
      var tail := Escaped(value[1..]) + ("\"" + rest);
      assert Escaped(value) + ("\"" + rest) == Escape(value[0]) + tail;
      EscapeIsRead(value[0], tail);
      QuotedIsRead(value[1..], rest);
      assert [value[0]] + value[1..] == value;
    }
  }

  lemma ClosingQuote(rest: string)
    ensures ReadQuoted("\"" + rest) == Some(("", rest))
  {
    assert ("\"" + rest)[1..] == rest;
  }

  // ----- Plain scalars -----------------------------------------------------------------------

  // What stands after a printed node.
  predicate Ends(rest: string) {
    || rest == "" || rest[0] in {',', ']', '}'}
    || (|rest| > 1 && rest[0] == ':' && rest[1] == ' ')
  }

  predicate WordChar(c: char) {
    'a' <= c <= 'z' || '0' <= c <= '9' || c == '-'
  }

  predicate Word(s: string) {
    forall i :: 0 <= i < |s| ==> WordChar(s[i])
  }

  lemma {:induction false} WordLength(word: string, rest: string)
    requires Word(word) && Ends(rest)
    ensures PlainLength(word + rest) == |word|
  {
    if word != "" {
      assert (word + rest)[1..] == word[1..] + rest;
      assert WordChar((word + rest)[0]);
      WordLength(word[1..], rest);
    } else {
      assert word + rest == rest;
    }
  }

  lemma PlainIsRead(s: string, n: nat)
    requires s != "" && s[0] !in {' ', '"', '[', '{'} && StartsPlain(s[0]) && PlainLength(s) == n > 0
    ensures ReadNode(s) == Some((Resolve(TrimEnd(s[..n])), s[n..]))
  {
    hide Resolve, PlainLength, StartsPlain, TrimEnd;
  }

  lemma WordStarts(c: char)
    requires WordChar(c)
    ensures c !in {' ', '"', '[', '{'} && StartsPlain(c)
  {
  }

  lemma WordIsRead(word: string, rest: string)
    requires Word(word) && word != "" && Ends(rest)
    ensures ReadNode(word + rest) == Some((Resolve(word), rest))
  {
    hide ReadNode, Resolve, StartsPlain, PlainLength, Ends;
    var s := word + rest;
    assert WordChar(s[0]) && WordChar(word[|word| - 1]);
    WordStarts(s[0]);
    WordLength(word, rest);
    PlainIsRead(s, |word|);
    assert s[..|word|] == word && s[|word|..] == rest;
  }

  // No number is a null or a boolean.
  lemma NumberIsNoName(s: string)
    requires s != "" && (D.IsDigit(s[0]) || s[0] == '-')
    ensures s !in {"", "~", "null", "Null", "NULL"} && s !in {"true", "True", "TRUE"} && s !in {"false", "False", "FALSE"}
  {
    assert "~"[0] == '~' && "null"[0] == 'n' && "Null"[0] == 'N' && "NULL"[0] == 'N';
    assert "true"[0] == 't' && "True"[0] == 'T' && "TRUE"[0] == 'T';
    assert "false"[0] == 'f' && "False"[0] == 'F' && "FALSE"[0] == 'F';
  }

  lemma DigitsResolve(digits: string)
    requires D.AllDigits(digits) && digits != ""
    ensures Resolve(digits) == TInt(D.Number(digits)) && Resolve("-" + digits) == TInt(0 - D.Number(digits))
  {
    hide D.Number;
    var s := "-" + digits;
    assert D.IsDigit(digits[0]) && s[0] == '-' && s[1..] == digits;
    NumberIsNoName(digits);
    NumberIsNoName(s);
  }

  lemma IntegerIsRead(i: int)
    ensures Word(IntegerText(i)) && IntegerText(i) != ""
    ensures Resolve(IntegerText(i)) == TInt(i)
  {
    hide Resolve, D.Number, D.Decimal;
    var n: nat := if i < 0 then -i else i;
    var digits := D.Decimal(n);
    D.DecimalSpells(n);
    DigitsResolve(digits);
    assert forall k :: 0 <= k < |digits| ==> D.IsDigit(digits[k]);
  }

  lemma NamesAreRead()
    ensures Word("null") && Word("true") && Word("false")
    ensures Resolve("null") == TNull && Resolve("true") == TBool(true) && Resolve("false") == TBool(false)
  {
  }

  // ----- Nodes -------------------------------------------------------------------------------

  /** Without tags and floats. */
  predicate Untagged(n: Node)
    decreases n, 0
  {
    match n.value
    case Number(Float(_)) => false
    case Tagged(_, _, _) => false
    case Sequence(items) => forall i :: 0 <= i < |items| ==> Untagged(items[i])
    case Mapping(entries) => forall i :: 0 <= i < |entries| ==> UntaggedEntry(entries[i])
    case _ => true
  }

  predicate UntaggedEntry(e: Entry)
    decreases e, 0
  {
    Untagged(e.0) && Untagged(e.1)
  }

  /** The tree a reader should see: entries in printed order, numbers as integers. */
  function Data(n: Node, o: Options): Tree
    requires Untagged(n)
    decreases Nesting(n), 0, 0
  {
    match n.value
    case Null => TNull
    case Bool(b) => TBool(b)
    case Number(Integer(i)) => TInt(i)
    case Number(Unsigned(u)) => TInt(u)
    case String(s) => TString(s)
    case Sequence(items) => TSequence(DataItems(items, o))
    case Mapping(entries) =>
      OrderedNests(entries, o);
      OrderedUntagged(entries, o);
      TMapping(DataEntries(Ordered(entries, o), o))
  }

  function DataItems(items: seq<Node>, o: Options): seq<Tree>
    requires forall i :: 0 <= i < |items| ==> Untagged(items[i])
    decreases NestingItems(items), 1, |items|
  {
    if items == [] then [] else [Data(items[0], o)] + DataItems(items[1..], o)
  }

  function DataEntry(e: Entry, o: Options): (Tree, Tree)
    requires UntaggedEntry(e)
    decreases NestingEntry(e), 1, 0
  {
    (Data(e.0, o), Data(e.1, o))
  }

  function DataEntries(entries: seq<Entry>, o: Options): seq<(Tree, Tree)>
    requires forall i :: 0 <= i < |entries| ==> UntaggedEntry(entries[i])
    decreases NestingEntries(entries), 1, |entries|
  {
    if entries == [] then [] else [DataEntry(entries[0], o)] + DataEntries(entries[1..], o)
  }

  lemma OrderedUntagged(entries: seq<Entry>, o: Options)
    requires forall i :: 0 <= i < |entries| ==> UntaggedEntry(entries[i])
    ensures var ordered := Ordered(entries, o); forall i :: 0 <= i < |ordered| ==> UntaggedEntry(ordered[i])
  {
    hide UntaggedEntry;
    OrderedPermutes(entries, o);
    var ordered := Ordered(entries, o);
    forall i | 0 <= i < |ordered| ensures UntaggedEntry(ordered[i]) {
      assert ordered[i] in multiset(entries);
    }
  }

  // No printed node starts with a space or a closing bracket.
  lemma FirstChar(n: Node, o: Options)
    requires Untagged(n)
    ensures Inline(n, o) != "" && Inline(n, o)[0] !in {' ', ']', '}', ','}
  {
    match n.value {
      case Number(Integer(i)) => IntegerIsRead(i); assert WordChar(IntegerText(i)[0]);
      case Number(Unsigned(u)) => IntegerIsRead(u); assert WordChar(IntegerText(u)[0]);
      case _ =>
    }
  }

  lemma StringIsRead(s: string, rest: string)
    ensures ReadNode(DoubleQuoted(s) + rest) == Some((TString(s), rest))
  {
    hide ReadQuoted;
    QuotedIsRead(s, rest);
    assert (DoubleQuoted(s) + rest)[1..] == Escaped(s) + ("\"" + rest);
  }

  lemma ScalarIsRead(n: Node, o: Options, rest: string)
    requires Untagged(n) && Ends(rest) && !n.value.Sequence? && !n.value.Mapping?
    ensures ReadNode(Inline(n, o) + rest) == Some((Data(n, o), rest))
  {
    hide ReadNode, Resolve, Word, DoubleQuoted, IntegerText, Ends;
    match n.value {
      case Null => NamesAreRead(); WordIsRead("null", rest);
      case Bool(b) => NamesAreRead(); WordIsRead(if b then "true" else "false", rest);
      case Number(Integer(i)) => IntegerIsRead(i); WordIsRead(IntegerText(i), rest);
      case Number(Unsigned(u)) => IntegerIsRead(u); WordIsRead(IntegerText(u), rest);
      case String(s) => StringIsRead(s, rest);
    }
  }

  lemma SequenceOpens(items: seq<Node>, o: Options, rest: string, trees: seq<Tree>)
    requires ReadItems("" + (InlineItems(items, true, o) + ("]" + rest))) == Some((trees, rest))
    ensures ReadNode("[" + (InlineItems(items, true, o) + "]") + rest) == Some((TSequence(trees), rest))
  {
    hide ReadItems, InlineItems, Resolve;
    var body := InlineItems(items, true, o) + ("]" + rest);
    assert ("[" + (InlineItems(items, true, o) + "]") + rest)[1..] == body == "" + body;
  }

  lemma MappingOpens(entries: seq<Entry>, o: Options, rest: string, trees: seq<(Tree, Tree)>)
    requires ReadEntries("" + (InlineEntries(entries, true, o) + ("}" + rest))) == Some((trees, rest))
    ensures ReadNode("{" + (InlineEntries(entries, true, o) + "}") + rest) == Some((TMapping(trees), rest))
  {
    hide ReadEntries, InlineEntries, Resolve;
    var body := InlineEntries(entries, true, o) + ("}" + rest);
    assert ("{" + (InlineEntries(entries, true, o) + "}") + rest)[1..] == body == "" + body;
  }

  /** A printed node is read back, whatever ends it. */
  lemma {:induction false} InlineIsRead(n: Node, o: Options, rest: string)
    requires Untagged(n) && Ends(rest)
    ensures ReadNode(Inline(n, o) + rest) == Some((Data(n, o), rest))
    decreases Nesting(n), 0, 0
  {
    hide ReadNode, ReadItems, ReadEntries, InlineItems, InlineEntries, Ordered, Ends;
    match n.value {
      case Sequence(items) =>
        ItemsAreRead(items, "", o, rest);
        SequenceOpens(items, o, rest, DataItems(items, o));
      case Mapping(entries) =>
        OrderedNests(entries, o);
        OrderedUntagged(entries, o);
        EntriesAreRead(Ordered(entries, o), "", o, rest);
        MappingOpens(Ordered(entries, o), o, rest, DataEntries(Ordered(entries, o), o));
      case _ => ScalarIsRead(n, o, rest);
    }
  }

  lemma SkipsGap(gap: string, s: string)
    requires gap == "" || gap == " "
    requires s != "" && s[0] != ' '
    ensures SkipSpaces(gap + s) == s
  {
    if gap == "" { assert gap + s == s; } else { assert (gap + s)[1..] == s; }
  }

  // What follows an item: the rest of the list behind a comma, or its end.
  lemma AfterItem(items: seq<Node>, o: Options, close: string)
    requires close != "" && close[0] in {']', '}'}
    ensures var tail := InlineItems(items, false, o) + close;
            && Ends(tail) && tail != "" && tail[0] != ' '
            && if items == [] then tail == close
               else tail[0] == ',' && tail[1..] == " " + (InlineItems(items, true, o) + close)
  {
    hide Inline;
    if items == [] {
      assert InlineItems(items, false, o) + close == close;
    } else {
      var body := InlineItems(items, true, o);
      assert body == "" + body;
      assert InlineItems(items, false, o) == ", " + body;
      assert (", " + body + close)[1..] == " " + (body + close);
    }
  }

  lemma {:induction false} ItemsAreRead(items: seq<Node>, gap: string, o: Options, rest: string)
    requires forall i :: 0 <= i < |items| ==> Untagged(items[i])
    requires gap == "" || gap == " "
    ensures ReadItems(gap + (InlineItems(items, true, o) + ("]" + rest))) == Some((DataItems(items, o), rest))
    decreases NestingItems(items), 1, |items|
  {
    hide Inline, ReadNode, Untagged, SkipSpaces, Ends, Data;
    var close := "]" + rest;
    assert close[1..] == rest;
    if items == [] {
      assert InlineItems(items, true, o) + close == close;
      SkipsGap(gap, close);
    } else {
      var more := items[1..];
      var tail := InlineItems(more, false, o) + close;
      var body := Inline(items[0], o) + tail;
      assert InlineItems(items, true, o) + close == body;
      FirstChar(items[0], o);
      SkipsGap(gap, body);
      AfterItem(more, o, close);
      InlineIsRead(items[0], o, tail);
      SkipsGap("", tail);
      assert "" + tail == tail;
      if more != [] {
        ItemsAreRead(more, " ", o, rest);
      } else {
        assert DataItems(items, o) == [Data(items[0], o)];
      }
    }
  }

  lemma AfterEntry(entries: seq<Entry>, o: Options, close: string)
    requires close != "" && close[0] in {']', '}'}
    ensures var tail := InlineEntries(entries, false, o) + close;
            && Ends(tail) && tail != "" && tail[0] != ' '
            && if entries == [] then tail == close
               else tail[0] == ',' && tail[1..] == " " + (InlineEntries(entries, true, o) + close)
  {
    hide EntryText;
    if entries == [] {
      assert InlineEntries(entries, false, o) + close == close;
    } else {
      var body := InlineEntries(entries, true, o);
      assert body == "" + body;
      assert InlineEntries(entries, false, o) == ", " + body;
      assert (", " + body + close)[1..] == " " + (body + close);
    }
  }

  lemma EntryFirstChar(e: Entry, o: Options, tail: string)
    requires UntaggedEntry(e)
    ensures var text := EntryText(e, o) + tail; text != "" && text[0] !in {' ', ']', '}', ','}
  {
    hide Inline;
    FirstChar(e.0, o);
  }

  lemma {:induction false} EntryIsRead(e: Entry, o: Options, rest: string)
    requires UntaggedEntry(e) && Ends(rest)
    ensures ReadEntry(EntryText(e, o) + rest) == Some((DataEntry(e, o), rest))
    decreases NestingEntry(e), 1, 0
  {
    hide Inline, ReadNode, ReadEntry, Untagged, Data, EntryText, Ends;
    var value := Inline(e.1, o) + rest;
    var colon := ": " + value;
    EntryRegrouped(e, o, rest);
    ColonEnds(value);
    InlineIsRead(e.0, o, colon);
    FirstChar(e.1, o);
    InlineIsRead(e.1, o, rest);
    PairIsRead(Inline(e.0, o) + colon, value, Data(e.0, o), Data(e.1, o), rest);
  }

  lemma EntryRegrouped(e: Entry, o: Options, rest: string)
    ensures EntryText(e, o) + rest == Inline(e.0, o) + (": " + (Inline(e.1, o) + rest))
  {
    hide Inline;
  }

  lemma ColonEnds(value: string)
    ensures Ends(": " + value)
  {
  }

  // A key, a colon and a value.
  lemma PairIsRead(text: string, value: string, key: Tree, v: Tree, rest: string)
    requires ReadNode(text) == Some((key, ": " + value)) && ReadNode(value) == Some((v, rest))
    requires value != "" && value[0] != ' '
    ensures ReadEntry(text) == Some(((key, v), rest))
  {
    hide ReadNode, SkipSpaces;
    var colon := ": " + value;
    SkipsGap("", colon);
    assert "" + colon == colon && colon[1..] == " " + value;
    GapBeforeNode(value);
  }

  lemma GapBeforeNode(s: string)
    requires s != "" && s[0] != ' '
    ensures ReadNode(" " + s) == ReadNode(s)
  {
    hide ReadQuoted, ReadItems, ReadEntries, Resolve, PlainLength;
    SkipsGap(" ", s);
    SkipsGap("", s);
    assert "" + s == s;
  }

  lemma {:induction false} EntriesAreRead(entries: seq<Entry>, gap: string, o: Options, rest: string)
    requires forall i :: 0 <= i < |entries| ==> UntaggedEntry(entries[i])
    requires gap == "" || gap == " "
    ensures ReadEntries(gap + (InlineEntries(entries, true, o) + ("}" + rest))) == Some((DataEntries(entries, o), rest))
    decreases NestingEntries(entries), 2, |entries|
  {
    hide EntryText, ReadEntry, UntaggedEntry, SkipSpaces, Ends, DataEntry;
    var close := "}" + rest;
    assert close[1..] == rest;
    if entries == [] {
      assert InlineEntries(entries, true, o) + close == close;
      SkipsGap(gap, close);
    } else {
      var more := entries[1..];
      var tail := InlineEntries(more, false, o) + close;
      var body := EntryText(entries[0], o) + tail;
      assert InlineEntries(entries, true, o) + close == body;
      EntryFirstChar(entries[0], o, tail);
      SkipsGap(gap, body);
      AfterEntry(more, o, close);
      EntryIsRead(entries[0], o, tail);
      SkipsGap("", tail);
      assert "" + tail == tail;
      if more != [] {
        EntriesAreRead(more, " ", o, rest);
      } else {
        assert DataEntries(entries, o) == [DataEntry(entries[0], o)];
      }
    }
  }

  /** Flow text is read back as the tree it was printed from. */
  lemma FlowTextIsReadBack(n: Node, o: Options)
    requires Untagged(n)
    ensures ReadFlow(Inline(n, o)) == Some(Data(n, o))
  {
    hide Inline, ReadNode, Data;
    InlineIsRead(n, o, "");
    assert Inline(n, o) + "" == Inline(n, o);
  }
}
