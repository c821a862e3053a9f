// Integers whose digits are grouped by underscores: exactly which texts are read, and
// as what.
module Yaml11Separators {
  import opened Prelude
  import opened Yaml11Integers
  import opened Yaml11Theorems
  import V = Values

  // ----- Grouped digits ----------------------------------------------------------------------

  /** A sign, a radix prefix, a stray plus sign, and runs of digits. */
  datatype Grouped = Grouped(sign: string, prefix: string, plus: bool, runs: seq<string>)

  /** The runs with one underscore between any two. */
  function WithSeparators(runs: seq<string>): string
    requires runs != []
  {
    if |runs| == 1 then runs[0] else runs[0] + ("_" + WithSeparators(runs[1..]))
  }

  function AllDigits(runs: seq<string>): string {
    if runs == [] then "" else runs[0] + AllDigits(runs[1..])
  }

  /** The same integer with its digits in one run. */
  function Ungrouped(g: Grouped): Spelling {
    Spelling(g.sign, g.prefix, g.plus, AllDigits(g.runs))
  }

  function Head(sign: string, prefix: string, plus: bool): string {
    sign + (prefix + if plus then "+" else "")
  }

  function GroupedText(g: Grouped): string
    requires g.runs != []
  {
    Head(g.sign, g.prefix, g.plus) + WithSeparators(g.runs)
  }

  predicate GroupedOk(g: Grouped, allow_0o_octal: bool) {
    && SpellingOk(Ungrouped(g), allow_0o_octal, true)
    && g.runs != [] && forall i :: 0 <= i < |g.runs| ==> g.runs[i] != ""
  }

  function GroupedValue(g: Grouped): int
    requires AllDigitsIn(AllDigits(g.runs), Radix(Ungrouped(g), true))
  {
    SpellingValue(Ungrouped(g), true)
  }

  // ----- Separators, character by character ---------------------------------------------------------

  /** Every underscore stands between two digits; `before` is the character in front. */
  predicate Separated(kind: SeparatorDigitKind, before: char, text: string)
    decreases |text|
  {
    text == ""
    || (&& (text[0] == '_' ==> kind.Allows(before) && |text| > 1 && kind.Allows(text[1]))
        && Separated(kind, text[0], text[1..]))
  }

  lemma NoDigit(kind: SeparatorDigitKind, c: char)
    requires c in {' ', '_', '+', '-', 'x', 'X', 'o', 'O'}
    ensures !kind.Allows(c)
  {
  }

  function CharBefore(text: string, k: nat): char
    requires k <= |text|
  {
    if k == 0 then ' ' else text[k - 1]
  }

  lemma SeparatedAt(kind: SeparatorDigitKind, text: string, k: nat)
    requires k < |text|
    ensures Separated(kind, CharBefore(text, k), text[k..]) <==>
              SeparatesDigits(text, kind, k) && Separated(kind, CharBefore(text, k + 1), text[k + 1..])
  {
    hide SeparatorDigitKind.Allows;
    NoDigit(kind, ' ');
    assert text[k..][1..] == text[k + 1..] && text[k..][0] == text[k];
    assert |text[k..]| > 1 ==> text[k..][1] == text[k + 1];
  }

  lemma {:induction false} SeparatedFrom(kind: SeparatorDigitKind, text: string, k: nat)
    requires k <= |text|
    ensures Separated(kind, CharBefore(text, k), text[k..]) <==> forall i :: k <= i < |text| ==> SeparatesDigits(text, kind, i)
    decreases |text| - k
  {
    hide SeparatesDigits, CharBefore;
    if k < |text| {
      SeparatedFrom(kind, text, k + 1);
      SeparatedAt(kind, text, k);
    }
  }

  lemma CompactBySeparators(text: string)
    ensures Compact(text) == if Separated(SeparatorKind(text), ' ', text) then Some(WithoutSeparators(text)) else None
  {
    hide SeparatorKind;
    SeparatedFrom(SeparatorKind(text), text, 0);
    assert text[0..] == text;
  }

  // ----- Grouped texts are compacted ------------------------------------------------------------------

  lemma {:induction false} WithoutInFront(head: string, rest: string)
    requires '_' !in head
    ensures WithoutSeparators(head + rest) == head + WithoutSeparators(rest)
  {
    if head == "" {
      assert head + rest == rest;
    } else {
      assert (head + rest)[1..] == head[1..] + rest;
      WithoutInFront(head[1..], rest);
    }
  }

  function Last(before: char, head: string): char {
    if head == "" then before else head[|head| - 1]
  }

  lemma {:induction false} SeparatedBehind(kind: SeparatorDigitKind, before: char, head: string, rest: string)
    requires '_' !in head
    ensures Separated(kind, before, head + rest) <==> Separated(kind, Last(before, head), rest)
    decreases |head|
  {
    if head == "" {
      assert head + rest == rest;
    } else {
      assert (head + rest)[1..] == head[1..] + rest;
      SeparatedBehind(kind, head[0], head[1..], rest);
    }
  }

  ghost predicate Runs(kind: SeparatorDigitKind, runs: seq<string>) {
    && runs != []
    && forall i :: 0 <= i < |runs| ==> runs[i] != "" && forall k :: 0 <= k < |runs[i]| ==> kind.Allows(runs[i][k])
  }

  lemma RunHasNoMark(kind: SeparatorDigitKind, runs: seq<string>)
    requires Runs(kind, runs)
    ensures runs != [] && runs[0] != "" && '_' !in runs[0] && kind.Allows(runs[0][0]) && kind.Allows(Last(' ', runs[0]))
    ensures |runs| > 1 ==> Runs(kind, runs[1..])
  {
    hide SeparatorDigitKind.Allows;
    NoDigit(kind, '_');
  }

  lemma {:induction false} RunsAreSeparated(kind: SeparatorDigitKind, before: char, runs: seq<string>)
    requires Runs(kind, runs)
    ensures Separated(kind, before, WithSeparators(runs)) && WithoutSeparators(WithSeparators(runs)) == AllDigits(runs)
    ensures WithSeparators(runs) != "" && WithSeparators(runs)[0] == runs[0][0]
    decreases |runs|
  {
    hide SeparatorDigitKind.Allows, Separated, Runs;
    RunHasNoMark(kind, runs);
    if |runs| == 1 {
      OneRun(kind, before, runs[0]);
      assert runs[1..] == [] && runs[0] + "" == runs[0];
    } else {
      var rest := WithSeparators(runs[1..]);
      RunHasNoMark(kind, runs[1..]);
      RunsAreSeparated(kind, '_', runs[1..]);
      WithoutInFront(runs[0], "_" + rest);
      SeparatedBehind(kind, before, runs[0], "_" + rest);
      MarkIsSeparated(kind, Last(before, runs[0]), rest);
    }
  }

  lemma OneRun(kind: SeparatorDigitKind, before: char, run: string)
    requires '_' !in run
    ensures Separated(kind, before, run) && WithoutSeparators(run) == run
  {
    SeparatedBehind(kind, before, run, "");
    WithoutInFront(run, "");
    assert run + "" == run;
  }

  lemma MarkIsSeparated(kind: SeparatorDigitKind, before: char, rest: string)
    requires kind.Allows(before) && rest != "" && kind.Allows(rest[0]) && Separated(kind, '_', rest)
    ensures Separated(kind, before, "_" + rest) && WithoutSeparators("_" + rest) == WithoutSeparators(rest)
  {
    assert ("_" + rest)[1..] == rest;
  }

  // ----- Which digits the underscores need ----------------------------------------------------------------

  /** The digits of the radix prefix, decimal ones without it. */
  function KindOf(prefix: string): SeparatorDigitKind {
    if prefix in {"0x", "0X"} then HexDigits
    else if prefix in {"0b", "0B"} then BinaryDigits
    else if prefix in {"0o", "0O"} then OctalDigits
    else DecimalDigits
  }

  lemma KindOfRest(prefix: string, tail: string)
    requires prefix in {"", "0x", "0X", "0o", "0O", "0b", "0B"}
    requires prefix == "" ==> |tail| < 2 || tail[1] !in {'x', 'X', 'o', 'O', 'b', 'B'}
    ensures var rest := prefix + tail;
            KindOf(prefix) == if StartsWith(rest, "0x") || StartsWith(rest, "0X") then HexDigits
                              else if StartsWith(rest, "0b") || StartsWith(rest, "0B") then BinaryDigits
                              else if StartsWith(rest, "0o") || StartsWith(rest, "0O") then OctalDigits
                              else DecimalDigits
  {
    if prefix == "" {
      assert prefix + tail == tail;
    } else {
      StartsWithTwo(prefix, tail, "0x");
      StartsWithTwo(prefix, tail, "0X");
      StartsWithTwo(prefix, tail, "0o");
      StartsWithTwo(prefix, tail, "0O");
      StartsWithTwo(prefix, tail, "0b");
      StartsWithTwo(prefix, tail, "0B");
    }
  }

  lemma SignIsStripped(sign: string, rest: string)
    requires sign in {"", "+", "-"} && (sign == "" ==> rest == "" || rest[0] !in {'+', '-'})
    ensures StripSign(sign + rest) == (sign == "-", rest)
  {
    if sign == "" { assert sign + rest == rest; } else { assert (sign + rest)[1..] == rest; }
  }

  lemma {:induction false} DigitsOfRuns(runs: seq<string>, radix: nat)
    requires AllDigitsIn(AllDigits(runs), radix)
    ensures forall i :: 0 <= i < |runs| ==> AllDigitsIn(runs[i], radix)
  {
    if runs != [] {
      var first, rest := runs[0], AllDigits(runs[1..]);
      assert forall k :: 0 <= k < |first| ==> (first + rest)[k] == first[k];
      assert forall k :: 0 <= k < |rest| ==> (first + rest)[|first| + k] == rest[k];
      DigitsOfRuns(runs[1..], radix);
    }
  }

  lemma RunsOfDigits(g: Grouped, allow_0o_octal: bool)
    requires GroupedOk(g, allow_0o_octal)
    ensures Runs(KindOf(g.prefix), g.runs)
  {
    hide ValueIn;
    DigitsOfRuns(g.runs, Radix(Ungrouped(g), true));
    forall i, k | 0 <= i < |g.runs| && 0 <= k < |g.runs[i]| ensures KindOf(g.prefix).Allows(g.runs[i][k]) {
      assert IsDigitIn(g.runs[i][k], Radix(Ungrouped(g), true));
    }
  }

  // The second character of grouped digits is a digit or an underscore.
  lemma SecondOfRuns(kind: SeparatorDigitKind, runs: seq<string>)
    requires Runs(kind, runs) && kind == DecimalDigits
    ensures var text := WithSeparators(runs); |text| < 2 || text[1] !in {'x', 'X', 'o', 'O', 'b', 'B'}
    ensures WithSeparators(runs) != "" && WithSeparators(runs)[0] !in {'+', '-'}
  {
    var text := WithSeparators(runs);
    RunsAreSeparated(kind, ' ', runs);
    assert kind.Allows(runs[0][0]);
    if |runs[0]| > 1 {
      assert text[1] == runs[0][1] && kind.Allows(runs[0][1]);
    } else if |runs| > 1 {
      assert text[1] == '_';
    }
  }

  lemma KindOfGrouped(g: Grouped, allow_0o_octal: bool)
    requires GroupedOk(g, allow_0o_octal)
    ensures SeparatorKind(GroupedText(g)) == KindOf(g.prefix)
  {
    hide ValueIn, StartsWith, AllDigitsIn, WithSeparators, SeparatorDigitKind.Allows, Runs;
    var tail := (if g.plus then "+" else "") + WithSeparators(g.runs);
    RunsOfDigits(g, allow_0o_octal);
    assert GroupedText(g) == g.sign + (g.prefix + tail);
    if g.prefix == "" {
      SecondOfRuns(KindOf(g.prefix), g.runs);
      assert !g.plus ==> tail == WithSeparators(g.runs);
      PlusThenDigits(g.plus, WithSeparators(g.runs), KindOf(g.prefix), g.runs);
      assert g.prefix + tail == tail;
    } else {
      assert (g.prefix + tail)[0] == '0';
    }
    KindOfRest(g.prefix, tail);
    SignIsStripped(g.sign, g.prefix + tail);
  }

  lemma PlusThenDigits(plus: bool, text: string, kind: SeparatorDigitKind, runs: seq<string>)
    requires Runs(kind, runs) && kind == DecimalDigits && text == WithSeparators(runs)
    ensures plus ==> var tail := "+" + text; |tail| > 1 && tail[1] !in {'x', 'X', 'o', 'O', 'b', 'B'}
  {
    RunsAreSeparated(kind, ' ', runs);
    assert kind.Allows(runs[0][0]);
  }

  lemma HeadHasNoMark(g: Grouped, allow_0o_octal: bool)
    requires GroupedOk(g, allow_0o_octal)
    ensures '_' !in Head(g.sign, g.prefix, g.plus)
    ensures SpellingText(Ungrouped(g)) == Head(g.sign, g.prefix, g.plus) + AllDigits(g.runs)
  {
    hide ValueIn, AllDigitsIn;
  }

  /** Grouped digits are compacted to the same integer with its digits in one run. */
  lemma GroupedIsCompacted(g: Grouped, allow_0o_octal: bool)
    requires GroupedOk(g, allow_0o_octal)
    ensures Compact(GroupedText(g)) == Some(SpellingText(Ungrouped(g)))
  {
    hide ValueIn, AllDigitsIn, WithSeparators, AllDigits, Separated, SeparatorKind, Head, SpellingText, SpellingOk, Compact, Runs, WithoutSeparators;
    var head, text := Head(g.sign, g.prefix, g.plus), WithSeparators(g.runs);
    RunsOfDigits(g, allow_0o_octal);
    KindOfGrouped(g, allow_0o_octal);
    HeadHasNoMark(g, allow_0o_octal);
    CompactBySeparators(GroupedText(g));
    RunsAreSeparated(KindOf(g.prefix), Last(' ', head), g.runs);
    SeparatedBehind(KindOf(g.prefix), ' ', head, text);
    WithoutInFront(head, text);
  }

  // ----- Every compacted integer is grouped ---------------------------------------------------------------

  // A character in front of which no underscore can stand.
  lemma FirstKept(kind: SeparatorDigitKind, before: char, text: string, x: char, compact: string)
    requires Separated(kind, before, text) && WithoutSeparators(text) == [x] + compact && x != '_'
    requires !kind.Allows(before) || !kind.Allows(x)
    ensures text != "" && text[0] == x && Separated(kind, x, text[1..]) && WithoutSeparators(text[1..]) == compact
  {
    hide SeparatorDigitKind.Allows;
    NoDigit(kind, '_');
    if text[0] == '_' {
      MarkIsDropped(text);
      assert false;
    } else {
      assert WithoutSeparators(text)[1..] == WithoutSeparators(text[1..]) && ([x] + compact)[1..] == compact;
    }
  }

  lemma MarkIsDropped(text: string)
    requires |text| > 1 && text[0] == '_' && text[1] != '_'
    ensures WithoutSeparators(text) != "" && WithoutSeparators(text)[0] == text[1]
  {
    assert text[1..][0] == text[1];
  }

  function RunsOf(digits: string): (r: seq<string>)
    ensures r != []
  {
    if digits == "" then [""]
    else
      var rest := RunsOf(digits[1..]);
      if digits[0] == '_' then [""] + rest else [[digits[0]] + rest[0]] + rest[1..]
  }

  lemma {:induction false} RunsAreRuns(kind: SeparatorDigitKind, before: char, digits: string)
    requires Separated(kind, before, digits)
    ensures WithSeparators(RunsOf(digits)) == digits && AllDigits(RunsOf(digits)) == WithoutSeparators(digits)
    ensures forall i :: 0 < i < |RunsOf(digits)| ==> RunsOf(digits)[i] != ""
    ensures RunsOf(digits)[0] != "" <==> digits != "" && digits[0] != '_'
    decreases |digits|
  {
    hide SeparatorDigitKind.Allows;
    if digits != "" {
      var rest := RunsOf(digits[1..]);
      RunsAreRuns(kind, digits[0], digits[1..]);
      assert digits == [digits[0]] + digits[1..];
      if digits[0] == '_' {
        NoDigit(kind, '_');
        assert ([""] + rest)[1..] == rest;
        assert "" + ("_" + digits[1..]) == digits;
      } else {
        RunsPush(digits[0], rest);
      }
    }
  }

  lemma RunsPush(c: char, rest: seq<string>)
    requires rest != []
    ensures var runs := [[c] + rest[0]] + rest[1..];
            WithSeparators(runs) == [c] + WithSeparators(rest) && AllDigits(runs) == [c] + AllDigits(rest)
  {
    hide WithSeparators, AllDigits;
    FirstRun([c] + rest[0], rest[1..]);
    FirstRun(rest[0], rest[1..]);
    assert rest == [rest[0]] + rest[1..];
    Regrouped([c], rest[0], AllDigits(rest[1..]));
    if |rest| > 1 { Regrouped([c], rest[0], "_" + WithSeparators(rest[1..])); }
  }

  lemma Regrouped(a: string, b: string, c: string)
    ensures a + (b + c) == a + b + c
  {
  }

  lemma FirstRun(run: string, rest: seq<string>)
    ensures WithSeparators([run] + rest) == if rest == [] then run else run + ("_" + WithSeparators(rest))
    ensures AllDigits([run] + rest) == run + AllDigits(rest)
  {
    assert ([run] + rest)[1..] == rest;
  }

  // Without its head a compacted integer is grouped.
  lemma TailIsGrouped(kind: SeparatorDigitKind, before: char, text: string)
    requires Separated(kind, before, text) && WithoutSeparators(text) != "" && !kind.Allows(before)
    ensures WithSeparators(RunsOf(text)) == text && AllDigits(RunsOf(text)) == WithoutSeparators(text)
    ensures forall i :: 0 <= i < |RunsOf(text)| ==> RunsOf(text)[i] != ""
  {
    RunsAreRuns(kind, before, text);
  }

  /** Of two neighbours in the head, and of those at its ends, one is no digit. */
  predicate KeepsApart(kind: SeparatorDigitKind, before: char, head: string)
    decreases |head|
  {
    head == "" || ((!kind.Allows(before) || !kind.Allows(head[0])) && KeepsApart(kind, head[0], head[1..]))
  }

  // The head, one character after the other.
  lemma {:induction false} HeadIsKept(kind: SeparatorDigitKind, before: char, head: string, text: string, digits: string)
    requires Separated(kind, before, text) && WithoutSeparators(text) == head + digits && '_' !in head && KeepsApart(kind, before, head)
    ensures head <= text && Separated(kind, Last(before, head), text[|head|..]) && WithoutSeparators(text[|head|..]) == digits
    decreases |head|
  {
    hide SeparatorDigitKind.Allows, Separated, WithoutSeparators;
    if head == "" {
      assert text[0..] == text && head + digits == digits;
    } else {
      var x, rest := head[0], head[1..];
      assert head + digits == [x] + (rest + digits);
      FirstKept(kind, before, text, x, rest + digits);
      HeadIsKept(kind, x, rest, text[1..], digits);
      assert text == [x] + text[1..] && head == [x] + rest;
      assert text[1..][|rest|..] == text[|head|..];
    }
  }

  // Hexadecimal underscores need a hexadecimal prefix, with or without them.
  lemma HexPrefixStays(text: string, s: Spelling, allow_0o_octal: bool)
    requires SpellingOk(s, allow_0o_octal, true) && WithoutSeparators(text) == SpellingText(s) && SeparatorKind(text) == HexDigits
    ensures s.prefix in {"0x", "0X"}
  {
    hide ValueIn, SpellingOk, SpellingText, Radix, WithoutSeparators, AllDigitsIn;
    var rest := StripSign(text).1;
    var sign := if |rest| < |text| then text[..1] else "";
    var head := sign + rest[..2];
    assert text == sign + rest == head + rest[2..];
    HeadChars(text, rest, sign);
    WithoutInFront(head, rest[2..]);
    var tail := rest[..2] + WithoutSeparators(rest[2..]);
    assert head + WithoutSeparators(rest[2..]) == sign + tail;
    assert tail[0] == rest[0] == '0' && tail[1] == rest[1];
    SignIsStripped(sign, tail);
    SignOfSpelling(s, allow_0o_octal, true);
    PrefixStarts(s, allow_0o_octal, tail);
  }

  lemma HeadChars(text: string, rest: string, sign: string)
    requires rest == StripSign(text).1 && sign == (if |rest| < |text| then text[..1] else "")
    requires StartsWith(rest, "0x") || StartsWith(rest, "0X")
    ensures sign in {"", "+", "-"} && '_' !in sign + rest[..2] && |rest| >= 2 && rest[0] == '0' && rest[1] in {'x', 'X'}
  {
    assert rest[..2] == "0x" || rest[..2] == "0X";
    if |rest| < |text| { assert text[..1] == [text[0]]; }
  }

  lemma PrefixStarts(s: Spelling, allow_0o_octal: bool, rest: string)
    requires SpellingOk(s, allow_0o_octal, true) && s.prefix + Tail(s) == rest && |rest| > 1 && rest[0] == '0' && rest[1] in {'x', 'X'}
    ensures s.prefix in {"0x", "0X"}
  {
    hide ValueIn;
    if s.prefix == "" {
      TailHasNoPrefix(s, allow_0o_octal, true);
    }
  }

  lemma HeadKeepsApart(kind: SeparatorDigitKind, sign: string, prefix: string, plus: bool)
    requires sign in {"", "+", "-"} && prefix in {"", "0x", "0X", "0o", "0O", "0b", "0B"}
    requires prefix in {"0b", "0B"} ==> kind != HexDigits
    ensures var head := Head(sign, prefix, plus); KeepsApart(kind, ' ', head) && !kind.Allows(Last(' ', head)) && '_' !in head
  {
    hide SeparatorDigitKind.Allows, KeepsApart, Last;
    NoDigit(kind, ' ');
    NoDigit(kind, '+');
    NoDigit(kind, '-');
    var rest := if plus then "+" else "";
    SignEnds(kind, sign);
    MarkedHead(kind, sign, prefix + rest);
    if prefix == "" {
      assert prefix + rest == rest;
      PlusKeepsApart(kind, Last(' ', sign), rest);
    } else {
      PrefixEnds(kind, prefix);
      PrefixKeepsApart(kind, Last(' ', sign), prefix, rest);
    }
    HeadEnds(kind, sign, prefix, rest);
  }

  lemma SignEnds(kind: SeparatorDigitKind, sign: string)
    requires sign in {"", "+", "-"} && !kind.Allows(' ') && !kind.Allows('+') && !kind.Allows('-')
    ensures !kind.Allows(Last(' ', sign))
  {
    hide SeparatorDigitKind.Allows;
  }

  lemma PrefixEnds(kind: SeparatorDigitKind, prefix: string)
    requires prefix in {"0x", "0X", "0o", "0O", "0b", "0B"} && (prefix in {"0b", "0B"} ==> kind != HexDigits)
    ensures !kind.Allows(prefix[1])
  {
    hide SeparatorDigitKind.Allows;
    if kind != HexDigits { NoBinaryMark(kind); }
    if prefix[1] in {'x', 'X', 'o', 'O'} { NoDigit(kind, prefix[1]); }
  }

  lemma PlusKeepsApart(kind: SeparatorDigitKind, before: char, rest: string)
    requires rest in {"", "+"} && !kind.Allows(before)
    ensures KeepsApart(kind, before, rest)
  {
    hide SeparatorDigitKind.Allows;
    assert rest == "+" ==> rest[1..] == "";
  }

  lemma HeadEnds(kind: SeparatorDigitKind, sign: string, prefix: string, rest: string)
    requires sign in {"", "+", "-"} && prefix in {"", "0x", "0X", "0o", "0O", "0b", "0B"} && rest in {"", "+"}
    requires !kind.Allows('+') && !kind.Allows(Last(' ', sign)) && (prefix != "" ==> !kind.Allows(prefix[1]))
    ensures var head := sign + (prefix + rest); !kind.Allows(Last(' ', head)) && '_' !in head
  {
    hide SeparatorDigitKind.Allows;
    var head := sign + (prefix + rest);
    if rest == "+" {
      assert head[|head| - 1] == '+';
    } else if prefix != "" {
      assert head[|head| - 1] == prefix[1];
    } else {
      assert head == sign;
    }
  }

  lemma NoBinaryMark(kind: SeparatorDigitKind)
    requires kind != HexDigits
    ensures !kind.Allows('b') && !kind.Allows('B')
  {
  }

  lemma MarkedHead(kind: SeparatorDigitKind, sign: string, tail: string)
    requires sign in {"", "+", "-"} && !kind.Allows(' ') && !kind.Allows('+') && !kind.Allows('-')
    ensures KeepsApart(kind, ' ', sign + tail) <==> KeepsApart(kind, Last(' ', sign), tail)
  {
    hide SeparatorDigitKind.Allows;
    if sign == "" { assert sign + tail == tail; } else { assert (sign + tail)[1..] == tail; }
  }

  lemma PrefixKeepsApart(kind: SeparatorDigitKind, before: char, prefix: string, rest: string)
    requires |prefix| == 2 && !kind.Allows(before) && !kind.Allows(prefix[1]) && rest in {"", "+"}
    ensures KeepsApart(kind, before, prefix + rest)
  {
    hide SeparatorDigitKind.Allows;
    var head := prefix + rest;
    var next := head[1..];
    PlusKeepsApart(kind, prefix[1], rest);
    assert next[1..] == rest && next[0] == prefix[1];
    assert KeepsApart(kind, prefix[0], next);
  }

  /** Whatever is compacted to a spelled integer is that integer with its digits grouped. */
  lemma CompactedIsGrouped(text: string, s: Spelling, allow_0o_octal: bool) returns (g: Grouped)
    requires SpellingOk(s, allow_0o_octal, true) && Compact(text) == Some(SpellingText(s))
    ensures GroupedOk(g, allow_0o_octal) && GroupedText(g) == text && Ungrouped(g) == s
  {
    hide ValueIn, Radix, AllDigitsIn, WithSeparators, Separated, SeparatorKind, Head, Compact, WithoutSeparators, KeepsApart, SpellingText;
    var kind, head := SeparatorKind(text), Head(s.sign, s.prefix, s.plus);
    CompactBySeparators(text);
    if kind == HexDigits { HexPrefixStays(text, s, allow_0o_octal); }
    HeadKeepsApart(kind, s.sign, s.prefix, s.plus);
    SpelledByHead(s);
    HeadIsKept(kind, ' ', head, text, s.digits);
    TailIsGrouped(kind, Last(' ', head), text[|head|..]);
    g := Grouped(s.sign, s.prefix, s.plus, RunsOf(text[|head|..]));
    assert Ungrouped(g) == s;
    assert text == head + text[|head|..];
  }

  lemma SpelledByHead(s: Spelling)
    ensures SpellingText(s) == Head(s.sign, s.prefix, s.plus) + s.digits
  {
  }

  // ----- The entry points ----------------------------------------------------------------------------------

  lemma NoColon(text: string, float: seq<string> -> Option<V.Float>)
    requires ':' !in text
    ensures ExplicitInt(text, float) == FromCompact(text, true, true) && ImplicitExtension(text, float) == FromCompact(text, false, false)
  {
    hide FromCompact;
  }

  lemma FromCompactIsExact(text: string, n: Number, allow_0o_octal: bool, positive_i128: bool)
    ensures FromCompact(text, allow_0o_octal, positive_i128) == Some(n) <==>
              exists g: Grouped :: GroupedOk(g, allow_0o_octal) && GroupedText(g) == text && Exactly(GroupedValue(g), positive_i128) == Some(n)
  {
    hide ValueIn, ParseSigned, SpellingOk, SpellingText, Compact, Exactly, GroupedText, SpellingValue;
    if FromCompact(text, allow_0o_octal, positive_i128) == Some(n) {
      var s := SpellingOf(Compact(text).value, allow_0o_octal, true, positive_i128);
      var g := CompactedIsGrouped(text, s, allow_0o_octal);
      GroupedHasDigits(g, allow_0o_octal);
      SpellingIsExact(s, allow_0o_octal, true, positive_i128);
    }
    forall g: Grouped | GroupedOk(g, allow_0o_octal) && GroupedText(g) == text
      ensures AllDigitsIn(AllDigits(g.runs), Radix(Ungrouped(g), true))
      ensures FromCompact(text, allow_0o_octal, positive_i128) == Exactly(GroupedValue(g), positive_i128)
    {
      GroupedHasDigits(g, allow_0o_octal);
      GroupedIsCompacted(g, allow_0o_octal);
      SpellingIsExact(Ungrouped(g), allow_0o_octal, true, positive_i128);
    }
  }

  lemma GroupedHasDigits(g: Grouped, allow_0o_octal: bool)
    requires GroupedOk(g, allow_0o_octal)
    ensures AllDigitsIn(AllDigits(g.runs), Radix(Ungrouped(g), true))
  {
    hide ValueIn;
    SpellingHasDigits(Ungrouped(g), allow_0o_octal, true);
  }

  /** Without a colon, both entry points read a text as `n` exactly if it is a sign, a
      radix prefix and runs of digits with single underscores between them, and the
      digits put together spell a value in the 128-bit range that `n` stores. */
  lemma ReadsExactlyGrouped(text: string, n: Number, float: seq<string> -> Option<V.Float>)
    requires ':' !in text
    ensures ExplicitInt(text, float) == Some(n) <==>
              exists g: Grouped :: GroupedOk(g, true) && GroupedText(g) == text && Exactly(GroupedValue(g), true) == Some(n)
    ensures ImplicitExtension(text, float) == Some(n) <==>
              exists g: Grouped :: GroupedOk(g, false) && GroupedText(g) == text && Exactly(GroupedValue(g), false) == Some(n)
  {
    hide GroupedOk, GroupedText, Exactly, FromCompact, GroupedValue, Sexagesimal, ExplicitInt, ImplicitExtension;
    NoColon(text, float);
    FromCompactIsExact(text, n, true, true);
    FromCompactIsExact(text, n, false, false);
  }

  /** With both a colon and an underscore, a text is no integer. */
  lemma NoUnderscoreInBase60(text: string, float: seq<string> -> Option<V.Float>)
    requires ':' in text && '_' in text
    ensures ExplicitInt(text, float) == None && ImplicitExtension(text, float) == None
  {
    hide ParseSigned, Compact;
    match Compact(text) {
      case None =>
      case Some(compact) =>
        ColonStays(text);
        assert compact == WithoutSeparators(text) by { CompactedText(text); }
        ColonIsNotParsed(compact, true, true);
        ColonIsNotParsed(compact, false, false);
    }
  }

  lemma CompactedText(text: string)
    requires Compact(text).Some?
    ensures Compact(text).value == WithoutSeparators(text)
  {
  }

  lemma {:induction false} ColonStays(text: string)
    requires ':' in text
    ensures ':' in WithoutSeparators(text)
  {
    if text[0] != ':' {
      assert text == [text[0]] + text[1..];
      ColonStays(text[1..]);
    }
  }

  // ----- What digits are worth ---------------------------------------------------------------------------

  function Power(radix: nat, n: nat): nat {
    if n == 0 then 1 else radix * Power(radix, n - 1)
  }

  /** `0` to `9` are worth 0 to 9, letters of either case 10 and more. */
  lemma DigitsCount(c: char, radix: nat)
    requires IsDigitIn(c, radix)
    ensures '0' <= c <= '9' ==> ValueIn([c], radix) == c as int - '0' as int
    ensures 'a' <= c <= 'z' ==> ValueIn([c], radix) == c as int - 'a' as int + 10
    ensures 'A' <= c <= 'Z' ==> ValueIn([c], radix) == c as int - 'A' as int + 10
  {
    assert [c][..0] == "";
  }

  /** Digits in front weigh as much more as there are digits behind them. */
  lemma {:induction false} DigitsAreWeighted(x: string, y: string, radix: nat)
    requires AllDigitsIn(x, radix) && AllDigitsIn(y, radix)
    ensures AllDigitsIn(x + y, radix) && ValueIn(x + y, radix) == ValueIn(x, radix) * Power(radix, |y|) + ValueIn(y, radix)
    decreases |y|
  {
    if y == "" {
      assert x + y == x;
    } else {
      var init, last := y[..|y| - 1], y[|y| - 1];
      DigitsAreWeighted(x, init, radix);
      assert (x + y)[..|x + y| - 1] == x + init;
      Weigh(ValueIn(x, radix), Power(radix, |init|), ValueIn(init, radix), radix);
    }
  }

  lemma Weigh(x: nat, power: nat, y: nat, radix: nat)
    ensures (x * power + y) * radix == x * (radix * power) + y * radix
  {
    assert x * power * radix == x * (radix * power);
  }
}
