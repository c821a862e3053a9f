// Every integer text of YAML 1.1 is read exactly, or rejected for its size.
module Yaml11Theorems {
  import opened Prelude
  import opened Yaml11Integers
  import V = Values

  // ----- Texts with a sign, a prefix and digits are exact ---------------------------------------------

  /** A sign, a radix prefix, a stray plus sign the digit parser allows, and digits. */
  datatype Spelling = Spelling(sign: string, prefix: string, plus: bool, digits: string)

  function SpellingText(s: Spelling): string {
    s.sign + (s.prefix + ((if s.plus then "+" else "") + s.digits))
  }

  function Radix(s: Spelling, allow_leading_zero_octal: bool): nat {
    if s.prefix in {"0x", "0X"} then 16
    else if s.prefix in {"0o", "0O"} then 8
    else if s.prefix in {"0b", "0B"} then 2
    else if allow_leading_zero_octal && !s.plus && |s.digits| > 1 && s.digits[0] == '0' && AllDigitsIn(s.digits, 8) then 8
    else 10
  }

  predicate SpellingOk(s: Spelling, allow_0o_octal: bool, allow_leading_zero_octal: bool) {
    var radix := Radix(s, allow_leading_zero_octal);
    && s.sign in {"", "+", "-"}
    && s.prefix in {"", "0x", "0X", "0o", "0O", "0b", "0B"}
    && (s.prefix in {"0o", "0O"} ==> allow_0o_octal)
    && (s.prefix == "" ==> allow_0o_octal || radix == 8)
    && (s.sign == "" && s.prefix == "" ==> !s.plus)
    && s.digits != "" && AllDigitsIn(s.digits, radix)
  }

  function SpellingValue(s: Spelling, allow_leading_zero_octal: bool): int
    requires AllDigitsIn(s.digits, Radix(s, allow_leading_zero_octal))
  {
    var magnitude := ValueIn(s.digits, Radix(s, allow_leading_zero_octal));
    if s.sign == "-" then 0 - magnitude else magnitude
  }

  lemma DigitsAreNotMarks(s: string, radix: nat)
    requires s != "" && AllDigitsIn(s, radix) && radix <= 16
    ensures s[0] != '+' && s[0] != '-' && s[0] != ':' && s[0] != '_'
    ensures |s| > 1 && radix <= 10 ==> s[1] !in {'x', 'X', 'o', 'O', 'b', 'B'}
  {
    assert IsDigitIn(s[0], radix);
    if |s| > 1 { assert IsDigitIn(s[1], radix); }
  }

  function Tail(s: Spelling): string {
    (if s.plus then "+" else "") + s.digits
  }

  // What follows the sign does not start with one, unless a sign was there.
  lemma SignOfSpelling(s: Spelling, allow_0o_octal: bool, allow_leading_zero_octal: bool)
    requires SpellingOk(s, allow_0o_octal, allow_leading_zero_octal)
    ensures StripSign(SpellingText(s)) == (s.sign == "-", s.prefix + Tail(s))
  {
    var rest := s.prefix + Tail(s);
    assert SpellingText(s) == s.sign + rest;
    if s.sign == "" {
      if s.prefix == "" {
        DigitsAreNotMarks(s.digits, Radix(s, allow_leading_zero_octal));
        assert rest == s.digits;
      } else {
        assert rest[0] == s.prefix[0] == '0';
      }
      assert SpellingText(s) == rest;
    } else {
      assert SpellingText(s)[1..] == rest;
    }
  }

  lemma StartsWithTwo(p: string, tail: string, q: string)
    requires |p| == 2 && |q| == 2
    ensures StartsWith(p + tail, q) <==> q == p
    ensures (p + tail)[2..] == tail
  {
    assert (p + tail)[..2] == p;
    if StartsWith(p + tail, q) { assert (p + tail)[..2] == q; }
  }

  lemma NoPrefix(rest: string)
    requires rest != "" && (rest[0] != '0' || |rest| == 1 || IsDigitIn(rest[1], 10))
    ensures !StartsWith(rest, "0x") && !StartsWith(rest, "0X") && !StartsWith(rest, "0o")
    ensures !StartsWith(rest, "0O") && !StartsWith(rest, "0b") && !StartsWith(rest, "0B")
  {
  }

  lemma RadixOfPrefix(s: Spelling, allow_0o_octal: bool, allow_leading_zero_octal: bool)
    requires SpellingOk(s, allow_0o_octal, allow_leading_zero_octal) && s.prefix != ""
    ensures RadixAndDigits(s.prefix + Tail(s), allow_0o_octal, allow_leading_zero_octal)
         == Some((Radix(s, allow_leading_zero_octal), Tail(s)))
  {
    hide AllDigitsIn, StartsWith, Tail;
    StartsWithTwo(s.prefix, Tail(s), "0x");
    StartsWithTwo(s.prefix, Tail(s), "0X");
    StartsWithTwo(s.prefix, Tail(s), "0o");
    StartsWithTwo(s.prefix, Tail(s), "0O");
    StartsWithTwo(s.prefix, Tail(s), "0b");
    StartsWithTwo(s.prefix, Tail(s), "0B");
  }

  lemma RadixOfSpelling(s: Spelling, allow_0o_octal: bool, allow_leading_zero_octal: bool)
    requires SpellingOk(s, allow_0o_octal, allow_leading_zero_octal)
    ensures RadixAndDigits(s.prefix + Tail(s), allow_0o_octal, allow_leading_zero_octal)
         == Some((Radix(s, allow_leading_zero_octal), Tail(s)))
  {
    if s.prefix != "" {
      RadixOfPrefix(s, allow_0o_octal, allow_leading_zero_octal);
    } else {
      hide StartsWith, SpellingOk;
      var rest := Tail(s);
      assert s.prefix + rest == rest;
      TailHasNoPrefix(s, allow_0o_octal, allow_leading_zero_octal);
      NoPrefix(rest);
    }
  }

  lemma TailHasNoPrefix(s: Spelling, allow_0o_octal: bool, allow_leading_zero_octal: bool)
    requires SpellingOk(s, allow_0o_octal, allow_leading_zero_octal) && s.prefix == ""
    ensures var rest := Tail(s); rest != "" && (rest[0] != '0' || |rest| == 1 || IsDigitIn(rest[1], 10))
    ensures s.plus ==> Tail(s)[0] == '+'
    ensures !s.plus ==> Tail(s) == s.digits
    ensures Radix(s, allow_leading_zero_octal) == 10 ==> allow_0o_octal
  {
    if !s.plus {
      assert Tail(s) == s.digits;
      if |s.digits| > 1 { assert IsDigitIn(s.digits[1], Radix(s, allow_leading_zero_octal)); }
    } else {
      assert Tail(s)[0] == '+';
    }
  }

  lemma TailIsParsed(s: Spelling, allow_0o_octal: bool, allow_leading_zero_octal: bool)
    requires SpellingOk(s, allow_0o_octal, allow_leading_zero_octal)
    ensures var radix := Radix(s, allow_leading_zero_octal);
            FromStrRadix(Tail(s), radix) == if ValueIn(s.digits, radix) > MAX_U128 then None else Some(ValueIn(s.digits, radix))
  {
    hide ValueIn;
    var radix := Radix(s, allow_leading_zero_octal);
    DigitsAreNotMarks(s.digits, radix);
    if s.plus { assert Tail(s)[1..] == s.digits; } else { assert Tail(s) == s.digits; }
  }

  /** A spelled integer is read as exactly its value, and rejected exactly when the
      value is outside the 128-bit range. */
  lemma SpellingIsExact(s: Spelling, allow_0o_octal: bool, allow_leading_zero_octal: bool, positive_i128: bool)
    requires SpellingOk(s, allow_0o_octal, allow_leading_zero_octal)
    ensures ParseSigned(SpellingText(s), allow_0o_octal, allow_leading_zero_octal, positive_i128)
         == Exactly(SpellingValue(s, allow_leading_zero_octal), positive_i128)
  {
    hide ValueIn, SpellingText, RadixAndDigits, FromStrRadix, StripSign, Tail, Radix, SignedMagnitude;
    SignOfSpelling(s, allow_0o_octal, allow_leading_zero_octal);
    RadixOfSpelling(s, allow_0o_octal, allow_leading_zero_octal);
    TailIsParsed(s, allow_0o_octal, allow_leading_zero_octal);
    var magnitude := ValueIn(s.digits, Radix(s, allow_leading_zero_octal));
    if magnitude <= MAX_U128 {
      SignedMagnitudeIsExact(s.sign == "-", magnitude, positive_i128);
    }
  }

  lemma PrefixOf(rest: string, allow_0o_octal: bool, allow_leading_zero_octal: bool) returns (prefix: string)
    requires RadixAndDigits(rest, allow_0o_octal, allow_leading_zero_octal).Some?
    ensures var (radix, tail) := RadixAndDigits(rest, allow_0o_octal, allow_leading_zero_octal).value;
            && rest == prefix + tail
            && prefix in {"", "0x", "0X", "0o", "0O", "0b", "0B"}
            && (prefix in {"0x", "0X"} ==> radix == 16)
            && (prefix in {"0o", "0O"} ==> radix == 8 && allow_0o_octal)
            && (prefix in {"0b", "0B"} ==> radix == 2)
            && (prefix == "" ==>
                  radix == if allow_leading_zero_octal && |rest| > 1 && rest[0] == '0' && AllDigitsIn(rest, 8) then 8 else 10)
            && (prefix == "" ==> allow_0o_octal || radix == 8)
  {
    hide AllDigitsIn;
    prefix :=
      if StartsWith(rest, "0x") then "0x" else if StartsWith(rest, "0X") then "0X"
      else if allow_0o_octal && StartsWith(rest, "0o") then "0o" else if allow_0o_octal && StartsWith(rest, "0O") then "0O"
      else if StartsWith(rest, "0b") then "0b" else if StartsWith(rest, "0B") then "0B"
      else "";
    assert prefix <= rest;
    assert rest == prefix + rest[|prefix|..];
  }

  lemma SignOf(text: string) returns (sign: string)
    ensures sign in {"", "+", "-"} && text == sign + StripSign(text).1
    ensures sign == "" ==> text == "" || text[0] != '+'
  {
    if text != "" && text[0] == '-' {
      sign := "-";
    } else if text != "" && text[0] == '+' {
      sign := "+";
    } else {
      sign := "";
    }
  }

  // The radix a text is read with is that of its spelling.
  lemma SpelledRadix(s: Spelling, rest: string, radix: nat, allow_0o_octal: bool, allow_leading_zero_octal: bool)
    requires rest == s.prefix + Tail(s) && s.prefix in {"", "0x", "0X", "0o", "0O", "0b", "0B"}
    requires s.prefix in {"0x", "0X"} ==> radix == 16
    requires s.prefix in {"0o", "0O"} ==> radix == 8
    requires s.prefix in {"0b", "0B"} ==> radix == 2
    requires s.prefix == "" ==>
               radix == if allow_leading_zero_octal && |rest| > 1 && rest[0] == '0' && AllDigitsIn(rest, 8) then 8 else 10
    ensures Radix(s, allow_leading_zero_octal) == radix
  {
    hide AllDigitsIn;
    if s.prefix == "" {
      assert rest == Tail(s);
      if s.plus { assert rest[0] == '+'; } else { assert rest == s.digits; }
    }
  }

  lemma TailParts(tail: string) returns (plus: bool, digits: string)
    ensures plus == (tail != "" && tail[0] == '+') && tail == (if plus then "+" else "") + digits
    ensures digits == if plus then tail[1..] else tail
  {
    plus := tail != "" && tail[0] == '+';
    digits := if plus then tail[1..] else tail;
  }

  // Whatever is read has a spelling.
  lemma SpellingOf(text: string, allow_0o_octal: bool, allow_leading_zero_octal: bool, positive_i128: bool) returns (s: Spelling)
    requires ParseSigned(text, allow_0o_octal, allow_leading_zero_octal, positive_i128).Some?
    ensures SpellingOk(s, allow_0o_octal, allow_leading_zero_octal) && SpellingText(s) == text
  {
    hide ValueIn, SignedMagnitude, RadixAndDigits, AllDigitsIn, StripSign, Radix;
    var sign := SignOf(text);
    var rest := StripSign(text).1;
    var (radix, tail) := RadixAndDigits(rest, allow_0o_octal, allow_leading_zero_octal).value;
    var prefix := PrefixOf(rest, allow_0o_octal, allow_leading_zero_octal);
    var plus, digits := TailParts(tail);
    s := Spelling(sign, prefix, plus, digits);
    SpelledRadix(s, rest, radix, allow_0o_octal, allow_leading_zero_octal);
    if sign == "" && prefix == "" {
      assert text == rest == tail;
    }
  }

  /** The parser reads a text as `n` exactly when the text spells a value in the
      128-bit range and `n` stores that value. */
  lemma ParsesExactlySpellings(text: string, n: V.Number, allow_0o_octal: bool, allow_leading_zero_octal: bool, positive_i128: bool)
    ensures ParseSigned(text, allow_0o_octal, allow_leading_zero_octal, positive_i128) == Some(n) <==>
              exists s: Spelling ::
                && SpellingOk(s, allow_0o_octal, allow_leading_zero_octal) && SpellingText(s) == text
                && Exactly(SpellingValue(s, allow_leading_zero_octal), positive_i128) == Some(n)
  {
    hide ParseSigned, SpellingOk, SpellingText, SpellingValue, Exactly;
    if ParseSigned(text, allow_0o_octal, allow_leading_zero_octal, positive_i128) == Some(n) {
      var s := SpellingOf(text, allow_0o_octal, allow_leading_zero_octal, positive_i128);
      SpellingHasDigits(s, allow_0o_octal, allow_leading_zero_octal);
      SpellingIsExact(s, allow_0o_octal, allow_leading_zero_octal, positive_i128);
    }
    forall s: Spelling | SpellingOk(s, allow_0o_octal, allow_leading_zero_octal) && SpellingText(s) == text
      ensures AllDigitsIn(s.digits, Radix(s, allow_leading_zero_octal))
      ensures ParseSigned(text, allow_0o_octal, allow_leading_zero_octal, positive_i128)
           == Exactly(SpellingValue(s, allow_leading_zero_octal), positive_i128)
    {
      SpellingHasDigits(s, allow_0o_octal, allow_leading_zero_octal);
      SpellingIsExact(s, allow_0o_octal, allow_leading_zero_octal, positive_i128);
    }
  }

  lemma SpellingHasDigits(s: Spelling, allow_0o_octal: bool, allow_leading_zero_octal: bool)
    requires SpellingOk(s, allow_0o_octal, allow_leading_zero_octal)
    ensures AllDigitsIn(s.digits, Radix(s, allow_leading_zero_octal))
  {
  }

  // ----- Base-60 texts are exact ------------------------------------------------------------------------

  /** A signed group and one or two groups below 60. */
  datatype Base60Spelling = Base60Spelling(sign: string, first: string, groups: seq<string>)

  function Joined(groups: seq<string>): string
    requires groups != []
  {
    if |groups| == 1 then groups[0] else groups[0] + (":" + Joined(groups[1..]))
  }

  predicate Base60Ok(s: Base60Spelling) {
    && s.sign in {"", "+", "-"} && Unsigned(s.first) && 1 <= |s.groups| <= 2
    && forall i :: 0 <= i < |s.groups| ==> GroupBelow60(s.groups[i]).Some?
  }

  function Base60Text(s: Base60Spelling): string {
    Joined([s.sign + s.first] + s.groups)
  }

  /** Hours and minutes, or hours, minutes and seconds. */
  function Base60Value(s: Base60Spelling): int
    requires Base60Ok(s)
  {
    var first, second := ValueIn(s.first, 10), ValueIn(s.groups[0], 10);
    var magnitude := if |s.groups| == 1 then first * 60 + second else (first * 60 + second) * 60 + ValueIn(s.groups[1], 10);
    if s.sign == "-" then 0 - magnitude else magnitude
  }

  ghost predicate NoneOf(s: string, marks: set<char>) {
    forall i :: 0 <= i < |s| ==> s[i] !in marks
  }

  lemma UnsignedHasNoMarks(s: string)
    requires Unsigned(s)
    ensures NoneOf(s, {':', '_', '.', '+', '-'})
  {
    forall i | 0 <= i < |s| ensures s[i] !in {':', '_', '.', '+', '-'} {
      assert IsDigitIn(s[i], 10);
    }
  }

  lemma {:induction false} SplitFirst(a: string, rest: string)
    requires NoneOf(a, {':'})
    ensures Split(a + (":" + rest)) == [a] + Split(rest)
  {
    var text := a + (":" + rest);
    if a == "" {
      assert text[1..] == rest;
    } else {
      assert text[1..] == a[1..] + (":" + rest) && text[0] == a[0];
      SplitFirst(a[1..], rest);
      assert [a[0]] + a[1..] == a;
    }
  }

  lemma {:induction false} SplitNothing(a: string)
    requires NoneOf(a, {':'})
    ensures Split(a) == [a]
  {
    if a != "" { SplitNothing(a[1..]); assert [a[0]] + a[1..] == a; }
  }

  lemma {:induction false} SplitJoined(groups: seq<string>)
    requires groups != [] && forall i :: 0 <= i < |groups| ==> NoneOf(groups[i], {':'})
    ensures Split(Joined(groups)) == groups
  {
    if |groups| == 1 {
      SplitNothing(groups[0]);
    } else {
      SplitJoined(groups[1..]);
      SplitFirst(groups[0], Joined(groups[1..]));
    }
  }

  lemma {:induction false} JoinedMarks(groups: seq<string>, mark: char)
    requires groups != [] && mark != ':' && forall i :: 0 <= i < |groups| ==> mark !in groups[i]
    ensures mark !in Joined(groups)
    ensures |groups| > 1 ==> ':' in Joined(groups)
  {
    if |groups| > 1 {
      JoinedMarks(groups[1..], mark);
      assert Joined(groups)[|groups[0]|] == ':';
    }
  }

  lemma {:induction false} JoinSplit(text: string)
    ensures Joined(Split(text)) == text
  {
    if text != "" {
      JoinSplit(text[1..]);
      var rest := Split(text[1..]);
      if text[0] == ':' {
        assert ([""] + rest)[1..] == rest;
        assert "" + (":" + text[1..]) == text;
      } else {
        var groups := [[text[0]] + rest[0]] + rest[1..];
        assert groups[1..] == rest[1..];
        assert text == [text[0]] + text[1..];
      }
    }
  }

  lemma Base60Marks(s: Base60Spelling)
    requires Base60Ok(s)
    ensures forall i :: 0 <= i <= |s.groups| ==> NoneOf(([s.sign + s.first] + s.groups)[i], {':', '_', '.'})
  {
    hide ValueIn;
    var groups := [s.sign + s.first] + s.groups;
    UnsignedHasNoMarks(s.first);
    forall i | 0 <= i < |groups| ensures NoneOf(groups[i], {':', '_', '.'}) {
      if i > 0 { UnsignedHasNoMarks(s.groups[i - 1]); }
    }
  }

  lemma NoMarkIn(text: string)
    requires NoneOf(text, {':', '_', '.'})
    ensures NoneOf(text, {':'}) && '_' !in text && '.' !in text
  {
  }

  // The groups of a base-60 text, and its marks.
  lemma Base60Groups(s: Base60Spelling)
    requires Base60Ok(s)
    ensures var groups := [s.sign + s.first] + s.groups;
            && Groups(Base60Text(s)) == Some(groups) && !HasPoint(groups)
            && ':' in Base60Text(s) && '_' !in Base60Text(s)
            && StripSign(groups[0]) == (s.sign == "-", s.first)
  {
    hide NoneOf, StripSign, Unsigned, ValueIn, Split, Joined;
    var groups := [s.sign + s.first] + s.groups;
    Base60Marks(s);
    forall i | 0 <= i < |groups| ensures NoneOf(groups[i], {':'}) && '_' !in groups[i] && '.' !in groups[i] {
      NoMarkIn(groups[i]);
    }
    SplitJoined(groups);
    JoinedMarks(groups, '_');
    StripsSign(s.sign, s.first);
    NoPointNoSplit(groups[|groups| - 1]);
  }

  lemma StripsSign(sign: string, first: string)
    requires sign in {"", "+", "-"} && Unsigned(first)
    ensures StripSign(sign + first) == (sign == "-", first)
  {
    UnsignedHasNoMarks(first);
    if sign == "" { assert sign + first == first; } else { assert (sign + first)[1..] == first; }
  }

  lemma ColonIsNoDigit(s: string, radix: nat)
    requires ':' in s
    ensures FromStrRadix(s, radix) == None
  {
    hide ValueIn;
    var i :| 0 <= i < |s| && s[i] == ':';
    var digits := if s[0] == '+' then s[1..] else s;
    var j := if s[0] == '+' then i - 1 else i;
    assert digits[j] == ':' && !IsDigitIn(digits[j], radix);
  }

  lemma ColonIsNotParsed(text: string, allow_0o_octal: bool, positive_i128: bool)
    requires ':' in text
    ensures ParseSigned(text, allow_0o_octal, true, positive_i128) == None
  {
    hide FromStrRadix, SignedMagnitude, AllDigitsIn;
    var rest := StripSign(text).1;
    var i :| 0 <= i < |text| && text[i] == ':';
    assert rest[i - (|text| - |rest|)] == ':';
    match RadixAndDigits(rest, allow_0o_octal, true) {
      case None =>
      case Some((radix, digits)) =>
        var k :| 0 <= k < |rest| && rest[k] == ':';
        assert digits == rest || digits == rest[2..];
        if digits != rest { assert k >= 2 && digits[k - 2] == ':'; }
        ColonIsNoDigit(digits, radix);
    }
  }

  lemma Base60Sum(first: nat, groups: seq<string>)
    requires 1 <= |groups| <= 2 && forall i :: 0 <= i < |groups| ==> GroupBelow60(groups[i]).Some?
    ensures Base60(first, groups) == if |groups| == 1 then first * 60 + ValueIn(groups[0], 10)
                                     else (first * 60 + ValueIn(groups[0], 10)) * 60 + ValueIn(groups[1], 10)
  {
    hide ValueIn;
    assert Base60(first, groups[..0]) == first;
    assert groups[..1][..0] == groups[..0] && groups[..1][0] == groups[0];
    assert Base60(first, groups[..1]) == first * 60 + ValueIn(groups[0], 10);
    if |groups| == 1 { assert groups[..1] == groups; }
  }

  /** A base-60 integer is read as exactly its value, and rejected exactly when the
      value is outside the 128-bit range. */
  lemma SexagesimalIsExact(s: Base60Spelling, float: seq<string> -> Option<V.Float>)
    requires Base60Ok(s)
    ensures ExplicitInt(Base60Text(s), float) == Exactly(Base60Value(s), false)
    ensures ImplicitExtension(Base60Text(s), float) == Exactly(Base60Value(s), false)
  {
    hide ValueIn, Groups, HasPoint, Exactly, ParseSigned, Compact, Base60Text, StripSign, GroupBelow60, SignedDigits;
    var text, groups := Base60Text(s), [s.sign + s.first] + s.groups;
    Base60Groups(s);
    WholeGroups(text);
    Base60Sum(ValueIn(s.first, 10), s.groups);
    assert groups[1..] == s.groups;
    assert GroupsValue(groups) == Base60Value(s);
    NothingToCompact(text);
    ColonIsNotParsed(text, true, true);
    ColonIsNotParsed(text, false, false);
  }

  /** Every text with integer groups is such a base-60 text. */
  lemma IntegerGroupsAreBase60(text: string)
    requires Groups(text).Some? && !HasPoint(Groups(text).value)
    ensures exists s: Base60Spelling :: Base60Ok(s) && Base60Text(s) == text
  {
    hide ValueIn, HasPoint, GroupBelow60, Split, Joined, StripSign, Unsigned;
    var groups := Groups(text).value;
    WholeGroups(text);
    JoinSplit(text);
    var sign := SignOf(groups[0]);
    var s := Base60Spelling(sign, StripSign(groups[0]).1, groups[1..]);
    assert [groups[0]] + groups[1..] == groups;
    assert Base60Text(s) == text;
  }
}
