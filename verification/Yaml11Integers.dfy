// YAML 1.1 integers (src/yaml11.rs): signs, radix prefixes and base-60 groups,
// with 128-bit bounds. Fractional base-60 numbers are a parameter.
module Yaml11Integers {
  import opened Prelude
  import V = Values

  type Number = V.Number

  const MIN_I128: int := -0x8000_0000_0000_0000_0000_0000_0000_0000
  const MAX_I128: int := 0x7fff_ffff_ffff_ffff_ffff_ffff_ffff_ffff
  const MAX_U128: int := 0xffff_ffff_ffff_ffff_ffff_ffff_ffff_ffff
  const MAX_I64: int := 0x7fff_ffff_ffff_ffff

  // ----- Digits ------------------------------------------------------------------------------

  /** `char::to_digit`, for any radix up to 36. */
  function DigitOf(c: char): Option<nat> {
    if '0' <= c <= '9' then Some(c as int - '0' as int)
    else if 'a' <= c <= 'z' then Some(c as int - 'a' as int + 10)
    else if 'A' <= c <= 'Z' then Some(c as int - 'A' as int + 10)
    else None
  }

  predicate IsDigitIn(c: char, radix: nat) {
    DigitOf(c).Some? && DigitOf(c).value < radix
  }

  predicate AllDigitsIn(s: string, radix: nat) {
    forall i :: 0 <= i < |s| ==> IsDigitIn(s[i], radix)
  }

  /** The number the digits spell in the radix. */
  function ValueIn(digits: string, radix: nat): nat
    requires AllDigitsIn(digits, radix)
  {
    if digits == "" then 0
    else ValueIn(digits[..|digits| - 1], radix) * radix + DigitOf(digits[|digits| - 1]).value
  }

  /** `u128::from_str_radix`, which allows one leading plus sign. */
  function FromStrRadix(text: string, radix: nat): Option<nat> {
    var digits := if text != "" && text[0] == '+' then text[1..] else text;
    if digits == "" || !AllDigitsIn(digits, radix) then None
    else if ValueIn(digits, radix) > MAX_U128 then None
    else Some(ValueIn(digits, radix))
  }

  /** `signed_magnitude_number`. */
  function SignedMagnitude(negative: bool, magnitude: nat, positive_i128: bool): Option<Number>
    requires magnitude <= MAX_U128
  {
    if negative then
      if magnitude == MAX_I128 + 1 then Some(V.Integer(MIN_I128 as V.i128))
      else if magnitude <= MAX_I128 then Some(V.Integer((0 - magnitude) as V.i128))
      else None
    else if positive_i128 && magnitude <= MAX_I128 then Some(V.Integer(magnitude as V.i128))
    else if magnitude <= MAX_I64 then Some(V.Integer(magnitude as V.i128))
    else Some(V.Unsigned(magnitude as V.u128))
  }

  // ----- Sign, prefix and digits -------------------------------------------------------------------

  function StripSign(text: string): (bool, string) {
    if text != "" && text[0] == '-' then (true, text[1..])
    else if text != "" && text[0] == '+' then (false, text[1..])
    else (false, text)
  }

  predicate StartsWith(text: string, prefix: string) {
    prefix <= text
  }

  function RadixAndDigits(rest: string, allow_0o_octal: bool, allow_leading_zero_octal: bool): Option<(nat, string)> {
    if StartsWith(rest, "0x") || StartsWith(rest, "0X") then Some((16, rest[2..]))
    else if allow_0o_octal && (StartsWith(rest, "0o") || StartsWith(rest, "0O")) then Some((8, rest[2..]))
    else if StartsWith(rest, "0b") || StartsWith(rest, "0B") then Some((2, rest[2..]))
    else if allow_leading_zero_octal && |rest| > 1 && rest[0] == '0' && AllDigitsIn(rest, 8) then Some((8, rest))
    else if allow_0o_octal then Some((10, rest))
    else None
  }

  /** `parse_signed_integer_number`. */
  function ParseSigned(compact: string, allow_0o_octal: bool, allow_leading_zero_octal: bool, positive_i128: bool): Option<Number> {
    var (negative, rest) := StripSign(compact);
    match RadixAndDigits(rest, allow_0o_octal, allow_leading_zero_octal)
    case None => None
    case Some((radix, digits)) =>
      match FromStrRadix(digits, radix)
      case None => None
      case Some(magnitude) => SignedMagnitude(negative, magnitude, positive_i128)
  }

  // ----- Base-60 groups ------------------------------------------------------------------------------

  function Split(text: string): (groups: seq<string>)
    ensures groups != []
  {
    if text == "" then [""]
    else
      var rest := Split(text[1..]);
      if text[0] == ':' then [""] + rest else [[text[0]] + rest[0]] + rest[1..]
  }

  predicate Unsigned(text: string) {
    text != "" && AllDigitsIn(text, 10)
  }

  predicate SignedDigits(text: string) {
    Unsigned(StripSign(text).1)
  }

  /** `group_value_below_60`. */
  function GroupBelow60(text: string): Option<nat> {
    if Unsigned(text) && ValueIn(text, 10) < 60 then Some(ValueIn(text, 10)) else None
  }

  /** The parts around the first `.`. */
  function SplitOnce(text: string): Option<(string, string)> {
    if text == "" then None
    else if text[0] == '.' then Some(("", text[1..]))
    else match SplitOnce(text[1..])
      case None => None
      case Some((before, after)) => Some(([text[0]] + before, after))
  }

  predicate LastGroup(text: string) {
    match SplitOnce(text)
    case Some((integer, fraction)) => GroupBelow60(integer).Some? && Unsigned(fraction)
    case None => GroupBelow60(text).Some?
  }

  /** `sexagesimal_groups`. */
  function Groups(text: string): (r: Option<seq<string>>)
    ensures r.Some? ==> r.value == Split(text) && |r.value| in {2, 3} && SignedDigits(r.value[0])
  {
    if ':' !in text || '_' in text then None
    else
      var groups := Split(text);
      if |groups| == 2 && SignedDigits(groups[0]) && LastGroup(groups[1]) then Some(groups)
      else if |groups| == 3 && SignedDigits(groups[0]) && GroupBelow60(groups[1]).Some? && LastGroup(groups[2]) then Some(groups)
      else None
  }

  /** The value of base-60 groups, with no bound. */
  function Base60(first: nat, groups: seq<string>): nat
    requires forall i :: 0 <= i < |groups| ==> GroupBelow60(groups[i]).Some?
  {
    if groups == [] then first
    else Base60(first, groups[..|groups| - 1]) * 60 + GroupBelow60(groups[|groups| - 1]).value
  }

  lemma {:induction false} Base60Grows(first: nat, groups: seq<string>, i: nat)
    requires forall i :: 0 <= i < |groups| ==> GroupBelow60(groups[i]).Some?
    requires i <= |groups|
    ensures Base60(first, groups[..i]) <= Base60(first, groups)
  {
    if i < |groups| {
      var n := |groups| - 1;
      Base60Grows(first, groups[..n], i);
      assert groups[..n][..i] == groups[..i];
    } else {
      assert groups[..i] == groups;
    }
  }

  // What the groups mean: the sign of the first one, and the base-60 value.
  function GroupsValue(groups: seq<string>): int
    requires |groups| > 0 && SignedDigits(groups[0])
    requires forall i :: 1 <= i < |groups| ==> GroupBelow60(groups[i]).Some?
  {
    var (negative, first) := StripSign(groups[0]);
    var magnitude := Base60(ValueIn(first, 10), groups[1..]);
    if negative then 0 - magnitude else magnitude
  }

  predicate InRange(v: int) {
    MIN_I128 <= v <= MAX_U128
  }

  /** The variant a value is stored in. */
  function NumberOf(v: int, positive_i128: bool): Number
    requires InRange(v)
  {
    if v <= MAX_I64 || (positive_i128 && v <= MAX_I128) then V.Integer(v as V.i128) else V.Unsigned(v as V.u128)
  }

  function Exactly(v: int, positive_i128: bool): Option<Number> {
    if InRange(v) then Some(NumberOf(v, positive_i128)) else None
  }

  lemma SignedMagnitudeIsExact(negative: bool, magnitude: nat, positive_i128: bool)
    requires magnitude <= MAX_U128
    ensures SignedMagnitude(negative, magnitude, positive_i128) == Exactly(if negative then 0 - magnitude else magnitude, positive_i128)
  {
  }

  /** `parse_sexagesimal_integer`, with every step checked for overflow. */
  method ParseSexagesimalInteger(groups: seq<string>) returns (r: Option<Number>)
    requires |groups| > 0 && SignedDigits(groups[0])
    requires forall i :: 1 <= i < |groups| ==> GroupBelow60(groups[i]).Some?
    ensures r == Exactly(GroupsValue(groups), false)
  {
    var (negative, first) := StripSign(groups[0]);
    var rest := groups[1..];
    assert forall i :: 0 <= i < |rest| ==> rest[i] == groups[i + 1];
    ghost var start := ValueIn(first, 10);
    Base60Grows(start, rest, 0);
    if ValueIn(first, 10) > MAX_U128 {
      return None;
    }
    var magnitude := ValueIn(first, 10);
    for i := 0 to |rest|
      invariant magnitude <= MAX_U128 && magnitude == Base60(start, rest[..i])
    {
      assert rest[..i + 1][..i] == rest[..i];
      Base60Grows(start, rest, i + 1);
      if magnitude * 60 > MAX_U128 {
        return None;
      }
      magnitude := magnitude * 60;
      var group := GroupBelow60(rest[i]);
      if magnitude + group.value > MAX_U128 {
        return None;
      }
      magnitude := magnitude + group.value;
    }
    assert rest[..|rest|] == rest;
    SignedMagnitudeIsExact(negative, magnitude, false);
    r := SignedMagnitude(negative, magnitude, false);
  }

  function AllBelow60(groups: seq<string>): bool {
    forall i :: 1 <= i < |groups| ==> GroupBelow60(groups[i]).Some?
  }

  predicate HasPoint(groups: seq<string>) {
    exists i :: 0 <= i < |groups| && '.' in groups[i]
  }

  lemma {:induction false} NoPointNoSplit(text: string)
    ensures SplitOnce(text).Some? <==> '.' in text
  {
    if text != "" && text[0] != '.' {
      NoPointNoSplit(text[1..]);
      assert text == [text[0]] + text[1..];
    }
  }

  lemma WholeGroups(text: string)
    requires Groups(text).Some? && !HasPoint(Groups(text).value)
    ensures AllBelow60(Groups(text).value)
  {
    var groups := Groups(text).value;
    var last := groups[|groups| - 1];
    NoPointNoSplit(last);
  }

  /** `parse_sexagesimal_number`; fractional groups are read by `float`. */
  function Sexagesimal(text: string, float: seq<string> -> Option<V.Float>): Option<Number> {
    match Groups(text)
    case None => None
    case Some(groups) =>
      if HasPoint(groups) then
        match float(groups) case None => None case Some(f) => Some(V.Number.Float(f))
      else
        WholeGroups(text);
        Exactly(GroupsValue(groups), false)
  }

  // ----- Digit separators --------------------------------------------------------------------------

  datatype SeparatorDigitKind = DecimalDigits | BinaryDigits | OctalDigits | HexDigits {
    predicate Allows(c: char) {
      match this
      case DecimalDigits => IsDigitIn(c, 10)
      case BinaryDigits => IsDigitIn(c, 2)
      case OctalDigits => IsDigitIn(c, 8)
      case HexDigits => IsDigitIn(c, 16)
    }
  }

  function SeparatorKind(text: string): SeparatorDigitKind {
    var rest := StripSign(text).1;
    if StartsWith(rest, "0x") || StartsWith(rest, "0X") then HexDigits
    else if StartsWith(rest, "0b") || StartsWith(rest, "0B") then BinaryDigits
    else if StartsWith(rest, "0o") || StartsWith(rest, "0O") then OctalDigits
    else DecimalDigits
  }

  /** An underscore stands between two digits. */
  predicate SeparatesDigits(text: string, kind: SeparatorDigitKind, i: nat)
    requires i < |text|
  {
    text[i] == '_' ==> 0 < i < |text| - 1 && kind.Allows(text[i - 1]) && kind.Allows(text[i + 1])
  }

  function WithoutSeparators(text: string): string {
    if text == "" then ""
    else (if text[0] == '_' then "" else [text[0]]) + WithoutSeparators(text[1..])
  }

  function Compact(text: string): Option<string> {
    if forall i :: 0 <= i < |text| ==> SeparatesDigits(text, SeparatorKind(text), i)
    then Some(WithoutSeparators(text)) else None
  }

  lemma {:induction false} NothingToCompact(text: string)
    requires '_' !in text
    ensures WithoutSeparators(text) == text && Compact(text) == Some(text)
  {
    if text != "" { NothingToCompact(text[1..]); }
  }

  /** `compact_radix_number_text`. */
  method CompactRadixNumberText(text: string) returns (r: Option<string>)
    ensures r == Compact(text)
  {
    if '_' !in text {
      NothingToCompact(text);
      return Some(text);
    }
    var kind := SeparatorKind(text);
    for i := 0 to |text|
      invariant forall j :: 0 <= j < i ==> SeparatesDigits(text, kind, j)
    {
      if text[i] != '_' {
        continue;
      }
      if i == 0 || !kind.Allows(text[i - 1]) || i + 1 == |text| || !kind.Allows(text[i + 1]) {
        assert !SeparatesDigits(text, kind, i);
        return None;
      }
    }
    return Some(WithoutSeparators(text));
  }

  // ----- The entry points ---------------------------------------------------------------------------

  function OrElse(first: Option<Number>, second: Option<Number>): Option<Number> {
    if first.Some? then first else second
  }

  function FromCompact(text: string, allow_0o_octal: bool, positive_i128: bool): Option<Number> {
    match Compact(text)
    case None => None
    case Some(compact) => ParseSigned(compact, allow_0o_octal, true, positive_i128)
  }

  function ExplicitInt(text: string, float: seq<string> -> Option<V.Float>): Option<Number> {
    OrElse(Sexagesimal(text, float), FromCompact(text, true, true))
  }

  function ImplicitExtension(text: string, float: seq<string> -> Option<V.Float>): Option<Number> {
    OrElse(Sexagesimal(text, float), FromCompact(text, false, false))
  }

  method ParseSexagesimalNumber(text: string, float: seq<string> -> Option<V.Float>) returns (r: Option<Number>)
    ensures r == Sexagesimal(text, float)
  {
    match Groups(text) {
      case None => return None;
      case Some(groups) =>
        if HasPoint(groups) {
          match float(groups) {
            case None => return None;
            case Some(f) => return Some(V.Number.Float(f));
          }
        }
        WholeGroups(text);
        r := ParseSexagesimalInteger(groups);
    }
  }

  method ParseExplicitIntNumber(text: string, float: seq<string> -> Option<V.Float>) returns (r: Option<Number>)
    ensures r == ExplicitInt(text, float)
  {
    r := ParseSexagesimalNumber(text, float);
    if r.Some? {
      return r;
    }
    var compact := CompactRadixNumberText(text);
    if compact.None? {
      return None;
    }
    r := ParseSigned(compact.value, true, true, true);
  }

  method ParseImplicitNumericExtension(text: string, float: seq<string> -> Option<V.Float>) returns (r: Option<Number>)
    ensures r == ImplicitExtension(text, float)
  {
    r := ParseSexagesimalNumber(text, float);
    if r.Some? {
      return r;
    }
    var compact := CompactRadixNumberText(text);
    if compact.None? {
      return None;
    }
    r := ParseSigned(compact.value, false, true, false);
  }
}
