// The timestamp parser (src/ast.rs): functions on the rest of the text, and the
// methods that move a position through it in machine integers.
module TimestampParser {
  import opened Prelude
  import opened Decimal
  import opened Timestamps

  // ----- On the rest of the text ----------------------------------------------------------------

  function OneOrTwo(s: string): Option<(nat, string)> {
    if s == "" || !IsDigit(s[0]) then None
    else if |s| > 1 && IsDigit(s[1]) then Some((10 * DigitValue(s[0]) + DigitValue(s[1]), s[2..]))
    else Some((DigitValue(s[0]), s[1..]))
  }

  function ExactTwo(s: string): Option<(nat, string)> {
    if |s| >= 2 && IsDigit(s[0]) && IsDigit(s[1]) then Some((10 * DigitValue(s[0]) + DigitValue(s[1]), s[2..])) else None
  }

  /** The rest after one expected character. */
  function After(s: string, c: char): Option<string> {
    if s != "" && s[0] == c then Some(s[1..]) else None
  }

  function ReadDate(s: string): Option<(Date, string)> {
    if |s| < 4 || !AllDigits(s[..4]) then None
    else
      NumberBound(s[..4]);
      assert Pow10(4) == 10000 by { assert Pow10(2) == 100; assert Pow10(3) == 1000; }
      var year := Number(s[..4]) as uint16;
      match After(s[4..], '-')
      case None => None
      case Some(at_month) =>
        match OneOrTwo(at_month)
        case None => None
        case Some((month, after_month)) =>
          match After(after_month, '-')
          case None => None
          case Some(at_day) =>
            match OneOrTwo(at_day)
            case None => None
            case Some((day, rest)) =>
              match FromYmd(year, month as uint8, day as uint8)
              case None => None
              case Some(date) => Some((date, rest))
  }

  datatype Hms = Hms(hour: uint8, minute: uint8, second: uint8)

  function ReadTime(s: string): Option<(Hms, string)> {
    match OneOrTwo(s)
    case None => None
    case Some((hour, after_hour)) =>
      match After(after_hour, ':')
      case None => None
      case Some(at_minute) =>
        if hour > 23 then None
        else match ExactTwo(at_minute)
          case None => None
          case Some((minute, after_minute)) =>
            match After(after_minute, ':')
            case None => None
            case Some(at_second) =>
              if minute > 59 then None
              else match ExactTwo(at_second)
                case None => None
                case Some((second, rest)) =>
                  if second > 60 then None else Some((Hms(hour as uint8, minute as uint8, second as uint8), rest))
  }

  function ReadZone(s: string): Option<(int16, string)> {
    if s == "" then None
    else if s[0] == 'Z' || s[0] == 'z' then Some((0, s[1..]))
    else if s[0] != '+' && s[0] != '-' then None
    else match OneOrTwo(s[1..])
      case None => None
      case Some((hour, after_hour)) =>
        if hour > 23 then None
        else match After(after_hour, ':')
          case None => Some((Signed(s[0] == '-', hour, 0), after_hour))
          case Some(at_minute) =>
            match ExactTwo(at_minute)
            case None => None
            case Some((minute, rest)) => if minute > 59 then None else Some((Signed(s[0] == '-', hour, minute), rest))
  }

  function Signed(negative: bool, hour: nat, minute: nat): (r: int16)
    requires hour <= 23 && minute <= 59
    ensures FromMinutes(r) == Some(r)
  {
    if negative then (-(hour * 60 + minute)) as int16 else (hour * 60 + minute) as int16
  }

  /** How many characters at the start are digits, or spaces. */
  function LeadingDigits(s: string): (n: nat)
    ensures n <= |s| && AllDigits(s[..n])
  {
    if s != "" && IsDigit(s[0]) then
      var n := LeadingDigits(s[1..]);
      assert s[..n + 1] == [s[0]] + s[1..][..n];
      n + 1
    else 0
  }

  function LeadingSpaces(s: string): (n: nat)
    ensures n <= |s| && AllSpaces(s[..n])
  {
    if s != "" && Space(s[0]) then
      var n := LeadingSpaces(s[1..]);
      assert s[..n + 1] == [s[0]] + s[1..][..n];
      n + 1
    else 0
  }

  function ReadFraction(s: string): (r: Option<(nat, string)>)
    ensures r.Some? ==> r.value.0 < 1_000_000_000
  {
    match After(s, '.')
    case None => Some((0, s))
    case Some(digits) =>
      var n := LeadingDigits(digits);
      if n == 0 then None else Some((Nanoseconds(digits[..n]), digits[n..]))
  }

  function ReadEnd(s: string): Option<Option<int16>> {
    if s == "" then Some(None)
    else match ReadZone(s)
      case None => None
      case Some((minutes, rest)) => if rest == "" then Some(Some(minutes)) else None
  }

  function ReadClock(s: string): Option<Time> {
    match ReadTime(s)
    case None => None
    case Some((hms, after_second)) =>
      match ReadFraction(after_second)
      case None => None
      case Some((nanosecond, after_fraction)) =>
        match ReadEnd(after_fraction[LeadingSpaces(after_fraction)..])
        case None => None
        case Some(offset) => FromHms(hms.hour, hms.minute, hms.second, nanosecond as uint32, offset)
  }

  /** `parse_yaml11_timestamp`. */
  function Read(text: string): Option<Timestamp> {
    match ReadDate(text)
    case None => None
    case Some((date, rest)) =>
      if rest == "" then Some(Timestamp(date, None))
      else if rest[0] != 'T' && rest[0] != 't' && !Space(rest[0]) then None
      else match ReadClock(if Space(rest[0]) then rest[LeadingSpaces(rest)..] else rest[1..])
        case None => None
        case Some(time) => Some(Timestamp(date, Some(time)))
  }

  // ----- With positions and machine integers ---------------------------------------------------------

  // The method has reached the position where the rest of the text starts.
  ghost predicate Reached<T>(bytes: string, r: Option<(T, nat)>, read: Option<(T, string)>) {
    match read
    case None => r.None?
    case Some((value, rest)) => r.Some? && r.value.0 == value && r.value.1 <= |bytes| && bytes[r.value.1..] == rest
  }

  ghost predicate ReachedByte(bytes: string, r: Option<(uint8, nat)>, read: Option<(nat, string)>) {
    match read
    case None => r.None?
    case Some((value, rest)) => r.Some? && r.value.0 as int == value && r.value.1 <= |bytes| && bytes[r.value.1..] == rest
  }

  method ParseDigitsU16(bytes: string) returns (value: uint16)
    requires Digits(bytes, 0, 4)
    ensures value as int == Number(bytes)
  {
    value := 0;
    for i := 0 to |bytes|
      invariant value as int == Number(bytes[..i])
    {
      assert bytes[..i + 1] == bytes[..i] + [bytes[i]];
      NumberPush(bytes[..i], bytes[i]);
      NumberBound(bytes[..i]);
      assert Pow10(i) <= 1000 by { assert Pow10(1) == 10 && Pow10(2) == 100 && Pow10(3) == 1000; }
      value := value * 10 + DigitValue(bytes[i]) as uint16;
    }
    assert bytes[..|bytes|] == bytes;
  }

  method ParseOneOrTwoDigits(bytes: string, pos: nat) returns (r: Option<(uint8, nat)>)
    requires pos <= |bytes|
    ensures ReachedByte(bytes, r, OneOrTwo(bytes[pos..]))
  {
    if pos >= |bytes| || !IsDigit(bytes[pos]) {
      return None;
    }
    var value := DigitValue(bytes[pos]) as uint8;
    var end := pos + 1;
    if end < |bytes| && IsDigit(bytes[end]) {
      value := value * 10 + DigitValue(bytes[end]) as uint8;
      end := end + 1;
    }
    return Some((value, end));
  }

  method ParseExactTwoDigits(bytes: string, pos: nat) returns (r: Option<(uint8, nat)>)
    requires pos <= |bytes|
    ensures ReachedByte(bytes, r, ExactTwo(bytes[pos..]))
  {
    if pos + 1 >= |bytes| || !IsDigit(bytes[pos]) || !IsDigit(bytes[pos + 1]) {
      return None;
    }
    var value, second := DigitValue(bytes[pos]) as uint8, DigitValue(bytes[pos + 1]) as uint8;
    return Some((value * 10 + second, pos + 2));
  }

  // `After` at a position.
  lemma AfterAt(bytes: string, pos: nat, c: char)
    requires pos <= |bytes|
    ensures After(bytes[pos..], c).Some? <==> pos < |bytes| && bytes[pos] == c
    ensures After(bytes[pos..], c).Some? ==> After(bytes[pos..], c).value == bytes[pos + 1..]
  {
  }

  method ParseYaml11Date(bytes: string, pos: nat) returns (r: Option<(Date, nat)>)
    requires pos <= |bytes|
    ensures Reached(bytes, r, ReadDate(bytes[pos..]))
  {
    hide OneOrTwo, Number, FromYmd;
    if pos + 4 > |bytes| || !AllDigits(bytes[pos..pos + 4]) {
      assert |bytes[pos..]| >= 4 ==> bytes[pos..][..4] == bytes[pos..pos + 4];
      return None;
    }
    assert bytes[pos..][..4] == bytes[pos..pos + 4] && bytes[pos..][4..] == bytes[pos + 4..];
    var year := ParseDigitsU16(bytes[pos..pos + 4]);
    AfterAt(bytes, pos + 4, '-');
    if pos + 4 >= |bytes| || bytes[pos + 4] != '-' {
      return None;
    }
    var month := ParseOneOrTwoDigits(bytes, pos + 5);
    if month.None? {
      return None;
    }
    var after_month := month.value.1;
    AfterAt(bytes, after_month, '-');
    if after_month >= |bytes| || bytes[after_month] != '-' {
      return None;
    }
    var day := ParseOneOrTwoDigits(bytes, after_month + 1);
    if day.None? {
      return None;
    }
    var date := FromYmd(year, month.value.0, day.value.0);
    if date.None? {
      return None;
    }
    return Some((date.value, day.value.1));
  }

  method ParseYaml11Time(bytes: string, pos: nat) returns (r: Option<(Hms, nat)>)
    requires pos <= |bytes|
    ensures Reached(bytes, r, ReadTime(bytes[pos..]))
  {
    hide OneOrTwo, ExactTwo;
    var hour := ParseOneOrTwoDigits(bytes, pos);
    if hour.None? {
      return None;
    }
    AfterAt(bytes, hour.value.1, ':');
    if hour.value.0 > 23 || hour.value.1 >= |bytes| || bytes[hour.value.1] != ':' {
      return None;
    }
    var minute := ParseExactTwoDigits(bytes, hour.value.1 + 1);
    if minute.None? {
      return None;
    }
    AfterAt(bytes, minute.value.1, ':');
    if minute.value.0 > 59 || minute.value.1 >= |bytes| || bytes[minute.value.1] != ':' {
      return None;
    }
    var second := ParseExactTwoDigits(bytes, minute.value.1 + 1);
    if second.None? || second.value.0 > 60 {
      return None;
    }
    return Some((Hms(hour.value.0, minute.value.0, second.value.0), second.value.1));
  }

  method ParseYaml11Timezone(bytes: string, start: nat) returns (r: Option<(int16, nat)>)
    requires start < |bytes|
    ensures Reached(bytes, r, ReadZone(bytes[start..]))
  {
    hide OneOrTwo, ExactTwo;
    var pos := start;
    assert bytes[start..][1..] == bytes[start + 1..];
    match bytes[pos] {
      case 'Z' => return Some((0, pos + 1));
      case 'z' => return Some((0, pos + 1));
      case '+' => pos := pos + 1;
      case '-' => pos := pos + 1;
      case _ => return None;
    }
    var negative := bytes[pos - 1] == '-';
    var hour := ParseOneOrTwoDigits(bytes, pos);
    if hour.None? || hour.value.0 > 23 {
      return None;
    }
    var minute, after := 0, hour.value.1;
    AfterAt(bytes, after, ':');
    if after < |bytes| && bytes[after] == ':' {
      var exact := ParseExactTwoDigits(bytes, after + 1);
      if exact.None? || exact.value.0 > 59 {
        return None;
      }
      minute, after := exact.value.0 as int16, exact.value.1;
    }
    var total: int16 := hour.value.0 as int16 * 60 + minute;
    var minutes := if negative then -total else total;
    var offset := FromMinutes(minutes);
    return Some((offset.value, after));
  }

  method SkipSpaces(bytes: string, start: nat) returns (pos: nat)
    requires start <= |bytes|
    ensures start <= pos <= |bytes| && bytes[pos..] == bytes[start..][LeadingSpaces(bytes[start..])..]
  {
    pos := start;
    while pos < |bytes| && Space(bytes[pos])
      invariant start <= pos <= |bytes|
      invariant pos - start + LeadingSpaces(bytes[pos..]) == LeadingSpaces(bytes[start..])
    {
      assert bytes[pos..][1..] == bytes[pos + 1..];
      pos := pos + 1;
    }
  }

  // The fraction digits read so far, at most nine of them.
  function Kept(digits: string): (r: string)
    ensures AllDigits(digits) ==> AllDigits(r)
  {
    if |digits| <= 9 then digits else digits[..9]
  }

  // The digits of the fraction; those after the ninth are skipped.
  method ParseFractionDigits(bytes: string, fraction_start: nat) returns (nanosecond: uint32, pos: nat)
    requires fraction_start <= |bytes|
    ensures pos == fraction_start + LeadingDigits(bytes[fraction_start..]) <= |bytes|
    ensures AllDigits(bytes[fraction_start..pos]) && nanosecond as int == Number(Kept(bytes[fraction_start..pos]))
  {
    hide Number, Kept;
    NothingKept();
    pos, nanosecond := fraction_start, 0;
    while pos < |bytes| && IsDigit(bytes[pos])
      invariant fraction_start <= pos <= |bytes|
      invariant AllDigits(bytes[fraction_start..pos])
      invariant nanosecond as int == Number(Kept(bytes[fraction_start..pos]))
      invariant pos - fraction_start + LeadingDigits(bytes[pos..]) == LeadingDigits(bytes[fraction_start..])
    {
      assert bytes[pos..][1..] == bytes[pos + 1..];
      ghost var before := bytes[fraction_start..pos];
      assert bytes[fraction_start..pos + 1] == before + [bytes[pos]];
      KeptPush(before, bytes[pos]);
      if pos - fraction_start < 9 {
        nanosecond := nanosecond * 10 + DigitValue(bytes[pos]) as uint32;
      }
      pos := pos + 1;
    }
  }

  lemma NothingKept()
    ensures Number(Kept("")) == 0
  {
  }

  lemma KeptPush(before: string, c: char)
    requires AllDigits(before) && IsDigit(c)
    ensures AllDigits(before + [c])
    ensures Number(Kept(before + [c])) == if |before| < 9 then 10 * Number(Kept(before)) + DigitValue(c) else Number(Kept(before))
    ensures |before| < 9 ==> Number(Kept(before)) < 100_000_000
  {
    if |before| < 9 {
      NumberPush(before, c);
      BelowBillion(before);
    } else {
      assert (before + [c])[..9] == before[..9];
    }
  }

  // Fewer than nine digits stand for as many tens less.
  method PadNanoseconds(start: uint32, width: nat) returns (nanosecond: uint32)
    requires width <= 9 && start as int < Pow10(width)
    ensures nanosecond as int == start as int * Pow10(9 - width)
  {
    nanosecond := start;
    for i := 0 to 9 - width
      invariant nanosecond as int == start as int * Pow10(i)
    {
      PaddingFits(start as int, width, i);
      nanosecond := nanosecond * 10;
    }
  }

  method ParseFraction(bytes: string, start: nat) returns (r: Option<(uint32, nat)>)
    requires start <= |bytes|
    ensures match ReadFraction(bytes[start..])
            case None => r.None?
            case Some((value, rest)) => r.Some? && r.value.0 as int == value && r.value.1 <= |bytes| && bytes[r.value.1..] == rest
  {
    hide Number, LeadingDigits, Pow10, AllDigits;
    AfterAt(bytes, start, '.');
    if start >= |bytes| || bytes[start] != '.' {
      return Some((0, start));
    }
    var fraction_start := start + 1;
    var nanosecond, pos := ParseFractionDigits(bytes, fraction_start);
    if pos == fraction_start {
      return None;
    }
    ghost var digits := bytes[fraction_start..pos];
    assert bytes[fraction_start..][..pos - fraction_start] == digits;
    assert bytes[fraction_start..][pos - fraction_start..] == bytes[pos..];
    NumberBound(Kept(digits));
    if pos - fraction_start < 9 {
      nanosecond := PadNanoseconds(nanosecond, pos - fraction_start);
    }
    NanosecondsPadded(digits);
    return Some((nanosecond, pos));
  }

  lemma NanosecondsPadded(digits: string)
    requires AllDigits(digits)
    ensures Nanoseconds(digits) == if |digits| < 9 then Number(Kept(digits)) * Pow10(9 - |digits|) else Number(Kept(digits))
  {
  }

  lemma BelowBillion(digits: string)
    requires AllDigits(digits) && |digits| < 9
    ensures Number(digits) < 100_000_000
  {
    NumberBound(digits);
    PowersOfTen(|digits|, 0);
    PowersGrow(|digits|, 8);
    assert Pow10(9) == 10 * Pow10(8);
  }

  lemma {:induction false} PowersGrow(a: nat, b: nat)
    requires a <= b
    ensures Pow10(a) <= Pow10(b)
  {
    if a < b { PowersGrow(a, b - 1); }
  }

  lemma PaddingFits(n: nat, width: nat, i: nat)
    requires n < Pow10(width) && width + i < 9
    ensures n * Pow10(i) < 100_000_000
    ensures n * Pow10(i) * 10 == n * Pow10(i + 1)
  {
    PowersOfTen(width, n);
    PowersGrow(i + 1, 9 - width);
    var p, q := Pow10(i + 1), Pow10(9 - width);
    assert p == 10 * Pow10(i);
    hide Pow10;
    Times(n, p, q);
    TimesTen(n, Pow10(i));
  }

  lemma Times(n: nat, p: nat, q: nat)
    requires p <= q
    ensures n * p <= n * q
  {
  }

  lemma TimesTen(n: nat, p: nat)
    ensures n * p * 10 == n * (10 * p)
  {
  }

  method ParseYaml11Timestamp(text: string) returns (r: Option<Timestamp>)
    ensures r == Read(text)
  {
    hide ReadDate, ReadTime, ReadZone, ReadFraction;
    assert text[0..] == text;
    var date := ParseYaml11Date(text, 0);
    if date.None? {
      return None;
    }
    var pos := date.value.1;
    if pos == |text| {
      return Some(Timestamp(date.value.0, None));
    }
    if text[pos] == 'T' || text[pos] == 't' {
      assert text[pos..][1..] == text[pos + 1..];
      pos := pos + 1;
    } else if Space(text[pos]) {
      pos := SkipSpaces(text, pos);
    } else {
      return None;
    }
    var time := ParseClock(text, pos);
    if time.None? {
      return None;
    }
    return Some(Timestamp(date.value.0, Some(time.value)));
  }

  // The part of `parse_yaml11_timestamp` after the separator.
  method ParseClock(text: string, start: nat) returns (r: Option<Time>)
    requires start <= |text|
    ensures r == ReadClock(text[start..])
  {
    hide ReadTime, ReadZone, ReadFraction, LeadingSpaces;
    var hms := ParseYaml11Time(text, start);
    if hms.None? {
      return None;
    }
    var fraction := ParseFraction(text, hms.value.1);
    if fraction.None? {
      return None;
    }
    var pos := SkipSpaces(text, fraction.value.1);
    var offset := None;
    if pos != |text| {
      var zone := ParseYaml11Timezone(text, pos);
      if zone.None? || zone.value.1 != |text| {
        return None;
      }
      offset := Some(zone.value.0);
    }
    var time := hms.value.0;
    return FromHms(time.hour, time.minute, time.second, fraction.value.0, offset);
  }

  // ----- Printing --------------------------------------------------------------------------------

  /** The fraction of `Time`'s `Display`: nine digits without the final zeros. */
  method DisplayFraction(nanosecond: uint32) returns (s: string)
    requires nanosecond != 0
    ensures s == FractionText(nanosecond)
  {
    var fraction := Padded(nanosecond as int, 9);
    while fraction != "" && fraction[|fraction| - 1] == '0'
      invariant Trimmed(fraction) == Trimmed(Padded(nanosecond as int, 9))
      decreases |fraction|
    {
      fraction := fraction[..|fraction| - 1];
    }
    return "." + fraction;
  }

  method DisplayTime(time: Time) returns (s: string)
    ensures s == TimeText(time)
  {
    hide Padded, FractionText, OffsetText;
    s := Padded(time.hour as int, 2) + ":" + Padded(time.minute as int, 2) + ":" + Padded(time.second as int, 2);
    if time.nanosecond != 0 {
      var fraction := DisplayFraction(time.nanosecond);
      s := s + fraction;
    } else {
      NoFraction();
      assert s + "" == s;
    }
    if time.offset.Some? {
      s := s + OffsetText(time.offset.value);
    } else {
      assert s + "" == s;
    }
  }

  lemma NoFraction()
    ensures FractionText(0) == ""
  {
  }

  method DisplayTimestamp(t: Timestamp) returns (s: string)
    ensures s == TimestampText(t)
  {
    hide DateText, TimeText;
    s := DateText(t.date);
    if t.time.Some? {
      var time := DisplayTime(t.time.value);
      s := s + ("T" + time);
    }
  }
}
