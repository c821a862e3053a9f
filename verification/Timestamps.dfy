// YAML 1.1 timestamps (src/ast.rs): values, their printed form, and what the
// parser reads, written over the rest of the text.
module Timestamps {
  import opened Prelude
  import opened Decimal

  newtype uint8 = x: int | 0 <= x < 0x100
  newtype uint16 = x: int | 0 <= x < 0x1_0000
  newtype uint32 = x: int | 0 <= x < 0x1_0000_0000
  newtype int16 = x: int | -0x8000 <= x < 0x8000

  datatype Date = Date(year: uint16, month: uint8, day: uint8)
  datatype Time = Time(hour: uint8, minute: uint8, second: uint8, nanosecond: uint32, offset: Option<int16>)
  datatype Timestamp = Timestamp(date: Date, time: Option<Time>)

  // ----- Values ------------------------------------------------------------------------------

  predicate LeapYear(year: uint16) {
    (year % 4 == 0 && year % 100 != 0) || year % 400 == 0
  }

  function DaysInMonth(year: uint16, month: uint8): uint8 {
    if month in {1, 3, 5, 7, 8, 10, 12} then 31
    else if month in {4, 6, 9, 11} then 30
    else if month == 2 then if LeapYear(year) then 29 else 28
    else 0
  }

  /** `Date::from_ymd`. */
  function FromYmd(year: uint16, month: uint8, day: uint8): Option<Date> {
    if month != 0 && month <= 12 && day != 0 && day <= DaysInMonth(year, month) then Some(Date(year, month, day)) else None
  }

  /** `Time::from_hms_nano_offset`. */
  function FromHms(hour: uint8, minute: uint8, second: uint8, nanosecond: uint32, offset: Option<int16>): Option<Time> {
    if hour <= 23 && minute <= 59 && second <= 60 && nanosecond < 1_000_000_000
    then Some(Time(hour, minute, second, nanosecond, offset)) else None
  }

  const MAX_OFFSET: int16 := 23 * 60 + 59

  /** `TimeZoneOffset::from_minutes`. */
  function FromMinutes(minutes: int16): Option<int16> {
    if -MAX_OFFSET <= minutes <= MAX_OFFSET then Some(minutes) else None
  }

  /** What the constructors can build. */
  predicate Valid(t: Timestamp) {
    && FromYmd(t.date.year, t.date.month, t.date.day).Some?
    && match t.time
       case None => true
       case Some(time) =>
         && FromHms(time.hour, time.minute, time.second, time.nanosecond, time.offset).Some?
         && (time.offset.Some? ==> FromMinutes(time.offset.value).Some?)
  }

  // ----- Printing ------------------------------------------------------------------------------

  function DateText(d: Date): string {
    Padded(d.year as int, 4) + "-" + Padded(d.month as int, 2) + "-" + Padded(d.day as int, 2)
  }

  function Trimmed(s: string): string {
    if s != "" && s[|s| - 1] == '0' then Trimmed(s[..|s| - 1]) else s
  }

  function FractionText(nanosecond: uint32): string {
    if nanosecond != 0 then "." + Trimmed(Padded(nanosecond as int, 9)) else ""
  }

  function OffsetText(minutes: int16): string {
    if minutes == 0 then "Z"
    else
      var absolute := if minutes < 0 then -(minutes as int) else minutes as int;
      (if minutes < 0 then "-" else "+") + Padded(absolute / 60, 2) + ":" + Padded(absolute % 60, 2)
  }

  function TimeText(t: Time): string {
    Padded(t.hour as int, 2) + ":" + Padded(t.minute as int, 2) + ":" + Padded(t.second as int, 2)
    + FractionText(t.nanosecond)
    + (if t.offset.Some? then OffsetText(t.offset.value) else "")
  }

  function TimestampText(t: Timestamp): string {
    DateText(t.date) + if t.time.Some? then "T" + TimeText(t.time.value) else ""
  }

  // ----- Spellings -----------------------------------------------------------------------------

  datatype Zone = Zulu(letter: char) | Shift(sign: char, hour: string, minute: Option<string>)

  datatype Clock = Clock(separator: string, hour: string, minute: string, second: string,
                         fraction: Option<string>, gap: string, zone: Option<Zone>)

  /** The parts of a timestamp text. */
  datatype Spelling = Spelling(year: string, month: string, day: string, clock: Option<Clock>)

  predicate Space(c: char) {
    c == ' ' || c == '\t'
  }

  predicate AllSpaces(s: string) {
    forall i :: 0 <= i < |s| ==> Space(s[i])
  }

  predicate Digits(s: string, low: nat, high: nat) {
    AllDigits(s) && low <= |s| <= high
  }

  function ZoneText(z: Zone): string {
    match z
    case Zulu(letter) => [letter]
    case Shift(sign, hour, minute) => [sign] + hour + if minute.Some? then ":" + minute.value else ""
  }

  function AfterSecond(c: Clock): string {
    (if c.fraction.Some? then "." + c.fraction.value else "") + c.gap + if c.zone.Some? then ZoneText(c.zone.value) else ""
  }

  function ClockText(c: Clock): string {
    c.separator + (c.hour + ":" + c.minute + ":" + c.second + AfterSecond(c))
  }

  function SpellingText(s: Spelling): string {
    s.year + "-" + s.month + "-" + s.day + if s.clock.Some? then ClockText(s.clock.value) else ""
  }

  predicate ZoneOk(z: Zone) {
    match z
    case Zulu(letter) => letter == 'Z' || letter == 'z'
    case Shift(sign, hour, minute) =>
      && (sign == '+' || sign == '-') && Digits(hour, 1, 2) && Number(hour) <= 23
      && (minute.Some? ==> Digits(minute.value, 2, 2) && Number(minute.value) <= 59)
  }

  predicate ClockOk(c: Clock) {
    && (c.separator == "T" || c.separator == "t" || (c.separator != "" && AllSpaces(c.separator)))
    && Digits(c.hour, 1, 2) && Number(c.hour) <= 23
    && Digits(c.minute, 2, 2) && Number(c.minute) <= 59
    && Digits(c.second, 2, 2) && Number(c.second) <= 60
    && (c.fraction.Some? ==> c.fraction.value != "" && AllDigits(c.fraction.value))
    && AllSpaces(c.gap)
    && (c.zone.Some? ==> ZoneOk(c.zone.value))
  }

  /** The spellings of the YAML 1.1 timestamp type, with the values in range. */
  predicate SpellingOk(s: Spelling) {
    && Digits(s.year, 4, 4) && Digits(s.month, 1, 2) && Digits(s.day, 1, 2)
    && DateOk(Number(s.year), Number(s.month), Number(s.day))
    && (s.clock.Some? ==> ClockOk(s.clock.value))
  }

  predicate DateOk(year: nat, month: nat, day: nat) {
    && year < 0x1_0000 && month < 0x100 && day < 0x100
    && FromYmd(year as uint16, month as uint8, day as uint8).Some?
  }

  // Digits after the point, as nanoseconds: the first nine count.
  function Nanoseconds(fraction: string): (r: nat)
    requires AllDigits(fraction)
    ensures r < 1_000_000_000
  {
    NumberBound(if |fraction| <= 9 then fraction else fraction[..9]);
    PowersOfTen(|fraction|, if |fraction| <= 9 then Number(fraction) else 0);
    if |fraction| <= 9 then Number(fraction) * Pow10(9 - |fraction|) else Number(fraction[..9])
  }

  lemma PowersOfTen(n: nat, x: nat)
    ensures Pow10(9) == 1_000_000_000
    ensures n <= 9 ==> Pow10(n) * Pow10(9 - n) == Pow10(9)
    ensures n <= 9 && x < Pow10(n) ==> x * Pow10(9 - n) < Pow10(9)
  {
    assert Pow10(1) == 10;
    assert Pow10(2) == 100;
    assert Pow10(3) == 1000;
    assert Pow10(4) == 10000;
    assert Pow10(5) == 100000;
    assert Pow10(6) == 1000000;
    assert Pow10(7) == 10000000;
    assert Pow10(8) == 100000000;
    assert Pow10(9) == 1000000000;
  }

  function ZoneMinutes(z: Zone): int16
    requires ZoneOk(z)
  {
    match z
    case Zulu(_) => 0
    case Shift(sign, hour, minute) =>
      var total := Number(hour) * 60 + if minute.Some? then Number(minute.value) else 0;
      if sign == '-' then (-total) as int16 else total as int16
  }

  function ClockValue(c: Clock): Time
    requires ClockOk(c)
  {
    Time(Number(c.hour) as uint8, Number(c.minute) as uint8, Number(c.second) as uint8,
         (if c.fraction.Some? then Nanoseconds(c.fraction.value) else 0) as uint32,
         if c.zone.Some? then Some(ZoneMinutes(c.zone.value)) else None)
  }

  /** The timestamp a spelling stands for. */
  function SpellingValue(s: Spelling): Timestamp
    requires SpellingOk(s)
  {
    Timestamp(Date(Number(s.year) as uint16, Number(s.month) as uint8, Number(s.day) as uint8),
              if s.clock.Some? then Some(ClockValue(s.clock.value)) else None)
  }
}
