// The form timestamps are printed in, what their digits are worth, and the calendar
// their dates are checked against.
module TimestampForm {
  import opened Decimal
  import opened Timestamps
  import opened TimestampTheorems

  // ----- The printed form ----------------------------------------------------------------------

  /** Two-digit fields, a `T`, no spaces, a fraction without a zero at its end unless it
      is zero, and `Z` for no offset. */
  predicate InForm(s: Spelling, t: Timestamp) {
    && |s.month| == 2 && |s.day| == 2 && s.clock.Some? == t.time.Some?
    && (s.clock.Some? ==> ClockInForm(s.clock.value, t.time.value))
  }

  predicate ClockInForm(c: Clock, t: Time) {
    && c.separator == "T" && c.gap == "" && |c.hour| == 2
    && c.fraction.Some? == (t.nanosecond != 0)
    && (c.fraction.Some? ==> c.fraction.value != "" && |c.fraction.value| <= 9 && c.fraction.value[|c.fraction.value| - 1] != '0')
    && c.zone.Some? == t.offset.Some?
    && (c.zone.Some? ==> ZoneInForm(c.zone.value, t.offset.value))
  }

  predicate ZoneInForm(z: Zone, minutes: int16) {
    match z
    case Zulu(letter) => letter == 'Z' && minutes == 0
    case Shift(sign, hour, minute) => minutes != 0 && sign == (if minutes < 0 then '-' else '+') && |hour| == 2 && minute.Some?
  }

  lemma {:induction false} TrimmedEnds(s: string)
    ensures |Trimmed(s)| <= |s| && (Trimmed(s) != "" ==> Trimmed(s)[|Trimmed(s)| - 1] != '0')
  {
    if s != "" && s[|s| - 1] == '0' { TrimmedEnds(s[..|s| - 1]); }
  }

  lemma FractionInForm(nanosecond: uint32)
    requires 0 < nanosecond < 1_000_000_000
    ensures var f := Trimmed(Padded(nanosecond as int, 9)); f != "" && |f| <= 9 && f[|f| - 1] != '0'
  {
    hide Number, Nanoseconds;
    FractionIsCanonical(nanosecond);
    PowersOfTen(9, 0);
    PaddedSpells(nanosecond as int, 9);
    TrimmedEnds(Padded(nanosecond as int, 9));
  }

  lemma ZoneIsInForm(minutes: int16)
    requires FromMinutes(minutes).Some?
    ensures ZoneInForm(CanonicalZone(minutes), minutes)
  {
    hide Number, Padded;
    var absolute := if minutes < 0 then -(minutes as int) else minutes as int;
    TwoDigits(absolute / 60);
  }

  lemma ClockIsInForm(t: Time)
    requires FromHms(t.hour, t.minute, t.second, t.nanosecond, t.offset).Some?
    requires t.offset.Some? ==> FromMinutes(t.offset.value).Some?
    ensures ClockInForm(CanonicalClock(t), t)
  {
    hide Number, Padded, Trimmed, CanonicalZone, ZoneInForm;
    TwoDigits(t.hour as int);
    if t.nanosecond != 0 { FractionInForm(t.nanosecond); }
    if t.offset.Some? { ZoneIsInForm(t.offset.value); }
  }

  /** Up to the year 9999 a timestamp prints as a spelling of it in that form. */
  lemma PrintedInForm(t: Timestamp)
    requires Valid(t) && t.date.year <= 9999
    ensures exists s: Spelling :: SpellingOk(s) && SpellingValue(s) == t && SpellingText(s) == TimestampText(t) && InForm(s, t)
  {
    hide Number, AllDigits, CanonicalClock, TimeText, ClockInForm, ClockOk, ClockValue, ClockText;
    FourDigits(t.date.year as int);
    TwoDigits(t.date.month as int);
    TwoDigits(t.date.day as int);
    if t.time.Some? {
      ClockIsCanonical(t.time.value);
      ClockIsInForm(t.time.value);
    }
    var s := Canonical(t);
    assert SpellingOk(s) && SpellingValue(s) == t && SpellingText(s) == TimestampText(t) && InForm(s, t);
  }

  /** Later years only have more digits: the rest is printed as in any other year. */
  lemma LaterYears(t: Timestamp)
    ensures var year := Padded(t.date.year as int, 4);
            && |year| >= 4 && (t.date.year > 9999 ==> |year| == 5)
            && TimestampText(t) == year + TimestampText(t.(date := t.date.(year := 0)))[4..]
  {
    hide TimeText, Padded;
    var d := t.date;
    var year, zero := Padded(d.year as int, 4), Padded(0, 4);
    YearDigits(d.year as int);
    YearDigits(0);
    var rest := "-" + Padded(d.month as int, 2) + "-" + Padded(d.day as int, 2) + if t.time.Some? then "T" + TimeText(t.time.value) else "";
    Regrouped(year, Padded(d.month as int, 2), Padded(d.day as int, 2), if t.time.Some? then "T" + TimeText(t.time.value) else "");
    Regrouped(zero, Padded(d.month as int, 2), Padded(d.day as int, 2), if t.time.Some? then "T" + TimeText(t.time.value) else "");
    assert (zero + rest)[4..] == rest;
  }

  lemma Regrouped(year: string, month: string, day: string, rest: string)
    ensures year + "-" + month + "-" + day + rest == year + ("-" + month + "-" + day + rest)
  {
  }

  lemma YearDigits(year: nat)
    requires year < 0x1_0000
    ensures |Padded(year, 4)| == if year > 9999 then 5 else 4
  {
    hide Decimal.Decimal, Number;
    PowersOfTen(0, 0);
    assert Pow10(5) == 10 * Pow10(4) && Pow10(4) == 10 * Pow10(3) && Pow10(3) == 10 * Pow10(2) && Pow10(2) == 10 * Pow10(1);
    DecimalWidth(year, 4);
    DecimalWidth(year, 5);
  }

  // ----- What fractions are worth --------------------------------------------------------------------

  lemma {:induction false} PowersAdd(m: nat, n: nat)
    ensures Pow10(m + n) == Pow10(m) * Pow10(n)
  {
    if m > 0 {
      PowersAdd(m - 1, n);
      assert Pow10(m + n) == 10 * (Pow10(m - 1) * Pow10(n));
    }
  }

  lemma {:induction false} NumberConcat(x: string, y: string)
    requires AllDigits(x) && AllDigits(y)
    ensures AllDigits(x + y) && Number(x + y) == Number(x) * Pow10(|y|) + Number(y)
    decreases |y|
  {
    if y == "" {
      assert x + y == x;
    } else {
      var init, last := y[..|y| - 1], y[|y| - 1];
      NumberConcat(x, init);
      assert (x + y)[..|x + y| - 1] == x + init;
      Times10(Number(x), Pow10(|init|), Number(init));
    }
  }

  lemma Times10(x: nat, power: nat, y: nat)
    ensures 10 * (x * power + y) == x * (10 * power) + 10 * y
  {
  }

  /** A fraction counts its nanoseconds, and what is less than one is cut off. */
  lemma NanosecondsAreWhole(fraction: string)
    requires AllDigits(fraction)
    ensures Nanoseconds(fraction) * Pow10(|fraction|) <= Number(fraction) * 1_000_000_000 < (Nanoseconds(fraction) + 1) * Pow10(|fraction|)
  {
    hide Number;
    PowersOfTen(9, 0);
    var n := |fraction|;
    if n <= 9 {
      PowersAdd(9 - n, n);
      Associate(Number(fraction), Pow10(9 - n), Pow10(n));
    } else {
      var first, rest := fraction[..9], fraction[9..];
      assert fraction == first + rest;
      NumberConcat(first, rest);
      NumberBound(rest);
      PowersAdd(9, n - 9);
      CutOff(Number(first), Pow10(n - 9), Number(rest));
    }
  }

  lemma Associate(x: nat, a: nat, b: nat)
    ensures x * a * b == x * (a * b)
  {
  }

  lemma CutOff(first: nat, power: nat, rest: nat)
    requires rest < power
    ensures first * (1_000_000_000 * power) <= (first * power + rest) * 1_000_000_000 < (first + 1) * (1_000_000_000 * power)
  {
    assert first * (1_000_000_000 * power) == first * power * 1_000_000_000;
    assert (first + 1) * (1_000_000_000 * power) == first * power * 1_000_000_000 + power * 1_000_000_000;
  }

  // ----- The calendar -----------------------------------------------------------------------------------

  function DaysInYear(year: uint16): nat {
    if LeapYear(year) then 366 else 365
  }

  /** The days of all years before. */
  function DaysBefore(year: nat): nat
    requires year <= 0xffff
  {
    if year == 0 then 0 else DaysBefore(year - 1) + DaysInYear((year - 1) as uint16)
  }

  /** Year zero is a leap year; after it every fourth year adds a day, but for the
      hundredth ones, but for the four-hundredth ones. */
  lemma {:induction false} YearsAreGregorian(year: nat)
    requires 0 < year <= 0xffff
    ensures DaysBefore(year) == 365 * year + 1 + (year - 1) / 4 - (year - 1) / 100 + (year - 1) / 400
  {
    if year > 1 {
      YearsAreGregorian(year - 1);
      LeapStep((year - 1) as uint16);
    } else {
      assert DaysBefore(0) == 0 && LeapYear(0);
    }
  }

  lemma LeapStep(year: uint16)
    requires year > 0
    ensures var y := year as int;
            (if LeapYear(year) then 1 else 0) == y / 4 - (y - 1) / 4 - (y / 100 - (y - 1) / 100) + (y / 400 - (y - 1) / 400)
  {
    var y := year as int;
    FourthYears(y);
    HundredthYears(y);
    FourHundredthYears(y);
  }

  lemma FourthYears(y: nat)
    requires y > 0
    ensures y / 4 - (y - 1) / 4 == if y % 4 == 0 then 1 else 0
  {
  }

  lemma HundredthYears(y: nat)
    requires y > 0
    ensures y / 100 - (y - 1) / 100 == if y % 100 == 0 then 1 else 0
  {
  }

  lemma FourHundredthYears(y: nat)
    requires y > 0
    ensures y / 400 - (y - 1) / 400 == if y % 400 == 0 then 1 else 0
  {
  }

  /** The months from March on: 153 days in every five of them, evenly spread. */
  function FromMarch(months: nat): nat {
    (153 * months + 2) / 5
  }

  function MonthFromMarch(months: nat): uint8
    requires months < 12
  {
    if months < 10 then (months + 3) as uint8 else (months - 9) as uint8
  }

  /** Every month but February has the length the calendar spreads its days by, and
      February what the year leaves. */
  lemma MonthsAreGregorian(year: uint16, months: nat)
    requires months < 12
    ensures months < 11 ==> DaysInMonth(year, MonthFromMarch(months)) as int == FromMarch(months + 1) - FromMarch(months)
    ensures months == 11 ==> DaysInMonth(year, MonthFromMarch(months)) as int == DaysInYear(year) - FromMarch(11)
  {
  }
}
