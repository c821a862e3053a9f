// The parser reads exactly the spellings of timestamps, and printing is undone by
// parsing.
module TimestampTheorems {
  import opened Prelude
  import opened Decimal
  import opened Timestamps
  import opened TimestampParser

  // ----- Every spelling is read ----------------------------------------------------------------

  lemma NumberOfOne(s: string)
    requires Digits(s, 1, 1)
    ensures Number(s) == DigitValue(s[0])
  {
    assert s[..0] == "";
  }

  lemma NumberOfTwo(s: string)
    requires Digits(s, 2, 2)
    ensures Number(s) == 10 * DigitValue(s[0]) + DigitValue(s[1])
  {
    NumberOfOne(s[..1]);
  }

  ghost predicate NoDigitNext(s: string) {
    s == "" || !IsDigit(s[0])
  }

  // A field of one or two digits, with no digit after it.
  lemma ReadsOneOrTwo(field: string, rest: string)
    requires Digits(field, 1, 2) && NoDigitNext(rest)
    ensures OneOrTwo(field + rest) == Some((Number(field), rest))
  {
    var s := field + rest;
    if |field| == 1 {
      NumberOfOne(field);
      assert s[1..] == rest;
    } else {
      NumberOfTwo(field);
      assert s[2..] == rest;
    }
  }

  lemma ReadsExactTwo(field: string, rest: string)
    requires Digits(field, 2, 2)
    ensures ExactTwo(field + rest) == Some((Number(field), rest))
  {
    NumberOfTwo(field);
    assert (field + rest)[2..] == rest;
  }

  lemma ReadsAfter(c: char, rest: string)
    ensures After([c] + rest, c) == Some(rest)
    ensures ([c] + rest)[0] == c && ([c] + rest)[1..] == rest
  {
  }

  lemma Regroup(a: string, b: string, c: string, rest: string, mark: char)
    ensures a + [mark] + b + [mark] + c + rest == a + ([mark] + (b + ([mark] + (c + rest))))
  {
  }

  lemma ReadsDate(s: Spelling, rest: string)
    requires SpellingOk(s) && NoDigitNext(rest)
    ensures ReadDate(s.year + "-" + s.month + "-" + s.day + rest) == Some((SpellingValue(s).date, rest))
  {
    hide Number, AllDigits;
    var at_day := s.day + rest;
    var at_month := s.month + (['-'] + at_day);
    var text := s.year + (['-'] + at_month);
    Regroup(s.year, s.month, s.day, rest, '-');
    assert text[..4] == s.year && text[4..] == ['-'] + at_month;
    ReadsAfter('-', at_month);
    NotADigit();
    ReadsOneOrTwo(s.month, ['-'] + at_day);
    ReadsAfter('-', at_day);
    ReadsOneOrTwo(s.day, rest);
  }

  lemma NotADigit()
    ensures !IsDigit('-') && !IsDigit(':') && !IsDigit('.') && !IsDigit('T') && !IsDigit('t') && !IsDigit(' ') && !IsDigit('\t')
  {
  }

  lemma ReadsTime(c: Clock, rest: string)
    requires ClockOk(c)
    ensures var time := ClockValue(c);
            ReadTime(c.hour + ":" + c.minute + ":" + c.second + rest) == Some((Hms(time.hour, time.minute, time.second), rest))
  {
    hide Number, AllDigits;
    var at_second := c.second + rest;
    var at_minute := c.minute + ([':'] + at_second);
    var text := c.hour + ([':'] + at_minute);
    Regroup(c.hour, c.minute, c.second, rest, ':');
    NotADigit();
    ReadsOneOrTwo(c.hour, [':'] + at_minute);
    ReadsAfter(':', at_minute);
    ReadsExactTwo(c.minute, [':'] + at_second);
    ReadsAfter(':', at_second);
    ReadsExactTwo(c.second, rest);
  }

  lemma ReadsZone(z: Zone)
    requires ZoneOk(z)
    ensures ReadZone(ZoneText(z)) == Some((ZoneMinutes(z), ""))
  {
    match z {
      case Zulu(letter) => assert [letter][1..] == "";
      case Shift(sign, hour, minute) =>
        hide Number, AllDigits;
        NotADigit();
        var tail := if minute.Some? then [':'] + minute.value else "";
        assert ZoneText(z) == [sign] + (hour + tail);
        ReadsAfter(sign, hour + tail);
        ReadsOneOrTwo(hour, tail);
        if minute.Some? {
          ReadsAfter(':', minute.value);
          ReadsExactTwo(minute.value, "");
          assert minute.value + "" == minute.value;
        }
    }
  }

  lemma {:induction false} CountsDigits(digits: string, rest: string)
    requires AllDigits(digits) && NoDigitNext(rest)
    ensures LeadingDigits(digits + rest) == |digits|
  {
    if digits != "" {
      assert (digits + rest)[1..] == digits[1..] + rest;
      CountsDigits(digits[1..], rest);
    } else {
      assert digits + rest == rest;
    }
  }

  lemma {:induction false} CountsSpaces(spaces: string, rest: string)
    requires AllSpaces(spaces) && (rest == "" || !Space(rest[0]))
    ensures LeadingSpaces(spaces + rest) == |spaces|
  {
    if spaces != "" {
      assert (spaces + rest)[1..] == spaces[1..] + rest;
      CountsSpaces(spaces[1..], rest);
    } else {
      assert spaces + rest == rest;
    }
  }

  lemma ReadsFraction(fraction: Option<string>, rest: string)
    requires fraction.Some? ==> fraction.value != "" && AllDigits(fraction.value)
    requires NoDigitNext(rest) && (rest == "" || rest[0] != '.')
    ensures ReadFraction((if fraction.Some? then "." + fraction.value else "") + rest)
         == Some((if fraction.Some? then Nanoseconds(fraction.value) else 0, rest))
  {
    if fraction.Some? {
      var digits := fraction.value;
      assert "." + digits + rest == ['.'] + (digits + rest);
      ReadsAfter('.', digits + rest);
      CountsDigits(digits, rest);
      assert (digits + rest)[..|digits|] == digits && (digits + rest)[|digits|..] == rest;
    } else {
      assert "" + rest == rest;
    }
  }

  function ZonePart(zone: Option<Zone>): string {
    if zone.Some? then ZoneText(zone.value) else ""
  }

  lemma ZoneStarts(z: Zone)
    requires ZoneOk(z)
    ensures ZoneText(z) != "" && !IsDigit(ZoneText(z)[0]) && ZoneText(z)[0] != '.' && !Space(ZoneText(z)[0])
  {
  }

  lemma EndStarts(gap: string, zone: Option<Zone>)
    requires AllSpaces(gap) && (zone.Some? ==> ZoneOk(zone.value))
    ensures var tail := gap + ZonePart(zone); NoDigitNext(tail) && (tail == "" || tail[0] != '.')
    ensures ZonePart(zone) == "" || !Space(ZonePart(zone)[0])
    ensures zone.Some? ==> ZonePart(zone) != ""
  {
    hide ZoneText, ZoneOk;
    if zone.Some? { ZoneStarts(zone.value); }
    var tail := gap + ZonePart(zone);
    if gap != "" { assert tail[0] == gap[0]; } else { assert tail == ZonePart(zone); }
  }

  lemma ReadsEnd(gap: string, zone: Option<Zone>)
    requires AllSpaces(gap) && (zone.Some? ==> ZoneOk(zone.value))
    ensures var tail := gap + ZonePart(zone);
            ReadEnd(tail[LeadingSpaces(tail)..]) == Some(if zone.Some? then Some(ZoneMinutes(zone.value)) else None)
  {
    hide ReadZone, ZoneText, ZoneOk, ZoneMinutes;
    EndStarts(gap, zone);
    CountsSpaces(gap, ZonePart(zone));
    assert (gap + ZonePart(zone))[|gap|..] == ZonePart(zone);
    if zone.Some? { ReadsZone(zone.value); }
  }

  lemma ReadsClock(c: Clock)
    requires ClockOk(c)
    ensures ReadClock(c.hour + ":" + c.minute + ":" + c.second + AfterSecond(c)) == Some(ClockValue(c))
  {
    hide Number, AllDigits, ReadTime, ReadFraction, ReadEnd, Nanoseconds, ZoneText, ZoneOk, ZoneMinutes, Digits, AllSpaces, NoDigitNext;
    var point := if c.fraction.Some? then "." + c.fraction.value else "";
    RegroupEnd(point, c.gap, ZonePart(c.zone));
    ReadsTime(c, AfterSecond(c));
    EndStarts(c.gap, c.zone);
    ReadsFraction(c.fraction, c.gap + ZonePart(c.zone));
    ReadsEnd(c.gap, c.zone);
  }

  /** Every spelling is read as the timestamp it stands for. */
  lemma SpellingIsRead(s: Spelling)
    requires SpellingOk(s)
    ensures Read(SpellingText(s)) == Some(SpellingValue(s))
  {
    hide Number, AllDigits, ReadDate, ReadClock;
    var rest := if s.clock.Some? then ClockText(s.clock.value) else "";
    NotADigit();
    ReadsDate(s, rest);
    if s.clock.Some? {
      var c := s.clock.value;
      var time := c.hour + ":" + c.minute + ":" + c.second + AfterSecond(c);
      ReadsClock(c);
      HourFirst(c);
      if Space(c.separator[0]) {
        CountsSpaces(c.separator, time);
        assert rest[|c.separator|..] == time;
      } else {
        assert rest[1..] == time;
      }
    }
  }

  lemma HourFirst(c: Clock)
    requires ClockOk(c)
    ensures var time := c.hour + ":" + c.minute + ":" + c.second + AfterSecond(c); time != "" && !Space(time[0])
  {
  }

  // ----- Only spellings are read ----------------------------------------------------------------

  lemma FieldOfOneOrTwo(s: string) returns (field: string)
    requires OneOrTwo(s).Some?
    ensures Digits(field, 1, 2) && s == field + OneOrTwo(s).value.1 && Number(field) == OneOrTwo(s).value.0
  {
    if |s| > 1 && IsDigit(s[1]) {
      field := s[..2];
      NumberOfTwo(field);
    } else {
      field := s[..1];
      NumberOfOne(field);
    }
  }

  lemma FieldOfExactTwo(s: string) returns (field: string)
    requires ExactTwo(s).Some?
    ensures Digits(field, 2, 2) && s == field + ExactTwo(s).value.1 && Number(field) == ExactTwo(s).value.0
  {
    field := s[..2];
    NumberOfTwo(field);
  }

  lemma MarkOfAfter(s: string, c: char)
    requires After(s, c).Some?
    ensures s == [c] + After(s, c).value
  {
  }

  lemma SpellingOfDate(s: string) returns (year: string, month: string, day: string)
    requires ReadDate(s).Some?
    ensures Digits(year, 4, 4) && Digits(month, 1, 2) && Digits(day, 1, 2)
    ensures DateOk(Number(year), Number(month), Number(day))
    ensures var (date, rest) := ReadDate(s).value;
            && s == year + "-" + month + "-" + day + rest
            && date == Date(Number(year) as uint16, Number(month) as uint8, Number(day) as uint8)
  {
    hide OneOrTwo, After;
    year := s[..4];
    var at_month := After(s[4..], '-').value;
    MarkOfAfter(s[4..], '-');
    month := FieldOfOneOrTwo(at_month);
    var after_month := OneOrTwo(at_month).value.1;
    MarkOfAfter(after_month, '-');
    var at_day := After(after_month, '-').value;
    day := FieldOfOneOrTwo(at_day);
    Regroup(year, month, day, OneOrTwo(at_day).value.1, '-');
    assert s == year + s[4..];
  }

  lemma SpellingOfTime(s: string) returns (hour: string, minute: string, second: string)
    requires ReadTime(s).Some?
    ensures Digits(hour, 1, 2) && Number(hour) <= 23 && Digits(minute, 2, 2) && Number(minute) <= 59
    ensures Digits(second, 2, 2) && Number(second) <= 60
    ensures var (time, rest) := ReadTime(s).value;
            && s == hour + ":" + minute + ":" + second + rest
            && time == Hms(Number(hour) as uint8, Number(minute) as uint8, Number(second) as uint8)
  {
    hide OneOrTwo, ExactTwo, After;
    hour := FieldOfOneOrTwo(s);
    var after_hour := OneOrTwo(s).value.1;
    MarkOfAfter(after_hour, ':');
    var at_minute := After(after_hour, ':').value;
    minute := FieldOfExactTwo(at_minute);
    var after_minute := ExactTwo(at_minute).value.1;
    MarkOfAfter(after_minute, ':');
    var at_second := After(after_minute, ':').value;
    second := FieldOfExactTwo(at_second);
    Regroup(hour, minute, second, ExactTwo(at_second).value.1, ':');
  }

  lemma SpellingOfZone(s: string) returns (zone: Zone)
    requires ReadZone(s).Some?
    ensures ZoneOk(zone) && s == ZoneText(zone) + ReadZone(s).value.1 && ReadZone(s).value.0 == ZoneMinutes(zone)
  {
    if s[0] == 'Z' || s[0] == 'z' {
      zone := Zulu(s[0]);
    } else {
      hide OneOrTwo, ExactTwo, After, Number;
      var hour := FieldOfOneOrTwo(s[1..]);
      var after_hour := OneOrTwo(s[1..]).value.1;
      assert s == [s[0]] + (hour + after_hour);
      if After(after_hour, ':').Some? {
        MarkOfAfter(after_hour, ':');
        var minute := FieldOfExactTwo(After(after_hour, ':').value);
        zone := Shift(s[0], hour, Some(minute));
        assert s == [s[0]] + hour + (":" + minute) + ReadZone(s).value.1;
      } else {
        zone := Shift(s[0], hour, None);
        assert s == [s[0]] + hour + "" + after_hour;
      }
    }
  }

  lemma SpellingOfFraction(s: string) returns (fraction: Option<string>)
    requires ReadFraction(s).Some?
    ensures fraction.Some? ==> fraction.value != "" && AllDigits(fraction.value)
    ensures s == (if fraction.Some? then "." + fraction.value else "") + ReadFraction(s).value.1
    ensures ReadFraction(s).value.0 == if fraction.Some? then Nanoseconds(fraction.value) else 0
  {
    match After(s, '.') {
      case None => fraction := None;
      case Some(digits) =>
        fraction := Some(digits[..LeadingDigits(digits)]);
        assert s == "." + (fraction.value + digits[|fraction.value|..]);
    }
  }

  lemma SpellingOfEnd(s: string) returns (gap: string, zone: Option<Zone>)
    requires ReadEnd(s[LeadingSpaces(s)..]).Some?
    ensures AllSpaces(gap) && (zone.Some? ==> ZoneOk(zone.value)) && s == gap + ZonePart(zone)
    ensures ReadEnd(s[LeadingSpaces(s)..]).value == if zone.Some? then Some(ZoneMinutes(zone.value)) else None
  {
    hide ReadZone, ZoneOk, ZoneText, ZoneMinutes;
    var n := LeadingSpaces(s);
    var end := s[n..];
    gap, zone := s[..n], None;
    assert s == gap + end;
    if end != "" {
      var z := SpellingOfZone(end);
      assert ZoneText(z) + "" == ZoneText(z);
      zone := Some(z);
    }
  }

  lemma SpellingOfClock(s: string, separator: string) returns (c: Clock)
    requires ReadClock(s).Some?
    requires separator == "T" || separator == "t" || (separator != "" && AllSpaces(separator))
    ensures ClockOk(c) && ClockText(c) == separator + s && ClockValue(c) == ReadClock(s).value
  {
    hide Number, ReadTime, ReadFraction, ReadEnd, Nanoseconds, ZoneOk, ZoneText, ZoneMinutes, Digits, AllSpaces;
    var hour, minute, second := SpellingOfTime(s);
    var after_second := ReadTime(s).value.1;
    var fraction := SpellingOfFraction(after_second);
    var gap, zone := SpellingOfEnd(ReadFraction(after_second).value.1);
    c := Clock(separator, hour, minute, second, fraction, gap, zone);
    var point := if fraction.Some? then "." + fraction.value else "";
    assert AfterSecond(c) == point + gap + ZonePart(zone);
    RegroupEnd(point, gap, ZonePart(zone));
  }

  lemma RegroupEnd(a: string, b: string, c: string)
    ensures a + b + c == a + (b + c)
  {
  }

  lemma SpellingOf(text: string) returns (s: Spelling)
    requires Read(text).Some?
    ensures SpellingOk(s) && SpellingText(s) == text && SpellingValue(s) == Read(text).value
  {
    hide Number, ReadDate, ReadClock;
    var year, month, day := SpellingOfDate(text);
    var rest := ReadDate(text).value.1;
    if rest == "" {
      s := Spelling(year, month, day, None);
    } else if Space(rest[0]) {
      var n := LeadingSpaces(rest);
      var clock := SpellingOfClock(rest[n..], rest[..n]);
      assert rest[..n] + rest[n..] == rest;
      s := Spelling(year, month, day, Some(clock));
    } else {
      var clock := SpellingOfClock(rest[1..], rest[..1]);
      assert rest[..1] + rest[1..] == rest;
      s := Spelling(year, month, day, Some(clock));
    }
  }

  /** A text is read as `t` exactly when it is a spelling of `t`. */
  lemma ReadsExactlySpellings(text: string, t: Timestamp)
    ensures Read(text) == Some(t) <==> exists s: Spelling :: SpellingOk(s) && SpellingText(s) == text && SpellingValue(s) == t
  {
    hide SpellingOk, SpellingText, SpellingValue, Read;
    if Read(text) == Some(t) {
      var s := SpellingOf(text);
    }
    forall s: Spelling | SpellingOk(s) && SpellingText(s) == text && SpellingValue(s) == t ensures Read(text) == Some(t) {
      SpellingIsRead(s);
    }
  }

  // ----- Printing is undone by parsing --------------------------------------------------------------

  lemma {:induction false} TrimmedFraction(s: string)
    requires AllDigits(s) && |s| <= 9 && Number(s) != 0
    ensures AllDigits(Trimmed(s)) && Trimmed(s) != "" && |Trimmed(s)| <= 9
    ensures Nanoseconds(Trimmed(s)) == Nanoseconds(s)
  {
    if s[|s| - 1] == '0' {
      TrimmedFraction(s[..|s| - 1]);
      assert Pow10(9 - (|s| - 1)) == 10 * Pow10(9 - |s|);
      DroppedZero(Number(s[..|s| - 1]), Pow10(9 - |s|));
    }
  }

  lemma DroppedZero(n: nat, p: nat)
    ensures n * (10 * p) == 10 * n * p
  {
  }

  function CanonicalZone(minutes: int16): Zone {
    if minutes == 0 then Zulu('Z')
    else
      var absolute := if minutes < 0 then -(minutes as int) else minutes as int;
      Shift(if minutes < 0 then '-' else '+', Padded(absolute / 60, 2), Some(Padded(absolute % 60, 2)))
  }

  function CanonicalClock(t: Time): Clock {
    Clock("T", Padded(t.hour as int, 2), Padded(t.minute as int, 2), Padded(t.second as int, 2),
          if t.nanosecond != 0 then Some(Trimmed(Padded(t.nanosecond as int, 9))) else None, "",
          if t.offset.Some? then Some(CanonicalZone(t.offset.value)) else None)
  }

  /** The spelling `Display` chooses. */
  function Canonical(t: Timestamp): Spelling {
    Spelling(Padded(t.date.year as int, 4), Padded(t.date.month as int, 2), Padded(t.date.day as int, 2),
             if t.time.Some? then Some(CanonicalClock(t.time.value)) else None)
  }

  lemma TwoDigits(n: nat)
    requires n < 100
    ensures Digits(Padded(n, 2), 2, 2) && Number(Padded(n, 2)) == n
  {
    assert Pow10(1) == 10 && Pow10(2) == 10 * Pow10(1);
    PaddedSpells(n, 2);
  }

  lemma ZoneIsCanonical(minutes: int16)
    requires FromMinutes(minutes).Some?
    ensures ZoneOk(CanonicalZone(minutes)) && ZoneMinutes(CanonicalZone(minutes)) == minutes
    ensures ZoneText(CanonicalZone(minutes)) == OffsetText(minutes)
  {
    hide Number;
    var absolute := if minutes < 0 then -(minutes as int) else minutes as int;
    TwoDigits(absolute / 60);
    TwoDigits(absolute % 60);
    assert absolute == absolute / 60 * 60 + absolute % 60;
    if minutes != 0 {
      var z := CanonicalZone(minutes);
      assert [z.sign] + z.hour + (":" + z.minute.value) == [z.sign] + z.hour + ":" + z.minute.value;
    }
  }

  lemma FractionIsCanonical(nanosecond: uint32)
    requires 0 < nanosecond < 1_000_000_000
    ensures var f := Trimmed(Padded(nanosecond as int, 9));
            AllDigits(f) && f != "" && Nanoseconds(f) == nanosecond as int
  {
    var digits := Padded(nanosecond as int, 9);
    PowersOfTen(9, 0);
    PaddedSpells(nanosecond as int, 9);
    TrimmedFraction(digits);
  }

  lemma ShortTwoDigits(n: nat)
    requires n < 100
    ensures Digits(Padded(n, 2), 1, 2) && Digits(Padded(n, 2), 2, 2) && Number(Padded(n, 2)) == n
  {
    hide Number, Padded;
    TwoDigits(n);
  }

  lemma ClockIsOk(t: Time)
    requires FromHms(t.hour, t.minute, t.second, t.nanosecond, t.offset).Some?
    requires t.offset.Some? ==> FromMinutes(t.offset.value).Some?
    ensures ClockOk(CanonicalClock(t))
  {
    hide Number, Nanoseconds, Trimmed, Padded, Digits, ZoneOk, AllDigits, CanonicalZone;
    ShortTwoDigits(t.hour as int);
    ShortTwoDigits(t.minute as int);
    ShortTwoDigits(t.second as int);
    if t.nanosecond != 0 { FractionIsCanonical(t.nanosecond); }
    if t.offset.Some? { ZoneIsCanonical(t.offset.value); }
  }

  lemma ClockHasValue(t: Time)
    requires FromHms(t.hour, t.minute, t.second, t.nanosecond, t.offset).Some?
    requires t.offset.Some? ==> FromMinutes(t.offset.value).Some?
    requires ClockOk(CanonicalClock(t))
    ensures ClockValue(CanonicalClock(t)) == t
  {
    hide Number, Nanoseconds, Trimmed, Padded, Digits, ZoneOk, AllDigits, CanonicalZone, ZoneMinutes, ClockOk;
    ShortTwoDigits(t.hour as int);
    ShortTwoDigits(t.minute as int);
    ShortTwoDigits(t.second as int);
    if t.nanosecond != 0 { FractionIsCanonical(t.nanosecond); }
    if t.offset.Some? { ZoneIsCanonical(t.offset.value); }
  }

  lemma TimeRegrouped(time: string, point: string, zone: string)
    ensures time + (point + "" + zone) == time + point + zone
  {
  }

  lemma ClockHasText(t: Time)
    requires FromHms(t.hour, t.minute, t.second, t.nanosecond, t.offset).Some?
    requires t.offset.Some? ==> FromMinutes(t.offset.value).Some?
    ensures ClockText(CanonicalClock(t)) == "T" + TimeText(t)
  {
    hide Number, Trimmed, Padded, CanonicalZone, OffsetText, ZoneText;
    if t.offset.Some? { ZoneIsCanonical(t.offset.value); }
    var c := CanonicalClock(t);
    var point := if c.fraction.Some? then "." + c.fraction.value else "";
    var zone := if c.zone.Some? then ZoneText(c.zone.value) else "";
    TimeRegrouped(c.hour + ":" + c.minute + ":" + c.second, point, zone);
  }

  lemma ClockIsCanonical(t: Time)
    requires FromHms(t.hour, t.minute, t.second, t.nanosecond, t.offset).Some?
    requires t.offset.Some? ==> FromMinutes(t.offset.value).Some?
    ensures ClockOk(CanonicalClock(t)) && ClockValue(CanonicalClock(t)) == t && ClockText(CanonicalClock(t)) == "T" + TimeText(t)
  {
    hide ClockOk, ClockValue, ClockText, CanonicalClock, TimeText;
    ClockIsOk(t);
    ClockHasValue(t);
    ClockHasText(t);
  }

  lemma FourDigits(n: nat)
    ensures Number(Padded(n, 4)) == n && AllDigits(Padded(n, 4))
    ensures n <= 9999 ==> |Padded(n, 4)| == 4
    ensures n > 9999 ==> |Padded(n, 4)| > 4
  {
    assert Pow10(1) == 10 && Pow10(2) == 10 * Pow10(1) && Pow10(3) == 10 * Pow10(2) && Pow10(4) == 10 * Pow10(3);
    PaddedSpells(n, 4);
  }

  /** A printed timestamp is parsed back, exactly up to the year 9999. */
  lemma PrintedIsParsedBack(t: Timestamp)
    requires Valid(t)
    ensures Read(TimestampText(t)) == Some(t) <==> t.date.year <= 9999
    ensures t.date.year > 9999 ==> Read(TimestampText(t)) == None
  {
    hide Number, AllDigits, Read, CanonicalClock, TimeText;
    FourDigits(t.date.year as int);
    if t.date.year <= 9999 {
      TwoDigits(t.date.month as int);
      TwoDigits(t.date.day as int);
      if t.time.Some? { ClockIsCanonical(t.time.value); }
      SpellingIsRead(Canonical(t));
      assert SpellingText(Canonical(t)) == TimestampText(t);
    } else {
      FifthDigit(t);
    }
  }

  lemma FifthDigit(t: Timestamp)
    requires |Padded(t.date.year as int, 4)| > 4
    ensures Read(TimestampText(t)) == None
  {
    var year := Padded(t.date.year as int, 4);
    var text := TimestampText(t);
    assert text[4] == year[4] && IsDigit(year[4]);
    assert text[4..][0] == text[4];
  }

  /** What the parser accepts can be built by the constructors. */
  lemma ReadIsValid(text: string)
    requires Read(text).Some?
    ensures Valid(Read(text).value) && Read(text).value.date.year <= 9999
  {
    hide Number, SpellingText;
    var s := SpellingOf(text);
    NumberBound(s.year);
    FourDigits(0);
    assert Pow10(1) == 10 && Pow10(2) == 10 * Pow10(1) && Pow10(3) == 10 * Pow10(2) && Pow10(4) == 10 * Pow10(3);
  }

  /** Parsing, printing and parsing again gives the same timestamp. */
  lemma ParsePrintParse(text: string)
    requires Read(text).Some?
    ensures Read(TimestampText(Read(text).value)) == Read(text)
  {
    hide Read, Valid;
    ReadIsValid(text);
    PrintedIsParsedBack(Read(text).value);
  }
}
