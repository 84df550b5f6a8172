/** Instants and their RFC 3339 text (section 5.6): what `time.Format` prints for the metadata file and `time.Parse`
    reads. */
module Timestamps {
  import opened Outcomes
  import opened Numbers

  const SECOND: int := 1_000_000_000
  const DAY: int := 86_400

  datatype Instant = Instant(ns: int, offset: int)

  /** Nanoseconds since the Unix epoch, and the zone's offset in minutes. Reading admits zones up to 24 hours and 60
      minutes. */
  type Stamp = t: Instant | -1500 <= t.offset <= 1500 witness Instant(0, 0)

  function Truncated(t: Stamp): Stamp {
    Instant(t.ns / SECOND * SECOND, t.offset)
  }

  // ---------------------------------------------------------------- the calendar

  predicate Leap(y: int) {
    y % 4 == 0 && (y % 100 != 0 || y % 400 == 0)
  }

  /** Days from the start of year 0 to the start of year `y`. */
  function DaysBeforeYear(y: int): int {
    365 * y + (y - 1) / 4 - (y - 1) / 100 + (y - 1) / 400 + 1
  }

  /** Days from the start of year 0 to the Unix epoch. */
  const EPOCH_DAY: int := 719_528

  lemma YearLength(y: int)
    ensures DaysBeforeYear(y + 1) == DaysBeforeYear(y) + if Leap(y) then 366 else 365
    ensures DaysBeforeYear(1970) == EPOCH_DAY
  {
    assert y / 4 - (y - 1) / 4 == if y % 4 == 0 then 1 else 0;
    assert y / 100 - (y - 1) / 100 == if y % 100 == 0 then 1 else 0;
    assert y / 400 - (y - 1) / 400 == if y % 400 == 0 then 1 else 0;
  }

  /** The year of a day, found by walking from year `y`. */
  function YearFrom(day: int, y: int): (r: int)
    ensures DaysBeforeYear(r) <= day < DaysBeforeYear(r + 1)
    decreases if day < DaysBeforeYear(y) then DaysBeforeYear(y) - day else if day < DaysBeforeYear(y + 1) then 0
        else day - DaysBeforeYear(y)
  {
    YearLength(y);
    YearLength(y - 1);
    YearLength(y + 1);
    if day < DaysBeforeYear(y) then YearFrom(day, y - 1)
    else if day >= DaysBeforeYear(y + 1) then YearFrom(day, y + 1)
    else y
  }

  /** Days of the year before month `m`; month 13 stands for the end of the year. */
  function DaysBeforeMonth(leap: bool, m: nat): int
    requires 1 <= m <= 13
  {
    var extra := if leap && m > 2 then 1 else 0;
    extra + [0, 31, 59, 90, 120, 151, 181, 212, 243, 273, 304, 334, 365][m - 1]
  }

  function MonthFrom(leap: bool, dayOfYear: int, m: nat): (r: nat)
    requires 1 <= m <= 12 && DaysBeforeMonth(leap, m) <= dayOfYear < DaysBeforeMonth(leap, 13)
    ensures 1 <= r <= 12 && DaysBeforeMonth(leap, r) <= dayOfYear < DaysBeforeMonth(leap, r + 1)
    decreases 12 - m
  {
    if dayOfYear < DaysBeforeMonth(leap, m + 1) then m else MonthFrom(leap, dayOfYear, m + 1)
  }

  datatype Date = Date(year: int, month: nat, day: nat)

  predicate ValidDate(d: Date) {
    1 <= d.month <= 12 && 1 <= d.day <= DaysBeforeMonth(Leap(d.year), d.month + 1) - DaysBeforeMonth(Leap(d.year),
        d.month)
  }

  function DayNumber(d: Date): int
    requires 1 <= d.month <= 12
  {
    DaysBeforeYear(d.year) + DaysBeforeMonth(Leap(d.year), d.month) + d.day - 1
  }

  function Civil(day: int): (d: Date)
    ensures ValidDate(d) && DayNumber(d) == day
  {
    var y := YearFrom(day, 1970);
    YearLength(y);
    var dayOfYear := day - DaysBeforeYear(y);
    var m := MonthFrom(Leap(y), dayOfYear, 1);
    Date(y, m, dayOfYear - DaysBeforeMonth(Leap(y), m) + 1)
  }

  // ---------------------------------------------------------------- printing

  function Two(n: nat): (s: string)
    requires n < 100
    ensures |s| == 2 && AllDigits(s)
  {
    [Digit(n / 10), Digit(n % 10)]
  }

  function Four(n: nat): (s: string)
    requires n < 10000
    ensures |s| == 4 && AllDigits(s)
  {
    Two(n / 100) + Two(n % 100)
  }

  /** A year outside 0 to 9999 prints with a sign or more than four digits. */
  function YearText(y: int): string {
    if 0 <= y < 10000 then Four(y)
    else if y >= 10000 then Digits(y)
    else "-" + if -y < 10000 then Four(-y) else Digits(-y)
  }

  function DateText(d: Date): string
    requires ValidDate(d)
  {
    YearText(d.year) + "-" + Two(d.month) + "-" + Two(d.day)
  }

  function ClockText(second: nat): (s: string)
    requires second < DAY
    ensures |s| == 8
  {
    Two(second / 3600) + ":" + Two(second / 60 % 60) + ":" + Two(second % 60)
  }

  function ZoneText(offset: int): string
    requires -1500 <= offset <= 1500
  {
    if offset == 0 then "Z"
    else
      var abs := if offset < 0 then -offset else offset;
      (if offset < 0 then "-" else "+") + Two(abs / 60) + ":" + Two(abs % 60)
  }

  /** Seconds since the start of year 0 on the wall clock of the stamp's zone. */
  function LocalSeconds(t: Stamp): int {
    t.ns / SECOND + EPOCH_DAY * DAY + t.offset * 60
  }

  function Format(t: Stamp): string {
    var local := LocalSeconds(t);
    DateText(Civil(local / DAY)) + "T" + ClockText(local % DAY) + ZoneText(t.offset)
  }

  // ---------------------------------------------------------------- parsing

  function ReadTwo(s: string, lo: nat, hi: nat): Option<nat>
    requires |s| == 2
  {
    if !AllDigits(s) then None
    else
      var n := 10 * (s[0] as int - '0' as int) + (s[1] as int - '0' as int);
      if lo <= n <= hi then Some(n) else None
  }

  function ReadDate(s: string): Option<Date>
    requires |s| == 10
  {
    var hi, lo, m, d := ReadTwo(s[..2], 0, 99), ReadTwo(s[2..4], 0, 99), ReadTwo(s[5..7], 1, 12),
        ReadTwo(s[8..10], 1, 31);
    if s[4] != '-' || s[7] != '-' || hi.None? || lo.None? || m.None? || d.None? then None
    else
      var date := Date(100 * hi.value + lo.value, m.value, d.value);
      if ValidDate(date) then Some(date) else None
  }

  /** An hour of one or two digits, and what follows it. */
  function ReadHour(s: string): (r: Option<(nat, string)>)
    ensures r.Some? ==> r.value.0 < 24
  {
    if s == "" || !IsDigit(s[0]) then None
    else if |s| == 1 || !IsDigit(s[1]) then Some((s[0] as int - '0' as int, s[1..]))
    else
      var n := ReadTwo(s[..2], 0, 23);
      if n.None? then None else Some((n.value, s[2..]))
  }

  /** The second of the day, and what follows it. */
  function ReadClock(s: string): (r: Option<(nat, string)>)
    ensures r.Some? ==> r.value.0 < DAY
  {
    var hour := ReadHour(s);
    if hour.None? || |hour.value.1| < 6 then None
    else
      var (h, rest) := hour.value;
      var m, sec := ReadTwo(rest[1..3], 0, 59), ReadTwo(rest[4..6], 0, 59);
      if rest[0] != ':' || rest[3] != ':' || m.None? || sec.None? then None
      else Some((3600 * h + 60 * m.value + sec.value, rest[6..]))
  }

  /** The value of leading digits of which the first counts `unit`, the next a tenth of it, and so on down to one. */
  function Decimals(s: string, unit: nat): (r: nat)
    ensures r < 10 * unit || r == unit == 0
  {
    if s == "" || !IsDigit(s[0]) || unit == 0 then 0
    else
      var digit := s[0] as int - '0' as int;
      var lower := Decimals(s[1..], unit / 10);
      DigitsBelow(digit, unit, lower);
      digit * unit + lower
  }

  lemma DigitsBelow(digit: nat, unit: nat, lower: nat)
    requires digit < 10 && unit > 0 && (lower < 10 * (unit / 10) || lower == unit / 10 == 0)
    ensures digit * unit >= 0 && digit * unit + lower < 10 * unit
  {
    assert digit * unit <= 9 * unit;
  }

  function AfterDigits(s: string): string {
    if s != "" && IsDigit(s[0]) then AfterDigits(s[1..]) else s
  }

  /** The nanoseconds of an optional fraction, which a point or a comma introduces, and what follows it. Digits after
      the ninth count for nothing. */
  function ReadFraction(s: string): (r: (nat, string))
    ensures r.0 < SECOND
  {
    if |s| < 2 || s[0] !in ".," || !IsDigit(s[1]) then (0, s)
    else (Decimals(s[1..], SECOND / 10), AfterDigits(s[1..]))
  }

  function ReadZone(s: string): (r: Option<int>)
    ensures r.Some? ==> -1500 <= r.value <= 1500
  {
    if s == "Z" then Some(0)
    else if |s| != 6 || (s[0] != '+' && s[0] != '-') || s[3] != ':' then None
    else
      var h, m := ReadTwo(s[1..3], 0, 24), ReadTwo(s[4..6], 0, 60);
      if h.None? || m.None? then None
      else Some((if s[0] == '-' then -1 else 1) * (60 * h.value + m.value))
  }

  /** `time.Parse`. It reads more than `time.Format` prints: fractions of a second, hours of one digit, and zones of
      24 hours or 60 minutes. */
  function Parse(s: string): Option<Stamp> {
    if |s| < 11 || s[10] != 'T' then None
    else
      var date, clock := ReadDate(s[..10]), ReadClock(s[11..]);
      if date.None? || clock.None? then None
      else
        var (ns, zoneText) := ReadFraction(clock.value.1);
        var zone := ReadZone(zoneText);
        if zone.None? then None
        else
          var seconds := (DayNumber(date.value) - EPOCH_DAY) * DAY + clock.value.0 - zone.value * 60;
          Some(Instant(seconds * SECOND + ns, zone.value))
  }

  /** A local year of exactly four digits. */
  predicate FourDigitYear(t: Stamp) {
    0 <= Civil(LocalSeconds(t) / DAY).year < 10000
  }

  /** A stamp whose text can be read: its zone must not print as 25 hours. */
  predicate Printable(t: Stamp) {
    FourDigitYear(t) && -1500 < t.offset < 1500
  }

  lemma ReadsTwo(n: nat, lo: nat, hi: nat)
    requires lo <= n <= hi < 100
    ensures ReadTwo(Two(n), lo, hi) == Some(n)
  {
  }

  lemma ReadsDate(d: Date)
    requires ValidDate(d) && 0 <= d.year < 10000
    ensures |DateText(d)| == 10 && ReadDate(DateText(d)) == Some(d)
  {
    hide ReadTwo, Two;
    var s := DateText(d);
    ReadsTwo(d.year / 100, 0, 99);
    ReadsTwo(d.year % 100, 0, 99);
    ReadsTwo(d.month, 1, 12);
    ReadsTwo(d.day, 1, 31);
    assert s[..2] == Two(d.year / 100) && s[2..4] == Two(d.year % 100) && s[5..7] == Two(d.month) &&
        s[8..10] == Two(d.day);
  }

  lemma ReadsClock(second: nat, rest: string)
    requires second < DAY
    ensures ReadClock(ClockText(second) + rest) == Some((second, rest))
  {
    hide ReadTwo, Two;
    var s := ClockText(second) + rest;
    var h := Two(second / 3600);
    ReadsTwo(second / 3600, 0, 23);
    ReadsTwo(second / 60 % 60, 0, 59);
    ReadsTwo(second % 60, 0, 59);
    assert s[..2] == h && s[0] == h[0] && s[1] == h[1];
    var tail := s[2..];
    assert tail == ":" + Two(second / 60 % 60) + ":" + Two(second % 60) + rest;
    assert tail[1..3] == Two(second / 60 % 60) && tail[4..6] == Two(second % 60) && tail[6..] == rest;
    assert second / 60 == second / 3600 * 60 + second / 60 % 60;
  }

  /** A printed zone reads back, unless it says 25 hours; it is never taken for a fraction. */
  lemma ReadsZone(offset: int)
    requires -1500 <= offset <= 1500
    ensures ReadZone(ZoneText(offset)) == if -1500 < offset < 1500 then Some(offset) else None
    ensures ReadFraction(ZoneText(offset)) == (0, ZoneText(offset))
  {
    if offset != 0 {
      hide Two;
      var abs := if offset < 0 then -offset else offset;
      var s := ZoneText(offset);
      assert s[1..3] == Two(abs / 60) && s[4..6] == Two(abs % 60);
      assert s != "Z";
      ReadsTwo(abs % 60, 0, 60);
      if abs < 1500 {
        hide ReadTwo;
        ReadsTwo(abs / 60, 0, 24);
      } else {
        assert Two(25) == "25";
      }
    }
  }

  lemma ReadsParts(date: string, rest: string)
    requires |date| == 10
    ensures var s := date + "T" + rest; s[..10] == date && s[10] == 'T' && s[11..] == rest
  {
  }

  /** No text reads back as a year outside 0 to 9999. */
  lemma LongYearsDoNotParse(y: int, rest: string)
    requires !(0 <= y < 10000)
    ensures Parse(YearText(y) + "-" + rest) == None
  {
    var s := YearText(y) + "-" + rest;
    if y >= 10000 {
      ManyDigits(y);
      assert IsDigit(YearText(y)[4]);
      assert |s| >= 11 ==> s[..10][4] == YearText(y)[4];
    } else {
      assert |s| >= 11 ==> s[..10][..2][0] == '-';
    }
  }

  lemma ManyDigits(n: nat)
    requires n >= 10000
    ensures |Digits(n)| >= 5
  {
    assert |Digits(n / 10000)| >= 1;
    assert |Digits(n / 1000)| >= 2 && n / 1000 / 10 == n / 10000;
    assert |Digits(n / 100)| >= 3 && n / 100 / 10 == n / 1000;
    assert |Digits(n / 10)| >= 4 && n / 10 / 10 == n / 100;
  }

  /** A printed stamp reads back, cut to whole seconds, exactly when its local year has four digits and its zone does
      not print as 25 hours; otherwise its text does not parse at all. */
  lemma FormatRoundTrip(t: Stamp)
    ensures Parse(Format(t)) == if Printable(t) then Some(Truncated(t)) else None
  {
    hide Civil, DateText, ClockText, ZoneText, ReadDate, ReadClock, ReadFraction, ReadZone, YearText;
    var local := LocalSeconds(t);
    var date := Civil(local / DAY);
    if FourDigitYear(t) {
      ReadsDate(date);
      ReadsClock(local % DAY, ZoneText(t.offset));
      ReadsZone(t.offset);
      ReadsParts(DateText(date), ClockText(local % DAY) + ZoneText(t.offset));
      assert Format(t) == DateText(date) + "T" + (ClockText(local % DAY) + ZoneText(t.offset));
      assert local == local / DAY * DAY + local % DAY;
    } else {
      var rest := Two(date.month) + "-" + Two(date.day) + "T" + ClockText(local % DAY) + ZoneText(t.offset);
      FormatStartsWithYear(t);
      LongYearsDoNotParse(date.year, rest);
    }
  }

  lemma FormatStartsWithYear(t: Stamp)
    ensures var local := LocalSeconds(t);
            var date := Civil(local / DAY);
            Format(t) == YearText(date.year) + "-" + (Two(date.month) + "-" + Two(date.day) + "T" +
                ClockText(local % DAY) + ZoneText(t.offset))
  {
    hide Civil, ClockText, ZoneText, YearText, Two;
  }

  /** What parses has a four-digit local year: it reads back, cut to whole seconds, unless it came with the largest
      zone. */
  lemma ParsedYear(s: string)
    requires Parse(s).Some?
    ensures FourDigitYear(Parse(s).value)
  {
    hide Civil, ReadDate, ReadClock, ReadFraction, ReadZone;
    var date, clock := ReadDate(s[..10]), ReadClock(s[11..]);
    var t := Parse(s).value;
    ReadDateIsValid(s[..10]);
    WholeSeconds((DayNumber(date.value) - EPOCH_DAY) * DAY + clock.value.0 - t.offset * 60,
        ReadFraction(clock.value.1).0);
    assert LocalSeconds(t) == DayNumber(date.value) * DAY + clock.value.0;
    assert LocalSeconds(t) / DAY == DayNumber(date.value);
    YearIsUnique(DayNumber(date.value), date.value);
  }

  lemma WholeSeconds(seconds: int, ns: nat)
    requires ns < SECOND
    ensures (seconds * SECOND + ns) / SECOND == seconds
  {
  }

  const HALF_SECOND: string := NEW_YEAR + ".5Z"

  const NEW_YEAR: string := "2024-01-01" + "T" + "00:00:00"

  /** A fraction is read, though none is ever printed. */
  lemma HalfSecondIsRead()
    ensures Parse(HALF_SECOND) == Some(Instant(1_704_067_200_500_000_000, 0))
    ensures '\n' !in HALF_SECOND
  {
    hide ReadDate, ReadClock, ReadFraction, DayNumber;
    NewYearIsRead(".5Z");
    HalfSecond();
  }

  lemma HalfSecond()
    ensures ReadFraction(".5Z") == (500_000_000, "Z")
  {
    assert ".5Z"[1..] == "5Z" && "5Z"[1..] == "Z";
    assert AfterDigits("5Z") == AfterDigits("Z") == "Z";
    assert Decimals("5Z", SECOND / 10) == 5 * (SECOND / 10) + Decimals("Z", SECOND / 100);
  }

  lemma NewYearIsRead(rest: string)
    ensures var s := NEW_YEAR + rest;
            && |s| >= 19 && s[10] == 'T' && ReadDate(s[..10]) == Some(Date(2024, 1, 1))
            && ReadClock(s[11..]) == Some((0, rest))
    ensures DayNumber(Date(2024, 1, 1)) == EPOCH_DAY + 19_723
  {
    hide ReadDate, ReadClock, DateText, ClockText;
    NewYearTexts();
    ReadsDate(Date(2024, 1, 1));
    ReadsClock(0, rest);
    assert NEW_YEAR + rest == "2024-01-01" + "T" + ("00:00:00" + rest);
    ReadsParts("2024-01-01", "00:00:00" + rest);
  }

  lemma NewYearTexts()
    ensures ValidDate(Date(2024, 1, 1)) && DateText(Date(2024, 1, 1)) == "2024-01-01" && ClockText(0) == "00:00:00"
  {
  }

  lemma ReadDateIsValid(s: string)
    requires |s| == 10 && ReadDate(s).Some?
    ensures ValidDate(ReadDate(s).value) && 0 <= ReadDate(s).value.year < 10000
  {
  }

  lemma {:induction false} YearsGrow(a: int, b: int)
    requires a <= b
    ensures DaysBeforeYear(a) <= DaysBeforeYear(b)
    decreases b - a
  {
    if a < b {
      YearLength(a);
      YearsGrow(a + 1, b);
    }
  }

  /** A day has one date: printing a date's day gives the date's year. */
  lemma YearIsUnique(day: int, d: Date)
    requires ValidDate(d) && DayNumber(d) == day
    ensures Civil(day).year == d.year
  {
    hide YearFrom, DaysBeforeYear, DayNumber, Civil, ValidDate;
    DayIsInYear(d);
    var y := YearFrom(day, 1970);
    if y < d.year {
      YearsGrow(y + 1, d.year);
    } else if d.year < y {
      YearsGrow(d.year + 1, y);
    }
    CivilYear(day);
  }

  lemma DayIsInYear(d: Date)
    requires ValidDate(d)
    ensures DaysBeforeYear(d.year) <= DayNumber(d) < DaysBeforeYear(d.year + 1)
  {
    hide DaysBeforeYear;
    YearLength(d.year);
    MonthsFit(Leap(d.year), d.month);
  }

  lemma CivilYear(day: int)
    ensures Civil(day).year == YearFrom(day, 1970)
  {
  }

  lemma MonthsFit(leap: bool, m: nat)
    requires 1 <= m <= 12
    ensures 0 <= DaysBeforeMonth(leap, m) && DaysBeforeMonth(leap, m + 1) <= if leap then 366 else 365
  {
  }

  // ---------------------------------------------------------------- the calendar and the notation, by example

  /** The months have the lengths they have: 31 days, 30, or for February 28 and 29 in leap years, which are those
      divisible by 4 and not by 100, or by 400. */
  lemma MonthLengths(d: Date)
    ensures ValidDate(d) <==>
            1 <= d.month <= 12 && 1 <= d.day &&
            d.day <= if d.month in {1, 3, 5, 7, 8, 10, 12} then 31
                     else if d.month in {4, 6, 9, 11} then 30
                     else if d.year % 400 == 0 || (d.year % 4 == 0 && d.year % 100 != 0) then 29 else 28
  {
    hide DaysBeforeMonth, Leap;
    LeapYears(d.year);
    if 1 <= d.month <= 12 {
      MonthDays(Leap(d.year), d.month);
    }
  }

  lemma LeapYears(y: int)
    ensures Leap(y) <==> y % 400 == 0 || (y % 4 == 0 && y % 100 != 0)
  {
  }

  lemma MonthDays(leap: bool, m: nat)
    requires 1 <= m <= 12
    ensures DaysBeforeMonth(leap, m + 1) - DaysBeforeMonth(leap, m) ==
            if m in {1, 3, 5, 7, 8, 10, 12} then 31 else if m in {4, 6, 9, 11} then 30 else if leap then 29 else 28
  {
  }

  /** The days of a year follow one another, and so do years. */
  lemma NextDay(d: Date)
    requires ValidDate(d)
    ensures var next := if ValidDate(d.(day := d.day + 1)) then d.(day := d.day + 1)
                        else if d.month < 12 then Date(d.year, d.month + 1, 1) else Date(d.year + 1, 1, 1);
            ValidDate(next) && DayNumber(next) == DayNumber(d) + 1
  {
    YearLength(d.year);
  }

  /** What New Year 2024 says with a given rest: the fraction and the zone. */
  lemma NewYearWith(rest: string, ns: nat, offset: int)
    requires ns < SECOND && -1500 <= offset <= 1500
    requires ReadFraction(rest).0 == ns && ReadZone(ReadFraction(rest).1) == Some(offset)
    ensures Parse(NEW_YEAR + rest) == Some(Instant((1_704_067_200 - offset * 60) * SECOND + ns, offset))
  {
    hide ReadDate, ReadClock, ReadFraction, ReadZone, DayNumber;
    NewYearIsRead(rest);
  }

  /** A zone east of Greenwich is ahead of it: the same wall clock there came earlier. */
  lemma EasternZoneIsEarlier()
    ensures Parse(NEW_YEAR + "+02:30") == Some(Instant((1_704_067_200 - 9_000) * SECOND, 150))
    ensures Parse(NEW_YEAR + "-02:30") == Some(Instant((1_704_067_200 + 9_000) * SECOND, -150))
    ensures ZoneText(150) == "+02:30" && ZoneText(-150) == "-02:30" && ZoneText(0) == "Z"
  {
    hide Parse, ReadFraction, ReadZone, ZoneText;
    ZoneOf(150);
    ZoneOf(-150);
    GreenwichIsZ();
    assert "+" + "02:30" == "+02:30" && "-" + "02:30" == "-02:30";
    NewYearWith("+02:30", 0, 150);
    NewYearWith("-02:30", 0, -150);
  }

  lemma GreenwichIsZ()
    ensures ZoneText(0) == "Z"
  {
  }

  lemma ZoneOf(offset: int)
    requires offset == 150 || offset == -150
    ensures ZoneText(offset) == (if offset < 0 then "-" else "+") + "02:30"
    ensures ReadFraction(ZoneText(offset)) == (0, ZoneText(offset)) && ReadZone(ZoneText(offset)) == Some(offset)
  {
    ReadsZone(offset);
    assert Two(2) == "02" && Two(30) == "30";
  }

  /** A comma introduces a fraction as a point does. */
  lemma CommaIsRead()
    ensures Parse(NEW_YEAR + ",5Z") == Some(Instant(1_704_067_200 * SECOND + 500_000_000, 0))
  {
    HalfSecondAfterComma();
    NewYearWith(",5Z", 500_000_000, 0);
  }

  lemma HalfSecondAfterComma()
    ensures ReadFraction(",5Z") == (500_000_000, "Z")
  {
    assert ",5Z"[1..] == "5Z" && "5Z"[1..] == "Z";
    assert AfterDigits("5Z") == AfterDigits("Z") == "Z";
    assert Decimals("5Z", SECOND / 10) == 5 * (SECOND / 10) + Decimals("Z", SECOND / 100);
  }
}
