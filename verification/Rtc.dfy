/**
 Calendar arithmetic of the clock actor (`actors/device/ev_rtc_actor.c`): the register
 decoding and the seconds since the epoch, against the closed form of section 4.16 of
 POSIX.1-2017 (Seconds Since the Epoch).
 */
module Rtc {
  import opened Results
  import opened Bits

  const SECONDS_PER_DAY: nat := 86400
  const EPOCH_YEAR: nat := 1970
  const YEAR_BASE: nat := 2000

  datatype Date = Date(year: nat, month: nat, day: nat, hours: nat, minutes: nat, seconds: nat)

  datatype Payload = Payload(date: Date, weekday: nat, unixTime: nat)

  predicate IsLeap(year: nat) {
    if year % 400 == 0 then true else if year % 100 == 0 then false else year % 4 == 0
  }

  /** The number of days of a month; zero for a number that is no month. */
  function DaysInMonth(year: nat, month: nat): nat {
    if month == 0 || month > 12 then 0
    else if month == 2 && IsLeap(year) then 29
    else [31, 28, 31, 30, 31, 30, 31, 31, 30, 31, 30, 31][month - 1]
  }

  predicate ValidDate(d: Date) {
    1 <= d.month <= 12 && 1 <= d.day <= DaysInMonth(d.year, d.month) && d.hours < 24 && d.minutes < 60 && d.seconds < 60
  }

  // ----- the closed form -----

  /** Days of a common year before each month. */
  const DaysBeforeMonth: seq<nat> := [0, 31, 59, 90, 120, 151, 181, 212, 243, 273, 304, 334]

  /** The day of the year, from zero. */
  function YearDay(year: nat, month: nat, day: nat): nat
    requires 1 <= month <= 12 && day >= 1
  {
    DaysBeforeMonth[month - 1] + (if month > 2 && IsLeap(year) then 1 else 0) + day - 1
  }

  /** Whole days from the epoch to a year's first day, in the terms of the standard's `tm_year`. */
  function DaysToYear(year: nat): int
    requires year >= EPOCH_YEAR
  {
    var tmYear := year - 1900;
    (tmYear - 70) * 365 + (tmYear - 69) / 4 - (tmYear - 1) / 100 + (tmYear + 299) / 400
  }

  function SecondOfDay(d: Date): nat {
    d.seconds + d.minutes * 60 + d.hours * 3600
  }

  /** Days from the epoch. */
  function DayNumber(d: Date): int
    requires ValidDate(d) && d.year >= EPOCH_YEAR
  {
    DaysToYear(d.year) + YearDay(d.year, d.month, d.day)
  }

  /** Seconds since the epoch. */
  function Posix(d: Date): int
    requires ValidDate(d) && d.year >= EPOCH_YEAR
  {
    SecondOfDay(d) + DayNumber(d) * SECONDS_PER_DAY
  }

  lemma FourYears(y: nat)
    requires y >= EPOCH_YEAR
    ensures (y - 1968) / 4 == (y - 1969) / 4 + if y % 4 == 0 then 1 else 0
  {
  }

  lemma Century(y: nat)
    requires y >= EPOCH_YEAR
    ensures (y - 1900) / 100 == (y - 1901) / 100 + if y % 100 == 0 then 1 else 0
  {
  }

  lemma FourCenturies(y: nat)
    requires y >= EPOCH_YEAR
    ensures (y - 1600) / 400 == (y - 1601) / 400 + if y % 400 == 0 then 1 else 0
  {
  }

  lemma LeapRule(y: nat)
    ensures (if y % 4 == 0 then 1 else 0) - (if y % 100 == 0 then 1 else 0) + (if y % 400 == 0 then 1 else 0) ==
            if IsLeap(y) then 1 else 0
  {
    if y % 100 == 0 {
      var q := y / 100;
      assert y == 4 * (25 * q);
    }
    if y % 400 == 0 {
      var q := y / 400;
      assert y == 100 * (4 * q);
    }
  }

  lemma NextYear(year: nat)
    requires year >= EPOCH_YEAR
    ensures DaysToYear(year + 1) == DaysToYear(year) + if IsLeap(year) then 366 else 365
  {
    hide IsLeap;
    FourYears(year);
    Century(year);
    FourCenturies(year);
    LeapRule(year);
  }

  lemma NextMonth(year: nat, month: nat)
    requires 1 <= month <= 12
    ensures month < 12 ==> YearDay(year, month + 1, 1) == YearDay(year, month, 1) + DaysInMonth(year, month)
    ensures month == 12 ==> YearDay(year, month, 1) + DaysInMonth(year, month) == if IsLeap(year) then 366 else 365
  {
  }

  // ----- the code -----

  /** The year and month loops compute the closed form, reduced to 32 bits. */
  method BuildUnixTime(d: Date) returns (t: nat)
    requires ValidDate(d) && d.year >= EPOCH_YEAR
    ensures t == Posix(d) % WORD
  {
    hide IsLeap, DaysInMonth, DaysToYear, YearDay;
    var days: nat := 0;
    var year := EPOCH_YEAR;
    EpochDay();
    while year < d.year
      invariant EPOCH_YEAR <= year <= d.year && days == DaysToYear(year)
    {
      NextYear(year);
      days := days + if IsLeap(year) then 366 else 365;
      year := year + 1;
    }
    var month := 1;
    FirstDay(d.year);
    while month < d.month
      invariant 1 <= month <= d.month && days == DaysToYear(d.year) + YearDay(d.year, month, 1)
    {
      NextMonth(d.year, month);
      days := days + DaysInMonth(d.year, month);
      month := month + 1;
    }
    DayOfMonth(d.year, d.month, d.day);
    days := days + (d.day - 1);
    t := (days * SECONDS_PER_DAY + d.hours * 3600 + d.minutes * 60 + d.seconds) % WORD;
  }

  lemma EpochDay()
    ensures DaysToYear(EPOCH_YEAR) == 0
  {
  }

  lemma FirstDay(year: nat)
    ensures YearDay(year, 1, 1) == 0
  {
  }

  lemma DayOfMonth(year: nat, month: nat, day: nat)
    requires 1 <= month <= 12 && day >= 1
    ensures YearDay(year, month, day) == YearDay(year, month, 1) + day - 1
  {
  }

  // ----- order -----

  predicate SameDay(a: Date, b: Date) {
    a.year == b.year && a.month == b.month && a.day == b.day
  }

  predicate EarlierDay(a: Date, b: Date) {
    a.year < b.year || (a.year == b.year && (a.month < b.month || (a.month == b.month && a.day < b.day)))
  }

  predicate EarlierInDay(a: Date, b: Date) {
    a.hours < b.hours || (a.hours == b.hours
                          && (a.minutes < b.minutes || (a.minutes == b.minutes && a.seconds < b.seconds)))
  }

  /** Lexicographic order of year, month, day, hours, minutes and seconds. */
  predicate Before(a: Date, b: Date) {
    EarlierDay(a, b) || (SameDay(a, b) && EarlierInDay(a, b))
  }

  lemma {:induction false} YearsAreLong(a: nat, b: nat)
    requires EPOCH_YEAR <= a < b
    ensures DaysToYear(a) + (if IsLeap(a) then 366 else 365) <= DaysToYear(b)
    decreases b
  {
    hide DaysToYear, IsLeap;
    NextYear(b - 1);
    if a < b - 1 {
      YearsAreLong(a, b - 1);
    }
  }

  lemma {:induction false} MonthsAreLong(year: nat, a: nat, b: nat)
    requires 1 <= a < b <= 12
    ensures YearDay(year, a, 1) + DaysInMonth(year, a) <= YearDay(year, b, 1)
    decreases b
  {
    hide YearDay, DaysInMonth;
    NextMonth(year, b - 1);
    if a < b - 1 {
      MonthsAreLong(year, a, b - 1);
    }
  }

  /** Day and second within a year stay below its length. */
  lemma WithinYear(d: Date)
    requires ValidDate(d)
    ensures 0 <= YearDay(d.year, d.month, d.day) < if IsLeap(d.year) then 366 else 365
    ensures 0 <= SecondOfDay(d) < SECONDS_PER_DAY
  {
    hide IsLeap;
    NextMonth(d.year, 12);
    if d.month < 12 { MonthsAreLong(d.year, d.month, 12); }
    DayOfMonth(d.year, d.month, d.day);
    DayOfMonth(d.year, 12, DaysInMonth(d.year, 12));
  }

  lemma EarlierDayIsSmaller(a: Date, b: Date)
    requires ValidDate(a) && ValidDate(b) && a.year >= EPOCH_YEAR && b.year >= EPOCH_YEAR && EarlierDay(a, b)
    ensures DayNumber(a) < DayNumber(b)
  {
    hide DaysToYear, YearDay, IsLeap, DaysInMonth;
    WithinYear(a);
    WithinYear(b);
    if a.year < b.year {
      YearsAreLong(a.year, b.year);
    } else {
      DayOfMonth(a.year, a.month, a.day);
      DayOfMonth(b.year, b.month, b.day);
      if a.month < b.month {
        MonthsAreLong(a.year, a.month, b.month);
      }
    }
  }

  lemma SecondsFollowOrder(a: Date, b: Date)
    requires ValidDate(a) && ValidDate(b)
    ensures 0 <= SecondOfDay(a) < SECONDS_PER_DAY
    ensures EarlierInDay(a, b) <==> SecondOfDay(a) < SecondOfDay(b)
    ensures SecondOfDay(a) == SecondOfDay(b) <==> a.hours == b.hours && a.minutes == b.minutes && a.seconds == b.seconds
  {
    hide DaysInMonth;
  }

  /** Seconds since the epoch follow the lexicographic order of date and time, both ways. */
  lemma PosixFollowsOrder(a: Date, b: Date)
    requires ValidDate(a) && ValidDate(b) && a.year >= EPOCH_YEAR && b.year >= EPOCH_YEAR
    ensures Before(a, b) <==> Posix(a) < Posix(b)
    ensures Posix(a) == Posix(b) <==> a == b
  {
    hide SecondOfDay, EarlierInDay, DayNumber, ValidDate;
    SecondsFollowOrder(a, b);
    SecondsFollowOrder(b, a);
    if EarlierDay(a, b) {
      EarlierDayIsSmaller(a, b);
    } else if EarlierDay(b, a) {
      EarlierDayIsSmaller(b, a);
    } else {
      assert SameDay(a, b);
      SameDayNumber(a, b);
    }
  }

  lemma SameDayNumber(a: Date, b: Date)
    requires ValidDate(a) && ValidDate(b) && a.year >= EPOCH_YEAR && b.year >= EPOCH_YEAR && SameDay(a, b)
    ensures DayNumber(a) == DayNumber(b)
  {
  }

  const Epoch: Date := Date(1970, 1, 1, 0, 0, 0)

  lemma EpochIsZero()
    ensures ValidDate(Epoch) && Posix(Epoch) == 0
  {
    hide ValidDate, Posix;
    FirstInstant(Epoch);
  }

  lemma FirstInstant(d: Date)
    requires d.year == EPOCH_YEAR && d.month == d.day == 1 && d.hours == d.minutes == d.seconds == 0
    ensures ValidDate(d) && Posix(d) == 0
  {
    hide DaysToYear, YearDay, IsLeap;
    EpochDay();
    FirstDay(d.year);
    assert ValidDate(d);
    assert DayNumber(d) == 0;
  }

  /** Midnight of the next day. */
  function Tomorrow(d: Date): Date {
    if d.day < DaysInMonth(d.year, d.month) then d.(day := d.day + 1, hours := 0, minutes := 0, seconds := 0)
    else if d.month < 12 then Date(d.year, d.month + 1, 1, 0, 0, 0)
    else Date(d.year + 1, 1, 1, 0, 0, 0)
  }

  /** The date one second later. */
  function NextSecond(d: Date): Date {
    if d.seconds < 59 then d.(seconds := d.seconds + 1)
    else if d.minutes < 59 then d.(minutes := d.minutes + 1, seconds := 0)
    else if d.hours < 23 then d.(hours := d.hours + 1, minutes := 0, seconds := 0)
    else Tomorrow(d)
  }

  /** One second later is one second more: with the epoch at zero, this is the count of seconds. */
  lemma NextSecondAddsOne(d: Date)
    requires ValidDate(d) && d.year >= EPOCH_YEAR
    ensures ValidDate(NextSecond(d)) && Posix(NextSecond(d)) == Posix(d) + 1
  {
    hide DayNumber, Tomorrow;
    if d.seconds == 59 && d.minutes == 59 && d.hours == 23 {
      TomorrowAddsOne(d);
    } else {
      SameDayNumber(d, NextSecond(d));
    }
  }

  lemma TomorrowAddsOne(d: Date)
    requires ValidDate(d) && d.year >= EPOCH_YEAR
    ensures ValidDate(Tomorrow(d)) && DayNumber(Tomorrow(d)) == DayNumber(d) + 1 && SecondOfDay(Tomorrow(d)) == 0
  {
    hide YearDay, DaysToYear, IsLeap;
    var t := Tomorrow(d);
    DayOfMonth(d.year, d.month, d.day);
    DayOfMonth(t.year, t.month, t.day);
    if d.day >= DaysInMonth(d.year, d.month) {
      NextMonth(d.year, d.month);
      if d.month == 12 {
        NextYear(d.year);
        FirstDay(d.year + 1);
      }
    }
  }

  /** The last second 32 bits can count: 7 February 2106, 06:28:15. */
  const LastSecond: Date := Date(2106, 2, 7, 6, 28, 15)

  lemma LastSecondIsMax()
    ensures ValidDate(LastSecond) && Posix(LastSecond) == WORD - 1
  {
    assert DaysToYear(2106) == 49673;
    assert YearDay(2106, 2, 7) == 37;
    assert SecondOfDay(LastSecond) == 23295;
  }

  /** The count fits 32 bits exactly for dates up to that second, so for every date from 1970 to 2105. */
  lemma FitsExactly(d: Date)
    requires ValidDate(d) && d.year >= EPOCH_YEAR
    ensures 0 <= Posix(d) < WORD <==> !Before(LastSecond, d)
    ensures d.year <= 2105 ==> 0 <= Posix(d) < WORD
  {
    hide Posix, ValidDate;
    LastSecondIsMax();
    EpochIsZero();
    PosixFollowsOrder(LastSecond, d);
    PosixFollowsOrder(d, Epoch);
    NothingBeforeEpoch(d);
  }

  lemma NothingBeforeEpoch(d: Date)
    requires ValidDate(d) && d.year >= EPOCH_YEAR
    ensures !Before(d, Epoch)
  {
  }

  /** What the code computes is strictly increasing over all dates it can count. */
  lemma CountedTimesFollowOrder(a: Date, b: Date)
    requires ValidDate(a) && ValidDate(b) && a.year >= EPOCH_YEAR && b.year >= EPOCH_YEAR
    requires !Before(LastSecond, a) && !Before(LastSecond, b)
    ensures Before(a, b) <==> Posix(a) % WORD < Posix(b) % WORD
  {
    hide Posix, ValidDate, Before;
    FitsExactly(a);
    FitsExactly(b);
    PosixFollowsOrder(a, b);
  }

  // ----- the registers -----

  function BcdToDecimal(bcd: Byte): nat {
    bcd / 16 * 10 + bcd % 16
  }

  /** Twelve-hour mode is bit six, the afternoon bit five. */
  function DecodeHours(raw: Byte): nat {
    if raw / 64 % 2 != 0 then
      var hours := BcdToDecimal(raw % 32);
      if raw / 32 % 2 != 0 then (if hours < 12 then hours + 12 else hours)
      else if hours == 12 then 0 else hours
    else BcdToDecimal(raw % 64)
  }

  /** The seven time registers, seconds first; the century bit tops the month register. */
  function DecodeTime(raw: seq<Byte>): (p: (Date, nat))
    requires |raw| == 7
  {
    var year := YEAR_BASE + BcdToDecimal(raw[6]) + if raw[5] / 128 % 2 != 0 then 100 else 0;
    (Date(year, BcdToDecimal(raw[5] % 32), BcdToDecimal(raw[4] % 64), DecodeHours(raw[2]),
          BcdToDecimal(raw[1] % 128), BcdToDecimal(raw[0] % 128)),
     BcdToDecimal(raw[3] % 8))
  }

  predicate PayloadValid(d: Date, weekday: nat) {
    ValidDate(d) && 1 <= weekday <= 7
  }

  /** Read the clock: a failed read is an error, an invalid time leaves the count at zero. */
  method ReadTimePayload(raw: seq<Byte>, readOk: bool) returns (rc: Result, p: Payload)
    requires |raw| == 7
    ensures rc == if readOk then Ok else ErrState
    ensures readOk ==>
              var (d, w) := DecodeTime(raw);
              p.date == d && p.weekday == w && d.year >= YEAR_BASE
              && p.unixTime == if PayloadValid(d, w) then Posix(d) % WORD else 0
  {
    hide Posix, ValidDate, DecodeHours;
    p := Payload(Date(0, 0, 0, 0, 0, 0), 0, 0);
    if !readOk {
      return ErrState, p;
    }
    var (d, w) := DecodeTime(raw);
    p := Payload(d, w, 0);
    if !PayloadValid(d, w) {
      return Ok, p;
    }
    var t := BuildUnixTime(d);
    return Ok, p.(unixTime := t);
  }

  function Bcd(n: nat): (b: Byte)
    requires n < 100
  {
    n / 10 * 16 + n % 10
  }

  /** Binary-coded decimals read back, and fit the fields of the registers. */
  lemma BcdReads(n: nat)
    requires n < 100
    ensures BcdToDecimal(Bcd(n)) == n
    ensures n <= 7 ==> Bcd(n) < 8
    ensures n <= 12 ==> Bcd(n) < 32
    ensures n <= 31 ==> Bcd(n) < 64
    ensures n <= 59 ==> Bcd(n) < 128
  {
    var t, u := n / 10, n % 10;
    assert Bcd(n) == t * 16 + u;
    assert Bcd(n) / 16 == t && Bcd(n) % 16 == u;
  }

  /** The hour register in either mode. */
  function EncodeHours(h: nat, twelveHour: bool): Byte
    requires h < 24
  {
    if !twelveHour then Bcd(h)
    else
      BcdReads(TwelveHour(h));
      64 + (if h >= 12 then 32 else 0) + Bcd(TwelveHour(h))
  }

  function TwelveHour(h: nat): (k: nat)
    requires h < 24
    ensures 1 <= k <= 12
  {
    if h == 0 then 12 else if h <= 12 then h else h - 12
  }

  lemma HourBits(b: nat, pm: nat)
    requires b < 32 && pm < 2
    ensures (64 + 32 * pm + b) / 64 % 2 == 1 && (64 + 32 * pm + b) / 32 % 2 == pm && (64 + 32 * pm + b) % 32 == b
  {
  }

  lemma HoursRoundTrip(h: nat, twelveHour: bool)
    requires h < 24
    ensures DecodeHours(EncodeHours(h, twelveHour)) == h
  {
    hide Bcd, BcdToDecimal;
    BcdReads(h);
    BcdReads(TwelveHour(h));
    HourBits(Bcd(TwelveHour(h)), if h >= 12 then 1 else 0);
  }

  /** What the registers have room for. */
  predicate InRange(d: Date, weekday: nat) {
    && d.seconds < 60 && d.minutes < 60 && d.hours < 24 && d.day <= 31 && 1 <= d.month <= 12 && weekday <= 7
    && 2000 <= d.year < 2200
  }

  /** The registers a clock chip holds for a date from 2000 to 2199. */
  function Encode(d: Date, weekday: nat, twelveHour: bool): seq<Byte>
    requires InRange(d, weekday)
  {
    BcdReads(d.month);
    [Bcd(d.seconds), Bcd(d.minutes), EncodeHours(d.hours, twelveHour), Bcd(weekday), Bcd(d.day),
     Bcd(d.month) + (if d.year >= 2100 then 128 else 0), Bcd(d.year % 100)]
  }

  lemma MonthRegister(m: nat, century: nat)
    requires m < 32 && century < 2
    ensures (m + 128 * century) / 128 % 2 == century && (m + 128 * century) % 32 == m
  {
  }

  /** Any date the chip can hold is read back, in twelve- and twenty-four-hour mode. */
  lemma RegistersRoundTrip(d: Date, weekday: nat, twelveHour: bool)
    requires InRange(d, weekday)
    ensures DecodeTime(Encode(d, weekday, twelveHour)) == (d, weekday)
  {
    hide DecodeHours, EncodeHours, Bcd, BcdToDecimal;
    HoursRoundTrip(d.hours, twelveHour);
    BcdReads(d.seconds);
    BcdReads(d.minutes);
    BcdReads(d.day);
    BcdReads(d.month);
    BcdReads(d.year % 100);
    BcdReads(weekday);
    MonthRegister(Bcd(d.month), if d.year >= 2100 then 1 else 0);
  }
}
