/** Epoch seconds to a UTC civil date, and why it is the Gregorian calendar. */
module Calendar {
  datatype Date = Date(year: int, month: int, day: int)

  datatype Civil = Civil(date: Date, hour: nat, minute: nat, second: nat)

  // ---- the Gregorian calendar --------------------------------------------------------------

  predicate IsLeap(year: int) {
    year % 4 == 0 && (year % 100 != 0 || year % 400 == 0)
  }

  function DaysInMonth(year: int, month: int): int {
    if month == 2 then if IsLeap(year) then 29 else 28
    else if month == 4 || month == 6 || month == 9 || month == 11 then 30
    else 31
  }

  predicate IsDate(date: Date) {
    1 <= date.month <= 12 && 1 <= date.day <= DaysInMonth(date.year, date.month)
  }

  /** The next day of the calendar. */
  function Next(date: Date): Date {
    if date.day < DaysInMonth(date.year, date.month) then date.(day := date.day + 1)
    else if date.month < 12 then Date(date.year, date.month + 1, 1)
    else Date(date.year + 1, 1, 1)
  }

  /** `days` days after 1970-01-01, counted one at a time. */
  function Counted(days: nat): Date {
    if days == 0 then Date(1970, 1, 1) else Next(Counted(days - 1))
  }

  // ---- the conversion ----------------------------------------------------------------------

  function YearOfEra(doe: nat): int {
    (doe - doe / 1460 + doe / 36_524 - doe / 146_096) / 365
  }

  /** Days before year `yoe` of an era whose years start in March. */
  function YearStart(yoe: int): int {
    365 * yoe + yoe / 4 - yoe / 100
  }

  /** The date `doy` days into the year that starts in March of `year`. */
  function MonthDay(year: int, doy: int): Date {
    var mp := (5 * doy + 2) / 153;
    var d := doy - (153 * mp + 2) / 5 + 1;
    var m := if mp < 10 then mp + 3 else mp - 9;
    Date(if m <= 2 then year + 1 else year, m, d)
  }

  function DateOfDay(days: nat): Date {
    var z := days + 719_468;
    var era := (if z >= 0 then z else z - 146_096) / 146_097;
    var doe := z - era * 146_097;
    var yoe := YearOfEra(doe);
    MonthDay(yoe + era * 400, doe - YearStart(yoe))
  }

  function CivilFromEpoch(seconds: nat): Civil {
    var days := seconds / 86_400;
    var rem := seconds % 86_400;
    Civil(DateOfDay(days), rem / 3600, (rem % 3600) / 60, rem % 60)
  }

  // ---- years --------------------------------------------------------------------------------

  /** The days of the era's year `yoe`: it holds the February after its March. */
  function YearLength(yoe: int): int {
    if (yoe + 1) % 4 == 0 && ((yoe + 1) % 100 != 0 || yoe == 399) then 366 else 365
  }

  lemma {:induction false} YearStartStep(yoe: int)
    requires 0 <= yoe < 399
    ensures YearStart(yoe + 1) == YearStart(yoe) + YearLength(yoe)
  {
  }

  lemma {:induction false} LeapLength(yoe: int, era: int)
    requires 0 <= yoe < 400
    ensures YearLength(yoe) == if IsLeap(yoe + era * 400 + 1) then 366 else 365
  {
    ErasKeepLeaps(yoe + 1, era);
  }

  lemma {:induction false} ErasKeepLeaps(y: int, era: int)
    ensures IsLeap(y + era * 400) == IsLeap(y)
  {
    hide IsLeap;
    Remainders(y, era);
    LeapByRemainders(y + era * 400, y);
  }

  lemma {:induction false} LeapByRemainders(a: int, b: int)
    requires a % 4 == b % 4 && a % 100 == b % 100 && a % 400 == b % 400
    ensures IsLeap(a) == IsLeap(b)
  {
  }

  lemma {:induction false} Remainders(y: int, era: int)
    ensures (y + era * 400) % 4 == y % 4
    ensures (y + era * 400) % 100 == y % 100
    ensures (y + era * 400) % 400 == y % 400
  {
    Remainder4(y + era * 400, y / 4 + 100 * era, y % 4);
    Remainder100(y + era * 400, y / 100 + 4 * era, y % 100);
    Remainder400(y + era * 400, y / 400 + era, y % 400);
  }

  lemma {:induction false} Remainder4(y: int, q: int, r: int)
    requires y == 4 * q + r && 0 <= r < 4
    ensures y % 4 == r
  {
  }

  lemma {:induction false} Remainder100(y: int, q: int, r: int)
    requires y == 100 * q + r && 0 <= r < 100
    ensures y % 100 == r
  {
  }

  lemma {:induction false} Remainder400(y: int, q: int, r: int)
    requires y == 400 * q + r && 0 <= r < 400
    ensures y % 400 == r
  {
  }

  /** Within a century, `k` whole cycles of four years and `t` days more. */
  lemma {:induction false} CycleYear(b: int, k: int, t: int)
    requires 0 <= b < 4 && 0 <= k < 25 && 0 <= t < 1461 && 1461 * k + t < 36_524
    ensures var r := 1461 * k + t;
            var y := (r - (r + 24 * b) / 1460) / 365;
            0 <= y < 100 && 0 <= r - (365 * y + y / 4) < if (y + 1) % 4 == 0 && (y != 99 || b == 3) then 366 else 365
  {
    var r := 1461 * k + t;
    var e := if k + t + 24 * b >= 1460 then 1 else 0;
    assert r + 24 * b == 1460 * k + (k + t + 24 * b);
    assert (r + 24 * b) / 1460 == k + e;
    var i := (t - e) / 365;
    assert 0 <= i < 4;
    assert r - (k + e) == 365 * (4 * k + i) + (t - e - 365 * i);
    var y := (r - (k + e)) / 365;
    assert y == 4 * k + i;
    assert y / 4 == k;
  }

  /** The nested divisions find the year the day lies in. */
  lemma {:induction false} YearOfEraExact(doe: nat)
    requires doe < 146_097
    ensures var yoe := YearOfEra(doe);
            0 <= yoe < 400 && 0 <= doe - YearStart(yoe) < YearLength(yoe)
  {
    hide YearOfEra, YearStart, YearLength;
    var b := doe / 36_524;
    var r := doe - 36_524 * b;
    if b == 4 {
      LastDayOfEra(doe);
    } else {
      CycleYear(b, r / 1461, r % 1461);
      var y := (r - (r + 24 * b) / 1460) / 365;
      CenturyYear(doe, b, r);
      CenturyStart(b, y);
    }
  }

  lemma {:induction false} LastDayOfEra(doe: nat)
    requires doe < 146_097 && doe / 36_524 == 4
    ensures YearOfEra(doe) == 399 && 0 <= doe - YearStart(399) < YearLength(399)
  {
    assert doe == 146_096;
  }

  lemma {:induction false} CenturyYear(doe: nat, b: int, r: int)
    requires 0 <= b < 4 && 0 <= r < 36_524 && doe == 36_524 * b + r
    ensures YearOfEra(doe) == 100 * b + (r - (r + 24 * b) / 1460) / 365
  {
    var q := (r + 24 * b) / 1460;
    assert doe == 1460 * (25 * b) + (r + 24 * b);
    assert doe / 1460 == 25 * b + q;
    assert doe / 36_524 == b && doe / 146_096 == 0;
    assert doe - doe / 1460 + b == 365 * (100 * b) + (r - q);
  }

  lemma {:induction false} CenturyStart(b: int, y: int)
    requires 0 <= b < 4 && 0 <= y < 100
    ensures YearStart(100 * b + y) == 36_524 * b + 365 * y + y / 4
    ensures YearLength(100 * b + y) == if (y + 1) % 4 == 0 && (y != 99 || b == 3) then 366 else 365
  {
    assert (100 * b + y) / 100 == b;
    assert (4 * (25 * b) + y) / 4 == 25 * b + y / 4;
    assert (4 * (25 * b) + (y + 1)) % 4 == (y + 1) % 4;
    if y == 99 {
      assert (100 * (b + 1)) % 100 == 0;
    } else {
      assert (100 * b + (y + 1)) % 100 == y + 1;
    }
  }

  // ---- months -------------------------------------------------------------------------------

  /** Days before month `mp` of a year that starts in March. */
  function MonthStart(mp: int): int {
    (153 * mp + 2) / 5
  }

  /** The month division finds the month the day lies in. */
  lemma {:induction false} MonthExact(doy: int)
    requires 0 <= doy < 366
    ensures var mp := (5 * doy + 2) / 153;
            0 <= mp < 12 && MonthStart(mp) <= doy < MonthStart(mp + 1)
  {
  }

  /** The months of that year have the lengths the calendar gives them; February ends it. */
  lemma {:induction false} MonthLength(year: int, mp: int)
    requires 0 <= mp < 11
    ensures var m := if mp < 10 then mp + 3 else mp - 9;
            MonthStart(mp + 1) - MonthStart(mp) == DaysInMonth(if m <= 2 then year + 1 else year, m)
  {
  }

  predicate InYear(year: int, doy: int) {
    0 <= doy < if IsLeap(year + 1) then 366 else 365
  }

  lemma {:induction false} MonthDayIsDate(year: int, doy: int)
    requires InYear(year, doy)
    ensures IsDate(MonthDay(year, doy))
  {
    MonthExact(doy);
    var mp := (5 * doy + 2) / 153;
    if mp < 11 {
      MonthLength(year, mp);
    }
  }

  /** The next day of the year is the next date. */
  lemma {:induction false} MonthDayNext(year: int, doy: int)
    requires InYear(year, doy) && InYear(year, doy + 1)
    ensures MonthDay(year, doy + 1) == Next(MonthDay(year, doy))
  {
    MonthExact(doy);
    MonthExact(doy + 1);
    var mp := (5 * doy + 2) / 153;
    var next := (5 * (doy + 1) + 2) / 153;
    assert next == mp || next == mp + 1;
    if mp < 11 {
      MonthLength(year, mp);
    }
  }

  /** After the last day comes the first of March. */
  lemma {:induction false} YearEnds(year: int, doy: int)
    requires InYear(year, doy) && !InYear(year, doy + 1)
    ensures Next(MonthDay(year, doy)) == Date(year + 1, 3, 1) == MonthDay(year + 1, 0)
  {
    MonthExact(doy);
  }

  // ---- days ---------------------------------------------------------------------------------

  /** Days from the start of the eras to the first of March of `year`. */
  function MarchFirst(year: int): int {
    (year / 400) * 146_097 + YearStart(year % 400)
  }

  /** A day is a day of a year of an era, in one way only. */
  lemma {:induction false} DayOfYear(days: nat) returns (year: int, doy: int)
    ensures InYear(year, doy) && DateOfDay(days) == MonthDay(year, doy)
    ensures days + 719_468 == MarchFirst(year) + doy
  {
    hide MonthDay, YearStart, YearLength, IsLeap, YearOfEra;
    var z := days + 719_468;
    var era := z / 146_097;
    var doe := z - era * 146_097;
    YearOfEraExact(doe);
    var yoe := YearOfEra(doe);
    LeapLength(yoe, era);
    year, doy := yoe + era * 400, doe - YearStart(yoe);
    assert (400 * era + yoe) / 400 == era && (400 * era + yoe) % 400 == yoe;
  }

  lemma {:induction false} MarchFirstStep(year: int)
    ensures MarchFirst(year + 1) == MarchFirst(year) + if IsLeap(year + 1) then 366 else 365
  {
    var era, yoe := year / 400, year % 400;
    LeapLength(yoe, era);
    assert year == 400 * era + yoe;
    if yoe == 399 {
      assert year + 1 == 400 * (era + 1);
      assert (year + 1) / 400 == era + 1 && (year + 1) % 400 == 0;
    } else {
      assert (year + 1) / 400 == era && (year + 1) % 400 == yoe + 1;
      YearStartStep(yoe);
    }
  }

  lemma {:induction false} MarchFirstGrows(a: int, b: int)
    requires a <= b
    ensures MarchFirst(a) + 365 * (b - a) <= MarchFirst(b)
    decreases b - a
  {
    if a < b {
      MarchFirstGrows(a, b - 1);
      MarchFirstStep(b - 1);
    }
  }

  /** Consecutive days lie in one year, or at the end of one and the start of the next. */
  lemma {:induction false} NextDayOfYear(year: int, doy: int, year': int, doy': int)
    requires InYear(year, doy) && InYear(year', doy') && MarchFirst(year') + doy' == MarchFirst(year) + doy + 1
    ensures (year' == year && doy' == doy + 1) || (year' == year + 1 && doy' == 0 && !InYear(year, doy + 1))
  {
    hide MarchFirst, IsLeap;
    MarchFirstStep(year);
    MarchFirstStep(year');
    if year' < year {
      MarchFirstGrows(year' + 1, year);
    } else if year < year' {
      MarchFirstGrows(year + 1, year');
    }
  }

  /** Every date the conversion gives is a date, and each day is followed by its successor. */
  lemma {:induction false} DayAfterDay(days: nat)
    ensures IsDate(DateOfDay(days))
    ensures DateOfDay(days + 1) == Next(DateOfDay(days))
  {
    hide DateOfDay, MonthDay, MarchFirst, IsLeap, IsDate, Next;
    var year, doy := DayOfYear(days);
    MonthDayIsDate(year, doy);
    var year', doy' := DayOfYear(days + 1);
    NextDayOfYear(year, doy, year', doy');
    if year' == year {
      MonthDayNext(year, doy);
    } else {
      YearEnds(year, doy);
    }
  }

  lemma {:induction false} DayZero()
    ensures DateOfDay(0) == Date(1970, 1, 1)
  {
    assert YearOfEra(135_080) == 369;
    assert YearStart(369) == 134_774;
    assert MonthDay(1969, 306) == Date(1970, 1, 1);
  }

  /** The conversion is the calendar, counted day by day from 1970-01-01. */
  lemma {:induction false} DateOfDayIsCounted(days: nat)
    ensures DateOfDay(days) == Counted(days) && IsDate(DateOfDay(days))
  {
    hide DateOfDay, Next, IsDate;
    if days == 0 {
      DayZero();
    } else {
      DateOfDayIsCounted(days - 1);
      DayAfterDay(days - 1);
    }
    DayAfterDay(days);
  }

  /** The time of day recomposes, and the date is the calendar's. */
  lemma {:induction false} CivilIsExact(seconds: nat)
    ensures var c := CivilFromEpoch(seconds);
            && c.date == Counted(seconds / 86_400) && IsDate(c.date)
            && c.hour < 24 && c.minute < 60 && c.second < 60
            && seconds == (seconds / 86_400) * 86_400 + c.hour * 3600 + c.minute * 60 + c.second
  {
    hide DateOfDay, IsDate;
    DateOfDayIsCounted(seconds / 86_400);
    var rem := seconds % 86_400;
    assert rem == (rem / 3600) * 3600 + rem % 3600;
    assert (rem % 3600) % 60 == rem % 60;
  }
}
