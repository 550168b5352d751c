/** Instants are integer milliseconds since the Unix epoch, in UTC (the
    downloader localises every date to UTC before use). This module gives the
    `"%Y-%m-%d"` label of an instant and the whole-day stepping shared by the
    date range of the loader and the daily chunks of the trade and funding
    downloads. */
module Calendar {

  /** `timedelta(days=1)` in milliseconds. */
  const DayMs: int := 86_400_000

  /** Gregorian leap years, extended back before 1582 (proleptic). */
  predicate Leap(y: int)
  {
    y % 4 == 0 && (y % 100 != 0 || y % 400 == 0)
  }

  function DaysInMonth(y: int, m: int): int
  {
    if m == 2 then (if Leap(y) then 29 else 28)
    else if m == 4 || m == 6 || m == 9 || m == 11 then 30
    else 31
  }

  /** A real calendar date: a month of the year and a day of that month. */
  predicate ValidDate(y: int, m: int, d: int)
  {
    1 <= m <= 12 && 1 <= d <= DaysInMonth(y, m)
  }

  /** The date of the following day. */
  function NextDate(y: int, m: int, d: int): (int, int, int)
  {
    if d < DaysInMonth(y, m) then (y, m, d + 1)
    else if m < 12 then (y, m + 1, 1)
    else (y + 1, 1, 1)
  }

  /** The year, counted from 1 March, that day (y, m, _) falls in: January
      and February close the previous one, so a leap day ends its year. */
  function MarchYear(y: int, m: int): int
  {
    if m <= 2 then y - 1 else y
  }

  /** Month m's position in a year counted from March (March is 0). */
  function MonthIndex(m: int): int
  {
    if m > 2 then m - 3 else m + 9
  }

  /** Days from 1 March to the first of month m, in a year counted from
      March: 31, 30, 31, 30, 31, 31, 30, 31, 30, 31, 31 days in turn. */
  function MonthStart(m: int): int
  {
    (153 * MonthIndex(m) + 2) / 5
  }

  /** Days from 0000-03-01 to 1 March of year yy + 1 (the start of March-based
      year yy): 146097 days per 400-year era, then 365 per year plus a day
      every fourth year except every hundredth. */
  function MarchDays(yy: int): int
  {
    var era := yy / 400;
    var yoe := yy - era * 400;
    era * 146097 + 365 * yoe + yoe / 4 - yoe / 100
  }

  /** Day number, counted from 1970-01-01, of the date (y, m, d). This is the
      reference definition the label is checked against. */
  function DaysFromCivil(y: int, m: int, d: int): int
  {
    MarchDays(MarchYear(y, m)) + MonthStart(m) + d - 1 - 719468
  }

  /** Year of the era (counted from March) and day of that year, for day
      doe of an era: 36524-day centuries (the last one a day longer), then
      1461-day four-year cycles, then 365-day years (the last one of a cycle
      a day longer). */
  function YearDay(doe: int): (int, int)
  {
    var c := if doe / 36524 < 3 then doe / 36524 else 3;
    var doc := doe - 36524 * c;
    var q := doc / 1461;
    var doq := doc - 1461 * q;
    var yq := if doq / 365 < 3 then doq / 365 else 3;
    (100 * c + 4 * q + yq, doq - 365 * yq)
  }

  /** Month and day of day doy of a year counted from 1 March. */
  function MonthDay(doy: int): (int, int)
  {
    var mp := (5 * doy + 2) / 153;
    (if mp < 10 then mp + 3 else mp - 9, doy - (153 * mp + 2) / 5 + 1)
  }

  /** The date of day doe of the era that starts on 0000-03-01. */
  function EraCivil(doe: int): (int, int, int)
  {
    var (yoe, doy) := YearDay(doe);
    var (m, d) := MonthDay(doy);
    (if m <= 2 then yoe + 1 else yoe, m, d)
  }

  /** Proleptic Gregorian (year, month, day) of a day number counted from
      1970-01-01: the day number is split into 400-year eras (146097 days)
      counted from 0000-03-01 and a day within the era. */
  function CivilFromDays(days: int): (int, int, int)
  {
    var z := days + 719468;
    var c := EraCivil(z % 146097);
    (400 * (z / 146097) + c.0, c.1, c.2)
  }

  /** The centuries, four-year cycles, years and days YearDay splits doe into. */
  lemma EraParts(doe: int) returns (c: int, q: int, yq: int, doy: int)
    requires 0 <= doe < 146097
    ensures YearDay(doe) == (100 * c + 4 * q + yq, doy)
    ensures 0 <= c <= 3 && 0 <= q <= 24 && 0 <= yq <= 3 && 0 <= doy <= 365
    ensures doy == 365 ==> yq == 3 && (q < 24 || c == 3)
    ensures doe == 36524 * c + 1461 * q + 365 * yq + doy
  {
    c := if doe / 36524 < 3 then doe / 36524 else 3;
    var doc := doe - 36524 * c;
    q := doc / 1461;
    var doq := doc - 1461 * q;
    yq := if doq / 365 < 3 then doq / 365 else 3;
    doy := doq - 365 * yq;
  }

  lemma YearOfEra(c: int, q: int, yq: int)
    requires 0 <= c <= 3 && 0 <= q <= 24 && 0 <= yq <= 3
    ensures var yoe := 100 * c + 4 * q + yq;
      && 0 <= yoe < 400 && yoe / 4 == 25 * c + q && yoe / 100 == c
      && 365 * yoe + yoe / 4 - yoe / 100 == 36524 * c + 1461 * q + 365 * yq
  {
  }

  lemma LeapOfEra(c: int, q: int)
    requires 0 <= c <= 3 && 0 <= q <= 24 && (q < 24 || c == 3)
    ensures Leap(100 * c + 4 * q + 4)
  {
  }

  lemma YearDaySpec(doe: int)
    requires 0 <= doe < 146097
    ensures var (yoe, doy) := YearDay(doe);
      && 0 <= yoe < 400 && 0 <= doy <= 365
      && 365 * yoe + yoe / 4 - yoe / 100 + doy == doe
      && (doy == 365 ==> Leap(yoe + 1))
  {
    var c, q, yq, doy := EraParts(doe);
    YearOfEra(c, q, yq);
    if doy == 365 {
      LeapOfEra(c, q);
    }
  }

  lemma MonthDaySpec(doy: int)
    requires 0 <= doy <= 365
    ensures var (m, d) := MonthDay(doy);
      && 1 <= m <= 12 && 1 <= d
      && (m == 2 ==> d <= 28 || doy == 365)
      && (m != 2 ==> d <= DaysInMonth(0, m))
      && MonthStart(m) + d - 1 == doy
  {
    var mp := (5 * doy + 2) / 153;
    assert 0 <= mp <= 11;
  }

  lemma MarchDaysInEra(yoe: int)
    requires 0 <= yoe < 400
    ensures MarchDays(yoe) == 365 * yoe + yoe / 4 - yoe / 100
  {
    DivMod400(yoe, 0, yoe);
  }

  lemma EraCivilSpec(doe: int)
    requires 0 <= doe < 146097
    ensures var (y, m, d) := EraCivil(doe);
      ValidDate(y, m, d) && DaysFromCivil(y, m, d) == doe - 719468
  {
    YearDaySpec(doe);
    var (yoe, doy) := YearDay(doe);
    MonthDaySpec(doy);
    var (m, d) := MonthDay(doy);
    var y := if m <= 2 then yoe + 1 else yoe;
    assert EraCivil(doe) == (y, m, d);
    assert MarchYear(y, m) == yoe;
    MarchDaysInEra(yoe);
    assert m != 2 ==> DaysInMonth(y, m) == DaysInMonth(0, m);
  }

  lemma DivShift(a: int, e: int)
    ensures (400 * e + a) / 400 == e + a / 400
  {
    DivMod400(400 * e + a, e + a / 400, a % 400);
  }

  lemma MarchDaysShift(e: int, yy: int)
    ensures MarchDays(400 * e + yy) == 146097 * e + MarchDays(yy)
  {
    DivShift(yy, e);
  }

  lemma DivMod4(x: int, q: int, r: int)
    requires x == 4 * q + r && 0 <= r < 4
    ensures x / 4 == q && x % 4 == r
  {
  }

  lemma DivMod100(x: int, q: int, r: int)
    requires x == 100 * q + r && 0 <= r < 100
    ensures x / 100 == q && x % 100 == r
  {
  }

  lemma DivMod400(x: int, q: int, r: int)
    requires x == 400 * q + r && 0 <= r < 400
    ensures x / 400 == q && x % 400 == r
  {
  }

  lemma LeapShift(e: int, y: int)
    ensures Leap(400 * e + y) == Leap(y)
  {
    DivMod4(400 * e + y, 100 * e + y / 4, y % 4);
    DivMod100(400 * e + y, 4 * e + y / 100, y % 100);
    DivMod400(400 * e + y, e + y / 400, y % 400);
  }

  lemma ShiftedDate(e: int, y: int, m: int, d: int)
    requires ValidDate(y, m, d)
    ensures ValidDate(400 * e + y, m, d)
    ensures DaysFromCivil(400 * e + y, m, d) == 146097 * e + DaysFromCivil(y, m, d)
  {
    LeapShift(e, y);
    assert MarchYear(400 * e + y, m) == 400 * e + MarchYear(y, m);
    MarchDaysShift(e, MarchYear(y, m));
  }

  /** Every date of the era maps back to its day. */
  lemma ShiftedEra(e: int, doe: int)
    requires 0 <= doe < 146097
    ensures var c := EraCivil(doe);
      && ValidDate(400 * e + c.0, c.1, c.2)
      && DaysFromCivil(400 * e + c.0, c.1, c.2) == 146097 * e + doe - 719468
  {
    EraCivilSpec(doe);
    var c := EraCivil(doe);
    ShiftedDate(e, c.0, c.1, c.2);
  }

  /** The date of every day number is a real date, and counting days from
      1970-01-01 to it gives the day number back. */
  lemma CivilRoundTrip(days: int)
    ensures var c := CivilFromDays(days);
      ValidDate(c.0, c.1, c.2) && DaysFromCivil(c.0, c.1, c.2) == days
  {
    var z := days + 719468;
    var e, doe := z / 146097, z % 146097;
    assert CivilFromDays(days) == (400 * e + EraCivil(doe).0, EraCivil(doe).1, EraCivil(doe).2);
    ShiftedEra(e, doe);
  }

  lemma QuarterStep(x: int)
    ensures (x + 1) / 4 == x / 4 + (if (x + 1) % 4 == 0 then 1 else 0)
  {
    if x % 4 == 3 {
      DivMod4(x + 1, x / 4 + 1, 0);
    } else {
      DivMod4(x + 1, x / 4, x % 4 + 1);
    }
  }

  lemma CenturyStep(x: int)
    ensures (x + 1) / 100 == x / 100 + (if (x + 1) % 100 == 0 then 1 else 0)
  {
    if x % 100 == 99 {
      DivMod100(x + 1, x / 100 + 1, 0);
    } else {
      DivMod100(x + 1, x / 100, x % 100 + 1);
    }
  }

  lemma InEraYearLength(yy: int)
    requires yy % 400 < 399
    ensures MarchDays(yy + 1) == MarchDays(yy) + (if Leap(yy + 1) then 366 else 365)
  {
    var era, yoe := yy / 400, yy % 400;
    DivMod400(yy + 1, era, yoe + 1);
    DivMod4(yy + 1, 100 * era + (yoe + 1) / 4, (yoe + 1) % 4);
    DivMod100(yy + 1, 4 * era + (yoe + 1) / 100, (yoe + 1) % 100);
    QuarterStep(yoe);
    CenturyStep(yoe);
  }

  lemma LastEraYearLength(yy: int)
    requires yy % 400 == 399
    ensures MarchDays(yy + 1) == MarchDays(yy) + 366 && Leap(yy + 1)
  {
    var era := yy / 400;
    DivMod400(yy + 1, era + 1, 0);
    DivMod4(yy + 1, 100 * era + 100, 0);
  }

  /** A year counted from March has 366 days when the February it ends with
      has a leap day, and 365 otherwise. */
  lemma MarchYearLength(yy: int)
    ensures MarchDays(yy + 1) == MarchDays(yy) + (if Leap(yy + 1) then 366 else 365)
  {
    if yy % 400 < 399 {
      InEraYearLength(yy);
    } else {
      LastEraYearLength(yy);
    }
  }

  /** 1 March follows the last day of February. */
  lemma FebruaryEnd(y: int)
    ensures DaysFromCivil(y, 3, 1) == DaysFromCivil(y, 2, DaysInMonth(y, 2)) + 1
  {
    MarchYearLength(y - 1);
    assert MarchYear(y, 3) == y - 1 + 1;
  }

  /** Day numbers follow the calendar: the day after a real date is a real
      date and its day number is one more. */
  lemma DaysFromCivilNext(y: int, m: int, d: int)
    requires ValidDate(y, m, d)
    ensures var (y', m', d') := NextDate(y, m, d);
      ValidDate(y', m', d') && DaysFromCivil(y', m', d') == DaysFromCivil(y, m, d) + 1
  {
    if d < DaysInMonth(y, m) {
    } else if m == 2 {
      FebruaryEnd(y);
    } else if m < 12 {
      assert MarchYear(y, m + 1) == MarchYear(y, m);
    } else {
      assert MarchYear(y + 1, 1) == MarchYear(y, 12);
    }
  }

  function Digit(n: int): char
    requires 0 <= n < 10
  {
    (48 + n) as char
  }

  /** The value of a decimal digit, as `int` reads it. */
  function DigitValue(c: char): int
  {
    c as int - 48
  }

  /** The last two decimal digits of n, zero-padded (`%m`, `%d`). */
  function Digits2(n: int): string
  {
    [Digit(n / 10 % 10), Digit(n % 10)]
  }

  /** The last four decimal digits of n, zero-padded (`%Y`). */
  function Digits4(n: int): string
  {
    Digits2(n / 100) + Digits2(n % 100)
  }

  /** The value of a string of decimal digits, as `int` reads it. */
  function Number(s: string): int
  {
    if s == [] then 0 else 10 * Number(s[..|s| - 1]) + DigitValue(s[|s| - 1])
  }

  lemma DivMod10(x: int, q: int, r: int)
    requires x == 10 * q + r && 0 <= r < 10
    ensures x / 10 == q && x % 10 == r
  {
  }

  lemma NumberPair(a: char, b: char)
    ensures Number([a, b]) == 10 * DigitValue(a) + DigitValue(b)
  {
    assert [a, b][..1] == [a];
    assert [a][..0] == [];
    assert Number([a]) == DigitValue(a);
  }

  lemma Digits2Value(n: int)
    requires 0 <= n < 100
    ensures Number(Digits2(n)) == n
  {
    NumberPair(Digit(n / 10 % 10), Digit(n % 10));
    DivMod10(n / 10, 0, n / 10);
  }

  lemma NumberAppend2(a: string, b: string)
    requires |b| == 2
    ensures Number(a + b) == 100 * Number(a) + Number(b)
  {
    var s := a + b;
    assert s[..|s| - 1] == a + [b[0]];
    assert (a + [b[0]])[..|a|] == a;
    assert Number(a + [b[0]]) == 10 * Number(a) + DigitValue(b[0]);
    assert b[..1][..0] == [];
    assert Number(b[..1]) == DigitValue(b[0]);
  }

  lemma Digits4Value(n: int)
    requires 0 <= n < 10000
    ensures Number(Digits4(n)) == n
  {
    NumberAppend2(Digits2(n / 100), Digits2(n % 100));
    Digits2Value(n / 100);
    Digits2Value(n % 100);
  }

  /** `"%Y-%m-%d"` of the date (y, m, d). */
  function Label(y: int, m: int, d: int): string
  {
    Digits4(y) + "-" + Digits2(m) + "-" + Digits2(d)
  }

  /** `instant.strftime("%Y-%m-%d")`: ten characters, digits and dashes only. */
  function DateLabel(t: int): (r: string)
    ensures |r| == 10 && r[4] == '-' && r[7] == '-'
  {
    var c := CivilFromDays(t / DayMs);
    Label(c.0, c.1, c.2)
  }

  /** The day number that a `"%Y-%m-%d"` label names. */
  function LabelDay(s: string): int
    requires |s| == 10
  {
    DaysFromCivil(Number(s[..4]), Number(s[5..7]), Number(s[8..]))
  }

  lemma LabelParts(a: string, b: string, c: string)
    requires |a| == 4 && |b| == 2 && |c| == 2
    ensures var s := a + "-" + b + "-" + c;
      |s| == 10 && s[..4] == a && s[5..7] == b && s[8..] == c
  {
  }

  lemma LabelFields(y: int, m: int, d: int)
    requires 0 <= y < 10000 && 0 <= m < 100 && 0 <= d < 100
    ensures var s := Label(y, m, d);
      |s| == 10 && Number(s[..4]) == y && Number(s[5..7]) == m && Number(s[8..]) == d
  {
    Digits4Value(y);
    Digits2Value(m);
    Digits2Value(d);
    LabelParts(Digits4(y), Digits2(m), Digits2(d));
  }

  lemma LabelDayOf(y: int, m: int, d: int)
    requires 0 <= y < 10000 && 0 <= m < 100 && 0 <= d < 100
    ensures LabelDay(Label(y, m, d)) == DaysFromCivil(y, m, d)
  {
    LabelFields(y, m, d);
  }

  /** Instants whose year Python's `datetime` can hold (1 to 9999). */
  predicate InYearRange(t: int)
  {
    1 <= CivilFromDays(t / DayMs).0 <= 9999
  }

  /** Reading the label of an instant back gives the day it falls in. */
  lemma LabelRoundTrip(t: int)
    requires InYearRange(t)
    ensures LabelDay(DateLabel(t)) == t / DayMs
  {
    var c := CivilFromDays(t / DayMs);
    CivilRoundTrip(t / DayMs);
    LabelDayOf(c.0, c.1, c.2);
  }

  /** Two instants get the same label exactly when they fall in the same day. */
  lemma DateLabelInjective(t1: int, t2: int)
    requires InYearRange(t1) && InYearRange(t2)
    ensures DateLabel(t1) == DateLabel(t2) <==> t1 / DayMs == t2 / DayMs
  {
    LabelRoundTrip(t1);
    LabelRoundTrip(t2);
  }

  /** How many whole-day steps from `start` stay strictly before `end`:
      ceil((end - start) / 1 day), or zero for an empty range. */
  function DayCount(start: int, end: int): (n: nat)
    ensures start >= end ==> n == 0
    ensures start < end ==> start + (n - 1) * DayMs < end <= start + n * DayMs
  {
    if start < end then (end - start + DayMs - 1) / DayMs else 0
  }

  /** f applied to the day starts `start`, `start + 1 day`, ... that lie
      before `end`, in increasing order. */
  function DaySteps<T>(f: int -> T, start: int, end: int): seq<T>
    decreases end - start
  {
    if start < end then [f(start)] + DaySteps(f, start + DayMs, end) else []
  }

  lemma {:induction false} DayStepsLength<T>(f: int -> T, start: int, end: int)
    ensures |DaySteps(f, start, end)| == DayCount(start, end)
    decreases end - start
  {
    if start < end {
      DayStepsLength(f, start + DayMs, end);
    }
  }

  /** There is one entry per whole day from start, ceil((end - start) / 1 day)
      in all; the k-th is f at start + k days, which lies in [start, end). */
  lemma {:induction false} DayStepsAt<T>(f: int -> T, start: int, end: int, k: nat)
    requires k < DayCount(start, end)
    ensures |DaySteps(f, start, end)| == DayCount(start, end)
    ensures start <= start + k * DayMs < end
    ensures DaySteps(f, start, end)[k] == f(start + k * DayMs)
    decreases k
  {
    DayStepsLength(f, start, end);
    if k > 0 {
      var next := start + DayMs;
      assert next + (k - 1) * DayMs == start + k * DayMs;
      DayStepsAt(f, next, end, k - 1);
    }
  }

  /** The one-day windows from the day starts cover [start, end): every
      instant t in it falls in the window of day (t - start) / 1 day. */
  lemma DayWindowsCover(start: int, end: int, t: int)
    requires start <= t < end
    ensures var k := (t - start) / DayMs;
      && k < DayCount(start, end)
      && start + k * DayMs <= t < start + k * DayMs + DayMs
  {
    var k := (t - start) / DayMs;
    var n := DayCount(start, end);
    assert k * DayMs <= t - start < k * DayMs + DayMs;
  }

  lemma EpochExample()
    ensures DaysFromCivil(1970, 1, 1) == 0
  {
  }

  lemma YearDayExample()
    ensures YearDay(8584) == (23, 184)
  {
    assert 8584 / 36524 == 0 && 8584 / 1461 == 5 && 1279 / 365 == 3;
  }

  lemma MonthDayExample()
    ensures MonthDay(184) == (9, 1)
  {
    assert (5 * 184 + 2) / 153 == 6 && (153 * 6 + 2) / 5 == 184;
  }

  lemma CivilExample()
    ensures CivilFromDays(19601) == (2023, 9, 1)
  {
    YearDayExample();
    MonthDayExample();
    assert EraCivil(8584) == (23, 9, 1);
    assert 739069 / 146097 == 5 && 739069 % 146097 == 8584;
  }

  lemma DigitsExample()
    ensures Digits4(2023) == "2023" && Digits2(9) == "09" && Digits2(1) == "01"
  {
  }

  /** 1 September 2023, 00:00 UTC, is labelled "2023-09-01". */
  lemma LabelExample()
    ensures DateLabel(1_693_526_400_000) == "2023-09-01"
  {
    assert 1_693_526_400_000 / DayMs == 19601;
    CivilExample();
    DigitsExample();
  }

  lemma DateLabelChars(t: int)
    ensures forall i :: 0 <= i < |DateLabel(t)| ==> DateLabel(t)[i] == '-' || '0' <= DateLabel(t)[i] <= '9'
  {
  }
}
