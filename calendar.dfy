/**
 * The calendar page: which month is shown, the first and last day of that
 * month under the Gregorian rule, the neighbouring months its arrows lead to,
 * and how the month's entries are grouped per day.
 */
module Calendar {
  import opened Wrappers
  import opened Text
  import opened Numbers
  import opened Sleep

  // ---------------------------------------------------------------- dates

  /** The Gregorian leap-year rule. */
  predicate IsLeapYear(year: int) {
    year % 4 == 0 && (year % 100 != 0 || year % 400 == 0)
  }

  function DaysInMonth(year: int, month: int): (n: int)
    requires 1 <= month <= 12
    ensures 28 <= n <= 31
  {
    if month == 2 then (if IsLeapYear(year) then 29 else 28)
    else if month == 4 || month == 6 || month == 9 || month == 11 then 30
    else 31
  }

  /** A `datetime.date`; years run from 1 to 9999 as in Python. */
  datatype Date = Date(year: int, month: int, day: int)

  predicate ValidDate(d: Date) {
    1 <= d.year <= 9999 && 1 <= d.month <= 12 && 1 <= d.day <= DaysInMonth(d.year, d.month)
  }

  /** A month of a year, as the calendar page names it in `ym=YYYY-MM`. */
  datatype YearMonth = YearMonth(year: int, month: int)

  predicate ValidMonth(ym: YearMonth) {
    1 <= ym.year <= 9999 && 1 <= ym.month <= 12
  }

  function DaysInYear(year: int): int {
    if IsLeapYear(year) then 366 else 365
  }

  /** Days in the years before `year`: the count behind Python's `date.toordinal()`. */
  function DaysBeforeYear(year: int): int {
    var y := year - 1;
    365 * y + y / 4 - y / 100 + y / 400
  }

  /** Days in the months of `year` before `month`. */
  function DaysBeforeMonth(year: int, month: int): int
    requires 1 <= month <= 13
  {
    if month == 1 then 0 else DaysBeforeMonth(year, month - 1) + DaysInMonth(year, month - 1)
  }

  /** `date.toordinal()`: 1 for 0001-01-01, one more for each following day. */
  function Ordinal(d: Date): int
    requires 1 <= d.month <= 12
  {
    DaysBeforeYear(d.year) + DaysBeforeMonth(d.year, d.month) + d.day
  }

  /** `d + timedelta(days=1)`; none where Python raises `OverflowError` after 9999-12-31. */
  function NextDay(d: Date): (r: Option<Date>)
    requires ValidDate(d)
    ensures r.Some? ==> ValidDate(r.value)
  {
    if d.day < DaysInMonth(d.year, d.month) then Some(Date(d.year, d.month, d.day + 1))
    else if d.month < 12 then Some(Date(d.year, d.month + 1, 1))
    else if d.year < 9999 then Some(Date(d.year + 1, 1, 1))
    else None
  }

  /** `d - timedelta(days=1)`; none where Python raises `OverflowError` before 0001-01-01. */
  function PrevDay(d: Date): (r: Option<Date>)
    requires ValidDate(d)
    ensures r.Some? ==> ValidDate(r.value)
  {
    if d.day > 1 then Some(Date(d.year, d.month, d.day - 1))
    else if d.month > 1 then Some(Date(d.year, d.month - 1, DaysInMonth(d.year, d.month - 1)))
    else if d.year > 1 then Some(Date(d.year - 1, 12, 31))
    else None
  }

  /** `d + timedelta(days=n)`, one day at a time. */
  function AddDays(d: Date, n: nat): (r: Option<Date>)
    requires ValidDate(d)
    ensures r.Some? ==> ValidDate(r.value)
    decreases n
  {
    if n == 0 then Some(d)
    else
      match NextDay(d)
      case None => None
      case Some(next) => AddDays(next, n - 1)
  }

  /** Going from `y` to `y + 1` adds one to `y / k` exactly when `k` divides `y + 1`. */
  lemma FloorStep(y: int, k: int)
    requires k == 4 || k == 100 || k == 400
    ensures (y + 1) / k == y / k + (if (y + 1) % k == 0 then 1 else 0)
  {
    var q, r := y / k, y % k;
    assert y == k * q + r && 0 <= r < k;
    if r == k - 1 {
      assert y + 1 == k * (q + 1);
    } else {
      assert y + 1 == k * q + (r + 1);
    }
  }

  /** A multiple of 400 is one of 100, and a multiple of 100 is one of 4. */
  lemma DivisorChain(n: int)
    ensures n % 400 == 0 ==> n % 100 == 0
    ensures n % 100 == 0 ==> n % 4 == 0
  {
    var q400, q100, r100, q4, r4 := n / 400, n / 100, n % 100, n / 4, n % 4;
    assert n == 400 * q400 + n % 400;
    assert n == 100 * q100 + r100 && 0 <= r100 < 100;
    assert n == 4 * q4 + r4 && 0 <= r4 < 4;
    if n % 400 == 0 {
      var m := 4 * q400 - q100;
      assert r100 == 100 * m;
    }
    if n % 100 == 0 {
      var m := 25 * q100 - q4;
      assert r4 == 4 * m;
    }
  }

  lemma DaysBeforeYearStep(year: int)
    ensures DaysBeforeYear(year + 1) == DaysBeforeYear(year) + DaysInYear(year)
  {
    var y := year - 1;
    FloorStep(y, 4);
    FloorStep(y, 100);
    FloorStep(y, 400);
    DivisorChain(year);
    var leaps := (if year % 4 == 0 then 1 else 0) - (if year % 100 == 0 then 1 else 0) + (if year % 400 == 0 then 1 else 0);
    assert DaysBeforeYear(year + 1) == DaysBeforeYear(year) + 365 + leaps;
    assert DaysInYear(year) == 365 + leaps;
  }

  lemma DaysBeforeNewYear(year: int)
    ensures DaysBeforeMonth(year, 13) == DaysInYear(year)
  {
    assert DaysBeforeMonth(year, 2) == 31;
    assert DaysBeforeMonth(year, 3) == 31 + DaysInMonth(year, 2);
    assert DaysBeforeMonth(year, 4) == 62 + DaysInMonth(year, 2);
    assert DaysBeforeMonth(year, 5) == 92 + DaysInMonth(year, 2);
    assert DaysBeforeMonth(year, 6) == 123 + DaysInMonth(year, 2);
    assert DaysBeforeMonth(year, 7) == 153 + DaysInMonth(year, 2);
    assert DaysBeforeMonth(year, 8) == 184 + DaysInMonth(year, 2);
    assert DaysBeforeMonth(year, 9) == 215 + DaysInMonth(year, 2);
    assert DaysBeforeMonth(year, 10) == 245 + DaysInMonth(year, 2);
    assert DaysBeforeMonth(year, 11) == 276 + DaysInMonth(year, 2);
    assert DaysBeforeMonth(year, 12) == 306 + DaysInMonth(year, 2);
    assert DaysBeforeMonth(year, 13) == 337 + DaysInMonth(year, 2);
  }

  /** The next day is the next ordinal: the day-by-day rule agrees with the 400-year calendar count. */
  lemma NextDayOrdinal(d: Date)
    requires ValidDate(d)
    ensures NextDay(d).None? <==> d == Date(9999, 12, 31)
    ensures NextDay(d).Some? ==> Ordinal(NextDay(d).value) == Ordinal(d) + 1
  {
    if d.day < DaysInMonth(d.year, d.month) {
    } else if d.month < 12 {
      assert DaysBeforeMonth(d.year, d.month + 1) == DaysBeforeMonth(d.year, d.month) + DaysInMonth(d.year, d.month);
    } else if d.year < 9999 {
      DaysBeforeYearStep(d.year);
      DaysBeforeNewYear(d.year);
      assert DaysBeforeMonth(d.year, 13) == DaysBeforeMonth(d.year, 12) + 31;
    }
  }

  /** The previous day is the previous ordinal. */
  lemma PrevDayOrdinal(d: Date)
    requires ValidDate(d)
    ensures PrevDay(d).None? <==> d == Date(1, 1, 1)
    ensures PrevDay(d).Some? ==> Ordinal(PrevDay(d).value) == Ordinal(d) - 1
  {
    if d.day > 1 {
    } else if d.month > 1 {
      assert DaysBeforeMonth(d.year, d.month) == DaysBeforeMonth(d.year, d.month - 1) + DaysInMonth(d.year, d.month - 1);
    } else if d.year > 1 {
      DaysBeforeYearStep(d.year - 1);
      DaysBeforeNewYear(d.year - 1);
      assert DaysBeforeMonth(d.year - 1, 13) == DaysBeforeMonth(d.year - 1, 12) + 31;
    }
  }

  // ---------------------------------------------------------------- month bounds

  /** Date order: by year, then month, then day. */
  predicate DateBefore(a: Date, b: Date) {
    a.year < b.year || (a.year == b.year && (a.month < b.month || (a.month == b.month && a.day < b.day)))
  }

  /**
   * `month_bounds(year, month)`: the first day of the month and its last,
   * day 28, 29, 30 or 31 by the month and the leap-year rule; nothing exists
   * after the last day within the month.
   */
  function MonthBounds(year: int, month: int): (r: (Date, Date))
    requires ValidMonth(YearMonth(year, month))
    ensures ValidDate(r.0) && ValidDate(r.1)
    ensures r.0 == Date(year, month, 1)
    ensures r.1.year == year && r.1.month == month
    ensures !ValidDate(Date(year, month, r.1.day + 1))
    ensures month == 2 ==> (r.1.day == 29 <==> IsLeapYear(year))
  {
    (Date(year, month, 1), Date(year, month, DaysInMonth(year, month)))
  }

  /** February of a leap year and of a common year, and of the century years 1900 and 2000. */
  lemma MonthBoundsExamples()
    ensures MonthBounds(2024, 2) == (Date(2024, 2, 1), Date(2024, 2, 29))
    ensures MonthBounds(2023, 2) == (Date(2023, 2, 1), Date(2023, 2, 28))
    ensures MonthBounds(1900, 2).1.day == 28 && MonthBounds(2000, 2).1.day == 29
  {
  }

  /** Exactly the dates of the month lie between its bounds. */
  lemma MonthBoundsCoverMonth(year: int, month: int, d: Date)
    requires ValidMonth(YearMonth(year, month)) && ValidDate(d)
    ensures var (first, last) := MonthBounds(year, month);
            (!DateBefore(d, first) && !DateBefore(last, d)) <==> (d.year == year && d.month == month)
  {
  }

  // ---------------------------------------------------------------- ISO text

  /** `n` in exactly `width` decimal digits, zero-padded (`%0{width}d`) for `n < 10^width`. */
  function FixedDigits(n: nat, width: nat): (r: string)
    ensures |r| == width
  {
    if width == 0 then [] else FixedDigits(n / 10, width - 1) + [DigitChar(n % 10)]
  }

  /** `date.isoformat()`: `YYYY-MM-DD`, the text the dates are stored and compared as. */
  function IsoDate(d: Date): string
    requires ValidDate(d)
  {
    FixedDigits(d.year, 4) + "-" + FixedDigits(d.month, 2) + "-" + FixedDigits(d.day, 2)
  }

  /** Comparing texts whose first parts have the same length compares the first parts, then the rest. */
  lemma {:induction false} LexLessConcat(x1: string, x2: string, y1: string, y2: string)
    requires |x1| == |y1|
    ensures LexLess(x1 + x2, y1 + y2) <==> LexLess(x1, y1) || (x1 == y1 && LexLess(x2, y2))
  {
    if x1 != [] {
      assert (x1 + x2)[0] == x1[0] && (y1 + y2)[0] == y1[0];
      assert (x1 + x2)[1..] == x1[1..] + x2 && (y1 + y2)[1..] == y1[1..] + y2;
      LexLessConcat(x1[1..], x2, y1[1..], y2);
      if x1[0] == y1[0] {
        assert x1 == [x1[0]] + x1[1..] && y1 == [y1[0]] + y1[1..];
      }
    } else {
      assert x1 + x2 == x2 && y1 + y2 == y2;
    }
  }

  /** Fixed-width digit texts compare as their numbers do. */
  lemma {:induction false} FixedDigitsOrder(a: nat, b: nat, width: nat)
    requires a < Pow10(width) && b < Pow10(width)
    ensures LexLess(FixedDigits(a, width), FixedDigits(b, width)) <==> a < b
    ensures FixedDigits(a, width) == FixedDigits(b, width) <==> a == b
  {
    if width == 0 {
      LexLessIrreflexive([]);
    } else {
      FixedDigitsOrder(a / 10, b / 10, width - 1);
      LexLessConcat(FixedDigits(a / 10, width - 1), [DigitChar(a % 10)],
                    FixedDigits(b / 10, width - 1), [DigitChar(b % 10)]);
      if FixedDigits(a, width) == FixedDigits(b, width) {
        var n := width - 1;
        assert FixedDigits(a, width)[..n] == FixedDigits(a / 10, n);
        assert FixedDigits(b, width)[..n] == FixedDigits(b / 10, n);
        assert DigitChar(a % 10) == FixedDigits(a, width)[n] == FixedDigits(b, width)[n] == DigitChar(b % 10);
      }
    }
  }

  lemma IsoDateOrder(a: Date, b: Date)
    requires ValidDate(a) && ValidDate(b)
    ensures LexLess(IsoDate(a), IsoDate(b)) <==> DateBefore(a, b)
  {
    assert Pow10(2) == 100 && Pow10(4) == 10000;
    FixedDigitsOrder(a.year, b.year, 4);
    FixedDigitsOrder(a.month, b.month, 2);
    FixedDigitsOrder(a.day, b.day, 2);
    var ya, ma, da := FixedDigits(a.year, 4), FixedDigits(a.month, 2), FixedDigits(a.day, 2);
    var yb, mb, db := FixedDigits(b.year, 4), FixedDigits(b.month, 2), FixedDigits(b.day, 2);
    assert IsoDate(a) == ya + ("-" + (ma + ("-" + da)));
    assert IsoDate(b) == yb + ("-" + (mb + ("-" + db)));
    LexLessConcat(ya, "-" + (ma + ("-" + da)), yb, "-" + (mb + ("-" + db)));
    LexLessConcat("-", ma + ("-" + da), "-", mb + ("-" + db));
    LexLessConcat(ma, "-" + da, mb, "-" + db);
    LexLessConcat("-", da, "-", db);
    LexLessIrreflexive("-");
  }

  /**
   * The month query `date BETWEEN first.isoformat() AND last.isoformat()`,
   * compared as text, selects a stored ISO date exactly when it is in the month.
   */
  lemma MonthQuerySelectsMonth(year: int, month: int, d: Date)
    requires ValidMonth(YearMonth(year, month)) && ValidDate(d)
    ensures var (first, last) := MonthBounds(year, month);
            (!LexLess(IsoDate(d), IsoDate(first)) && !LexLess(IsoDate(last), IsoDate(d)))
              <==> (d.year == year && d.month == month)
  {
    var (first, last) := MonthBounds(year, month);
    IsoDateOrder(d, first);
    IsoDateOrder(last, d);
    MonthBoundsCoverMonth(year, month, d);
  }

  // ---------------------------------------------------------------- neighbouring months

  function MonthOf(d: Date): YearMonth {
    YearMonth(d.year, d.month)
  }

  /** `(current.replace(day=1) - timedelta(days=1)).replace(day=1)`, as a month. */
  function PrevMonth(current: YearMonth): (r: Option<YearMonth>)
    requires ValidMonth(current)
    ensures r.Some? ==> ValidMonth(r.value)
  {
    match PrevDay(Date(current.year, current.month, 1))
    case None => None
    case Some(d) => Some(MonthOf(d))
  }

  /** `(current.replace(day=28) + timedelta(days=4)).replace(day=1)`, as a month. */
  function NextMonth(current: YearMonth): (r: Option<YearMonth>)
    requires ValidMonth(current)
    ensures r.Some? ==> ValidMonth(r.value)
  {
    match AddDays(Date(current.year, current.month, 28), 4)
    case None => None
    case Some(d) => Some(MonthOf(d))
  }

  /**
   * The arrows lead to the adjacent months, the year changing at January and
   * December; only before January of year 1 and after December of 9999 does
   * the date arithmetic overflow.
   */
  lemma AdjacentMonths(current: YearMonth)
    requires ValidMonth(current)
    ensures PrevMonth(current) ==
              if current.month > 1 then Some(YearMonth(current.year, current.month - 1))
              else if current.year > 1 then Some(YearMonth(current.year - 1, 12))
              else None
    ensures NextMonth(current) ==
              if current.month < 12 then Some(YearMonth(current.year, current.month + 1))
              else if current.year < 9999 then Some(YearMonth(current.year + 1, 1))
              else None
  {
    var (y, m) := (current.year, current.month);
    var d28 := Date(y, m, 28);
    var n := DaysInMonth(y, m);
    if m < 12 || y < 9999 {
      var first := if m < 12 then Date(y, m + 1, 1) else Date(y + 1, 1, 1);
      // the last day of the month is reached within the four steps, then the new month starts
      var k := n - 28;
      assert AddDays(d28, 4) == AddDays(Date(y, m, n), 4 - k) by {
        AddDaysWithinMonth(d28, k, 4);
      }
      assert NextDay(Date(y, m, n)) == Some(first);
      AddDaysWithinMonth(first, 3 - k, 3 - k);
    } else {
      assert AddDays(d28, 4) == AddDays(Date(y, m, n), 4 - (n - 28)) by {
        AddDaysWithinMonth(d28, n - 28, 4);
      }
      assert NextDay(Date(y, m, n)) == None;
    }
  }

  /** Stepping `k` days that stay inside the month only moves the day number. */
  lemma {:induction false} AddDaysWithinMonth(d: Date, k: nat, n: nat)
    requires ValidDate(d) && k <= n && d.day + k <= DaysInMonth(d.year, d.month)
    ensures AddDays(d, n) == AddDays(Date(d.year, d.month, d.day + k), n - k)
    decreases k
  {
    if k > 0 {
      assert NextDay(d) == Some(Date(d.year, d.month, d.day + 1));
      AddDaysWithinMonth(Date(d.year, d.month, d.day + 1), k - 1, n - 1);
    }
  }

  // ---------------------------------------------------------------- the shown month

  /** Largest value of a C `int`, the range Python's `date()` converts its arguments to. */
  const IntMax: int := 0x7fff_ffff

  /** What `int(part)` gives for each part of `ym.split("-")`, when there are exactly two. */
  function RequestedMonth(ym: string): Option<(int, int)> {
    var parts := Split(ym, '-');
    if |parts| != 2 then None
    else
      match (ParseIntLiteral(parts[0]), ParseIntLiteral(parts[1]))
      case (Some(year), Some(month)) => Some((year, month))
      case _ => None
  }

  /**
   * The month the calendar shows for `ym` (already stripped), as the code
   * is written: today's month when `ym` is empty or raises `ValueError`
   * (not two parts, a part that is not an integer, no such month); none when
   * a part is outside C `int` range, where `date()` raises `OverflowError`,
   * which nothing catches.
   */
  function ShownMonthAsWritten(ym: string, today: Date): (r: Option<YearMonth>)
    requires ValidDate(today)
  {
    if ym == "" then Some(MonthOf(today))
    else
      match RequestedMonth(ym)
      case None => Some(MonthOf(today))
      case Some((year, month)) =>
        if year < -IntMax - 1 || year > IntMax || month < -IntMax - 1 || month > IntMax then None
        else if ValidMonth(YearMonth(year, month)) then Some(YearMonth(year, month))
        else Some(MonthOf(today))
  }

  /** Where the parts of "<year>-1" sit when `ym.split("-")` cuts it. */
  lemma YearDashOne(year: nat)
    ensures Split(DecimalString(year) + "-1", '-') == [DecimalString(year), "1"]
  {
    var text := DecimalString(year);
    assert text == NatString(year);
    assert '-' !in text;
    SplitAtSep(text, '-', "1");
    SplitNoSep("1", '-');
    assert text + "-1" == text + ['-'] + "1";
  }

  /**
   * A year beyond C `int` in `ym` (for instance "2147483648-1") makes the
   * page fail instead of falling back to today's month, as long as `int()`
   * still reads the year.
   */
  lemma ShownMonthOverflow(year: int, today: Date)
    requires year > IntMax && WithinDigitLimit(year) && ValidDate(today)
    ensures ShownMonthAsWritten(DecimalString(year) + "-1", today).None?
  {
    YearDashOne(year);
    IntOfDecimalString(year);
    IntOfDecimalString(1);
    assert DecimalString(1) == "1";
    assert RequestedMonth(DecimalString(year) + "-1") == Some((year, 1));
  }

  /**
   * A year of more than `MaxStrDigits` digits makes `int()` raise
   * `ValueError`, which is caught: the page shows today's month.
   */
  lemma ShownMonthDigitLimit(year: int, today: Date)
    requires year >= 0 && !WithinDigitLimit(year) && ValidDate(today)
    ensures ShownMonthAsWritten(DecimalString(year) + "-1", today) == Some(MonthOf(today))
  {
    YearDashOne(year);
    IntOfDecimalString(year);
    assert RequestedMonth(DecimalString(year) + "-1").None?;
  }

  /**
   * The month the calendar shows for `ym`, with every unreadable request,
   * the overflowing ones included, falling back to today's month.
   */
  function ShownMonth(ym: string, today: Date): (r: YearMonth)
    requires ValidDate(today)
    ensures ValidMonth(r)
    ensures r == MonthOf(today) || (RequestedMonth(ym) == Some((r.year, r.month)) && ym != "")
    ensures ym != "" && RequestedMonth(ym).Some? ==>
              var (year, month) := RequestedMonth(ym).value;
              ValidMonth(YearMonth(year, month)) ==> r == YearMonth(year, month)
  {
    if ym == "" then MonthOf(today)
    else
      match RequestedMonth(ym)
      case None => MonthOf(today)
      case Some((year, month)) =>
        if ValidMonth(YearMonth(year, month)) then YearMonth(year, month) else MonthOf(today)
  }

  /** Where the code as written shows a month, it shows the same one as the corrected rule. */
  lemma ShownMonthAgrees(ym: string, today: Date)
    requires ValidDate(today)
    ensures ShownMonthAsWritten(ym, today).Some? ==> ShownMonthAsWritten(ym, today).value == ShownMonth(ym, today)
  {
  }

  /**
   * The calendar page for `ym`: the month query on the bounds of the shown
   * month selects a stored ISO date exactly when it lies in that month.
   */
  lemma ShownMonthQuery(ym: string, today: Date, d: Date)
    requires ValidDate(today) && ValidDate(d)
    ensures var shown := ShownMonth(ym, today);
            var (first, last) := MonthBounds(shown.year, shown.month);
            (!LexLess(IsoDate(d), IsoDate(first)) && !LexLess(IsoDate(last), IsoDate(d))) <==> MonthOf(d) == shown
  {
    var shown := ShownMonth(ym, today);
    MonthQuerySelectsMonth(shown.year, shown.month, d);
  }

  // ---------------------------------------------------------------- grouping per day

  /** A row of the month query: `dream_id, date, title, mood, vividness, sleep_minutes, image_path`. */
  datatype CalendarRow = CalendarRow(
    dreamId: int, date: string, title: string, mood: Option<int>,
    vividness: Option<int>, sleepMinutes: Option<int>, imagePath: Option<string>)

  /** What a calendar cell shows: the row and its sleep text. */
  datatype CalendarCell = CalendarCell(row: CalendarRow, sleepDisplay: string)

  function CellOf(row: CalendarRow): CalendarCell {
    CalendarCell(row, FormatSleepMinutes(row.sleepMinutes))
  }

  function DatesOf(rows: seq<CalendarRow>): set<string> {
    set i | 0 <= i < |rows| :: rows[i].date
  }

  /** Number of rows dated `date`. */
  function CountOnDate(rows: seq<CalendarRow>, date: string): nat {
    if rows == [] then 0
    else CountOnDate(rows[..|rows| - 1], date) + (if rows[|rows| - 1].date == date then 1 else 0)
  }

  /** Position of the first row dated `date`. */
  function FirstOnDate(rows: seq<CalendarRow>, date: string): (k: nat)
    requires date in DatesOf(rows)
    ensures k < |rows| && rows[k].date == date
    ensures forall j :: 0 <= j < k ==> rows[j].date != date
  {
    if rows[0].date == date then 0
    else
      assert date in DatesOf(rows[1..]) by {
        var i :| 0 <= i < |rows| && rows[i].date == date;
        assert rows[1..][i - 1] == rows[i];
      }
      1 + FirstOnDate(rows[1..], date)
  }

  lemma FirstOnDateUnique(rows: seq<CalendarRow>, date: string, k: nat)
    requires k < |rows| && rows[k].date == date
    requires forall j :: 0 <= j < k ==> rows[j].date != date
    ensures FirstOnDate(rows, date) == k
  {
  }

  lemma {:induction false} CountOnDatePositive(rows: seq<CalendarRow>, date: string)
    ensures CountOnDate(rows, date) > 0 <==> date in DatesOf(rows)
  {
    if rows != [] {
      var p := rows[..|rows| - 1];
      CountOnDatePositive(p, date);
      assert DatesOf(rows) == DatesOf(p) + {rows[|rows| - 1].date};
    }
  }

  /** The per-date counts of `rows`. */
  function CountsOf(rows: seq<CalendarRow>): map<string, nat> {
    map date | date in DatesOf(rows) :: CountOnDate(rows, date)
  }

  /** The per-date cells of `rows`: each date with the cell of its first row. */
  function CellsOf(rows: seq<CalendarRow>): map<string, CalendarCell> {
    map date | date in DatesOf(rows) :: CellOf(rows[FirstOnDate(rows, date)])
  }

  lemma DatesOfAppend(rows: seq<CalendarRow>, row: CalendarRow)
    ensures DatesOf(rows + [row]) == DatesOf(rows) + {row.date}
  {
    var all := rows + [row];
    forall date | date in DatesOf(rows) ensures date in DatesOf(all) {
      var i :| 0 <= i < |rows| && rows[i].date == date;
      assert all[i] == rows[i];
    }
    assert all[|rows|] == row;
  }

  lemma CountsOfAppend(rows: seq<CalendarRow>, row: CalendarRow)
    ensures CountsOf(rows + [row]) ==
              CountsOf(rows)[row.date := if row.date in CountsOf(rows) then CountsOf(rows)[row.date] + 1 else 1]
  {
    var all := rows + [row];
    assert all[..|rows|] == rows;
    DatesOfAppend(rows, row);
    CountOnDatePositive(rows, row.date);
  }

  /** Appending a row leaves the first row of every earlier date where it was. */
  lemma FirstOnDateAppend(rows: seq<CalendarRow>, row: CalendarRow, date: string)
    requires date in DatesOf(rows) && date in DatesOf(rows + [row])
    ensures FirstOnDate(rows + [row], date) == FirstOnDate(rows, date)
  {
    var k := FirstOnDate(rows, date);
    assert (rows + [row])[k] == rows[k];
    FirstOnDateUnique(rows + [row], date, k);
  }

  /** After appending a row, a date keeps the cell of its first earlier row, and a new date gets the row's cell. */
  lemma CellAfterAppend(rows: seq<CalendarRow>, row: CalendarRow, date: string)
    requires date in DatesOf(rows + [row])
    ensures CellsOf(rows + [row])[date] == if date in DatesOf(rows) then CellsOf(rows)[date] else CellOf(row)
  {
    var all := rows + [row];
    if date in DatesOf(rows) {
      FirstOnDateAppend(rows, row, date);
      assert all[FirstOnDate(rows, date)] == rows[FirstOnDate(rows, date)];
    } else {
      assert all[|rows|] == row;
      FirstOnDateUnique(all, date, |rows|);
    }
  }

  lemma CellsKeys(rows: seq<CalendarRow>)
    ensures CellsOf(rows).Keys == DatesOf(rows)
  {
  }

  lemma CellsOfAppend(rows: seq<CalendarRow>, row: CalendarRow)
    ensures CellsOf(rows + [row]) ==
              if row.date in CellsOf(rows) then CellsOf(rows) else CellsOf(rows)[row.date := CellOf(row)]
  {
    CellsKeys(rows);
    if row.date in DatesOf(rows) {
      CellsOfAppendSeen(rows, row);
    } else {
      CellsOfAppendNew(rows, row);
    }
  }

  lemma CellsOfAppendSeen(rows: seq<CalendarRow>, row: CalendarRow)
    requires row.date in DatesOf(rows)
    ensures CellsOf(rows + [row]) == CellsOf(rows)
  {
    var before, after := CellsOf(rows), CellsOf(rows + [row]);
    DatesOfAppend(rows, row);
    CellsKeys(rows);
    CellsKeys(rows + [row]);
    assert after.Keys == before.Keys;
    forall date | date in after
      ensures after[date] == before[date]
    {
      CellAfterAppend(rows, row, date);
    }
    SameMaps(after, before);
  }

  lemma CellsOfAppendNew(rows: seq<CalendarRow>, row: CalendarRow)
    requires row.date !in DatesOf(rows)
    ensures CellsOf(rows + [row]) == CellsOf(rows)[row.date := CellOf(row)]
  {
    var after := CellsOf(rows + [row]);
    var expected := CellsOf(rows)[row.date := CellOf(row)];
    DatesOfAppend(rows, row);
    CellsKeys(rows);
    CellsKeys(rows + [row]);
    assert after.Keys == expected.Keys;
    forall date | date in after
      ensures after[date] == expected[date]
    {
      CellAfterAppend(rows, row, date);
    }
    SameMaps(after, expected);
  }

  /** Maps with the same keys and the same value at every key are equal. */
  lemma SameMaps<K, V>(m1: map<K, V>, m2: map<K, V>)
    requires m1.Keys == m2.Keys
    requires forall k :: k in m1 ==> m1[k] == m2[k]
    ensures m1 == m2
  {
  }

  /**
   * The loop that fills `dreams_by_date` and `counts`: every date of the
   * month's rows gets the number of rows on it and the cell of the first of them.
   */
  method GroupByDate(rows: seq<CalendarRow>) returns (cells: map<string, CalendarCell>, counts: map<string, nat>)
    ensures cells.Keys == counts.Keys == DatesOf(rows)
    ensures forall date :: date in counts ==> counts[date] == CountOnDate(rows, date) && counts[date] >= 1
    ensures forall date :: date in cells ==> cells[date] == CellOf(rows[FirstOnDate(rows, date)])
  {
    cells, counts := map[], map[];
    var i := 0;
    while i < |rows|
      invariant 0 <= i <= |rows|
      invariant counts == CountsOf(rows[..i])
      invariant cells == CellsOf(rows[..i])
    {
      var row := rows[i];
      assert rows[..i + 1] == rows[..i] + [row];
      CountsOfAppend(rows[..i], row);
      CellsOfAppend(rows[..i], row);
      counts := counts[row.date := if row.date in counts then counts[row.date] + 1 else 1];
      if row.date !in cells {
        cells := cells[row.date := CellOf(row)];
      }
      i := i + 1;
    }
    assert rows[..i] == rows;
    forall date | date in counts
      ensures counts[date] >= 1
    {
      CountOnDatePositive(rows, date);
    }
  }

  // ---------------------------------------------------------------- mood colours

  /**
   * `mood_class(mood)`: the CSS class of a cell, "mood-" followed by the mood
   * for the five moods -2 to 2, and "mood-none" for no or any other mood.
   */
  function MoodClass(mood: Option<int>): (r: string)
    ensures mood.Some? && -2 <= mood.value <= 2 ==> r == "mood-" + DecimalString(mood.value)
    ensures !(mood.Some? && -2 <= mood.value <= 2) ==> r == "mood-none"
  {
    var classes := map[-2 := "mood--2", -1 := "mood--1", 0 := "mood-0", 1 := "mood-1", 2 := "mood-2"];
    assert DecimalString(-2) == "-2" && DecimalString(-1) == "-1";
    assert DecimalString(0) == "0" && DecimalString(1) == "1" && DecimalString(2) == "2";
    if mood.Some? && mood.value in classes then classes[mood.value] else "mood-none"
  }

  /** Different moods get different classes, and none of them is the class of a missing mood. */
  lemma MoodClassDistinct(a: int, b: int)
    requires -2 <= a <= 2 && -2 <= b <= 2 && a != b
    ensures MoodClass(Some(a)) != MoodClass(Some(b))
    ensures MoodClass(Some(a)) != MoodClass(None)
  {
    ValueOfDecimalString(a);
    ValueOfDecimalString(b);
    var pa, pb := "mood-" + DecimalString(a), "mood-" + DecimalString(b);
    assert pa[5..] == DecimalString(a) && pb[5..] == DecimalString(b);
    assert MoodClass(None) == "mood-none";
    assert pa[5] != 'n';
  }
}
