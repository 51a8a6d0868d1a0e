/** Calendar helpers of `src/lib/date-utils.ts`: the days of a month, weekdays,
    day comparison, the `yyyy-MM-dd` / `yyyy-MM` strings, and the days of a month
    a worker was employed. A JavaScript `Date` is reduced to its local calendar day. */
module DateUtils {
  import opened Options
  import opened Seqs

  /** A calendar day. `month` is 1-based (the source's `getMonth()` is 0-based). */
  datatype Date = Date(year: nat, month: nat, day: nat)

  /** Gregorian leap-year rule (RFC 3339, Appendix C). */
  predicate IsLeapYear(year: nat) {
    year % 4 == 0 && (year % 100 != 0 || year % 400 == 0)
  }

  /** Days per month (RFC 3339, section 5.7). */
  function DaysInMonth(year: nat, month: nat): (n: nat)
    requires 1 <= month <= 12
    ensures 28 <= n <= 31
  {
    if month == 2 then (if IsLeapYear(year) then 29 else 28)
    else if month == 4 || month == 6 || month == 9 || month == 11 then 30
    else 31
  }

  predicate ValidDate(d: Date) {
    1 <= d.month <= 12 && 1 <= d.day <= DaysInMonth(d.year, d.month)
  }

  /** date-fns `isBefore` on two start-of-day values. */
  predicate Before(a: Date, b: Date) {
    a.year < b.year ||
    (a.year == b.year && (a.month < b.month || (a.month == b.month && a.day < b.day)))
  }

  /** date-fns `isAfter` on two start-of-day values. */
  predicate IsAfter(a: Date, b: Date) {
    Before(b, a)
  }

  predicate Ascending(s: seq<Date>) {
    forall i, j :: 0 <= i < j < |s| ==> Before(s[i], s[j])
  }

  // ---------------------------------------------------------------------------
  // Day of the week, from a count of days since 0000-01-01 (proleptic Gregorian)

  /** Days in the years before `year`, summed year by year. */
  function DaysBeforeYear(year: nat): nat {
    if year == 0 then 0
    else DaysBeforeYear(year - 1) + (if IsLeapYear(year - 1) then 366 else 365)
  }

  /** The usual closed form of `DaysBeforeYear`: one leap day every four years,
      none on centuries, one again every four hundred years. */
  lemma {:induction false} DaysBeforeYearClosedForm(year: nat)
    ensures DaysBeforeYear(year) == 365 * year + (year + 3) / 4 - (year + 99) / 100 + (year + 399) / 400
  {
    if year > 0 {
      var y := year - 1;
      DaysBeforeYearClosedForm(y);
      LeapDayStep(y);
    }
  }

  /** Crossing year `y` adds one to the closed form's leap-day count exactly when
      `y` is a leap year. */
  lemma LeapDayStep(y: nat)
    ensures (y + 4) / 4 - (y + 100) / 100 + (y + 400) / 400
      == (y + 3) / 4 - (y + 99) / 100 + (y + 399) / 400 + (if IsLeapYear(y) then 1 else 0)
  {
    QuotientStep4(y);
    QuotientStep100(y);
    QuotientStep400(y);
    CenturyIsLeapCandidate(y);
  }

  /** Multiples of 400 are multiples of 100, which are multiples of 4. */
  lemma CenturyIsLeapCandidate(y: nat)
    ensures y % 100 == 0 ==> y % 4 == 0
    ensures y % 400 == 0 ==> y % 100 == 0
  {
    if y % 100 == 0 {
      var k := y / 100;
      assert y == 100 * k;
      assert y == 4 * (25 * k) + 0;
    }
    if y % 400 == 0 {
      var k := y / 400;
      assert y == 400 * k;
      assert y == 100 * (4 * k) + 0;
    }
  }

  lemma QuotientStep4(y: nat)
    ensures (y + 4) / 4 == (y + 3) / 4 + (if y % 4 == 0 then 1 else 0)
  {
  }

  lemma QuotientStep100(y: nat)
    ensures (y + 100) / 100 == (y + 99) / 100 + (if y % 100 == 0 then 1 else 0)
  {
  }

  lemma QuotientStep400(y: nat)
    ensures (y + 400) / 400 == (y + 399) / 400 + (if y % 400 == 0 then 1 else 0)
  {
  }

  /** Days of the year before the first of `month` (0 for a month outside 1..12). */
  function DaysBeforeMonth(year: nat, month: nat): nat
  {
    if month <= 1 || month > 12 then 0
    else DaysBeforeMonth(year, month - 1) + DaysInMonth(year, month - 1)
  }

  /** The leap-year rule repeats every 400 years. */
  lemma LeapYearPeriod(year: nat)
    ensures IsLeapYear(year + 400) == IsLeapYear(year)
  {
    var q4, q100, q400 := year / 4, year / 100, year / 400;
    assert year + 400 == 4 * (q4 + 100) + year % 4;
    assert year + 400 == 100 * (q100 + 4) + year % 100;
    assert year + 400 == 400 * (q400 + 1) + year % 400;
  }

  /** Years 400 apart have the same month lengths. */
  lemma {:induction false} DaysBeforeMonthPeriod(year: nat, month: nat)
    ensures DaysBeforeMonth(year + 400, month) == DaysBeforeMonth(year, month)
  {
    LeapYearPeriod(year);
    if 1 < month <= 12 {
      DaysBeforeMonthPeriod(year, month - 1);
    }
  }

  /** Ordinal of a day counting 0000-01-01 as day 1. */
  function DayNumber(d: Date): nat
  {
    DaysBeforeYear(d.year) + DaysBeforeMonth(d.year, d.month) + d.day
  }

  /** The weekday after weekday `w`. */
  function NextWeekday(w: nat): (r: nat)
    requires w < 7
    ensures r < 7
  {
    if w == 6 then 0 else w + 1
  }

  /** The weekday of day number `n`: each day falls on the weekday after the one
      before it, and day 1 (0000-01-01) was a Saturday (6). */
  function WeekdayOfDayNumber(n: nat): (w: nat)
    ensures w < 7
  {
    if n == 0 then 5 else NextWeekday(WeekdayOfDayNumber(n - 1))
  }

  /** The weekday cycle is the remainder modulo seven. */
  lemma {:induction false} WeekdayOfDayNumberMod(n: nat)
    ensures WeekdayOfDayNumber(n) == (n + 5) % 7
  {
    if n > 0 {
      WeekdayOfDayNumberMod(n - 1);
      var q, r := (n + 4) / 7, (n + 4) % 7;
      assert n + 4 == 7 * q + r;
      if r == 6 {
        assert n + 5 == 7 * (q + 1) + 0;
      } else {
        assert n + 5 == 7 * q + (r + 1);
      }
    }
  }

  /** date-fns `getDay`: 0 is Sunday, 6 is Saturday. */
  function Weekday(d: Date): (w: nat)
    ensures w < 7
  {
    WeekdayOfDayNumber(DayNumber(d))
  }

  /** A known day pins the weekday count to the proleptic Gregorian calendar:
      0001-01-01 was a Monday. */
  lemma WeekdayAnchor()
    ensures Weekday(Date(1, 1, 1)) == 1
  {
    assert DayNumber(Date(1, 1, 1)) == 367;
    WeekdayOfDayNumberMod(367);
  }

  /** The calendar repeats every 400 years: 146097 days, exactly 20871 weeks. */
  lemma WeekdayPeriod(d: Date)
    ensures Weekday(Date(d.year + 400, d.month, d.day)) == Weekday(d)
  {
    var n := DayNumber(d);
    DaysBeforeYearPeriod(d.year);
    DaysBeforeMonthPeriod(d.year, d.month);
    assert DayNumber(Date(d.year + 400, d.month, d.day)) == n + 146097;
    WeekdayOfDayNumberWeeks(n, 20871);
  }

  /** Whole weeks later is the same weekday. */
  lemma WeekdayOfDayNumberWeeks(n: nat, weeks: nat)
    ensures WeekdayOfDayNumber(n + 7 * weeks) == WeekdayOfDayNumber(n)
  {
    WeekdayOfDayNumberMod(n);
    WeekdayOfDayNumberMod(n + 7 * weeks);
    var q, r := (n + 5) / 7, (n + 5) % 7;
    assert n + 7 * weeks + 5 == 7 * (q + weeks) + r;
  }

  /** Four hundred years hold 146097 days. */
  lemma DaysBeforeYearPeriod(year: nat)
    ensures DaysBeforeYear(year + 400) == DaysBeforeYear(year) + 146097
  {
    DaysBeforeYearClosedForm(year);
    DaysBeforeYearClosedForm(year + 400);
    assert (year + 400 + 3) / 4 == (year + 3) / 4 + 100;
    assert (year + 400 + 99) / 100 == (year + 99) / 100 + 4;
    assert (year + 400 + 399) / 400 == (year + 399) / 400 + 1;
  }

  /** date-fns `isWeekend`. */
  predicate IsWeekend(d: Date)
  {
    Weekday(d) == 0 || Weekday(d) == 6
  }

  // ---------------------------------------------------------------------------
  // The days of a month

  /** Days 1..n of one month, in order. */
  function MonthDaysUpTo(year: nat, month: nat, n: nat): (r: seq<Date>)
    ensures |r| == n
    ensures forall i :: 0 <= i < n ==> r[i] == Date(year, month, i + 1)
  {
    if n == 0 then [] else MonthDaysUpTo(year, month, n - 1) + [Date(year, month, n)]
  }

  /** `getDatesForMonth(year, month)` with the source's 0-based month index. */
  function DatesForMonth(year: nat, monthIndex: nat): (r: seq<Date>)
    requires monthIndex < 12
    ensures |r| == DaysInMonth(year, monthIndex + 1)
  {
    MonthDaysUpTo(year, monthIndex + 1, DaysInMonth(year, monthIndex + 1))
  }

  /** The month's days are exactly its valid dates, day 1 first, ascending. */
  lemma DatesForMonthSpec(year: nat, monthIndex: nat)
    requires monthIndex < 12
    ensures var r := DatesForMonth(year, monthIndex);
      (forall i :: 0 <= i < |r| ==> r[i] == Date(year, monthIndex + 1, i + 1)) &&
      (forall d :: d in r <==> ValidDate(d) && d.year == year && d.month == monthIndex + 1) &&
      Ascending(r)
  {
    var r := DatesForMonth(year, monthIndex);
    assert forall d :: ValidDate(d) && d.year == year && d.month == monthIndex + 1 ==> r[d.day - 1] == d;
  }

  /** A subsequence of an ascending sequence is ascending. */
  lemma {:induction false} AscendingSubsequence(a: seq<Date>, b: seq<Date>)
    requires SubsequenceOf(a, b) && Ascending(b)
    ensures Ascending(a)
    decreases |b|
  {
    if a != [] {
      var b' := b[..|b| - 1];
      if a[|a| - 1] == b[|b| - 1] {
        var a' := a[..|a| - 1];
        AscendingSubsequence(a', b');
        SubsequenceMembers(a', b');
        forall i, j | 0 <= i < j < |a| ensures Before(a[i], a[j]) {
          if j == |a| - 1 {
            assert a[i] in b';
          } else {
            assert a[i] == a'[i] && a[j] == a'[j];
          }
        }
      } else {
        AscendingSubsequence(a, b');
      }
    }
  }

  /** Monday to Friday. */
  predicate IsWeekday(d: Date) {
    !IsWeekend(d)
  }

  /** The days of `s` that are not Saturday or Sunday, in order. */
  function NonWeekend(s: seq<Date>): (r: seq<Date>)
    ensures forall d :: d in r <==> d in s && !IsWeekend(d)
    ensures |r| <= |s|
    ensures SubsequenceOf(r, s)
    ensures Ascending(s) ==> Ascending(r)
  {
    var r := Filter(s, IsWeekday);
    FilterSubsequence(s, IsWeekday);
    FilterMembers(s, IsWeekday);
    if Ascending(s) then AscendingSubsequence(r, s); r else r
  }

  /** `getWeekdaysInMonth(date)`: the month's days that are not on a weekend. */
  function WeekdaysInMonth(date: Date): (r: seq<Date>)
    requires 1 <= date.month <= 12
    ensures |r| <= DaysInMonth(date.year, date.month)
  {
    NonWeekend(DatesForMonth(date.year, date.month - 1))
  }

  /** The weekdays of a month are its valid dates off the weekend, in order. */
  lemma WeekdaysInMonthSpec(date: Date)
    requires 1 <= date.month <= 12
    ensures var r := WeekdaysInMonth(date);
      (forall d :: d in r <==> ValidDate(d) && d.year == date.year && d.month == date.month && !IsWeekend(d)) &&
      SubsequenceOf(r, DatesForMonth(date.year, date.month - 1)) &&
      Ascending(r)
  {
    DatesForMonthSpec(date.year, date.month - 1);
  }

  /** The weekdays of a month are the weekday filter of its days. */
  lemma WeekdaysInMonthAsFilter(date: Date)
    requires 1 <= date.month <= 12
    ensures WeekdaysInMonth(date) == Filter(MonthDaysUpTo(date.year, date.month, DaysInMonth(date.year, date.month)), IsWeekday)
  {
    assert DatesForMonth(date.year, date.month - 1) == MonthDaysUpTo(date.year, date.month, DaysInMonth(date.year, date.month));
  }

  /** Days among 1..k of a month that satisfy `p`. */
  function CountDays(year: nat, month: nat, k: nat, p: Date -> bool): (c: nat)
    ensures c <= k
  {
    if k == 0 then 0
    else CountDays(year, month, k - 1, p) + (if p(Date(year, month, k)) then 1 else 0)
  }

  /** The count is the length of the filter of those days. */
  lemma {:induction false} CountDaysIsFilterLength(year: nat, month: nat, k: nat, p: Date -> bool)
    ensures CountDays(year, month, k, p) == |Filter(MonthDaysUpTo(year, month, k), p)|
  {
    if k > 0 {
      CountDaysIsFilterLength(year, month, k - 1, p);
      var before := MonthDaysUpTo(year, month, k - 1);
      assert MonthDaysUpTo(year, month, k) == before + [Date(year, month, k)];
      FilterSnoc(before, Date(year, month, k), p);
    }
  }

  /** Weekdays among days 1..k of a month. */
  function WeekdaysUpTo(year: nat, month: nat, k: nat): (c: nat)
    ensures c <= k
  {
    CountDays(year, month, k, IsWeekday)
  }

  /** The weekdays of a month, counted day by day. */
  lemma WeekdaysInMonthCount(date: Date)
    requires 1 <= date.month <= 12
    ensures |WeekdaysInMonth(date)| == WeekdaysUpTo(date.year, date.month, DaysInMonth(date.year, date.month))
  {
    CountDaysIsFilterLength(date.year, date.month, DaysInMonth(date.year, date.month), IsWeekday);
    WeekdaysInMonthAsFilter(date);
  }

  /** `calculateWorkingDays(year, month)`: the loop counting days whose weekday is
      neither 0 nor 6. The count is that of `getWeekdaysInMonth` for the same
      month (`WeekdaysInMonthCount`). */
  method CalculateWorkingDays(year: nat, monthIndex: nat) returns (workingDays: nat)
    requires monthIndex < 12
    ensures workingDays == WeekdaysUpTo(year, monthIndex + 1, DaysInMonth(year, monthIndex + 1))
    ensures 20 <= workingDays <= 23
  {
    var month := monthIndex + 1;
    var daysInMonth := DaysInMonth(year, month);
    workingDays := 0;
    for day := 1 to daysInMonth + 1
      invariant workingDays == WeekdaysUpTo(year, month, day - 1)
    {
      var currentDate := Date(year, month, day);
      var dayOfWeek := Weekday(currentDate);
      if dayOfWeek != 0 && dayOfWeek != 6 {
        workingDays := workingDays + 1;
      }
    }
    MonthWeekdaysBounds(year, month);
  }

  /** The next day of the same month falls on the next weekday. */
  lemma WeekdayOfNextDay(year: nat, month: nat, day: nat)
    ensures Weekday(Date(year, month, day + 1)) == NextWeekday(Weekday(Date(year, month, day)))
  {
    assert DayNumber(Date(year, month, day + 1)) == DayNumber(Date(year, month, day)) + 1;
  }

  /** Weekdays among `n` consecutive days whose first falls on weekday `w`. */
  function WeekdaysCount(w: nat, n: nat): (c: nat)
    requires w < 7
    ensures c <= n
    decreases n
  {
    if n == 0 then 0
    else (if w == 0 || w == 6 then 0 else 1) + WeekdaysCount(NextWeekday(w), n - 1)
  }

  /** Any seven consecutive days hold exactly five weekdays. */
  lemma {:induction false} WeekdaysCountWeek(w: nat, n: nat)
    requires w < 7
    ensures WeekdaysCount(w, n + 7) == WeekdaysCount(w, n) + 5
  {
    var w1 := NextWeekday(w);
    var w2 := NextWeekday(w1);
    var w3 := NextWeekday(w2);
    var w4 := NextWeekday(w3);
    var w5 := NextWeekday(w4);
    var w6 := NextWeekday(w5);
    assert NextWeekday(w6) == w;
    assert WeekdaysCount(w6, n + 1) == (if w6 == 0 || w6 == 6 then 0 else 1) + WeekdaysCount(w, n);
    assert WeekdaysCount(w5, n + 2) == (if w5 == 0 || w5 == 6 then 0 else 1) + WeekdaysCount(w6, n + 1);
    assert WeekdaysCount(w4, n + 3) == (if w4 == 0 || w4 == 6 then 0 else 1) + WeekdaysCount(w5, n + 2);
    assert WeekdaysCount(w3, n + 4) == (if w3 == 0 || w3 == 6 then 0 else 1) + WeekdaysCount(w4, n + 3);
    assert WeekdaysCount(w2, n + 5) == (if w2 == 0 || w2 == 6 then 0 else 1) + WeekdaysCount(w3, n + 4);
    assert WeekdaysCount(w1, n + 6) == (if w1 == 0 || w1 == 6 then 0 else 1) + WeekdaysCount(w2, n + 5);
    assert WeekdaysCount(w, n + 7) == (if w == 0 || w == 6 then 0 else 1) + WeekdaysCount(w1, n + 6);
  }

  /** The weekdays among the first `k` days of a month, plus those among the
      remaining `n - k` days, are the weekdays among its first `n` days. */
  lemma {:induction false} MonthPrefixWeekdays(year: nat, month: nat, k: nat, n: nat)
    requires k <= n
    ensures WeekdaysUpTo(year, month, k) + WeekdaysCount(Weekday(Date(year, month, k + 1)), n - k)
      == WeekdaysCount(Weekday(Date(year, month, 1)), n)
  {
    if k > 0 {
      MonthPrefixWeekdays(year, month, k - 1, n);
      var w := Weekday(Date(year, month, k));
      var one := if w == 0 || w == 6 then 0 else 1;
      WeekdayOfNextDay(year, month, k);
      assert WeekdaysCount(w, n - k + 1) == one + WeekdaysCount(NextWeekday(w), n - k);
    }
  }

  /** Every month has between 20 and 23 weekdays, so the zero-weekday guard of the
      wage report is never taken. */
  lemma WeekdaysInMonthBounds(date: Date)
    requires 1 <= date.month <= 12
    ensures 20 <= |WeekdaysInMonth(date)| <= 23
  {
    WeekdaysInMonthCount(date);
    MonthWeekdaysBounds(date.year, date.month);
  }

  /** The same bounds for the day-by-day count. */
  lemma MonthWeekdaysBounds(year: nat, month: nat)
    requires 1 <= month <= 12
    ensures 20 <= WeekdaysUpTo(year, month, DaysInMonth(year, month)) <= 23
  {
    var n := DaysInMonth(year, month);
    MonthPrefixWeekdays(year, month, n, n);
    WeekdaysCountFourWeeks(Weekday(Date(year, month, 1)), n);
  }

  /** 28 to 31 consecutive days hold 20 to 23 weekdays. */
  lemma WeekdaysCountFourWeeks(w: nat, n: nat)
    requires w < 7 && 28 <= n <= 31
    ensures 20 <= WeekdaysCount(w, n) <= 23
  {
    WeekdaysCountWeek(w, n - 7);
    WeekdaysCountWeek(w, n - 14);
    WeekdaysCountWeek(w, n - 21);
    WeekdaysCountWeek(w, n - 28);
  }

  /** `isSameDay`: compares only year, month and day. */
  predicate IsSameDay(a: Date, b: Date)
    ensures IsSameDay(a, b) <==> a == b
  {
    a.year == b.year && a.month == b.month && a.day == b.day
  }

  // ---------------------------------------------------------------------------
  // `yyyy-MM-dd` and `yyyy-MM` (RFC 3339 section 5.6 full-date)

  predicate IsDigit(c: char) {
    '0' <= c <= '9'
  }

  predicate AllDigits(s: string) {
    forall i :: 0 <= i < |s| ==> IsDigit(s[i])
  }

  function DigitChar(v: nat): (c: char)
    requires v < 10
    ensures IsDigit(c) && c as int - '0' as int == v
  {
    ('0' as int + v) as char
  }

  function Pow10(k: nat): (p: nat)
    ensures p >= 1
  {
    if k == 0 then 1 else 10 * Pow10(k - 1)
  }

  /** The last `width` decimal digits of `n`. */
  function Digits(n: nat, width: nat): (s: string)
    ensures |s| == width && AllDigits(s)
  {
    if width == 0 then [] else Digits(n / 10, width - 1) + [DigitChar(n % 10)]
  }

  /** Number of decimal digits of `n` (at least one). */
  function NumDigits(n: nat): (k: nat)
    ensures 1 <= k && n < Pow10(k)
  {
    if n < 10 then 1 else 1 + NumDigits(n / 10)
  }

  /** date-fns `addLeadingZeros(n, width)`: pads, never truncates. */
  function ZeroPad(n: nat, width: nat): (s: string)
    ensures AllDigits(s) && |s| >= width
    ensures width >= 1 && n < Pow10(width) ==> |s| == width
  {
    assert width >= 1 && n < Pow10(width) ==> NumDigits(n) <= width by {
      if width >= 1 && n < Pow10(width) {
        NumDigitsMinimal(n, width);
      }
    }
    Digits(n, if NumDigits(n) < width then width else NumDigits(n))
  }

  /** Decimal value of a digit string. */
  function DigitsValue(s: string): (v: nat)
    requires AllDigits(s)
    ensures v < Pow10(|s|)
  {
    if s == [] then 0 else DigitsValue(s[..|s| - 1]) * 10 + (s[|s| - 1] as int - '0' as int)
  }

  lemma {:induction false} DigitsValueOfDigits(n: nat, width: nat)
    requires n < Pow10(width)
    ensures DigitsValue(Digits(n, width)) == n
  {
    if width > 0 {
      DigitsValueOfDigits(n / 10, width - 1);
      var s := Digits(n, width);
      assert s[..|s| - 1] == Digits(n / 10, width - 1);
    }
  }

  lemma {:induction false} DigitsOfDigitsValue(s: string)
    requires AllDigits(s)
    ensures Digits(DigitsValue(s), |s|) == s
  {
    if s != [] {
      var s' := s[..|s| - 1];
      DigitsOfDigitsValue(s');
      var v := DigitsValue(s);
      assert v / 10 == DigitsValue(s') && v % 10 == s[|s| - 1] as int - '0' as int;
      assert s == s' + [s[|s| - 1]];
    }
  }

  /** date-fns `yyyy` prints the era year: year 0 (1 BC) prints as 0001. */
  function EraYear(year: nat): (y: nat)
    ensures y >= 1 && (year >= 1 ==> y == year)
  {
    if year > 0 then year else 1
  }

  /** `formatIsoDate(date)`: `format(date, 'yyyy-MM-dd')`. */
  function FormatIsoDate(d: Date): (s: string)
    ensures |s| >= 10
  {
    ZeroPad(EraYear(d.year), 4) + "-" + ZeroPad(d.month, 2) + "-" + ZeroPad(d.day, 2)
  }

  /** `getIsoMonthYearString(date)`: `format(date, 'yyyy-MM')`, the first part of
      the full date. */
  function IsoMonthYearString(d: Date): (s: string)
    ensures FormatIsoDate(d) == s + "-" + ZeroPad(d.day, 2)
  {
    ZeroPad(EraYear(d.year), 4) + "-" + ZeroPad(d.month, 2)
  }

  /** Strict reading of a `yyyy-MM-dd` string as a calendar day (date-fns
      `parseISO` restricted to full-dates); anything else is invalid. */
  function ParseIsoDate(s: string): (r: Option<Date>)
    ensures r.Some? ==> ValidDate(r.value) && r.value.year < 10000
    ensures r.Some? ==> |s| == 10 && s[4] == '-' && s[7] == '-'
  {
    if |s| == 10 && s[4] == '-' && s[7] == '-'
       && AllDigits(s[..4]) && AllDigits(s[5..7]) && AllDigits(s[8..])
    then
      var d := Date(DigitsValue(s[..4]), DigitsValue(s[5..7]), DigitsValue(s[8..]));
      if ValidDate(d) then Some(d) else None
    else None
  }

  /** In the years 1..9999 the string has the fixed `yyyy-MM-dd` shape. */
  lemma FormatIsoDateShape(d: Date)
    requires ValidDate(d) && 1 <= d.year <= 9999
    ensures |FormatIsoDate(d)| == 10
    ensures FormatIsoDate(d) == Digits(d.year, 4) + "-" + Digits(d.month, 2) + "-" + Digits(d.day, 2)
    ensures |IsoMonthYearString(d)| == 7 && IsoMonthYearString(d) == FormatIsoDate(d)[..7]
  {
    assert NumDigits(d.year) <= 4 by { NumDigitsMinimal(d.year, 4); }
    assert NumDigits(d.month) <= 2 by { NumDigitsMinimal(d.month, 2); }
    assert NumDigits(d.day) <= 2 by { NumDigitsMinimal(d.day, 2); }
    assert FormatIsoDate(d) == IsoMonthYearString(d) + "-" + ZeroPad(d.day, 2);
  }

  lemma {:induction false} NumDigitsMinimal(n: nat, k: nat)
    requires n < Pow10(k) && k >= 1
    ensures NumDigits(n) <= k
  {
    if n >= 10 {
      NumDigitsMinimal(n / 10, k - 1);
    }
  }

  /** Parsing a formatted day gives the day back. */
  lemma ParseFormatIsoDate(d: Date)
    requires ValidDate(d) && 1 <= d.year <= 9999
    ensures ParseIsoDate(FormatIsoDate(d)) == Some(d)
  {
    FormatIsoDateShape(d);
    var s := FormatIsoDate(d);
    assert s[..4] == Digits(d.year, 4) && s[5..7] == Digits(d.month, 2) && s[8..] == Digits(d.day, 2);
    DigitsValueOfDigits(d.year, 4);
    DigitsValueOfDigits(d.month, 2);
    DigitsValueOfDigits(d.day, 2);
  }

  /** Formatting a parsed string gives the string back (year 0 excepted, which
      date-fns prints as 0001). */
  lemma FormatParseIsoDate(s: string)
    requires ParseIsoDate(s).Some? && ParseIsoDate(s).value.year >= 1
    ensures FormatIsoDate(ParseIsoDate(s).value) == s
  {
    var d := ParseIsoDate(s).value;
    var yyyy, mm, dd := s[..4], s[5..7], s[8..];
    assert d == Date(DigitsValue(yyyy), DigitsValue(mm), DigitsValue(dd));
    FormatIsoDateShape(d);
    DigitsOfDigitsValue(yyyy);
    DigitsOfDigitsValue(mm);
    DigitsOfDigitsValue(dd);
    IsoShapeSplit(s);
  }

  /** A string of the `yyyy-MM-dd` shape is its three fields joined by dashes. */
  lemma IsoShapeSplit(s: string)
    requires |s| == 10 && s[4] == '-' && s[7] == '-'
    ensures s == s[..4] + "-" + s[5..7] + "-" + s[8..]
  {
  }

  /** Equal `yyyy-MM-dd` strings mean the same calendar day: what the source's
      string comparisons and ISO-string sets rely on. */
  lemma FormatIsoDateInjective(a: Date, b: Date)
    requires ValidDate(a) && 1 <= a.year <= 9999
    requires ValidDate(b) && 1 <= b.year <= 9999
    ensures FormatIsoDate(a) == FormatIsoDate(b) <==> IsSameDay(a, b)
  {
    ParseFormatIsoDate(a);
    ParseFormatIsoDate(b);
  }

  /** Within one month the `yyyy-MM-dd` strings of different days differ (their
      last two characters do), whatever the year. */
  lemma FormatIsoDateDistinctInMonth(a: Date, b: Date)
    requires ValidDate(a) && ValidDate(b) && a.year == b.year && a.month == b.month
    requires a.day != b.day
    ensures FormatIsoDate(a) != FormatIsoDate(b)
  {
    var ya := ZeroPad(EraYear(a.year), 4) + "-" + ZeroPad(a.month, 2) + "-";
    assert FormatIsoDate(a) == ya + ZeroPad(a.day, 2);
    assert FormatIsoDate(b) == ya + ZeroPad(b.day, 2);
    assert a.day < Pow10(2) && b.day < Pow10(2);
    NumDigitsMinimal(a.day, 2);
    NumDigitsMinimal(b.day, 2);
    DigitsValueOfDigits(a.day, 2);
    DigitsValueOfDigits(b.day, 2);
    assert ZeroPad(a.day, 2) != ZeroPad(b.day, 2);
    assert FormatIsoDate(a)[|ya|..] == ZeroPad(a.day, 2);
    assert FormatIsoDate(b)[|ya|..] == ZeroPad(b.day, 2);
  }

  /** `days.map(d => formatIsoDate(d))`. */
  function IsoStrings(ds: seq<Date>): (r: seq<string>)
    ensures |r| == |ds| && forall i :: 0 <= i < |ds| ==> r[i] == FormatIsoDate(ds[i])
  {
    if ds == [] then [] else IsoStrings(ds[..|ds| - 1]) + [FormatIsoDate(ds[|ds| - 1])]
  }

  /** A string is among the formatted days exactly when it formats one of them. */
  lemma IsoStringsMembers(days: seq<Date>, s: string)
    ensures s in IsoStrings(days) <==> exists i :: 0 <= i < |days| && FormatIsoDate(days[i]) == s
  {
    var iso := IsoStrings(days);
    if s in iso {
      var i :| 0 <= i < |iso| && iso[i] == s;
      assert FormatIsoDate(days[i]) == s;
    }
  }

  // ---------------------------------------------------------------------------
  // Employment window

  function ParseOptionalDate(s: Option<string>): (r: Option<Date>)
    ensures s.None? ==> r.None?
  {
    match s
    case None => None
    case Some(t) => ParseIsoDate(t)
  }

  /** On or after `join` and, when a leaving day is known, on or before it. */
  predicate WithinEmployment(d: Date, join: Date, left: Option<Date>) {
    !Before(d, join) && (left.None? || !Before(left.value, d))
  }

  /** The worker's join and leave strings as an employment test: an unparsable
      join date employs nobody, an unparsable leave date is ignored. */
  predicate IsEffectiveDay(d: Date, joinDate: Option<string>, leftDate: Option<string>) {
    ParseOptionalDate(joinDate).Some? &&
    WithinEmployment(d, ParseOptionalDate(joinDate).value, ParseOptionalDate(leftDate))
  }

  /** The days of `days` within the employment window, in order. */
  function EmployedDays(days: seq<Date>, joinDate: Option<string>, leftDate: Option<string>): (r: seq<Date>)
    ensures |r| <= |days|
  {
    if days == [] then []
    else
      var s', last := days[..|days| - 1], days[|days| - 1];
      EmployedDays(s', joinDate, leftDate) + (if IsEffectiveDay(last, joinDate, leftDate) then [last] else [])
  }

  /** The employed days are the days in the window, kept in order. */
  lemma {:induction false} EmployedDaysSpec(days: seq<Date>, joinDate: Option<string>, leftDate: Option<string>)
    ensures var r := EmployedDays(days, joinDate, leftDate);
      (forall d :: d in r <==> d in days && IsEffectiveDay(d, joinDate, leftDate)) &&
      SubsequenceOf(r, days)
  {
    if days != [] {
      var s', last := days[..|days| - 1], days[|days| - 1];
      assert days == s' + [last];
      EmployedDaysSpec(s', joinDate, leftDate);
      var r' := EmployedDays(s', joinDate, leftDate);
      if IsEffectiveDay(last, joinDate, leftDate) {
        SubsequenceSnoc(r', s', last);
      } else {
        assert EmployedDays(days, joinDate, leftDate) == r';
        SubsequenceExtend(r', s', last);
      }
    }
  }

  /** `getEffectiveDaysForWorkerInMonth(monthDate, joinDate, leftDate)`: the days of
      the month within the worker's employment window, ascending. */
  function EffectiveDaysForWorkerInMonth(monthDate: Date, joinDate: Option<string>, leftDate: Option<string>)
    : (r: seq<Date>)
    requires 1 <= monthDate.month <= 12
    ensures |r| <= DaysInMonth(monthDate.year, monthDate.month)
  {
    EmployedDays(DatesForMonth(monthDate.year, monthDate.month - 1), joinDate, leftDate)
  }

  /** The effective days are the month's days within the employment window,
      in ascending order. */
  lemma EffectiveDaysSpec(monthDate: Date, joinDate: Option<string>, leftDate: Option<string>)
    requires 1 <= monthDate.month <= 12
    ensures var r := EffectiveDaysForWorkerInMonth(monthDate, joinDate, leftDate);
      var days := DatesForMonth(monthDate.year, monthDate.month - 1);
      (forall d :: d in r <==> d in days && IsEffectiveDay(d, joinDate, leftDate)) &&
      (forall d :: d in r <==>
        ValidDate(d) && d.year == monthDate.year && d.month == monthDate.month && IsEffectiveDay(d, joinDate, leftDate)) &&
      SubsequenceOf(r, days) &&
      Ascending(r)
  {
    var days := DatesForMonth(monthDate.year, monthDate.month - 1);
    DatesForMonthSpec(monthDate.year, monthDate.month - 1);
    EmployedDaysSpec(days, joinDate, leftDate);
    AscendingSubsequence(EmployedDays(days, joinDate, leftDate), days);
  }
}
