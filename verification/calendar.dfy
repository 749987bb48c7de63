/**
 * Timezone-naive datetimes as Python's `datetime` handles them: the
 * proleptic Gregorian calendar from 0001-01-01 to 9999-12-31, an instant
 * being a count of seconds since 0001-01-01T00:00:00 (`datetime.min`).
 *
 * Covers `datetime.strptime(s, "%Y-%m-%d")` (parse or raise ValueError) and
 * `isoformat(timespec="seconds")`, with the round trips between a date, its
 * text and its instant.
 */
module Calendar {

  import opened Wrappers
  import opened Text
  import opened Py

  datatype Date = Date(year: int, month: int, day: int)

  const SecondsPerDay: nat := 86400

  predicate IsLeap(y: int) {
    y % 4 == 0 && (y % 100 != 0 || y % 400 == 0)
  }

  function DaysInYear(y: int): nat {
    if IsLeap(y) then 366 else 365
  }

  function DaysInMonth(y: int, m: int): (n: nat)
    requires 1 <= m <= 12
    ensures 28 <= n <= 31
  {
    if m == 2 then (if IsLeap(y) then 29 else 28)
    else if m == 4 || m == 6 || m == 9 || m == 11 then 30
    else 31
  }

  /** The dates `datetime(year, month, day)` accepts. */
  predicate ValidDate(d: Date) {
    1 <= d.year <= 9999 && 1 <= d.month <= 12 && 1 <= d.day <= DaysInMonth(d.year, d.month)
  }

  /** Days in the years before `y`, counted from 0001-01-01. */
  function DaysBeforeYear(y: int): nat
    requires y >= 1
  {
    if y == 1 then 0 else DaysBeforeYear(y - 1) + DaysInYear(y - 1)
  }

  /** Days of year `y` before the first of month `m` (`m == 13` gives the whole year). */
  function DaysBeforeMonth(y: int, m: int): (n: nat)
    requires 1 <= m <= 13
    ensures m == 13 ==> n == DaysInYear(y)
  {
    var table := [0, 31, 59, 90, 120, 151, 181, 212, 243, 273, 304, 334, 365];
    table[m - 1] + (if m > 2 && IsLeap(y) then 1 else 0)
  }

  lemma DaysBeforeMonthStep(y: int, m: int)
    requires 1 <= m <= 12
    ensures DaysBeforeMonth(y, m) + DaysInMonth(y, m) == DaysBeforeMonth(y, m + 1)
  {
  }

  /** Days from 0001-01-01 to `d`: Python's `d.toordinal() - 1`. */
  function DayNumber(d: Date): nat
    requires ValidDate(d)
  {
    DaysBeforeYear(d.year) + DaysBeforeMonth(d.year, d.month) + d.day - 1
  }

  /** The instant of midnight at the start of `d`. */
  function Midnight(d: Date): nat
    requires ValidDate(d)
  {
    DayNumber(d) * SecondsPerDay
  }

  // ------------------------------------------------------------ day number -> date

  /** The year holding day `n` of the count that starts at year `y`, and the day within it. */
  function YearOf(n: nat, y: int): (r: (int, nat))
    requires y >= 1
    ensures r.0 >= y && r.1 < DaysInYear(r.0)
    decreases n
  {
    if n < DaysInYear(y) then (y, n) else YearOf(n - DaysInYear(y), y + 1)
  }

  /** The month holding day `k` of year `y`, counting from month `m`, and the day within it. */
  function MonthOf(k: nat, y: int, m: int): (r: (int, nat))
    requires 1 <= m <= 12
    requires DaysBeforeMonth(y, m) + k < DaysInYear(y)
    ensures m <= r.0 <= 12 && r.1 < DaysInMonth(y, r.0)
    decreases 12 - m
  {
    DaysBeforeMonthStep(y, m);
    if k < DaysInMonth(y, m) then (m, k) else MonthOf(k - DaysInMonth(y, m), y, m + 1)
  }

  function DateOfDay(n: nat): (d: Date)
    ensures ValidDate(d) || d.year > 9999
  {
    var (y, k) := YearOf(n, 1);
    assert DaysBeforeMonth(y, 1) == 0;
    var (m, dd) := MonthOf(k, y, 1);
    Date(y, m, dd + 1)
  }

  lemma {:induction false} DaysBeforeYearGrows(y0: int, y: int)
    requires 1 <= y0 <= y
    ensures DaysBeforeYear(y0) <= DaysBeforeYear(y)
    decreases y - y0
  {
    if y0 < y {
      DaysBeforeYearGrows(y0, y - 1);
    }
  }

  lemma {:induction false} YearOfDaysBefore(y0: int, y: int, k: nat)
    requires 1 <= y0 <= y && k < DaysInYear(y)
    ensures DaysBeforeYear(y) >= DaysBeforeYear(y0)
    ensures YearOf(DaysBeforeYear(y) - DaysBeforeYear(y0) + k, y0) == (y, k)
    decreases y - y0
  {
    DaysBeforeYearGrows(y0, y);
    if y0 < y {
      DaysBeforeYearGrows(y0 + 1, y);
      YearOfDaysBefore(y0 + 1, y, k);
    }
  }

  lemma {:induction false} MonthOfDaysBefore(y: int, m0: int, m: int, dd: nat)
    requires 1 <= m0 <= m <= 12 && dd < DaysInMonth(y, m)
    ensures DaysBeforeMonth(y, m) >= DaysBeforeMonth(y, m0)
    ensures DaysBeforeMonth(y, m0) + (DaysBeforeMonth(y, m) - DaysBeforeMonth(y, m0) + dd) < DaysInYear(y)
    ensures MonthOf(DaysBeforeMonth(y, m) - DaysBeforeMonth(y, m0) + dd, y, m0) == (m, dd)
    decreases m - m0
  {
    DaysBeforeMonthStep(y, m0);
    DaysBeforeMonthStep(y, m);
    if m0 < m {
      MonthOfDaysBefore(y, m0 + 1, m, dd);
    }
  }

  /** Counting days from 0001-01-01 and back gives the same date. */
  lemma DateOfDayNumber(d: Date)
    requires ValidDate(d)
    ensures DateOfDay(DayNumber(d)) == d
  {
    var y, k := d.year, DaysBeforeMonth(d.year, d.month) + d.day - 1;
    MonthOfDaysBefore(y, 1, d.month, d.day - 1);
    assert MonthOf(k, y, 1) == (d.month, d.day - 1);
    YearOfDaysBefore(1, y, k);
    assert YearOf(DayNumber(d), 1) == (y, k);
  }

  /** The year search consumes whole years: the year found and the day within it add back to `n`. */
  lemma {:induction false} YearOfSum(n: nat, y: int)
    requires y >= 1
    ensures DaysBeforeYear(YearOf(n, y).0) + YearOf(n, y).1 == DaysBeforeYear(y) + n
    decreases n
  {
    if n >= DaysInYear(y) {
      YearOfSum(n - DaysInYear(y), y + 1);
    }
  }

  /** The month search consumes whole months: the month found and the day within it add back to `k`. */
  lemma {:induction false} MonthOfSum(k: nat, y: int, m: int)
    requires 1 <= m <= 12
    requires DaysBeforeMonth(y, m) + k < DaysInYear(y)
    ensures DaysBeforeMonth(y, MonthOf(k, y, m).0) + MonthOf(k, y, m).1 == DaysBeforeMonth(y, m) + k
    decreases 12 - m
  {
    DaysBeforeMonthStep(y, m);
    if k >= DaysInMonth(y, m) {
      MonthOfSum(k - DaysInMonth(y, m), y, m + 1);
    }
  }

  /** Going from a day number to a date within the calendar and back gives the same day number. */
  lemma DayNumberOfDateOfDay(n: nat)
    ensures ValidDate(DateOfDay(n)) ==> DayNumber(DateOfDay(n)) == n
  {
    var (y, k) := YearOf(n, 1);
    YearOfSum(n, 1);
    assert DaysBeforeMonth(y, 1) == 0;
    MonthOfSum(k, y, 1);
  }

  // ------------------------------------------------------------ rendering

  /** A broken-down instant: date and time of day. */
  datatype Civil = Civil(date: Date, hour: nat, minute: nat, second: nat)

  /**
   * The date and time of day of instant `t`: the time of day recomposes the
   * seconds since midnight, and the date, while within the calendar, is the
   * one whose midnight starts that day.
   */
  function CivilOf(t: nat): (c: Civil)
    ensures c.hour < 24 && c.minute < 60 && c.second < 60
    ensures 3600 * c.hour + 60 * c.minute + c.second == t % SecondsPerDay
    ensures ValidDate(c.date) || c.date.year > 9999
    ensures ValidDate(c.date) ==> Midnight(c.date) == t - t % SecondsPerDay
  {
    DayNumberOfDateOfDay(t / SecondsPerDay);
    var sod := t % SecondsPerDay;
    Civil(DateOfDay(t / SecondsPerDay), sod / 3600, sod % 3600 / 60, sod % 60)
  }

  /** Two decimal digits of `n`, zero-padded (`%02d`). */
  function Digits2(n: nat): (s: string)
    requires n < 100
    ensures |s| == 2 && AllDigits(s)
  {
    [DigitChar(n / 10), DigitChar(n % 10)]
  }

  /** Four decimal digits of `n`, zero-padded (`%04d`). */
  function Digits4(n: nat): (s: string)
    requires n < 10000
    ensures |s| == 4 && AllDigits(s)
  {
    Digits2(n / 100) + Digits2(n % 100)
  }

  lemma Digits2Value(n: nat)
    requires n < 100
    ensures NatValue(Digits2(n)) == n
  {
    var s := Digits2(n);
    assert s[..1] == [DigitChar(n / 10)];
    assert NatValue(s[..1]) == n / 10 by {
      assert s[..1][..0] == [];
    }
  }

  lemma Digits4Value(n: nat)
    requires n < 10000
    ensures NatValue(Digits4(n)) == n
  {
    var s := Digits4(n);
    var hi, lo := Digits2(n / 100), Digits2(n % 100);
    Digits2Value(n / 100);
    Digits2Value(n % 100);
    assert s[..3] == hi + [lo[0]];
    assert s[..3][..2] == hi;
    assert lo[..1] == [lo[0]] && lo[..1][..0] == [];
    assert NatValue(lo) == DigitValue(lo[0]) * 10 + DigitValue(lo[1]);
  }

  /** `YYYY-MM-DD`, the text `date.isoformat()` writes. */
  function FormatYmd(d: Date): string
    requires ValidDate(d)
  {
    Digits4(d.year) + "-" + Digits2(d.month) + "-" + Digits2(d.day)
  }

  /** `datetime.isoformat(timespec="seconds")` of the instant `t`. */
  function IsoFormat(t: nat): string {
    var c := CivilOf(t);
    var year := if 0 <= c.date.year < 10000 then Digits4(c.date.year) else IntToString(c.date.year);
    var month := if 0 <= c.date.month < 100 then Digits2(c.date.month) else IntToString(c.date.month);
    var day := if 0 <= c.date.day < 100 then Digits2(c.date.day) else IntToString(c.date.day);
    year + "-" + month + "-" + day + "T" + Digits2(c.hour) + ":" + Digits2(c.minute) + ":" + Digits2(c.second)
  }

  /** The instant of a date renders as that date at 00:00:00. */
  lemma IsoFormatOfMidnight(d: Date)
    requires ValidDate(d)
    ensures IsoFormat(Midnight(d)) == FormatYmd(d) + "T00:00:00"
  {
    var t := Midnight(d);
    assert t / SecondsPerDay == DayNumber(d) && t % SecondsPerDay == 0;
    DateOfDayNumber(d);
    assert Digits2(0) == "00";
  }

  // ------------------------------------------------------------ strptime("%Y-%m-%d")

  /** The month group `1[0-2]|0[1-9]|[1-9]` followed by `-`: (value, length). */
  function MatchMonth(r: string): Option<(int, nat)> {
    if |r| >= 3 && r[0] == '1' && '0' <= r[1] <= '2' && r[2] == '-' then Some((10 + DigitValue(r[1]), 2))
    else if |r| >= 3 && r[0] == '0' && '1' <= r[1] <= '9' && r[2] == '-' then Some((DigitValue(r[1]), 2))
    else if |r| >= 2 && '1' <= r[0] <= '9' && r[1] == '-' then Some((DigitValue(r[0]), 1))
    else None
  }

  /** The first alternative of the day group `3[01]|[12]\d|0[1-9]|[1-9]| [1-9]` matching at the start of `r`. */
  function MatchDay(r: string): Option<(int, nat)> {
    if |r| >= 2 && r[0] == '3' && '0' <= r[1] <= '1' then Some((30 + DigitValue(r[1]), 2))
    else if |r| >= 2 && '1' <= r[0] <= '2' && IsDigit(r[1]) then Some((DigitValue(r[0]) * 10 + DigitValue(r[1]), 2))
    else if |r| >= 2 && r[0] == '0' && '1' <= r[1] <= '9' then Some((DigitValue(r[1]), 2))
    else if |r| >= 1 && '1' <= r[0] <= '9' then Some((DigitValue(r[0]), 1))
    else if |r| >= 2 && r[0] == ' ' && '1' <= r[1] <= '9' then Some((DigitValue(r[1]), 2))
    else None
  }

  /**
   * `datetime.strptime(s, "%Y-%m-%d")`: a four-digit year, a month and a
   * day as the format's regular expression reads them, nothing left over,
   * and a date that exists; anything else raises ValueError.
   */
  function ParseYmd(s: string): (r: Result<Date, Exc>)
    ensures r.Ok? ==> ValidDate(r.value)
    ensures r.Err? ==> r.error == ValueError
  {
    if |s| < 5 || !AllDigits(s[..4]) || s[4] != '-' then Err(ValueError)
    else
      var y := NatValue(s[..4]);
      NatValueBelow(s[..4]);
      var rest := s[5..];
      match MatchMonth(rest)
      case None => Err(ValueError)
      case Some((m, ml)) =>
        var dayText := rest[ml + 1..];
        match MatchDay(dayText)
        case None => Err(ValueError)
        case Some((d, dl)) =>
          if dl == |dayText| && 1 <= y && 1 <= m <= 12 && 1 <= d <= DaysInMonth(y, m)
          then Ok(Date(y, m, d))
          else Err(ValueError)
  }

  /** `strptime` reads back every date `isoformat` writes. */
  lemma ParseFormatYmd(d: Date)
    requires ValidDate(d)
    ensures ParseYmd(FormatYmd(d)) == Ok(d)
  {
    var s := FormatYmd(d);
    assert s[..4] == Digits4(d.year);
    Digits4Value(d.year);
    assert s[4] == '-';
    var rest := s[5..];
    assert rest == Digits2(d.month) + "-" + Digits2(d.day);
    assert MatchMonth(rest) == Some((d.month, 2));
    assert rest[3..] == Digits2(d.day);
    assert MatchDay(rest[3..]) == Some((d.day, 2));
  }
}
