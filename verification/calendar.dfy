/** Calendar dates as Python's datetime.date handles them: the proleptic
    Gregorian calendar over years 1..9999, parsed with
    strptime(s, "%Y-%m-%d") and printed with date.isoformat() (the
    full-date form of section 5.6 of RFC 3339). */
module Calendar {
  import opened Errors

  datatype Date = Date(year: int, month: int, day: int)

  const MinYear := 1
  const MaxYear := 9999

  /** The Gregorian rule: every fourth year, except centuries not divisible by 400. */
  predicate IsLeapYear(y: int) {
    y % 4 == 0 && (y % 100 != 0 || y % 400 == 0)
  }

  function DaysInMonth(y: int, m: int): int
    requires 1 <= m <= 12
  {
    if m == 2 then (if IsLeapYear(y) then 29 else 28)
    else if m == 4 || m == 6 || m == 9 || m == 11 then 30
    else 31
  }

  function YearLength(y: int): int {
    if IsLeapYear(y) then 366 else 365
  }

  predicate ValidDate(d: Date) {
    && MinYear <= d.year <= MaxYear
    && 1 <= d.month <= 12
    && 1 <= d.day <= DaysInMonth(d.year, d.month)
  }

  const MaxDate := Date(MaxYear, 12, 31)

  /** Days in the months of year y before month m. */
  function DaysBeforeMonth(y: int, m: int): int
    requires 1 <= m <= 12
  {
    var leap := if m > 2 && IsLeapYear(y) then 1 else 0;
    leap + (
      if m == 1 then 0 else if m == 2 then 31 else if m == 3 then 59
      else if m == 4 then 90 else if m == 5 then 120 else if m == 6 then 151
      else if m == 7 then 181 else if m == 8 then 212 else if m == 9 then 243
      else if m == 10 then 273 else if m == 11 then 304 else 334)
  }

  /** Days in the years before year y, counted from year 1. */
  function DaysBeforeYear(y: int): int
    requires y >= MinYear
  {
    var p := y - 1;
    365 * p + p / 4 - p / 100 + p / 400
  }

  /** Each year contributes its own length. */
  lemma DaysBeforeNextYear(y: int)
    requires y >= MinYear
    ensures DaysBeforeYear(y + 1) == DaysBeforeYear(y) + YearLength(y)
  {
    QuotientStep(y - 1, 4);
    QuotientStep(y - 1, 100);
    QuotientStep(y - 1, 400);
  }

  /** Counting one further number adds one multiple of k exactly when it is one. */
  lemma QuotientStep(p: int, k: int)
    requires p >= 0 && k > 0
    ensures (p + 1) / k == p / k + (if (p + 1) % k == 0 then 1 else 0)
  {
    var q, r := p / k, p % k;
    assert p == q * k + r && 0 <= r < k;
    if r + 1 == k {
      assert p + 1 == (q + 1) * k + 0;
      QuotientUnique(p + 1, k, q + 1, 0);
    } else {
      assert p + 1 == q * k + (r + 1);
      QuotientUnique(p + 1, k, q, r + 1);
    }
  }

  lemma QuotientUnique(a: int, k: int, q: int, r: int)
    requires k > 0 && 0 <= r < k && a == q * k + r
    ensures a / k == q && a % k == r
  {
    var q', r' := a / k, a % k;
    assert a == q' * k + r' && 0 <= r' < k;
    if q > q' {
      assert q * k - q' * k == (q - q') * k;
      MultipleAtLeast(q - q', k);
    } else if q < q' {
      assert q' * k - q * k == (q' - q) * k;
      MultipleAtLeast(q' - q, k);
    }
  }

  lemma MultipleAtLeast(d: int, k: int)
    requires d >= 1 && k > 0
    ensures d * k >= k
  {
  }


  /** The proleptic Gregorian ordinal (date.toordinal()): 0001-01-01 is day 1. */
  function DayNumber(d: Date): int
    requires ValidDate(d)
  {
    DaysBeforeYear(d.year) + DaysBeforeMonth(d.year, d.month) + d.day
  }

  function MaxOrdinal(): int {
    DayNumber(MaxDate)
  }

  lemma MonthTable(y: int, m: int)
    requires 1 <= m <= 12
    ensures m < 12 ==> DaysBeforeMonth(y, m + 1) == DaysBeforeMonth(y, m) + DaysInMonth(y, m)
    ensures m == 12 ==> DaysBeforeMonth(y, m) + DaysInMonth(y, m) == YearLength(y)
    ensures DaysBeforeMonth(y, m) + DaysInMonth(y, m) <= YearLength(y)
  {
  }

  lemma {:induction false} DaysBeforeYearMonotone(a: int, b: int)
    requires MinYear <= a <= b
    ensures DaysBeforeYear(a) <= DaysBeforeYear(b)
    decreases b - a
  {
    if a < b {
      DaysBeforeYearMonotone(a, b - 1);
      DaysBeforeNextYear(b - 1);
    }
  }

  /** No valid date lies after 9999-12-31. */
  lemma DayNumberBound(d: Date)
    requires ValidDate(d)
    ensures DayNumber(d) <= MaxOrdinal()
    ensures DayNumber(d) == MaxOrdinal() <==> d == MaxDate
  {
    MonthTable(d.year, d.month);
    if d.year < MaxYear {
      DaysBeforeNextYear(d.year);
      DaysBeforeYearMonotone(d.year + 1, MaxYear);
    } else {
      assert !IsLeapYear(MaxYear);
    }
  }

  /** The calendar day after d. */
  function NextDay(d: Date): (e: Date)
    requires ValidDate(d) && d != MaxDate
    ensures ValidDate(e)
    ensures DayNumber(e) == DayNumber(d) + 1
  {
    MonthTable(d.year, d.month);
    DaysBeforeNextYear(d.year);
    if d.day < DaysInMonth(d.year, d.month) then Date(d.year, d.month, d.day + 1)
    else if d.month < 12 then Date(d.year, d.month + 1, 1)
    else Date(d.year + 1, 1, 1)
  }

  /** d + timedelta(days=n): the date n days later, or the OverflowError
      Python raises when that date is past 9999-12-31. */
  function AddDays(d: Date, n: nat): (r: Result<Date>)
    requires ValidDate(d)
    ensures r.Ok? <==> DayNumber(d) + n <= MaxOrdinal()
    ensures r.Ok? ==> ValidDate(r.value) && DayNumber(r.value) == DayNumber(d) + n
    ensures r.Err? ==> r.error == Uncaught("date value out of range")
    decreases n
  {
    if n == 0 then
      DayNumberBound(d);
      Ok(d)
    else if d == MaxDate then
      Err(Uncaught("date value out of range"))
    else
      AddDays(NextDay(d), n - 1)
  }

  // ---- Text form: "%Y-%m-%d" ----

  predicate IsDigit(c: char) {
    '0' <= c <= '9'
  }

  function DigitValue(c: char): int
    requires IsDigit(c)
  {
    c as int - '0' as int
  }

  function DigitChar(n: int): (c: char)
    requires 0 <= n <= 9
    ensures IsDigit(c) && DigitValue(c) == n
  {
    (n + '0' as int) as char
  }

  /** The value of four decimal digits, as %Y reads them. */
  function FourDigits(t: string): int
    requires |t| == 4 && IsDigit(t[0]) && IsDigit(t[1]) && IsDigit(t[2]) && IsDigit(t[3])
  {
    1000 * DigitValue(t[0]) + 100 * DigitValue(t[1]) + 10 * DigitValue(t[2]) + DigitValue(t[3])
  }

  /** %m: one of 1[0-2], 0[1-9] or [1-9]. */
  function MonthToken(t: string): (r: Option<int>)
    ensures r.Some? ==> 1 <= r.value <= 12
  {
    if |t| == 1 && '1' <= t[0] <= '9' then Some(DigitValue(t[0]))
    else if |t| == 2 && t[0] == '0' && '1' <= t[1] <= '9' then Some(DigitValue(t[1]))
    else if |t| == 2 && t[0] == '1' && '0' <= t[1] <= '2' then Some(10 + DigitValue(t[1]))
    else None
  }

  /** %d: one of 3[01], [12][0-9], 0[1-9], [1-9] or a space and [1-9]. */
  function DayToken(t: string): (r: Option<int>)
    ensures r.Some? ==> 1 <= r.value <= 31
  {
    if |t| == 1 && '1' <= t[0] <= '9' then Some(DigitValue(t[0]))
    else if |t| == 2 && (t[0] == '0' || t[0] == ' ') && '1' <= t[1] <= '9' then Some(DigitValue(t[1]))
    else if |t| == 2 && (t[0] == '1' || t[0] == '2') && IsDigit(t[1]) then Some(10 * DigitValue(t[0]) + DigitValue(t[1]))
    else if |t| == 2 && t[0] == '3' && (t[1] == '0' || t[1] == '1') then Some(30 + DigitValue(t[1]))
    else None
  }

  const FormatMismatch := Uncaught("time data does not match format '%Y-%m-%d'")

  /** The calendar check date() applies to the fields strptime matched. */
  function MakeDate(y: int, m: int, d: int): (r: Result<Date>)
    requires 0 <= y <= 9999 && 1 <= m <= 12 && 1 <= d <= 31
    ensures r.Ok? <==> ValidDate(Date(y, m, d))
    ensures r.Ok? ==> r.value == Date(y, m, d)
  {
    if y < MinYear then Err(Uncaught("year 0 is out of range"))
    else if d > DaysInMonth(y, m) then Err(Uncaught("day is out of range for month"))
    else Ok(Date(y, m, d))
  }

  /** datetime.strptime(s, "%Y-%m-%d").date(): the whole string must match;
      anything else raises ValueError. */
  function ParseDate(s: string): (r: Result<Date>)
    ensures r.Ok? ==> ValidDate(r.value)
    ensures r.Err? ==> r.error.Uncaught?
  {
    if |s| < 8 || !(IsDigit(s[0]) && IsDigit(s[1]) && IsDigit(s[2]) && IsDigit(s[3])) || s[4] != '-' then
      Err(FormatMismatch)
    else if s[6] == '-' && MonthToken(s[5..6]).Some? && DayToken(s[7..]).Some? then
      MakeDate(FourDigits(s[..4]), MonthToken(s[5..6]).value, DayToken(s[7..]).value)
    else if s[7] == '-' && MonthToken(s[5..7]).Some? && DayToken(s[8..]).Some? then
      MakeDate(FourDigits(s[..4]), MonthToken(s[5..7]).value, DayToken(s[8..]).value)
    else
      Err(FormatMismatch)
  }

  function Pad2(n: int): (t: string)
    requires 0 <= n <= 99
    ensures |t| == 2 && IsDigit(t[0]) && IsDigit(t[1])
    ensures 10 * DigitValue(t[0]) + DigitValue(t[1]) == n
  {
    [DigitChar(n / 10), DigitChar(n % 10)]
  }

  function Pad4(n: int): (t: string)
    requires 0 <= n <= 9999
    ensures |t| == 4 && IsDigit(t[0]) && IsDigit(t[1]) && IsDigit(t[2]) && IsDigit(t[3])
    ensures FourDigits(t) == n
  {
    var hi := n / 100;
    var lo := n % 100;
    Pad2(hi) + Pad2(lo)
  }

  /** date.isoformat(): "YYYY-MM-DD" with zero padding. */
  function FormatDate(d: Date): (t: string)
    requires ValidDate(d)
    ensures |t| == 10 && t[4] == '-' && t[7] == '-'
  {
    Pad4(d.year) + "-" + Pad2(d.month) + "-" + Pad2(d.day)
  }

  lemma MonthTokenOfPad2(m: int)
    requires 1 <= m <= 12
    ensures MonthToken(Pad2(m)) == Some(m)
  {
  }

  lemma DayTokenOfPad2(d: int)
    requires 1 <= d <= 31
    ensures DayToken(Pad2(d)) == Some(d)
  {
  }

  /** Parsing what isoformat() printed gives the date back. */
  lemma ParseFormat(d: Date)
    requires ValidDate(d)
    ensures ParseDate(FormatDate(d)) == Ok(d)
  {
    var s := FormatDate(d);
    assert s[..4] == Pad4(d.year);
    assert s[5..7] == Pad2(d.month);
    assert s[8..] == Pad2(d.day);
    assert s[6] == Pad2(d.month)[1];
    MonthTokenOfPad2(d.month);
    DayTokenOfPad2(d.day);
  }

  /** Examples: 2024 is a leap year, 1900 is not, 2000 is. */
  lemma LeapYearExamples()
    ensures NextDay(Date(2024, 2, 28)) == Date(2024, 2, 29)
    ensures NextDay(Date(1900, 2, 28)) == Date(1900, 3, 1)
    ensures NextDay(Date(2000, 2, 28)) == Date(2000, 2, 29)
    ensures NextDay(Date(2023, 12, 31)) == Date(2024, 1, 1)
  {
  }
}
