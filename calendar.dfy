/**
 * The calendar the services rely on: java.time's ISO-8601 (proleptic Gregorian)
 * LocalDate and YearMonth, reduced to what DateUtils and the services call,
 * and DateUtils itself.
 */
module Calendar {
  import opened Errors

  /** A month number that java.time accepts. */
  type MonthNumber = m: int | 1 <= m <= 12 witness 1

  /** java.time.YearMonth. */
  datatype YearMonth = YearMonth(year: int, month: MonthNumber)

  /** java.time.LocalDate, as its three fields; ValidDate says which triples exist. */
  datatype Date = Date(year: int, month: int, day: int)

  /** Java's `/` on int: the quotient truncated toward zero. */
  function TruncDiv(a: int, b: int): int
    requires b > 0
  {
    if a >= 0 then a / b else -((-a) / b)
  }

  /** Java's `%` on int: what the truncated quotient leaves, with the sign of `a`. */
  function TruncRem(a: int, b: int): (r: int)
    requires b > 0
    ensures a == b * TruncDiv(a, b) + r
    ensures -b < r < b
    ensures a >= 0 ==> r >= 0
    ensures a <= 0 ==> r <= 0
  {
    if a >= 0 then a % b else -((-a) % b)
  }

  /** A non-zero multiple of b is at least b away from zero. */
  lemma MulAwayFromZero(b: int, d: int)
    requires b > 0
    ensures d >= 1 ==> b * d >= b
    ensures d <= -1 ==> b * d <= -b
  {
  }

  /** Euclid's division lemma: a split of a into b * q plus a remainder in [0, b) fixes a % b. */
  lemma EuclidUnique(a: int, b: int, q: int, r: int)
    requires b > 0 && a == b * q + r && 0 <= r < b
    ensures a % b == r
  {
    var d := q - a / b;
    assert b * d == a % b - r;
    MulAwayFromZero(b, d);
  }

  /** Java's truncating remainder is zero exactly when the Euclidean one is. */
  lemma TruncRemZero(a: int, b: int)
    requires b > 0
    ensures TruncRem(a, b) == 0 <==> a % b == 0
  {
    if a < 0 {
      var q := (-a) / b;
      var m := (-a) % b;
      assert -a == b * q + m;
      if m == 0 {
        EuclidUnique(a, b, -q, 0);
      } else {
        EuclidUnique(a, b, -q - 1, b - m);
      }
    }
  }

  /**
   * IsoChronology.isLeapYear: divisible by 4, and not by 100 unless by 400.
   * Java tests `(year & 3) == 0`, which on two's complement is the Euclidean
   * `year % 4 == 0`, and `year % 100`, `year % 400` with Java's truncating `%`.
   */
  function IsLeapYear(year: int): (leap: bool)
    ensures leap <==> year % 4 == 0 && (TruncRem(year, 100) != 0 || TruncRem(year, 400) == 0)
  {
    TruncRemZero(year, 100);
    TruncRemZero(year, 400);
    year % 4 == 0 && (year % 100 != 0 || year % 400 == 0)
  }

  /** YearMonth.lengthOfMonth. */
  function LengthOfMonth(ym: YearMonth): (n: int)
    ensures 28 <= n <= 31
  {
    if ym.month == 2 then (if IsLeapYear(ym.year) then 29 else 28)
    else if ym.month == 4 || ym.month == 6 || ym.month == 9 || ym.month == 11 then 30
    else 31
  }

  /** The triples LocalDate.of accepts. */
  predicate ValidDate(d: Date) {
    1 <= d.month <= 12 && 1 <= d.day <= LengthOfMonth(YearMonth(d.year, d.month))
  }

  /** LocalDate.compareTo(other) <= 0: chronological order. */
  predicate DateLe(a: Date, b: Date) {
    a.year < b.year || (a.year == b.year && (a.month < b.month || (a.month == b.month && a.day <= b.day)))
  }

  /** YearMonth.atDay(1). */
  function AtStartOfMonth(ym: YearMonth): (d: Date)
    ensures ValidDate(d) && d.year == ym.year && d.month == ym.month
    ensures forall e: Date :: e.year == ym.year && e.month == ym.month && ValidDate(e) ==> DateLe(d, e)
  {
    Date(ym.year, ym.month, 1)
  }

  /** YearMonth.atEndOfMonth(): the last valid day of the month. */
  function AtEndOfMonth(ym: YearMonth): (d: Date)
    ensures ValidDate(d) && d.year == ym.year && d.month == ym.month
    ensures !ValidDate(d.(day := d.day + 1))
    ensures forall e: Date :: e.year == ym.year && e.month == ym.month && ValidDate(e) ==> DateLe(e, d)
  {
    Date(ym.year, ym.month, LengthOfMonth(ym))
  }

  /** A date lies between the first and last day of a month exactly when it is in that month. */
  lemma InMonthIff(d: Date, ym: YearMonth)
    requires ValidDate(d)
    ensures (DateLe(AtStartOfMonth(ym), d) && DateLe(d, AtEndOfMonth(ym)))
            <==> (d.year == ym.year && d.month == ym.month)
  {
  }

  /** DateUtils.getStartOfMonth(month, year): LocalDate.of(year, month, 1). */
  function GetStartOfMonth(month: int, year: int): (r: Result<Date>)
    ensures r.Ok? <==> 1 <= month <= 12
    ensures r.Err? ==> r.error == InvalidDate
    ensures r.Ok? ==> ValidDate(r.value) && r.value == Date(year, month, 1)
  {
    if 1 <= month <= 12 then Ok(AtStartOfMonth(YearMonth(year, month))) else Err(InvalidDate)
  }

  /** DateUtils.getEndOfMonth(month, year): YearMonth.of(year, month).atEndOfMonth(). */
  function GetEndOfMonth(month: int, year: int): (r: Result<Date>)
    ensures r.Ok? <==> 1 <= month <= 12
    ensures r.Err? ==> r.error == InvalidDate
    ensures r.Ok? ==> ValidDate(r.value) && r.value.year == year && r.value.month == month
    ensures r.Ok? ==> !ValidDate(r.value.(day := r.value.day + 1))
  {
    if 1 <= month <= 12 then Ok(AtEndOfMonth(YearMonth(year, month))) else Err(InvalidDate)
  }

  /** The day getEndOfMonth returns, month by month. */
  lemma EndOfMonthDay(month: int, year: int)
    requires 1 <= month <= 12
    ensures GetEndOfMonth(month, year).Ok?
    ensures month in {1, 3, 5, 7, 8, 10, 12} ==> GetEndOfMonth(month, year).value.day == 31
    ensures month in {4, 6, 9, 11} ==> GetEndOfMonth(month, year).value.day == 30
    ensures month == 2 ==> GetEndOfMonth(month, year).value.day == (if IsLeapYear(year) then 29 else 28)
  {
  }

  /** The start and end of a month share its month and year, and the start is not after the end. */
  lemma StartNotAfterEnd(month: int, year: int)
    requires 1 <= month <= 12
    ensures GetStartOfMonth(month, year).Ok? && GetEndOfMonth(month, year).Ok?
    ensures DateLe(GetStartOfMonth(month, year).value, GetEndOfMonth(month, year).value)
    ensures GetStartOfMonth(month, year).value.month == GetEndOfMonth(month, year).value.month
    ensures GetStartOfMonth(month, year).value.year == GetEndOfMonth(month, year).value.year
  {
  }

  /** The Gregorian rule in use: centuries are common years unless divisible by 400. */
  lemma GregorianLeapYears()
    ensures IsLeapYear(2000) && IsLeapYear(2024) && !IsLeapYear(1900) && !IsLeapYear(2100) && !IsLeapYear(2023)
  {
  }

  /** Twelve months add up to the length of the year: 365 days, 366 in a leap year. */
  lemma YearLength(year: int)
    ensures LengthOfMonth(YearMonth(year, 1)) + LengthOfMonth(YearMonth(year, 2)) + LengthOfMonth(YearMonth(year, 3))
          + LengthOfMonth(YearMonth(year, 4)) + LengthOfMonth(YearMonth(year, 5)) + LengthOfMonth(YearMonth(year, 6))
          + LengthOfMonth(YearMonth(year, 7)) + LengthOfMonth(YearMonth(year, 8)) + LengthOfMonth(YearMonth(year, 9))
          + LengthOfMonth(YearMonth(year, 10)) + LengthOfMonth(YearMonth(year, 11)) + LengthOfMonth(YearMonth(year, 12))
          == if IsLeapYear(year) then 366 else 365
  {
  }

  /** Month.getDisplayName(TextStyle.FULL, Locale.ENGLISH), January first. */
  const FullMonthNames: seq<string> :=
    ["January", "February", "March", "April", "May", "June",
     "July", "August", "September", "October", "November", "December"]

  /** Month.getDisplayName(TextStyle.SHORT, Locale.ENGLISH), January first. */
  const ShortMonthNames: seq<string> :=
    ["Jan", "Feb", "Mar", "Apr", "May", "Jun", "Jul", "Aug", "Sep", "Oct", "Nov", "Dec"]

  /** DateUtils.getMonthName: Month.of(month) throws outside 1..12. */
  function GetMonthName(month: int): (r: Result<string>)
    ensures r.Ok? <==> 1 <= month <= 12
    ensures r.Err? ==> r.error == InvalidDate
    ensures r.Ok? ==> r.value == FullMonthNames[month - 1]
  {
    if 1 <= month <= 12 then Ok(FullMonthNames[month - 1]) else Err(InvalidDate)
  }

  /** DateUtils.getShortMonthName: Month.of(month) throws outside 1..12. */
  function GetShortMonthName(month: int): (r: Result<string>)
    ensures r.Ok? <==> 1 <= month <= 12
    ensures r.Err? ==> r.error == InvalidDate
    ensures r.Ok? ==> r.value == ShortMonthNames[month - 1]
  {
    if 1 <= month <= 12 then Ok(ShortMonthNames[month - 1]) else Err(InvalidDate)
  }

  /** Each short name is the first three letters of the full name, and no two months share a name. */
  lemma MonthNamesAgree(m1: int, m2: int)
    requires 1 <= m1 <= 12 && 1 <= m2 <= 12
    ensures GetShortMonthName(m1).value == GetMonthName(m1).value[..3]
    ensures m1 != m2 ==> GetMonthName(m1).value != GetMonthName(m2).value
    ensures m1 != m2 ==> GetShortMonthName(m1).value != GetShortMonthName(m2).value
  {
  }

  /** Months counted from January of year 0, the count YearMonth.plusMonths works on. */
  function MonthIndex(ym: YearMonth): int {
    ym.year * 12 + ym.month - 1
  }

  /** The month with a given index: floorDiv and floorMod by 12, as YearMonth.plusMonths computes them. */
  function FromMonthIndex(k: int): (ym: YearMonth)
    ensures MonthIndex(ym) == k
  {
    YearMonth(k / 12, k % 12 + 1)
  }

  lemma FromMonthIndexInverse(ym: YearMonth)
    ensures FromMonthIndex(MonthIndex(ym)) == ym
  {
    var k := MonthIndex(ym);
    assert k == ym.year * 12 + (ym.month - 1) && 0 <= ym.month - 1 < 12;
    assert k / 12 == ym.year;
  }

  /** YearMonth.minusMonths(n). */
  function MinusMonths(ym: YearMonth, n: int): (r: YearMonth)
    ensures MonthIndex(r) == MonthIndex(ym) - n
  {
    FromMonthIndex(MonthIndex(ym) - n)
  }

  /** The calendar month before ym, wrapping from January to December of the year before. */
  function PreviousMonth(ym: YearMonth): YearMonth {
    if ym.month == 1 then YearMonth(ym.year - 1, 12) else YearMonth(ym.year, ym.month - 1)
  }

  /** Going back zero months stays put; going back one more month is one calendar step back, with year wrap. */
  lemma MinusMonthsStep(ym: YearMonth, n: int)
    ensures MinusMonths(ym, 0) == ym
    ensures MinusMonths(ym, n + 1) == PreviousMonth(MinusMonths(ym, n))
  {
    FromMonthIndexInverse(ym);
    var prev := PreviousMonth(MinusMonths(ym, n));
    assert MonthIndex(prev) == MonthIndex(ym) - (n + 1);
    FromMonthIndexInverse(prev);
  }
}
