/** Month arithmetic for the monthly recap.  The recap reads a `YYYY-MM`
    value, splits it at the dash and asks the JavaScript `Date` constructor
    for day zero of the following month, which yields the length of the
    month in the proleptic Gregorian calendar. */
module Calendar {
  import opened Text

  predicate IsLeapYear(y: nat)
  {
    y % 4 == 0 && (y % 100 != 0 || y % 400 == 0)
  }

  /** `DaysInYear` of the date arithmetic in section 21.4.1 of ECMA-262. */
  function DaysInYear(y: nat): nat
  {
    if y % 4 != 0 then 365
    else if y % 100 != 0 then 366
    else if y % 400 != 0 then 365
    else 366
  }

  /** The day of the year (counted from 0) on which month `m` begins: the
      thresholds of `MonthFromTime` in section 21.4.1 of ECMA-262, with
      `m == 13` standing for the end of the year. */
  function MonthStart(y: nat, m: nat): nat
    requires 1 <= m <= 13
  {
    var leap := DaysInYear(y) - 365;
    if m == 1 then 0
    else if m == 2 then 31
    else if m == 3 then 59 + leap
    else if m == 4 then 90 + leap
    else if m == 5 then 120 + leap
    else if m == 6 then 151 + leap
    else if m == 7 then 181 + leap
    else if m == 8 then 212 + leap
    else if m == 9 then 243 + leap
    else if m == 10 then 273 + leap
    else if m == 11 then 304 + leap
    else if m == 12 then 334 + leap
    else DaysInYear(y)
  }

  /** The number of days of month `m` (1..12) of year `y`: the distance from
      its first day to the first day of the next month, which is what day
      zero of the next month reads back as. */
  function DaysInMonth(y: nat, m: nat): (n: nat)
    requires 1 <= m <= 12
    ensures 28 <= n <= 31
    ensures n == MonthStart(y, m + 1) - MonthStart(y, m)
  {
    if m == 2 then (if IsLeapYear(y) then 29 else 28)
    else if m == 4 || m == 6 || m == 9 || m == 11 then 30
    else 31
  }

  /** The leap-year rule and the year length agree. */
  lemma LeapYearHasLeapDay(y: nat)
    ensures IsLeapYear(y) <==> DaysInYear(y) == 366
    ensures IsLeapYear(y) <==> DaysInMonth(y, 2) == 29
  {
  }

  /** The days of months 1..k together. */
  function DaysThrough(y: nat, k: nat): nat
    requires k <= 12
  {
    if k == 0 then 0 else DaysThrough(y, k - 1) + DaysInMonth(y, k)
  }

  /** The months of a year fill it exactly: months 1..k end where month
      k + 1 begins, and all twelve make up the year. */
  lemma {:induction false} MonthsFillYear(y: nat, k: nat)
    requires k <= 12
    ensures DaysThrough(y, k) == MonthStart(y, k + 1)
    ensures k == 12 ==> DaysThrough(y, 12) == DaysInYear(y)
  {
    if k > 0 {
      MonthsFillYear(y, k - 1);
    }
  }

  /** The `Date` constructor reads a two-digit year `y` (0..99) as 1900 + y;
      the result is never a two-digit year, keeps the last two digits, and
      leaves a full year alone. */
  function JsFullYear(y: nat): (r: nat)
    ensures r >= 100
    ensures r % 100 == y % 100
    ensures y <= 99 ==> 1900 <= r <= 1999
    ensures y > 99 ==> r == y
  {
    if y <= 99 then 1900 + y else y
  }

  /** Reading a year twice changes nothing, and a two-digit year means the
      same year of the twentieth century. */
  lemma JsFullYearSettles(y: nat)
    ensures JsFullYear(JsFullYear(y)) == JsFullYear(y)
    ensures y <= 99 ==> JsFullYear(y) == JsFullYear(1900 + y)
  {
  }

  /** A value of a month input: at least four year digits, a dash, and a
      two-digit month from 01 to 12. */
  predicate WellFormedMonth(ym: string)
  {
    && |ym| >= 7
    && IsDigits(ym[..|ym| - 3])
    && ym[|ym| - 3] == '-'
    && IsDigits(ym[|ym| - 2..])
    && 1 <= DigitsValue(ym[|ym| - 2..]) <= 12
  }

  function YearOf(ym: string): nat
    requires WellFormedMonth(ym)
  {
    DigitsValue(ym[..|ym| - 3])
  }

  function MonthOf(ym: string): (m: nat)
    requires WellFormedMonth(ym)
    ensures 1 <= m <= 12
  {
    DigitsValue(ym[|ym| - 2..])
  }

  /** The length of the month named by a month input, as the recap loop
      sees it.  A cleared input (`""`) parses to an invalid date, and the
      loop bound `NaN` admits no day at all. */
  function ReportDays(ym: string): (n: nat)
    requires ym == "" || WellFormedMonth(ym)
    ensures ym == "" ==> n == 0
    ensures ym != "" ==> 28 <= n <= 31
    ensures ym != "" ==> n == MonthStart(JsFullYear(YearOf(ym)), MonthOf(ym) + 1) - MonthStart(JsFullYear(YearOf(ym)), MonthOf(ym))
  {
    if ym == "" then 0 else DaysInMonth(JsFullYear(YearOf(ym)), MonthOf(ym))
  }
}
