/** The proleptic Gregorian calendar, counted the plain way from 1970-01-01. */
module Calendar {
  import opened Prelude

  const EPOCH_YEAR: nat := 1970

  datatype Date = Date(year: nat, month: nat, day: nat)

  const EPOCH := Date(1970, 1, 1)

  predicate IsLeap(year: nat) {
    year % 4 == 0 && (year % 100 != 0 || year % 400 == 0)
  }

  function MonthLength(year: nat, month: nat): nat {
    if month == 2 then (if IsLeap(year) then 29 else 28)
    else if month in {4, 6, 9, 11} then 30
    else 31
  }

  function YearLength(year: nat): nat {
    if IsLeap(year) then 366 else 365
  }

  predicate Valid(d: Date) {
    EPOCH_YEAR <= d.year && 1 <= d.month <= 12 && 1 <= d.day <= MonthLength(d.year, d.month)
  }

  function DaysBeforeYear(year: nat): nat {
    if year <= EPOCH_YEAR then 0 else DaysBeforeYear(year - 1) + YearLength(year - 1)
  }

  function DaysBeforeMonth(year: nat, month: nat): nat {
    if month <= 1 then 0 else DaysBeforeMonth(year, month - 1) + MonthLength(year, month - 1)
  }

  /** The number of days from 1970-01-01 to a date. */
  function DayNumber(d: Date): int {
    DaysBeforeYear(d.year) + DaysBeforeMonth(d.year, d.month) + d.day - 1
  }

  function NextDay(d: Date): Date {
    if d.day < MonthLength(d.year, d.month) then d.(day := d.day + 1)
    else if d.month < 12 then Date(d.year, d.month + 1, 1)
    else Date(d.year + 1, 1, 1)
  }

  lemma MonthTable(year: nat)
    ensures var leap := if IsLeap(year) then 1 else 0;
            && DaysBeforeMonth(year, 1) == 0 && DaysBeforeMonth(year, 2) == 31
            && DaysBeforeMonth(year, 3) == 59 + leap && DaysBeforeMonth(year, 4) == 90 + leap
            && DaysBeforeMonth(year, 5) == 120 + leap && DaysBeforeMonth(year, 6) == 151 + leap
            && DaysBeforeMonth(year, 7) == 181 + leap && DaysBeforeMonth(year, 8) == 212 + leap
            && DaysBeforeMonth(year, 9) == 243 + leap && DaysBeforeMonth(year, 10) == 273 + leap
            && DaysBeforeMonth(year, 11) == 304 + leap && DaysBeforeMonth(year, 12) == 334 + leap
  {
    assert DaysBeforeMonth(year, 2) == DaysBeforeMonth(year, 1) + 31;
    assert DaysBeforeMonth(year, 3) == DaysBeforeMonth(year, 2) + MonthLength(year, 2);
    assert DaysBeforeMonth(year, 4) == DaysBeforeMonth(year, 3) + 31;
    assert DaysBeforeMonth(year, 5) == DaysBeforeMonth(year, 4) + 30;
    assert DaysBeforeMonth(year, 6) == DaysBeforeMonth(year, 5) + 31;
    assert DaysBeforeMonth(year, 7) == DaysBeforeMonth(year, 6) + 30;
    assert DaysBeforeMonth(year, 8) == DaysBeforeMonth(year, 7) + 31;
    assert DaysBeforeMonth(year, 9) == DaysBeforeMonth(year, 8) + 31;
    assert DaysBeforeMonth(year, 10) == DaysBeforeMonth(year, 9) + 30;
    assert DaysBeforeMonth(year, 11) == DaysBeforeMonth(year, 10) + 31;
    assert DaysBeforeMonth(year, 12) == DaysBeforeMonth(year, 11) + 30;
  }

  /** The count is the number of steps of the day-by-day calendar. */
  lemma CountsDays(d: Date)
    requires Valid(d)
    ensures Valid(NextDay(d)) && DayNumber(NextDay(d)) == DayNumber(d) + 1
    ensures DayNumber(EPOCH) == 0 && Valid(EPOCH)
  {
    MonthTable(d.year);
    assert DaysBeforeYear(d.year + 1) == DaysBeforeYear(d.year) + YearLength(d.year);
  }

  predicate Earlier(a: Date, b: Date) {
    a.year < b.year || (a.year == b.year && (a.month < b.month || (a.month == b.month && a.day < b.day)))
  }

  lemma {:induction false} YearsAscend(y: nat, z: nat)
    requires EPOCH_YEAR <= y < z
    ensures DaysBeforeYear(y) + YearLength(y) <= DaysBeforeYear(z)
    decreases z - y
  {
    if y + 1 < z {
      YearsAscend(y, z - 1);
    }
  }

  lemma {:induction false} MonthsAscend(year: nat, m: nat, n: nat)
    requires 1 <= m < n
    ensures DaysBeforeMonth(year, m) + MonthLength(year, m) <= DaysBeforeMonth(year, n)
    decreases n - m
  {
    if m + 1 < n {
      MonthsAscend(year, m, n - 1);
    }
  }

  lemma WithinYear(d: Date)
    requires Valid(d)
    ensures 0 <= DayNumber(d) - DaysBeforeYear(d.year) < YearLength(d.year)
  {
    MonthTable(d.year);
  }

  /** Later dates have larger numbers. */
  lemma NumbersAscend(a: Date, b: Date)
    requires Valid(a) && Valid(b) && Earlier(a, b)
    ensures DayNumber(a) < DayNumber(b)
  {
    WithinYear(a);
    WithinYear(b);
    if a.year < b.year {
      YearsAscend(a.year, b.year);
    } else if a.month < b.month {
      MonthsAscend(a.year, a.month, b.month);
    }
  }

  /** Leap years up to and including `year`. */
  function Leaps(year: nat): int {
    year / 4 - year / 100 + year / 400
  }

  lemma LeapStep(year: nat)
    requires 1 <= year
    ensures Leaps(year) == Leaps(year - 1) + (if IsLeap(year) then 1 else 0)
  {
    DivStep(year, 4);
    DivStep(year, 100);
    DivStep(year, 400);
    LeapRule(year);
    hide IsLeap;
  }

  lemma LeapRule(year: nat)
    ensures (if IsLeap(year) then 1 else 0) ==
            (if year % 4 == 0 then 1 else 0) - (if year % 100 == 0 then 1 else 0) + (if year % 400 == 0 then 1 else 0)
  {
    assert year % 400 == 0 ==> year % 100 == 0 by {
      assert year % 400 == 0 ==> year == 100 * (4 * (year / 400)) + 0;
    }
    assert year % 100 == 0 ==> year % 4 == 0 by {
      assert year % 100 == 0 ==> year == 4 * (25 * (year / 100)) + 0;
    }
  }

  lemma DivStep(n: nat, k: nat)
    requires 1 <= n && 1 < k
    ensures n / k == (n - 1) / k + (if n % k == 0 then 1 else 0)
  {
    var q, r := (n - 1) / k, (n - 1) % k;
    assert n == q * k + (r + 1);
    if r + 1 < k {
      RemainderIs(n, k, q, r + 1);
    } else {
      assert n == (q + 1) * k + 0;
      RemainderIs(n, k, q + 1, 0);
    }
  }

  lemma {:induction false} YearClosedForm(year: nat)
    requires EPOCH_YEAR <= year
    ensures DaysBeforeYear(year) == 365 * year + Leaps(year - 1) - 719527
  {
    if year > EPOCH_YEAR {
      YearClosedForm(year - 1);
      LeapStep(year - 1);
    }
  }
}
