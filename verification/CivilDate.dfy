/** The civil-date arithmetic of `format_unix_secs`, proved against the calendar. */
module CivilDate {
  import opened Calendar
  import opened Prelude

  function YearOfEra(doe: nat): int {
    (doe - doe / 1460 + doe / 36524 - doe / 146096) / 365
  }

  function DayOfYear(doe: nat, yoe: int): int {
    doe - (365 * yoe + yoe / 4 - yoe / 100)
  }

  /** The March year of a day count and the day within it. */
  function MarchYearOf(days: nat): (int, int) {
    var z := days + 719468;
    var era := z / 146097;
    var doe := z - era * 146097;
    var yoe := YearOfEra(doe);
    (yoe + era * 400, DayOfYear(doe, yoe))
  }

  /** The date of a day count, year by year starting in March. */
  function CivilFromDays(days: nat): (int, int, int) {
    var (y, doy) := MarchYearOf(days);
    var mp := (5 * doy + 2) / 153;
    var day := doy - (153 * mp + 2) / 5 + 1;
    var month := if mp < 10 then mp + 3 else mp - 9;
    (if month <= 2 then y + 1 else y, month, day)
  }

  /** Within a century of the era: four-year cycles and the years in them. */
  lemma YearInCentury(doe: nat, c: nat, r: nat, q: nat, t: nat, u: nat)
    requires doe == 36524 * c + r && c <= 3 && r < 36524 && r == 1461 * q + t && t < 1461
    requires if t < 1460 then u == t / 365 else u == 3
    ensures YearOfEra(doe) == 100 * c + 4 * q + u && q <= 24
  {
    var e := if 24 * c + q + t >= 1460 then 1 else 0;
    assert doe == 1460 * (25 * c + q) + (24 * c + q + t);
    assert doe / 1460 == 25 * c + q + e;
    assert doe / 36524 == c && doe / 146096 == 0;
    assert doe - doe / 1460 + doe / 36524 == 365 * (100 * c + 4 * q) + (t - e);
    if t == 1460 {
      assert (t - e) / 365 == 3;
    } else if e == 1 {
      assert t >= 1364;
      assert (t - e) / 365 == 3 == t / 365;
    }
  }

  /** The year of the era, and a day of that March year; the 366th day exists only before a leap day. */
  lemma YearAndDay(doe: nat)
    requires doe < 146097
    ensures var yoe := YearOfEra(doe);
            var doy := DayOfYear(doe, yoe);
            && 0 <= yoe <= 399 && 0 <= doy <= 365
            && (doy == 365 ==> (yoe + 1) % 4 == 0 && ((yoe + 1) % 100 != 0 || yoe == 399))
  {
    if doe == 146096 {
    } else {
      var c, r := doe / 36524, doe % 36524;
      var q, t := r / 1461, r % 1461;
      var u := if t < 1460 then t / 365 else 3;
      YearInCentury(doe, c, r, q, t, u);
      var yoe := YearOfEra(doe);
      assert yoe / 4 == 25 * c + q;
      assert yoe / 100 == c;
      assert DayOfYear(doe, yoe) == t - 365 * u;
      if t == 1460 {
        assert (yoe + 1) % 4 == 0;
        assert q < 24;
        assert (yoe + 1) == 100 * c + 4 * (q + 1);
      }
    }
  }

  /** A day of a March year falls in one of its twelve months. */
  lemma MonthAndDay(doy: nat)
    requires doy <= 365
    ensures var mp := (5 * doy + 2) / 153;
            && 0 <= mp <= 11 && (153 * mp + 2) / 5 <= doy
            && (mp < 11 ==> doy < (153 * (mp + 1) + 2) / 5)
  {
  }

  /** A March year starts on 1 March: 306 days before the next calendar year. */
  lemma MarchYear(y: nat, doy: nat, year: int, month: int, day: int)
    requires 1969 <= y && doy <= 365 && (doy == 365 ==> IsLeap(y + 1)) && (y == 1969 ==> doy >= 306)
    requires var mp := (5 * doy + 2) / 153;
             && day == doy - (153 * mp + 2) / 5 + 1
             && month == (if mp < 10 then mp + 3 else mp - 9)
             && year == (if month <= 2 then y + 1 else y)
    ensures 1970 <= year && 1 <= month && 1 <= day && Valid(Date(year, month, day))
    ensures DayNumber(Date(year, month, day)) == DaysBeforeYear(y + 1) - 306 + doy
  {
    MonthAndDay(doy);
    MonthTable(year);
    var mp := (5 * doy + 2) / 153;
    assert month <= 2 <==> mp >= 10;
    if mp < 10 {
      assert DaysBeforeYear(y + 1) == DaysBeforeYear(y) + YearLength(y);
    }
  }

  /** Adding whole eras shifts the quotients by 4, 100 and 400, and leaves the remainders. */
  lemma EraDiv(n: nat, m: nat, k: nat, per: nat)
    requires 0 < k
    ensures (n + m * k * per) / k == n / k + m * per && (n + m * k * per) % k == n % k
  {
    var q, r := n / k, n % k;
    assert n == q * k + r;
    assert n + m * k * per == (q + m * per) * k + r;
    RemainderIs(n + m * k * per, k, q + m * per, r);
  }

  lemma EraYear(era: nat, yoe: nat, doe: nat)
    requires yoe <= 399
    ensures var y := yoe + era * 400;
            365 * y + Leaps(y) == 146097 * era + 365 * yoe + yoe / 4 - yoe / 100
    ensures IsLeap(yoe + 1 + era * 400) <==> (yoe + 1) % 4 == 0 && ((yoe + 1) % 100 != 0 || yoe == 399)
  {
    EraDiv(yoe, era, 4, 100);
    EraDiv(yoe, era, 100, 4);
    EraDiv(yoe, era, 400, 1);
    EraDiv(yoe + 1, era, 4, 100);
    EraDiv(yoe + 1, era, 100, 4);
    EraDiv(yoe + 1, era, 400, 1);
    assert era * 4 * 100 == era * 400 && era * 100 * 4 == era * 400 && era * 400 * 1 == era * 400;
  }

  lemma MarchYearFacts(days: nat)
    ensures var (y, doy) := MarchYearOf(days);
            && 0 <= y && 0 <= doy <= 365 && (doy == 365 ==> IsLeap(y + 1))
            && days + 719468 == 365 * y + Leaps(y) + doy
  {
    var z := days + 719468;
    var era := z / 146097;
    var doe := z - era * 146097;
    YearAndDay(doe);
    hide YearOfEra;
    EraYear(era, YearOfEra(doe), doe);
    hide Leaps, IsLeap;
  }

  /** The arithmetic gives the calendar date of every day count. */
  lemma CivilIsCalendar(days: nat)
    ensures var (year, month, day) := CivilFromDays(days);
            && 1970 <= year && 1 <= month <= 12 && 1 <= day
            && Valid(Date(year, month, day)) && DayNumber(Date(year, month, day)) == days
  {
    MarchYearFacts(days);
    var (y, doy) := MarchYearOf(days);
    hide MarchYearOf;
    SinceEpoch(y, doy, days);
    var (year, month, day) := CivilFromDays(days);
    MarchYear(y, doy, year, month, day);
    YearClosedForm(y + 1);
    hide Leaps, DayNumber;
  }

  /** Counts from the epoch on belong to March years from 1969 on. */
  lemma SinceEpoch(y: nat, doy: nat, days: nat)
    requires days + 719468 == 365 * y + Leaps(y) + doy && doy <= 365
    ensures 1969 <= y && (y == 1969 ==> doy >= 306)
  {
    if y <= 1968 {
      assert Leaps(y) <= Leaps(1968) by { LeapsAscend(y, 1968); }
    }
  }

  lemma {:induction false} LeapsAscend(y: nat, z: nat)
    requires y <= z
    ensures Leaps(y) <= Leaps(z)
    decreases z - y
  {
    if y < z {
      LeapsAscend(y, z - 1);
      LeapStep(z);
    }
  }
}
