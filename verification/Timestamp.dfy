/** `format_unix_secs` and `format_ns`: the RFC 3339 text of a Unix time. */
module Timestamp {
  import opened Prelude
  import opened Calendar
  import opened CivilDate
  import opened Decimal

  const DAY: nat := 86400
  const NEVER: nat := TWO_64 - 1

  /** The fields of a timestamp. */
  datatype Fields = Fields(year: nat, month: nat, day: nat, hour: nat, minute: nat, second: nat) {
    function Date(): Date {
      Calendar.Date(year, month, day)
    }
  }

  function Split(secs: nat): (f: Fields) {
    CivilIsCalendar(secs / DAY);
    var (year, month, day) := CivilFromDays(secs / DAY);
    var inDay := secs % DAY;
    Fields(year, month, day, inDay / 3600, inDay % 3600 / 60, inDay % 60)
  }

  function Render(f: Fields): string {
    Padded(f.year, 4) + ("-" + (Padded(f.month, 2) + ("-" + (Padded(f.day, 2) + ("T" +
    (Padded(f.hour, 2) + (":" + (Padded(f.minute, 2) + (":" + (Padded(f.second, 2) + "Z"))))))))))
  }

  function FormatUnixSecs(secs: nat): string {
    Render(Split(secs))
  }

  function FormatNs(ns: nat): string {
    if ns == NEVER then "never" else FormatUnixSecs(ns / 1_000_000_000)
  }

  /** Every second count gives a valid date and time, and counting days and seconds back from the
      epoch gives the second count again. */
  lemma FieldsAreExact(secs: nat)
    ensures var f := Split(secs);
            && Valid(f.Date()) && f.hour <= 23 && f.minute <= 59 && f.second <= 59
            && DayNumber(f.Date()) * DAY + f.hour * 3600 + f.minute * 60 + f.second == secs
  {
    CivilIsCalendar(secs / DAY);
    TimeOfDay(secs % DAY);
    assert secs == secs / DAY * DAY + secs % DAY;
    var f := Split(secs);
    assert (f.year, f.month, f.day) == CivilFromDays(secs / DAY);
    hide CivilFromDays, DayNumber, Valid;
  }

  lemma TimeOfDay(t: nat)
    requires t < DAY
    ensures t / 3600 <= 23 && t % 3600 / 60 <= 59 && t % 60 <= 59
    ensures t / 3600 * 3600 + t % 3600 / 60 * 60 + t % 60 == t
  {
    var h, r := t / 3600, t % 3600;
    assert t == h * 3600 + r;
    assert r == r / 60 * 60 + r % 60;
    assert t % 60 == r % 60 by {
      assert t == 60 * (h * 60 + r / 60) + r % 60;
    }
  }

  predicate FieldsLess(a: Fields, b: Fields) {
    Earlier(a.Date(), b.Date()) || (a.Date() == b.Date() &&
      (a.hour < b.hour || (a.hour == b.hour && (a.minute < b.minute || (a.minute == b.minute && a.second < b.second)))))
  }

  /** The fields are ordered as the second counts are. */
  lemma FieldsAscend(s: nat, t: nat)
    requires s < t
    ensures FieldsLess(Split(s), Split(t))
  {
    FieldsAreExact(s);
    FieldsAreExact(t);
    var a, b := Split(s), Split(t);
    hide Split, DayNumber;
    if Earlier(b.Date(), a.Date()) {
      NumbersAscend(b.Date(), a.Date());
    }
  }

  predicate FitsWidth(f: Fields) {
    f.year < 10000 && f.month < 100 && f.day < 100 && f.hour < 100 && f.minute < 100 && f.second < 100
  }

  function RenderFixed(f: Fields): (s: string)
    ensures |s| == 20
  {
    Fixed(f.year, 4) + ("-" + (Fixed(f.month, 2) + ("-" + (Fixed(f.day, 2) + ("T" +
    (Fixed(f.hour, 2) + (":" + (Fixed(f.minute, 2) + (":" + (Fixed(f.second, 2) + "Z"))))))))))
  }

  lemma Powers()
    ensures Power10(2) == 100 && Power10(4) == 10000
  {
    assert Power10(1) == 10 && Power10(3) == 1000;
  }

  lemma RenderIsFixed(f: Fields)
    requires FitsWidth(f)
    ensures Render(f) == RenderFixed(f)
  {
    Powers();
    PaddedIsFixed(f.year, 4);
    PaddedIsFixed(f.month, 2);
    PaddedIsFixed(f.day, 2);
    PaddedIsFixed(f.hour, 2);
    PaddedIsFixed(f.minute, 2);
    PaddedIsFixed(f.second, 2);
    hide Padded, Fixed, Power10;
  }

  lemma SeparatorOrder(c: string, x: string, y: string)
    requires |c| == 1
    ensures LexLess(c + x, c + y) <==> LexLess(x, y)
  {
    LexIrreflexive(c);
    LexConcat(c, c, x, y);
  }

  /** One two-digit field after a separator. */
  lemma SeparatedOrder(c: string, v: nat, w: nat, x: string, y: string)
    requires |c| == 1 && v < 100 && w < 100
    ensures LexLess(c + (Fixed(v, 2) + x), c + (Fixed(w, 2) + y)) <==> v < w || (v == w && LexLess(x, y))
  {
    Powers();
    FieldOrder(v, w, 2, x, y);
    SeparatorOrder(c, Fixed(v, 2) + x, Fixed(w, 2) + y);
  }

  /** Text order is field order. */
  lemma RenderOrder(a: Fields, b: Fields)
    requires FitsWidth(a) && FitsWidth(b)
    ensures LexLess(RenderFixed(a), RenderFixed(b)) <==> FieldsLess(a, b)
  {
    hide Fixed, Power10, LexLess;
    LexIrreflexive("Z");
    var a5, b5 := ":" + (Fixed(a.second, 2) + "Z"), ":" + (Fixed(b.second, 2) + "Z");
    SeparatedOrder(":", a.second, b.second, "Z", "Z");
    var a4, b4 := ":" + (Fixed(a.minute, 2) + a5), ":" + (Fixed(b.minute, 2) + b5);
    SeparatedOrder(":", a.minute, b.minute, a5, b5);
    var a3, b3 := "T" + (Fixed(a.hour, 2) + a4), "T" + (Fixed(b.hour, 2) + b4);
    SeparatedOrder("T", a.hour, b.hour, a4, b4);
    var a2, b2 := "-" + (Fixed(a.day, 2) + a3), "-" + (Fixed(b.day, 2) + b3);
    SeparatedOrder("-", a.day, b.day, a3, b3);
    var a1, b1 := "-" + (Fixed(a.month, 2) + a2), "-" + (Fixed(b.month, 2) + b2);
    SeparatedOrder("-", a.month, b.month, a2, b2);
    Powers();
    FieldOrder(a.year, b.year, 4, a1, b1);
  }

  /** A nanosecond count of 64 bits stays within the year 2554. */
  lemma FitsU64(ns: nat)
    requires ns < TWO_64
    ensures FitsWidth(Split(ns / 1_000_000_000))
    ensures Split(ns / 1_000_000_000).year <= 2554
  {
    var secs := ns / 1_000_000_000;
    FieldsAreExact(secs);
    var f := Split(secs);
    hide Split;
    WithinYear(f.Date());
    YearClosedForm(f.year);
    assert DayNumber(f.Date()) <= 213503;
  }

  /** Formatted times have a fixed width, their text order is the order of the second counts, and
      none is mistaken for the sentinel. */
  lemma FormatOrder(m: nat, n: nat)
    requires m < NEVER && n < NEVER
    ensures |FormatNs(m)| == 20 && FormatNs(m) != FormatNs(NEVER)
    ensures LexLess(FormatNs(m), FormatNs(n)) <==> m / 1_000_000_000 < n / 1_000_000_000
    ensures FormatNs(m) == FormatNs(n) <==> m / 1_000_000_000 == n / 1_000_000_000
  {
    var s, t := m / 1_000_000_000, n / 1_000_000_000;
    FitsU64(m);
    FitsU64(n);
    RenderIsFixed(Split(s));
    RenderIsFixed(Split(t));
    RenderOrder(Split(s), Split(t));
    RenderOrder(Split(t), Split(s));
    LexIrreflexive(FormatNs(m));
    hide Split, RenderFixed, Render, LexLess, FieldsLess, FitsWidth;
    FieldsOrder(s, t);
    FieldsOrder(t, s);
  }

  lemma FieldsOrder(s: nat, t: nat)
    ensures FieldsLess(Split(s), Split(t)) <==> s < t
  {
    hide Split;
    if s < t {
      FieldsAscend(s, t);
    } else if t < s {
      FieldsAscend(t, s);
      NotBoth(Split(t), Split(s));
    }
  }

  lemma NotBoth(a: Fields, b: Fields)
    requires FieldsLess(a, b)
    ensures !FieldsLess(b, a)
  {
  }

  /** The text of a time, field by field: separators in their places, numerals between them that make up
      a valid date and time of day, and these count back to the second. */
  lemma TextReadsBack(ns: nat)
    requires ns < NEVER
    ensures FormatNs(NEVER) == "never"
    ensures var s := FormatNs(ns);
            |s| == 20 && s[4] == s[7] == '-' && s[10] == 'T' && s[13] == s[16] == ':' && s[19] == 'Z'
    ensures exists f: Fields :: ReadsAs(FormatNs(ns), f) && CountsTo(f, ns / 1_000_000_000)
  {
    hide Split, RenderFixed, Render, ReadsAs, FitsWidth, Valid, DayNumber;
    var secs := ns / 1_000_000_000;
    var f := Split(secs);
    FitsU64(ns);
    FieldsAreExact(secs);
    assert CountsTo(f, secs);
    hide CountsTo;
    RenderIsFixed(f);
    FieldsRead(f);
    assert FormatNs(ns) == RenderFixed(f);
  }

  /** The numerals in the places of the fields. */
  predicate ReadsAs(s: string, f: Fields) {
    |s| == 20
    && Numeral(s[..4]) == Some(f.year) && Numeral(s[5..7]) == Some(f.month)
    && Numeral(s[8..10]) == Some(f.day) && Numeral(s[11..13]) == Some(f.hour)
    && Numeral(s[14..16]) == Some(f.minute) && Numeral(s[17..19]) == Some(f.second)
  }

  /** A valid date and time of day that many seconds after the epoch. */
  predicate CountsTo(f: Fields, secs: nat) {
    && Valid(f.Date()) && f.hour <= 23 && f.minute <= 59 && f.second <= 59
    && DayNumber(f.Date()) * DAY + f.hour * 3600 + f.minute * 60 + f.second == secs
  }

  lemma FieldsRead(f: Fields)
    requires FitsWidth(f)
    ensures ReadsAs(RenderFixed(f), f)
    ensures var s := RenderFixed(f);
            s[4] == s[7] == '-' && s[10] == 'T' && s[13] == s[16] == ':' && s[19] == 'Z'
  {
    Powers();
    FixedReads(f.year, 4);
    FixedReads(f.month, 2);
    FixedReads(f.day, 2);
    FixedReads(f.hour, 2);
    FixedReads(f.minute, 2);
    FixedReads(f.second, 2);
    hide Numeral, Fixed, Power10;
    Parts(Fixed(f.year, 4), Fixed(f.month, 2), Fixed(f.day, 2), Fixed(f.hour, 2), Fixed(f.minute, 2),
          Fixed(f.second, 2));
  }

  lemma TimeParts(h: string, m: string, c: string)
    requires |h| == |m| == |c| == 2
    ensures var s := h + (":" + (m + (":" + (c + "Z"))));
            && |s| == 9 && s[2] == s[5] == ':' && s[8] == 'Z' && s[0..2] == h && s[3..5] == m && s[6..8] == c
  {
    var v5, v4 := c + "Z", m + (":" + (c + "Z"));
    assert v5[0..2] == c && v5[2] == 'Z';
    assert (":" + v5)[1..3] == c && (":" + v5)[3] == 'Z';
    assert v4[0..2] == m && v4[2] == ':' && v4[3..5] == c && v4[5] == 'Z';
    assert (":" + v4)[1..3] == m && (":" + v4)[3] == ':' && (":" + v4)[4..6] == c && (":" + v4)[6] == 'Z';
  }

  lemma Parts(y: string, mo: string, d: string, h: string, m: string, c: string)
    requires |y| == 4 && |mo| == |d| == |h| == |m| == |c| == 2
    ensures var s := y + ("-" + (mo + ("-" + (d + ("T" + (h + (":" + (m + (":" + (c + "Z"))))))))));
            && |s| == 20 && s[4] == s[7] == '-' && s[10] == 'T' && s[13] == s[16] == ':' && s[19] == 'Z'
            && s[..4] == y && s[5..7] == mo && s[8..10] == d && s[11..13] == h && s[14..16] == m && s[17..19] == c
  {
    var time := h + (":" + (m + (":" + (c + "Z"))));
    TimeParts(h, m, c);
    var date := y + ("-" + (mo + ("-" + (d + "T"))));
    var s := y + ("-" + (mo + ("-" + (d + ("T" + time)))));
    assert s == date + time;
    assert |date| == 11 && date[..4] == y && date[4] == '-' && date[5..7] == mo && date[7] == '-';
    assert date[8..10] == d && date[10] == 'T';
    Slices(date, time);
  }

  lemma Slices(date: string, time: string)
    requires |date| == 11 && |time| == 9
    ensures var s := date + time;
            && |s| == 20 && s[..4] == date[..4] && s[5..7] == date[5..7] && s[8..10] == date[8..10]
            && s[4] == date[4] && s[7] == date[7] && s[10] == date[10]
            && s[11..13] == time[0..2] && s[14..16] == time[3..5] && s[17..19] == time[6..8]
            && s[13] == time[2] && s[16] == time[5] && s[19] == time[8]
  {
  }
}
