/** Calendar dates as the server's shard folders name them: the text
    `strftime('%Y-%m-%d')` writes for a date, the text
    `strptime(name, '%Y-%m-%d')` accepts, and the proleptic Gregorian day
    number (`date.toordinal()`) that orders them. Instants are whole
    seconds on the same scale: midnight of day `Ordinal(d)` is second
    `Ordinal(d) * SecondsPerDay`. */
module Dates {
  import opened Common

  const SecondsPerDay := 86400

  datatype Date = Date(year: int, month: int, day: int)

  predicate IsLeap(y: int)
  {
    y % 4 == 0 && (y % 100 != 0 || y % 400 == 0)
  }

  function DaysInMonth(y: int, m: int): int
    requires 1 <= m <= 12
  {
    if m == 2 then (if IsLeap(y) then 29 else 28)
    else if m == 4 || m == 6 || m == 9 || m == 11 then 30
    else 31
  }

  /** The dates `datetime` can represent (`MINYEAR` 1 to `MAXYEAR` 9999). */
  predicate Valid(d: Date)
  {
    1 <= d.year <= 9999 && 1 <= d.month <= 12 && 1 <= d.day <= DaysInMonth(d.year, d.month)
  }

  function DaysBeforeYear(y: int): int
    requires y >= 1
  {
    var p := y - 1;
    p * 365 + p / 4 - p / 100 + p / 400
  }

  function DaysBeforeMonth(y: int, m: int): int
    requires 1 <= m <= 12
  {
    var before :=
      if m == 1 then 0 else if m == 2 then 31 else if m == 3 then 59
      else if m == 4 then 90 else if m == 5 then 120 else if m == 6 then 151
      else if m == 7 then 181 else if m == 8 then 212 else if m == 9 then 243
      else if m == 10 then 273 else if m == 11 then 304 else 334;
    before + (if m > 2 && IsLeap(y) then 1 else 0)
  }

  /** `date.toordinal()`: 0001-01-01 is day 1. */
  function Ordinal(d: Date): int
    requires Valid(d)
  {
    DaysBeforeYear(d.year) + DaysBeforeMonth(d.year, d.month) + d.day
  }

  /** The first second of the date. */
  function Midnight(d: Date): int
    requires Valid(d)
  {
    Ordinal(d) * SecondsPerDay
  }

  /** Calendar order: year, then month, then day. */
  predicate Before(a: Date, b: Date)
  {
    a.year < b.year || (a.year == b.year && (a.month < b.month || (a.month == b.month && a.day < b.day)))
  }

  // ------------------------------------------------------------------
  // Formatting: strftime('%Y-%m-%d')

  function Pad2(n: int): (t: string)
    requires 0 <= n < 100
    ensures |t| == 2 && IsDigit(t[0]) && IsDigit(t[1])
  {
    [DigitChar(n / 10), DigitChar(n % 10)]
  }

  function Pad4(n: int): (t: string)
    requires 0 <= n < 10000
    ensures |t| == 4 && forall i :: 0 <= i < 4 ==> IsDigit(t[i])
  {
    Pad2(n / 100) + Pad2(n % 100)
  }

  function Format(d: Date): (name: string)
    requires Valid(d)
  {
    Pad4(d.year) + "-" + Pad2(d.month) + "-" + Pad2(d.day)
  }

  // ------------------------------------------------------------------
  // Parsing: strptime(name, '%Y-%m-%d')

  /** `%m` is the regular expression `1[0-2]|0[1-9]|[1-9]`. */
  function MonthToken(s: string): Option<(int, string)>
  {
    if |s| >= 2 && s[0] == '1' && '0' <= s[1] <= '2' then Some((10 + DigitVal(s[1]), s[2..]))
    else if |s| >= 2 && s[0] == '0' && '1' <= s[1] <= '9' then Some((DigitVal(s[1]), s[2..]))
    else if |s| >= 1 && '1' <= s[0] <= '9' then Some((DigitVal(s[0]), s[1..]))
    else None
  }

  /** `%d` is the regular expression `3[01]|[12]\d|0[1-9]|[1-9]| [1-9]`;
      the first alternative that matches is taken. */
  function DayToken(s: string): Option<(int, string)>
  {
    if |s| >= 2 && s[0] == '3' && (s[1] == '0' || s[1] == '1') then Some((30 + DigitVal(s[1]), s[2..]))
    else if |s| >= 2 && (s[0] == '1' || s[0] == '2') && IsDigit(s[1]) then Some((DigitVal(s[0]) * 10 + DigitVal(s[1]), s[2..]))
    else if |s| >= 2 && s[0] == '0' && '1' <= s[1] <= '9' then Some((DigitVal(s[1]), s[2..]))
    else if |s| >= 1 && '1' <= s[0] <= '9' then Some((DigitVal(s[0]), s[1..]))
    else if |s| >= 2 && s[0] == ' ' && '1' <= s[1] <= '9' then Some((DigitVal(s[1]), s[2..]))
    else None
  }

  function YearValue(t: string): int
    requires |t| == 4 && forall i :: 0 <= i < 4 ==> IsDigit(t[i])
  {
    DigitVal(t[0]) * 1000 + DigitVal(t[1]) * 100 + DigitVal(t[2]) * 10 + DigitVal(t[3])
  }

  /** The date a folder name denotes, or None where `strptime` raises
      `ValueError`: the text does not match the pattern, text is left over
      after the day, or the fields do not form a date (year 0, 31 April,
      29 February of a common year). */
  function Parse(name: string): (r: Option<Date>)
    ensures r.Some? ==> Valid(r.value)
  {
    if |name| < 5 || !(forall i :: 0 <= i < 4 ==> IsDigit(name[i])) || name[4] != '-' then None
    else
      var year := YearValue(name[..4]);
      match MonthToken(name[5..])
      case None => None
      case Some((month, rest)) =>
        if |rest| == 0 || rest[0] != '-' then None
        else
          match DayToken(rest[1..])
          case None => None
          case Some((day, rest')) =>
            if rest' != [] then None
            else if 1 <= year && 1 <= day <= DaysInMonth(year, month) then Some(Date(year, month, day))
            else None
  }

  // ------------------------------------------------------------------
  // Properties

  lemma Pad2Digits(n: int)
    requires 0 <= n < 100
    ensures DigitVal(Pad2(n)[0]) * 10 + DigitVal(Pad2(n)[1]) == n
  {
  }

  /** A folder named for a date parses back to that date. */
  lemma ParseFormat(d: Date)
    requires Valid(d)
    ensures Parse(Format(d)) == Some(d)
  {
    var name := Format(d);
    var y4, m2, d2 := Pad4(d.year), Pad2(d.month), Pad2(d.day);
    assert name == y4 + "-" + (m2 + "-" + d2);
    assert name[..4] == y4 && name[4] == '-';
    assert name[5..] == m2 + "-" + d2;
    YearText(d.year);
    MonthText(d.month, "-" + d2);
    assert ("-" + d2)[1..] == d2;
    DayText(d.day);
  }

  lemma YearText(y: int)
    requires 0 <= y < 10000
    ensures YearValue(Pad4(y)) == y
  {
    Pad2Digits(y / 100);
    Pad2Digits(y % 100);
  }

  lemma MonthText(m: int, tail: string)
    requires 1 <= m <= 12
    ensures MonthToken(Pad2(m) + tail) == Some((m, tail))
  {
    var t := Pad2(m);
    Pad2Digits(m);
    assert (t + tail)[..2] == t && (t + tail)[2..] == tail;
    if m < 10 {
      assert t[0] == '0' && '1' <= t[1] <= '9';
    } else {
      assert t[0] == '1' && '0' <= t[1] <= '2';
    }
  }

  lemma DayText(d: int)
    requires 1 <= d <= 31
    ensures DayToken(Pad2(d)) == Some((d, []))
  {
    var t := Pad2(d);
    Pad2Digits(d);
    assert t[2..] == [];
    if d < 10 {
      assert t[0] == '0' && '1' <= t[1] <= '9';
    } else if d < 30 {
      assert t[0] == '1' || t[0] == '2';
    } else {
      assert t[0] == '3' && (t[1] == '0' || t[1] == '1');
    }
  }

  /** A formatted date is a plain path segment: digits and dashes only. */
  lemma FormatIsSegment(d: Date)
    requires Valid(d)
    ensures |Format(d)| == 10
    ensures '/' !in Format(d)
    ensures Format(d) != "." && Format(d) != ".."
  {
    var name := Format(d);
    assert forall i :: 0 <= i < |name| ==> IsDigit(name[i]) || name[i] == '-';
  }

  lemma DaysInYear(y: int)
    requires y >= 1
    ensures DaysBeforeYear(y + 1) == DaysBeforeYear(y) + DaysBeforeMonth(y, 12) + 31
  {
    var p := y - 1;
    DivStep(p, 4);
    DivStep(p, 100);
    DivStep(p, 400);
    LeapDivisors(y);
    var leaps := ((p + 1) / 4 - p / 4) - ((p + 1) / 100 - p / 100) + ((p + 1) / 400 - p / 400);
    assert leaps == (if IsLeap(y) then 1 else 0);
    assert DaysBeforeYear(y + 1) == DaysBeforeYear(y) + 365 + leaps;
  }

  /** A multiple of 400 is one of 100, and a multiple of 100 one of 4. */
  lemma LeapDivisors(y: int)
    ensures y % 400 == 0 ==> y % 100 == 0
    ensures y % 100 == 0 ==> y % 4 == 0
  {
    if y % 400 == 0 {
      var q := y / 400;
      assert y == 400 * q;
      assert y / 100 == 4 * q;
    }
    if y % 100 == 0 {
      var q := y / 100;
      assert y == 100 * q;
      assert y / 4 == 25 * q;
    }
  }

  /** Counting the multiples of `k` up to `p + 1` adds one exactly when
      `p + 1` is one. */
  lemma DivStep(p: int, k: int)
    requires p >= 0 && (k == 4 || k == 100 || k == 400)
    ensures (p + 1) / k == p / k + (if (p + 1) % k == 0 then 1 else 0)
  {
    if k == 4 {
      assert p == 4 * (p / 4) + p % 4;
      assert p + 1 == 4 * ((p + 1) / 4) + (p + 1) % 4;
    } else if k == 100 {
      assert p == 100 * (p / 100) + p % 100;
      assert p + 1 == 100 * ((p + 1) / 100) + (p + 1) % 100;
    } else {
      assert p == 400 * (p / 400) + p % 400;
      assert p + 1 == 400 * ((p + 1) / 400) + (p + 1) % 400;
    }
  }

  lemma {:induction false} YearsMonotone(a: int, b: int)
    requires 1 <= a <= b
    ensures DaysBeforeYear(a) + (b - a) * 365 <= DaysBeforeYear(b)
    decreases b - a
  {
    if a < b {
      YearsMonotone(a, b - 1);
      DaysInYear(b - 1);
    }
  }

  lemma MonthsAdvance(y: int, m: int)
    requires 1 <= m < 12
    ensures DaysBeforeMonth(y, m + 1) == DaysBeforeMonth(y, m) + DaysInMonth(y, m)
  {
  }

  lemma {:induction false} MonthsMonotone(y: int, a: int, b: int)
    requires 1 <= a <= b <= 12
    ensures DaysBeforeMonth(y, a) + (if a < b then DaysInMonth(y, a) else 0) <= DaysBeforeMonth(y, b)
    decreases b - a
  {
    if a < b {
      MonthsAdvance(y, a);
      if a + 1 < b {
        MonthsMonotone(y, a + 1, b);
      }
    }
  }

  /** The day number orders dates as the calendar does. */
  lemma OrdinalMonotone(a: Date, b: Date)
    requires Valid(a) && Valid(b)
    ensures Before(a, b) <==> Ordinal(a) < Ordinal(b)
    ensures a == b <==> Ordinal(a) == Ordinal(b)
  {
    if Before(a, b) {
      OrdinalBefore(a, b);
    } else if Before(b, a) {
      OrdinalBefore(b, a);
    }
  }

  lemma OrdinalBefore(a: Date, b: Date)
    requires Valid(a) && Valid(b) && Before(a, b)
    ensures Ordinal(a) < Ordinal(b)
  {
    if a.year < b.year {
      MonthsMonotone(a.year, a.month, 12);
      DaysInYear(a.year);
      YearsMonotone(a.year + 1, b.year);
    } else if a.month < b.month {
      MonthsMonotone(a.year, a.month, b.month);
    }
  }
}
