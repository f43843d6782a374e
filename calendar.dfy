/**
 * Proleptic Gregorian dates as Python's `datetime.date` handles them, instants
 * on the local wall clock, and `datetime.strptime(text, '%Y-%m-%d')`.
 *
 * An instant is a count of seconds: the day's ordinal (`date.toordinal()`)
 * times 86400 plus the second of the day. Sub-second precision and time zones
 * are not modelled.
 */
module Calendar {
  import opened Wrappers
  import opened Text

  datatype Date = Date(year: int, month: int, day: int)

  predicate IsLeap(y: int)
  {
    y % 4 == 0 && (y % 100 != 0 || y % 400 == 0)
  }

  function DaysInMonth(y: int, m: int): (n: int)
    requires 1 <= m <= 12
    ensures 28 <= n <= 31
  {
    if m == 2 then (if IsLeap(y) then 29 else 28)
    else if m == 4 || m == 6 || m == 9 || m == 11 then 30
    else 31
  }

  /** A date Python's `date` constructor accepts (years 1 to 9999). */
  predicate ValidDate(d: Date)
  {
    1 <= d.year <= 9999 && 1 <= d.month <= 12 && 1 <= d.day <= DaysInMonth(d.year, d.month)
  }

  function DaysInYear(y: int): int
  {
    if IsLeap(y) then 366 else 365
  }

  /** Days in the years before `y` (Python's `_days_before_year`). */
  function DaysBeforeYear(y: int): int
  {
    var p := y - 1;
    p * 365 + p / 4 - p / 100 + p / 400
  }

  /** Days in the months of year `y` before month `m` (Python's `_days_before_month`). */
  function DaysBeforeMonth(y: int, m: int): int
    requires 1 <= m <= 12
  {
    [0, 31, 59, 90, 120, 151, 181, 212, 243, 273, 304, 334][m - 1] +
    (if m > 2 && IsLeap(y) then 1 else 0)
  }

  /** `date.toordinal()`: 1 January of year 1 is day 1. */
  function Ordinal(d: Date): int
    requires ValidDate(d)
  {
    DaysBeforeYear(d.year) + DaysBeforeMonth(d.year, d.month) + d.day
  }

  /** `date.weekday()`: Monday is 0 and Sunday is 6. */
  function Weekday(d: Date): (w: int)
    requires ValidDate(d)
    ensures 0 <= w < 7
  {
    (Ordinal(d) + 6) % 7
  }

  /** Weekdays advance with the ordinal, one per day, modulo a week. */
  lemma WeekdayShift(a: Date, b: Date)
    requires ValidDate(a) && ValidDate(b)
    ensures Weekday(b) == (Weekday(a) + Ordinal(b) - Ordinal(a)) % 7
  {
    var x, y := Ordinal(a) + 6, Ordinal(b) + 6;
    var q := x / 7;
    assert Weekday(a) + Ordinal(b) - Ordinal(a) == y - 7 * q;
    ModWeek(y, q);
  }

  lemma ModWeek(y: int, q: int)
    ensures (y - 7 * q) % 7 == y % 7
  {
  }

  /** 1 January 2024 was a Monday, which `weekday()` numbers 0. */
  lemma NewYear2024IsMonday()
    ensures Weekday(Date(2024, 1, 1)) == 0
  {
    assert Ordinal(Date(2024, 1, 1)) == 738886;
  }

  /** Python's `a <= b` on dates: the (year, month, day) tuples in lexicographic order. */
  predicate DateLe(a: Date, b: Date)
  {
    a.year < b.year || (a.year == b.year && (a.month < b.month || (a.month == b.month && a.day <= b.day)))
  }

  lemma MonthStep(y: int, m: int)
    requires 1 <= m < 12
    ensures DaysBeforeMonth(y, m + 1) == DaysBeforeMonth(y, m) + DaysInMonth(y, m)
  {
  }

  lemma {:induction false} MonthsMonotone(y: int, m: int, n: int)
    requires 1 <= m < n <= 12
    ensures DaysBeforeMonth(y, m) + DaysInMonth(y, m) <= DaysBeforeMonth(y, n)
    decreases n - m
  {
    MonthStep(y, m);
    if m + 1 < n {
      MonthsMonotone(y, m + 1, n);
    }
  }

  lemma DivStep(p: int, k: int)
    requires k == 4 || k == 100 || k == 400
    ensures (p + 1) / k == p / k + (if (p + 1) % k == 0 then 1 else 0)
  {
    if k == 4 {
      DivStepBy4(p);
    } else if k == 100 {
      DivStepBy100(p);
    } else {
      DivStepBy400(p);
    }
  }

  lemma DivStepBy4(p: int)
    ensures (p + 1) / 4 == p / 4 + (if (p + 1) % 4 == 0 then 1 else 0)
  {
  }

  lemma DivStepBy100(p: int)
    ensures (p + 1) / 100 == p / 100 + (if (p + 1) % 100 == 0 then 1 else 0)
  {
  }

  lemma DivStepBy400(p: int)
    ensures (p + 1) / 400 == p / 400 + (if (p + 1) % 400 == 0 then 1 else 0)
  {
  }

  lemma MultipleMod(m: int)
    ensures (100 * m) % 100 == 0 && (4 * m) % 4 == 0
  {
  }

  lemma DivisorChain(y: int)
    ensures y % 400 == 0 ==> y % 100 == 0
    ensures y % 100 == 0 ==> y % 4 == 0
  {
    if y % 400 == 0 {
      var q := y / 400;
      assert y == 100 * (4 * q);
      MultipleMod(4 * q);
    }
    if y % 100 == 0 {
      var q := y / 100;
      assert y == 4 * (25 * q);
      MultipleMod(25 * q);
    }
  }

  lemma YearStep(y: int)
    ensures DaysBeforeYear(y + 1) == DaysBeforeYear(y) + DaysInYear(y)
  {
    var p := y - 1;
    DivStep(p, 4);
    DivStep(p, 100);
    DivStep(p, 400);
    DivisorChain(y);
    assert DaysBeforeYear(y + 1) - DaysBeforeYear(y) == 365 + (y / 4 - p / 4) - (y / 100 - p / 100) + (y / 400 - p / 400);
  }

  lemma {:induction false} YearsMonotone(y: int, z: int)
    requires y < z
    ensures DaysBeforeYear(y) + DaysInYear(y) <= DaysBeforeYear(z)
    decreases z - y
  {
    YearStep(y);
    if y + 1 < z {
      YearsMonotone(y + 1, z);
      YearStep(y + 1);
    }
  }

  /**
   * Ordinals order dates exactly as Python compares them, so comparing the
   * ordinals of two dates is comparing the dates.
   */
  lemma OrdinalOrder(a: Date, b: Date)
    requires ValidDate(a) && ValidDate(b)
    ensures DateLe(a, b) <==> Ordinal(a) <= Ordinal(b)
  {
    if a.year < b.year {
      OrdinalBelowNextYear(a);
      YearsMonotone(a.year, b.year);
    } else if b.year < a.year {
      OrdinalBelowNextYear(b);
      YearsMonotone(b.year, a.year);
    } else if a.month < b.month {
      MonthsMonotone(a.year, a.month, b.month);
    } else if b.month < a.month {
      MonthsMonotone(a.year, b.month, a.month);
    }
  }

  lemma OrdinalBelowNextYear(a: Date)
    requires ValidDate(a)
    ensures Ordinal(a) <= DaysBeforeYear(a.year) + DaysInYear(a.year)
  {
    if a.month < 12 {
      MonthsMonotone(a.year, a.month, 12);
    }
  }

  // ---------------------------------------------------------------- instants

  type Instant = int

  const DaySeconds: int := 86400

  /** A `time` value: seconds since midnight. */
  type TimeOfDay = t: int | 0 <= t < 86400

  /** `make_aware(datetime.combine(d, t))` on the local wall clock. */
  function At(d: Date, t: TimeOfDay): Instant
    requires ValidDate(d)
  {
    Ordinal(d) * DaySeconds + t
  }

  /** The calendar day (as an ordinal) of an instant: the ORM's `__date`. */
  function DayOf(i: Instant): int
  {
    i / DaySeconds
  }

  lemma DayOfAt(d: Date, t: TimeOfDay)
    requires ValidDate(d)
    ensures DayOf(At(d, t)) == Ordinal(d)
  {
  }

  // ---------------------------------------------------------------- strptime

  /**
   * The month field of `strptime`'s `%m` (`1[0-2]|0[1-9]|[1-9]`), which must be
   * followed by the literal `-`; gives the month and the number of characters
   * it took.
   */
  function MonthField(s: string): Option<(int, nat)>
  {
    if |s| >= 3 && s[0] == '1' && '0' <= s[1] <= '2' && s[2] == '-' then Some((10 + DigitValue(s[1]), 2))
    else if |s| >= 3 && s[0] == '0' && '1' <= s[1] <= '9' && s[2] == '-' then Some((DigitValue(s[1]), 2))
    else if |s| >= 2 && '1' <= s[0] <= '9' && s[1] == '-' then Some((DigitValue(s[0]), 1))
    else None
  }

  /**
   * The day field of `strptime`'s `%d` (`3[01]|[12]\d|0[1-9]|[1-9]| [1-9]`):
   * the first alternative that matches wins; gives the day and its length.
   */
  function DayField(s: string): Option<(int, nat)>
  {
    if |s| >= 2 && s[0] == '3' && '0' <= s[1] <= '1' then Some((30 + DigitValue(s[1]), 2))
    else if |s| >= 2 && '1' <= s[0] <= '2' && IsDigit(s[1]) then Some((10 * DigitValue(s[0]) + DigitValue(s[1]), 2))
    else if |s| >= 2 && s[0] == '0' && '1' <= s[1] <= '9' then Some((DigitValue(s[1]), 2))
    else if |s| >= 1 && '1' <= s[0] <= '9' then Some((DigitValue(s[0]), 1))
    else if |s| >= 2 && s[0] == ' ' && '1' <= s[1] <= '9' then Some((DigitValue(s[1]), 2))
    else None
  }

  /**
   * `datetime.strptime(text, '%Y-%m-%d').date()`: four digits of year, a month
   * and a day field as above, nothing left over, and a date that exists; any
   * failure is Python's `ValueError` (here `None`).
   */
  function ParseIsoDate(text: string): (r: Option<Date>)
    ensures r.Some? ==> ValidDate(r.value)
  {
    if |text| < 5 || !AllDigits(text[..4]) || text[4] != '-' then None
    else
      var year := DigitsValue(text[..4]);
      match MonthField(text[5..])
      case None => None
      case Some((month, ml)) =>
        var rest := text[5 + ml + 1..];
        match DayField(rest)
        case None => None
        case Some((day, dl)) =>
          if dl != |rest| then None
          else if ValidDate(Date(year, month, day)) then Some(Date(year, month, day))
          else None
  }

  lemma MonthFieldShape(s: string)
    ensures MonthField(s).Some? ==>
              var ml := MonthField(s).value.1;
              1 <= ml <= 2 && ml < |s| && s[ml] == '-' && forall k | 0 <= k < ml :: IsDigit(s[k])
  {
  }

  lemma DayFieldShape(s: string)
    ensures DayField(s).Some? ==>
              var dl := DayField(s).value.1;
              1 <= dl <= 2 && dl <= |s| && forall k | 0 <= k < dl :: IsDigit(s[k]) || s[k] == ' '
  {
  }

  /**
   * Only text of the shape `%Y-%m-%d` is accepted: four digits of year, a
   * dash, one or two digits of month, a dash, one or two digits of day
   * (the day possibly space-padded), 8 to 10 characters in all; anything
   * else is refused.
   */
  lemma ParseIsoDateShape(text: string)
    ensures ParseIsoDate(text).Some? ==>
              8 <= |text| <= 10 && AllDigits(text[..4]) && text[4] == '-' &&
              ParseIsoDate(text).value.year == DigitsValue(text[..4]) &&
              forall k | 5 <= k < |text| :: IsDigit(text[k]) || text[k] == '-' || text[k] == ' '
  {
    if ParseIsoDate(text).Some? {
      var s := text[5..];
      MonthFieldShape(s);
      var ml := MonthField(s).value.1;
      var rest := text[5 + ml + 1..];
      DayFieldShape(rest);
      var dl := DayField(rest).value.1;
      assert dl == |rest|;
      forall k | 5 <= k < |text|
        ensures IsDigit(text[k]) || text[k] == '-' || text[k] == ' '
      {
        if k - 5 < ml {
          assert text[k] == s[k - 5];
        } else if k - 5 == ml {
          assert text[k] == s[ml];
        } else {
          assert text[k] == rest[k - 5 - ml - 1];
        }
      }
    }
  }

  /** Two decimal digits with a leading zero: `strftime`'s `%m` and `%d`. */
  function Pad2(n: int): (r: string)
    requires 0 <= n < 100
  {
    [DigitChar(n / 10), DigitChar(n % 10)]
  }

  /** Four decimal digits: `strftime`'s `%Y` for years 1000 to 9999. */
  function Pad4(n: int): (r: string)
    requires 1000 <= n < 10000
  {
    Pad2(n / 100) + Pad2(n % 100)
  }

  /** `d.strftime('%Y-%m-%d')`, the form a client sends as `fecha`. */
  function IsoFormat(d: Date): string
    requires ValidDate(d) && d.year >= 1000
  {
    Pad4(d.year) + "-" + Pad2(d.month) + "-" + Pad2(d.day)
  }

  lemma DigitsValueOfFour(s: string)
    requires |s| == 4 && AllDigits(s)
    ensures DigitsValue(s) == 1000 * DigitValue(s[0]) + 100 * DigitValue(s[1]) + 10 * DigitValue(s[2]) + DigitValue(s[3])
  {
    var s1, s2, s3 := s[..1], s[..2], s[..3];
    assert s1[..0] == [] && s2[..1] == s1 && s3[..2] == s2 && s[..3] == s3;
    assert DigitsValue(s1) == DigitValue(s[0]);
    assert DigitsValue(s2) == 10 * DigitValue(s[0]) + DigitValue(s[1]);
    assert DigitsValue(s3) == 100 * DigitValue(s[0]) + 10 * DigitValue(s[1]) + DigitValue(s[2]);
  }

  lemma Pad4Value(n: int)
    requires 1000 <= n < 10000
    ensures |Pad4(n)| == 4 && AllDigits(Pad4(n)) && DigitsValue(Pad4(n)) == n
  {
    var y := Pad4(n);
    DigitsValueOfFour(y);
    var hi, lo := n / 100, n % 100;
    assert DigitValue(y[0]) == hi / 10 && DigitValue(y[1]) == hi % 10;
    assert DigitValue(y[2]) == lo / 10 && DigitValue(y[3]) == lo % 10;
  }

  lemma MonthFieldPad(m: int, rest: string)
    requires 1 <= m <= 12
    ensures MonthField(Pad2(m) + "-" + rest) == Some((m, 2))
  {
  }

  lemma DayFieldPad(d: int)
    requires 1 <= d <= 31
    ensures DayField(Pad2(d)) == Some((d, 2))
  {
  }

  /** A date written as `YYYY-MM-DD` is parsed back to the same date. */
  lemma ParseIsoFormat(d: Date)
    requires ValidDate(d) && d.year >= 1000
    ensures ParseIsoDate(IsoFormat(d)) == Some(d)
  {
    var s := IsoFormat(d);
    Pad4Value(d.year);
    assert s[..4] == Pad4(d.year) && s[4] == '-';
    var tail := Pad2(d.month) + "-" + Pad2(d.day);
    assert s[5..] == tail;
    MonthFieldPad(d.month, Pad2(d.day));
    assert s[5 + 2 + 1..] == Pad2(d.day);
    DayFieldPad(d.day);
  }
}
