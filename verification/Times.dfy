/**
 * UTC instants and the strings the source stores for them:
 * `datetime.isoformat()` (fraction omitted at zero microseconds) and the two
 * `strftime` forms of the inbox.
 */
module Times {
  import opened Text

  datatype Utc = Utc(year: nat, month: nat, day: nat, hour: nat, minute: nat, second: nat, micro: nat)

  predicate Leap(y: nat)
  {
    y % 4 == 0 && (y % 100 != 0 || y % 400 == 0)
  }

  function DaysInMonth(y: nat, m: nat): nat
  {
    if m == 2 then (if Leap(y) then 29 else 28)
    else if m == 4 || m == 6 || m == 9 || m == 11 then 30
    else 31
  }

  predicate Valid(t: Utc)
  {
    && 1 <= t.year <= 9999 && 1 <= t.month <= 12
    && 1 <= t.day <= DaysInMonth(t.year, t.month)
    && t.hour < 24 && t.minute < 60 && t.second < 60 && t.micro < 1000000
  }

  // ----- the instant a calendar reading denotes ---------------------------

  function DaysBeforeYear(y: nat): int
  {
    var p := y - 1;
    365 * p + p / 4 - p / 100 + p / 400
  }

  function DaysBeforeMonth(y: nat, m: nat): nat
    requires m <= 12
  {
    if m <= 1 then 0 else DaysBeforeMonth(y, m - 1) + DaysInMonth(y, m - 1)
  }

  function DayNumber(t: Utc): int
    requires t.month <= 12
  {
    DaysBeforeYear(t.year) + DaysBeforeMonth(t.year, t.month) + t.day
  }

  function SecondOfDay(t: Utc): int
  {
    3600 * t.hour + 60 * t.minute + t.second
  }

  /** Microseconds since the start of the calendar. */
  function Micros(t: Utc): int
    requires t.month <= 12
  {
    (86400 * DayNumber(t) + SecondOfDay(t)) * 1000000 + t.micro
  }

  predicate DateBelow(s: Utc, t: Utc)
  {
    s.year < t.year || (s.year == t.year && (s.month < t.month || (s.month == t.month && s.day < t.day)))
  }

  predicate SameDate(s: Utc, t: Utc)
  {
    s.year == t.year && s.month == t.month && s.day == t.day
  }

  predicate ClockBelow(s: Utc, t: Utc)
  {
    s.hour < t.hour || (s.hour == t.hour && (s.minute < t.minute || (s.minute == t.minute && s.second < t.second)))
  }

  predicate SameClock(s: Utc, t: Utc)
  {
    s.hour == t.hour && s.minute == t.minute && s.second == t.second
  }

  predicate FieldsBelow(s: Utc, t: Utc)
  {
    || DateBelow(s, t)
    || (SameDate(s, t) && (ClockBelow(s, t) || (SameClock(s, t) && s.micro < t.micro)))
  }

  lemma YearLength(y: nat)
    requires y >= 1
    ensures DaysBeforeYear(y + 1) - DaysBeforeYear(y) == (if Leap(y) then 366 else 365)
  {
    StepBy4(y);
    StepBy100(y);
    StepBy400(y);
    CenturiesAreFours(y);
    FourCenturiesAreCenturies(y);
  }

  lemma StepBy4(y: nat)
    requires y >= 1
    ensures y / 4 - (y - 1) / 4 == (if y % 4 == 0 then 1 else 0)
  {
  }

  lemma StepBy100(y: nat)
    requires y >= 1
    ensures y / 100 - (y - 1) / 100 == (if y % 100 == 0 then 1 else 0)
  {
  }

  lemma StepBy400(y: nat)
    requires y >= 1
    ensures y / 400 - (y - 1) / 400 == (if y % 400 == 0 then 1 else 0)
  {
  }

  lemma CenturiesAreFours(y: nat)
    ensures y % 100 == 0 ==> y % 4 == 0
  {
    if y % 100 == 0 {
      assert y == 4 * (25 * (y / 100));
      MultipleOfFour(25 * (y / 100));
    }
  }

  lemma MultipleOfFour(k: nat)
    ensures 4 * k % 4 == 0
  {
  }

  lemma FourCenturiesAreCenturies(y: nat)
    ensures y % 400 == 0 ==> y % 100 == 0
  {
    assert y % 400 == 0 ==> y == 100 * (4 * (y / 400));
  }

  lemma {:induction false} YearsAccumulate(y: nat, z: nat)
    requires 1 <= y < z
    ensures DaysBeforeYear(z) >= DaysBeforeYear(y) + (if Leap(y) then 366 else 365)
    decreases z
  {
    YearLength(z - 1);
    if y < z - 1 {
      YearsAccumulate(y, z - 1);
    }
  }

  lemma {:induction false} MonthsAccumulate(y: nat, m: nat, n: nat)
    requires 1 <= m < n <= 12
    ensures DaysBeforeMonth(y, n) >= DaysBeforeMonth(y, m) + DaysInMonth(y, m)
    decreases n
  {
    if m < n - 1 {
      MonthsAccumulate(y, m, n - 1);
    }
  }

  lemma MonthsFitTheYear(y: nat, m: nat)
    requires 1 <= m <= 12
    ensures DaysBeforeMonth(y, m) + DaysInMonth(y, m) <= (if Leap(y) then 366 else 365)
  {
    if m < 12 {
      MonthsAccumulate(y, m, 12);
    }
    assert DaysBeforeMonth(y, 4) == DaysInMonth(y, 1) + DaysInMonth(y, 2) + DaysInMonth(y, 3);
    assert DaysBeforeMonth(y, 8) == DaysBeforeMonth(y, 4) + 122;
    assert DaysBeforeMonth(y, 10) == DaysBeforeMonth(y, 8) + 61;
    assert DaysBeforeMonth(y, 12) == DaysBeforeMonth(y, 10) + 61;
  }

  lemma DatesOrderDays(s: Utc, t: Utc)
    requires Valid(s) && Valid(t) && DateBelow(s, t)
    ensures DayNumber(s) < DayNumber(t)
  {
    MonthsFitTheYear(s.year, s.month);
    if s.year < t.year {
      YearsAccumulate(s.year, t.year);
    } else if s.month < t.month {
      MonthsAccumulate(s.year, s.month, t.month);
    }
  }

  lemma FieldsOrderInstants(s: Utc, t: Utc)
    requires Valid(s) && Valid(t) && FieldsBelow(s, t)
    ensures Micros(s) < Micros(t)
  {
    if DateBelow(s, t) {
      DatesOrderDays(s, t);
    }
  }

  /** Comparing calendar fields from the left is comparing instants. */
  lemma CalendarOrderIsTimeOrder(s: Utc, t: Utc)
    requires Valid(s) && Valid(t)
    ensures FieldsBelow(s, t) <==> Micros(s) < Micros(t)
    ensures s == t <==> Micros(s) == Micros(t)
  {
    if FieldsBelow(s, t) {
      FieldsOrderInstants(s, t);
    } else if s != t {
      assert FieldsBelow(t, s);
      FieldsOrderInstants(t, s);
    }
  }

  // ----- fixed points of the calendar ---------------------------------------

  predicate LongFebruary(y: nat)
  {
    if y % 100 == 0 then y % 400 == 0 else y % 4 == 0
  }

  /** The lengths of the months, and with them which dates there are. */
  lemma MonthLengths(y: nat)
    ensures seq(12, i requires 0 <= i < 12 => DaysInMonth(y, i + 1))
            == [31, if LongFebruary(y) then 29 else 28, 31, 30, 31, 30, 31, 31, 30, 31, 30, 31]
  {
    assert y % 100 == 0 ==> y % 4 == 0;
  }

  lemma ValidExactly(t: Utc)
    ensures Valid(t) <==>
      && 0 < t.year < 10000 && 0 < t.month < 13 && 0 < t.day && t.hour < 24 && t.minute < 60 && t.second < 60
      && t.micro < 1000000
      && t.day <= (match t.month
                   case 2 => if LongFebruary(t.year) then 29 else 28
                   case 4 => 30 case 6 => 30 case 9 => 30 case 11 => 30
                   case _ => 31)
  {
    assert t.year % 100 == 0 ==> t.year % 4 == 0;
  }

  /** The clock counts microseconds. */
  lemma MicrosCount(t: Utc)
    requires t.month <= 12
    ensures Micros(t.(micro := t.micro + 1)) == Micros(t) + 1
    ensures Micros(t.(second := t.second + 1)) == Micros(t) + 1000000
    ensures Micros(t.(minute := t.minute + 1)) == Micros(t) + 60 * 1000000
    ensures Micros(t.(hour := t.hour + 1)) == Micros(t) + 3600 * 1000000
    ensures Micros(t.(day := t.day + 1)) == Micros(t) + 86400 * 1000000
  {
  }

  lemma MonthsFillTheYear(y: nat)
    ensures DaysBeforeMonth(y, 12) + DaysInMonth(y, 12) == (if Leap(y) then 366 else 365)
  {
    var february := if Leap(y) then 29 else 28;
    assert DaysBeforeMonth(y, 1) == 0 && DaysBeforeMonth(y, 2) == 31;
    assert DaysBeforeMonth(y, 3) == 31 + february;
    assert DaysBeforeMonth(y, 5) == 92 + february;
    assert DaysBeforeMonth(y, 7) == 153 + february;
    assert DaysBeforeMonth(y, 9) == 215 + february;
    assert DaysBeforeMonth(y, 11) == 276 + february;
    hide Leap;
  }

  /** The day after the last of a month is the first of the next, and after December that of the next year. */
  lemma NextDay(t: Utc)
    requires Valid(t) && t.day == DaysInMonth(t.year, t.month)
    ensures var u := if t.month == 12 then t.(year := t.year + 1, month := 1, day := 1)
                     else t.(month := t.month + 1, day := 1);
      Micros(u) == Micros(t) + 86400 * 1000000
  {
    YearLength(t.year);
    MonthsFillTheYear(t.year);
    assert DaysBeforeMonth(t.year, 1) == 0 && DaysBeforeMonth(t.year + 1, 1) == 0;
    hide Leap, DaysInMonth, DaysBeforeYear;
  }

  // ----- strings ----------------------------------------------------------

  /** The date and time fields between the given separators, followed by `rest`. */
  function Fields(t: Utc, dash: string, colon: string, rest: string): string
  {
    Pad(t.year, 4) + (dash + (Pad(t.month, 2) + (dash + (Pad(t.day, 2) + ("T"
    + (Pad(t.hour, 2) + (colon + (Pad(t.minute, 2) + (colon + (Pad(t.second, 2) + rest))))))))))
  }

  function Fraction(micro: nat): string
  {
    (if micro == 0 then "" else "." + Pad(micro, 6)) + "+00:00"
  }

  /** `datetime.isoformat()` of a UTC instant. */
  function Iso(t: Utc): string
  {
    Fields(t, "-", ":", Fraction(t.micro))
  }

  lemma PaddedFieldThen(m: nat, n: nat, w: nat, x: string, y: string)
    requires m < Pow10(w) && n < Pow10(w)
    ensures Below(Pad(m, w) + x, Pad(n, w) + y) <==> m < n || (m == n && Below(x, y))
  {
    PadPreservesOrder(m, n, w);
    BelowByPrefix(Pad(m, w), Pad(n, w), x, y);
  }

  /** Zero-padded fields with fixed separators sort by field, then by what follows. */
  lemma FieldStringsOrder(s: Utc, t: Utc, dash: string, colon: string, x: string, y: string)
    requires Valid(s) && Valid(t)
    ensures Below(Fields(s, dash, colon, x), Fields(t, dash, colon, y))
            <==> DateBelow(s, t) || (SameDate(s, t) && (ClockBelow(s, t) || (SameClock(s, t) && Below(x, y))))
  {
    assert Pow10(2) == 100 && Pow10(3) == 1000 && Pow10(4) == 10000;
    var s6, t6 := Pad(s.second, 2) + x, Pad(t.second, 2) + y;
    PaddedFieldThen(s.second, t.second, 2, x, y);
    BelowByPrefix(colon, colon, s6, t6);
    var s5, t5 := Pad(s.minute, 2) + (colon + s6), Pad(t.minute, 2) + (colon + t6);
    PaddedFieldThen(s.minute, t.minute, 2, colon + s6, colon + t6);
    BelowByPrefix(colon, colon, s5, t5);
    var s4, t4 := Pad(s.hour, 2) + (colon + s5), Pad(t.hour, 2) + (colon + t5);
    PaddedFieldThen(s.hour, t.hour, 2, colon + s5, colon + t5);
    BelowByPrefix("T", "T", s4, t4);
    var s3, t3 := Pad(s.day, 2) + ("T" + s4), Pad(t.day, 2) + ("T" + t4);
    PaddedFieldThen(s.day, t.day, 2, "T" + s4, "T" + t4);
    BelowByPrefix(dash, dash, s3, t3);
    var s2, t2 := Pad(s.month, 2) + (dash + s3), Pad(t.month, 2) + (dash + t3);
    PaddedFieldThen(s.month, t.month, 2, dash + s3, dash + t3);
    BelowByPrefix(dash, dash, s2, t2);
    PaddedFieldThen(s.year, t.year, 4, dash + s2, dash + t2);
  }

  lemma FractionOrder(a: nat, b: nat)
    requires a < 1000000 && b < 1000000
    ensures Below(Fraction(a), Fraction(b)) <==> a < b
  {
    assert Pow10(3) == 1000 && Pow10(6) == 1000000 by { assert Pow10(5) == 100 * Pow10(3); }
    PaddedFieldThen(a, b, 6, "+00:00", "+00:00");
    BelowIsStrictTotal("+00:00", "+00:00");
    BelowByPrefix(".", ".", Pad(a, 6) + "+00:00", Pad(b, 6) + "+00:00");
    assert "." + Pad(a, 6) + "+00:00" == "." + (Pad(a, 6) + "+00:00");
    assert "." + Pad(b, 6) + "+00:00" == "." + (Pad(b, 6) + "+00:00");
    assert Fraction(0) == "+00:00";
    assert a != 0 ==> Fraction(a)[0] == '.';
    assert b != 0 ==> Fraction(b)[0] == '.';
  }

  /**
   * Comparing stored timestamps as strings is comparing instants, even though
   * the fraction is missing exactly when it is zero.
   */
  lemma IsoOrderIsTimeOrder(s: Utc, t: Utc)
    requires Valid(s) && Valid(t)
    ensures Below(Iso(s), Iso(t)) <==> Micros(s) < Micros(t)
  {
    FieldStringsOrder(s, t, "-", ":", Fraction(s.micro), Fraction(t.micro));
    FractionOrder(s.micro, t.micro);
    CalendarOrderIsTimeOrder(s, t);
  }
}
