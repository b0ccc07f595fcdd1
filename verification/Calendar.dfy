// The proleptic Gregorian calendar and calendar-month arithmetic
// (src/cra/deadlines.py, `add_months`).  A `Civil` is a UTC wall-clock reading;
// an instant counts microseconds from the start of year 1.
module Calendar {
  import opened Ordering

  const HOUR := 3_600_000_000
  const DAY := 86_400_000_000
  const MIN_YEAR := 1
  const MAX_YEAR := 9999

  datatype CalendarError = YearOutOfRange

  datatype Civil = Civil(year: int, month: int, day: int, micros: int) {
    predicate Valid() {
      MIN_YEAR <= year <= MAX_YEAR && 1 <= month <= 12 && 1 <= day <= DaysInMonth(year, month) && 0 <= micros < DAY
    }

    function MonthIndex(): int { 12 * year + month - 1 }

    // The same calendar day or an earlier one, whatever the time of day.
    predicate DateLeq(other: Civil) {
      MonthIndex() < other.MonthIndex() || (MonthIndex() == other.MonthIndex() && day <= other.day)
    }

    predicate SameDate(other: Civil) {
      year == other.year && month == other.month && day == other.day
    }

    predicate Before(other: Civil) {
      if SameDate(other) then micros < other.micros else DateLeq(other)
    }
  }

  predicate IsLeap(year: int) { year % 4 == 0 && (year % 100 != 0 || year % 400 == 0) }

  function DaysInMonth(year: int, month: int): int {
    if month == 2 then (if IsLeap(year) then 29 else 28)
    else if month == 4 || month == 6 || month == 9 || month == 11 then 30
    else 31
  }

  function MonthLength(index: int): int { DaysInMonth(index / 12, index % 12 + 1) }

  // `dt.replace` refuses a year the calendar does not have.
  function AddMonths(dt: Civil, months: int): Result<Civil, CalendarError> {
    var month0 := dt.month - 1 + months;
    var year := dt.year + month0 / 12;
    var month := month0 % 12 + 1;
    var last := DaysInMonth(year, month);
    if !(MIN_YEAR <= year <= MAX_YEAR) then Err(YearOutOfRange)
    else Ok(Civil(year, month, if dt.day <= last then dt.day else last, dt.micros))
  }

  function DaysBeforeYear(year: int): int {
    365 * (year - 1) + (year - 1) / 4 - (year - 1) / 100 + (year - 1) / 400
  }

  function DaysBeforeMonth(year: int, month: nat): int {
    if month <= 1 then 0 else DaysBeforeMonth(year, month - 1) + DaysInMonth(year, month - 1)
  }

  function MonthStart(index: int): int { DaysBeforeYear(index / 12) + DaysBeforeMonth(index / 12, index % 12 + 1) }

  function DayNumber(dt: Civil): int { MonthStart(dt.MonthIndex()) + dt.day - 1 }

  function Instant(dt: Civil): int { DayNumber(dt) * DAY + dt.micros }

  lemma Carry(year: int, d: int)
    requires d == 4 || d == 100 || d == 400
    ensures year / d == (year - 1) / d + if year % d == 0 then 1 else 0
  {
  }

  lemma WholeTimes(n: int, d: int)
    requires d == 4 || d == 100
    ensures (d * n) % d == 0
  {
  }

  lemma CenturiesAreFourths(year: int)
    ensures year % 100 == 0 ==> year % 4 == 0
  {
    WholeTimes(25 * (year / 100), 4);
  }

  lemma FourCenturies(year: int)
    ensures year % 400 == 0 ==> year % 100 == 0
  {
    WholeTimes(4 * (year / 400), 100);
  }

  lemma YearLength(year: int)
    ensures DaysBeforeYear(year + 1) - DaysBeforeYear(year) == if IsLeap(year) then 366 else 365
  {
    Carry(year, 4);
    Carry(year, 100);
    Carry(year, 400);
    CenturiesAreFourths(year);
    FourCenturies(year);
  }

  lemma WholeYear(year: int)
    ensures DaysBeforeMonth(year, 12) + DaysInMonth(year, 12) == if IsLeap(year) then 366 else 365
  {
    assert DaysBeforeMonth(year, 1) == 0;
    assert DaysBeforeMonth(year, 3) == DaysBeforeMonth(year, 2) + DaysInMonth(year, 2);
    assert DaysBeforeMonth(year, 5) == DaysBeforeMonth(year, 4) + 30;
    assert DaysBeforeMonth(year, 7) == DaysBeforeMonth(year, 6) + 30;
    assert DaysBeforeMonth(year, 9) == DaysBeforeMonth(year, 8) + 31;
    assert DaysBeforeMonth(year, 11) == DaysBeforeMonth(year, 10) + 31;
  }

  // Consecutive months abut: the calendar has no gap and no overlap.
  lemma MonthsAbut(index: int)
    ensures MonthStart(index + 1) == MonthStart(index) + MonthLength(index)
    ensures 28 <= MonthLength(index) <= 31
  {
    if index % 12 == 11 {
      YearLength(index / 12);
      WholeYear(index / 12);
      assert (index + 1) / 12 == index / 12 + 1 && (index + 1) % 12 == 0;
    } else {
      assert (index + 1) / 12 == index / 12 && (index + 1) % 12 == index % 12 + 1;
    }
  }

  lemma {:induction false} MonthStartsGrow(i: int, j: int)
    requires i < j
    ensures MonthStart(i) + MonthLength(i) <= MonthStart(j)
    decreases j - i
  {
    MonthsAbut(i);
    if i + 1 < j {
      MonthStartsGrow(i + 1, j);
      MonthsAbut(i + 1);
    }
  }

  lemma IndexOfDate(dt: Civil)
    requires dt.Valid()
    ensures dt.MonthIndex() / 12 == dt.year && dt.MonthIndex() % 12 == dt.month - 1
    ensures MonthLength(dt.MonthIndex()) == DaysInMonth(dt.year, dt.month)
  {
  }

  lemma DayOrder(a: Civil, b: Civil)
    requires a.Valid() && b.Valid()
    ensures DayNumber(a) <= DayNumber(b) <==> a.DateLeq(b)
    ensures DayNumber(a) == DayNumber(b) <==> a.SameDate(b)
  {
    IndexOfDate(a);
    IndexOfDate(b);
    var i, j := a.MonthIndex(), b.MonthIndex();
    if i < j {
      MonthStartsGrow(i, j);
    } else if j < i {
      MonthStartsGrow(j, i);
    }
  }

  // Instants order valid civil readings exactly as the calendar does.
  lemma InstantOrder(a: Civil, b: Civil)
    requires a.Valid() && b.Valid()
    ensures Instant(a) < Instant(b) <==> a.Before(b)
    ensures Instant(a) == Instant(b) <==> a == b
    ensures Instant(a) <= Instant(b) ==> a.DateLeq(b)
  {
    DayOrder(a, b);
    InstantGap(DayNumber(a), a.micros, DayNumber(b), b.micros);
  }

  lemma InstantGap(d: int, t: int, e: int, u: int)
    requires 0 <= t < DAY && 0 <= u < DAY
    ensures d * DAY + t < e * DAY + u <==> d < e || (d == e && t < u)
    ensures d * DAY + t == e * DAY + u <==> d == e && t == u
  {
  }

  // The result is a real date, the month index advances exactly, the time of
  // day is kept, and the day is kept unless the target month is too short.
  lemma AddMonthsIsCalendarExact(dt: Civil, months: int)
    requires dt.Valid()
    ensures AddMonths(dt, months).Ok? <==> 12 <= dt.MonthIndex() + months < 120000
    ensures dt.MonthIndex() == 12 * dt.year + dt.month - 1
    ensures AddMonths(dt, months).Ok? ==>
              var r := AddMonths(dt, months).value;
              r.Valid() && r.MonthIndex() == dt.MonthIndex() + months && r.micros == dt.micros
              && r.day <= dt.day
              && (r.day == dt.day || (r.day == DaysInMonth(r.year, r.month) && DaysInMonth(r.year, r.month) < dt.day))
  {
    var m := dt.month - 1 + months;
    assert m == 12 * (m / 12) + m % 12;
  }

  // The Gregorian month lengths, and what makes a reading a real one.
  lemma GregorianMonths(dt: Civil)
    requires 1 <= dt.month <= 12
    ensures var leap := if dt.year % 400 == 0 then true else if dt.year % 100 == 0 then false else dt.year % 4 == 0;
            var lengths := [31, if leap then 29 else 28, 31, 30, 31, 30, 31, 31, 30, 31, 30, 31];
            && DaysInMonth(dt.year, dt.month) == lengths[dt.month - 1]
            && (dt.Valid() <==>
                1 <= dt.year <= 9999 && 1 <= dt.day <= lengths[dt.month - 1]
                && 0 <= dt.micros < 24 * 60 * 60 * 1_000_000)
  {
    CenturiesAreFourths(dt.year);
    FourCenturies(dt.year);
  }

  lemma AddMonthsMonotoneOnDates(a: Civil, b: Civil, months: int)
    requires a.Valid() && b.Valid() && a.DateLeq(b)
    requires AddMonths(a, months).Ok? && AddMonths(b, months).Ok?
    ensures AddMonths(a, months).value.DateLeq(AddMonths(b, months).value)
  {
    AddMonthsIsCalendarExact(a, months);
    AddMonthsIsCalendarExact(b, months);
    var ra, rb := AddMonths(a, months).value, AddMonths(b, months).value;
    if a.MonthIndex() == b.MonthIndex() {
      IndexOfDate(ra);
      IndexOfDate(rb);
      assert ra.year == rb.year && ra.month == rb.month;
    }
  }

  // On instants it is not monotone, and this is exactly when: two different
  // days of one month both land on the last day of the target month, and the
  // earlier day carries the later time.  The inversion is under 24 hours.
  lemma AddMonthsInversion(a: Civil, b: Civil, months: int)
    requires a.Valid() && b.Valid() && Instant(a) <= Instant(b)
    requires AddMonths(a, months).Ok? && AddMonths(b, months).Ok?
    ensures var ra, rb := AddMonths(a, months).value, AddMonths(b, months).value;
            && (Instant(ra) > Instant(rb) <==>
                a.MonthIndex() == b.MonthIndex() && MonthLength(b.MonthIndex() + months) <= a.day < b.day
                  && b.micros < a.micros)
            && Instant(ra) - Instant(rb) < DAY
            && (Instant(ra) > Instant(rb) ==> rb.day < b.day)
  {
    var ra, rb := AddMonths(a, months).value, AddMonths(b, months).value;
    AddMonthsIsCalendarExact(a, months);
    AddMonthsIsCalendarExact(b, months);
    InstantOrder(a, b);
    InstantOrder(ra, rb);
    InstantOrder(rb, ra);
    IndexOfDate(ra);
    IndexOfDate(rb);
  }

  lemma AddMonthsInversionHappens()
    ensures var a, b := Civil(2026, 1, 30, 23 * HOUR), Civil(2026, 1, 31, HOUR);
            a.Valid() && b.Valid() && Instant(a) < Instant(b)
            && AddMonths(a, 1).Ok? && AddMonths(b, 1).Ok?
              && Instant(AddMonths(a, 1).value) > Instant(AddMonths(b, 1).value)
  {
    var a, b := Civil(2026, 1, 30, 23 * HOUR), Civil(2026, 1, 31, HOUR);
    InstantOrder(a, b);
    InstantOrder(AddMonths(b, 1).value, AddMonths(a, 1).value);
  }

  // One calendar month is always 28 to 31 elapsed days.
  lemma OneMonthElapsed(dt: Civil)
    requires dt.Valid() && AddMonths(dt, 1).Ok?
    ensures 28 * DAY <= Instant(AddMonths(dt, 1).value) - Instant(dt) <= 31 * DAY
  {
    AddMonthsIsCalendarExact(dt, 1);
    var r := AddMonths(dt, 1).value;
    var i := dt.MonthIndex();
    MonthsAbut(i);
    MonthsAbut(i + 1);
    IndexOfDate(dt);
    IndexOfDate(r);
    assert DayNumber(r) - DayNumber(dt) == MonthLength(i) + r.day - dt.day;
    assert 28 <= DayNumber(r) - DayNumber(dt) <= 31;
    assert Instant(r) - Instant(dt) == (DayNumber(r) - DayNumber(dt)) * DAY;
  }
}
