/** Python's `datetime`: proleptic Gregorian dates in years 1..9999, a time of day
    with microseconds, the comparison Python uses, and the addition of a
    non-negative number of microseconds (`dt + timedelta(microseconds=n)`). */
module Dates {
  import opened Options

  const MinYear: int := 1
  const MaxYear: int := 9999
  const MicrosPerSecond: int := 1_000_000
  const MicrosPerDay: int := 86_400_000_000

  datatype Date = Date(year: int, month: int, day: int)

  datatype DateTime = DateTime(year: int, month: int, day: int,
                               hour: int, minute: int, second: int, microsecond: int)

  predicate IsLeapYear(y: int) {
    y % 4 == 0 && (y % 100 != 0 || y % 400 == 0)
  }

  function DaysInMonth(y: int, m: int): (n: int)
    requires 1 <= m <= 12
    ensures 28 <= n <= 31
  {
    if m == 2 then (if IsLeapYear(y) then 29 else 28)
    else if m == 4 || m == 6 || m == 9 || m == 11 then 30
    else 31
  }

  /** The checks `datetime(year, month, day)` makes before it raises ValueError. */
  predicate ValidDate(d: Date) {
    MinYear <= d.year <= MaxYear && 1 <= d.month <= 12 && 1 <= d.day <= DaysInMonth(d.year, d.month)
  }

  predicate ValidTime(hour: int, minute: int, second: int, microsecond: int) {
    0 <= hour < 24 && 0 <= minute < 60 && 0 <= second < 60 && 0 <= microsecond < MicrosPerSecond
  }

  function DateOf(t: DateTime): Date {
    Date(t.year, t.month, t.day)
  }

  predicate Valid(t: DateTime) {
    ValidDate(DateOf(t)) && ValidTime(t.hour, t.minute, t.second, t.microsecond)
  }

  /** Every `datetime` object Python can build is valid. */
  type Timestamp = t: DateTime | Valid(t) witness DateTime(1, 1, 1, 0, 0, 0, 0)

  /** `datetime.min` */
  const Min: Timestamp := DateTime(MinYear, 1, 1, 0, 0, 0, 0)

  /** `datetime(d.year, d.month, d.day)`: the date at 00:00:00. */
  function Midnight(d: Date): (t: Timestamp)
    requires ValidDate(d)
    ensures DateOf(t) == d && TimeOfDay(t) == 0
  {
    DateTime(d.year, d.month, d.day, 0, 0, 0, 0)
  }

  // ---------------------------------------------------------------------------
  // Comparison

  /** Lexicographic order on (year, month, day). */
  predicate DateBefore(a: Date, b: Date) {
    a.year < b.year || (a.year == b.year &&
    (a.month < b.month || (a.month == b.month &&
    a.day < b.day)))
  }

  /** `a < b` on datetimes: lexicographic on all seven fields. */
  predicate Before(a: DateTime, b: DateTime) {
    DateBefore(DateOf(a), DateOf(b)) || (DateOf(a) == DateOf(b) &&
    (a.hour < b.hour || (a.hour == b.hour &&
    (a.minute < b.minute || (a.minute == b.minute &&
    (a.second < b.second || (a.second == b.second &&
    a.microsecond < b.microsecond)))))))
  }

  function Radix(hi: int, lo: int, base: int): int {
    hi * base + lo
  }

  /** Microseconds since the start of the day. */
  function TimeOfDay(t: DateTime): int {
    Radix(Radix(Radix(t.hour, t.minute, 60), t.second, 60), t.microsecond, MicrosPerSecond)
  }

  function DateCode(d: Date): int {
    Radix(Radix(d.year, d.month, 13), d.day, 32)
  }

  /** An integer that orders timestamps exactly as Python compares them (CodeOrder). */
  function Code(t: Timestamp): int {
    Radix(DateCode(DateOf(t)), TimeOfDay(t), MicrosPerDay)
  }

  lemma MulStep(a: int, b: int, base: int)
    requires a < b && 0 < base
    ensures a * base + base <= b * base
  {
    var k := b - a - 1;
    assert k >= 0;
    assert b * base == (a + 1 + k) * base;
    assert (a + 1 + k) * base == a * base + base + k * base;
    assert k * base >= 0;
  }

  lemma RadixOrder(hi1: int, lo1: int, hi2: int, lo2: int, base: int)
    requires 0 < base && 0 <= lo1 < base && 0 <= lo2 < base
    ensures Radix(hi1, lo1, base) < Radix(hi2, lo2, base) <==> hi1 < hi2 || (hi1 == hi2 && lo1 < lo2)
    ensures Radix(hi1, lo1, base) == Radix(hi2, lo2, base) <==> hi1 == hi2 && lo1 == lo2
  {
    if hi1 < hi2 {
      MulStep(hi1, hi2, base);
    } else if hi2 < hi1 {
      MulStep(hi2, hi1, base);
    }
  }

  lemma TimeOfDayRange(t: DateTime)
    requires ValidTime(t.hour, t.minute, t.second, t.microsecond)
    ensures 0 <= TimeOfDay(t) < MicrosPerDay
  {
    var a := Radix(t.hour, t.minute, 60);
    var b := Radix(a, t.second, 60);
    assert 0 <= a <= 23 * 60 + 59;
    assert 0 <= b <= 1439 * 60 + 59;
    assert Radix(b, t.microsecond, MicrosPerSecond) <= 86399 * MicrosPerSecond + 999_999;
  }

  lemma DateCodeOrder(a: Date, b: Date)
    requires ValidDate(a) && ValidDate(b)
    ensures DateBefore(a, b) <==> DateCode(a) < DateCode(b)
    ensures a == b <==> DateCode(a) == DateCode(b)
  {
    RadixOrder(a.year, a.month, b.year, b.month, 13);
    RadixOrder(Radix(a.year, a.month, 13), a.day, Radix(b.year, b.month, 13), b.day, 32);
  }

  lemma TimeOfDayOrder(a: DateTime, b: DateTime)
    requires Valid(a) && Valid(b)
    ensures TimeOfDay(a) < TimeOfDay(b) <==>
      (a.hour < b.hour || (a.hour == b.hour &&
      (a.minute < b.minute || (a.minute == b.minute &&
      (a.second < b.second || (a.second == b.second &&
      a.microsecond < b.microsecond))))))
    ensures TimeOfDay(a) == TimeOfDay(b) <==>
      a.hour == b.hour && a.minute == b.minute && a.second == b.second && a.microsecond == b.microsecond
  {
    var a1, b1 := Radix(a.hour, a.minute, 60), Radix(b.hour, b.minute, 60);
    var a2, b2 := Radix(a1, a.second, 60), Radix(b1, b.second, 60);
    RadixOrder(a.hour, a.minute, b.hour, b.minute, 60);
    RadixOrder(a1, a.second, b1, b.second, 60);
    RadixOrder(a2, a.microsecond, b2, b.microsecond, MicrosPerSecond);
  }

  /** Code is an order embedding of Python's datetime comparison. */
  lemma CodeOrder(a: Timestamp, b: Timestamp)
    ensures Before(a, b) <==> Code(a) < Code(b)
    ensures a == b <==> Code(a) == Code(b)
  {
    TimeOfDayRange(a);
    TimeOfDayRange(b);
    DateCodeOrder(DateOf(a), DateOf(b));
    TimeOfDayOrder(a, b);
    RadixOrder(DateCode(DateOf(a)), TimeOfDay(a), DateCode(DateOf(b)), TimeOfDay(b), MicrosPerDay);
  }

  // ---------------------------------------------------------------------------
  // Adding microseconds

  /** The calendar day after `d`; None past 9999-12-31 (where Python overflows). */
  function NextDay(d: Date): (r: Option<Date>)
    requires ValidDate(d)
    ensures r.None? <==> d == Date(MaxYear, 12, 31)
    ensures r.Some? ==> ValidDate(r.value) && DateBefore(d, r.value)
    ensures r.Some? ==> forall e :: ValidDate(e) && DateBefore(d, e) ==> !DateBefore(e, r.value)
  {
    if d.day < DaysInMonth(d.year, d.month) then Some(Date(d.year, d.month, d.day + 1))
    else if d.month < 12 then Some(Date(d.year, d.month + 1, 1))
    else if d.year < MaxYear then Some(Date(d.year + 1, 1, 1))
    else None
  }

  /** `k` days after `d`, or None if that passes the last representable day. */
  function AddDays(d: Date, k: nat): (r: Option<Date>)
    requires ValidDate(d)
    ensures r.Some? ==> ValidDate(r.value)
    ensures r.Some? && 0 < k ==> DateBefore(d, r.value)
    decreases k
  {
    if k == 0 then Some(d)
    else match NextDay(d)
      case None => None
      case Some(next) => AddDays(next, k - 1)
  }

  lemma {:induction false} AddDaysMonotone(d: Date, k1: nat, k2: nat)
    requires ValidDate(d) && k1 < k2 && AddDays(d, k2).Some?
    ensures AddDays(d, k1).Some?
    ensures DateBefore(AddDays(d, k1).value, AddDays(d, k2).value)
    decreases k1
  {
    if k1 > 0 {
      var next := NextDay(d);
      assert next.Some?;
      AddDaysMonotone(next.value, k1 - 1, k2 - 1);
    }
  }

  /** The time on day `d` that lies `tod` microseconds after midnight. */
  function AtTimeOfDay(d: Date, tod: int): (t: Timestamp)
    requires ValidDate(d) && 0 <= tod < MicrosPerDay
    ensures DateOf(t) == d && TimeOfDay(t) == tod
  {
    var seconds := tod / MicrosPerSecond;
    var minutes := seconds / 60;
    assert Radix(seconds, tod % MicrosPerSecond, MicrosPerSecond) == tod;
    assert Radix(minutes, seconds % 60, 60) == seconds;
    assert Radix(minutes / 60, minutes % 60, 60) == minutes;
    DateTime(d.year, d.month, d.day, minutes / 60, minutes % 60, seconds % 60, tod % MicrosPerSecond)
  }

  /** Less than a second past midnight is all microseconds. */
  lemma SubSecondTimeOfDay(t: DateTime)
    requires ValidTime(t.hour, t.minute, t.second, t.microsecond)
    requires TimeOfDay(t) < MicrosPerSecond
    ensures t.hour == 0 && t.minute == 0 && t.second == 0 && t.microsecond == TimeOfDay(t)
  {
    var minutes := Radix(t.hour, t.minute, 60);
    var seconds := Radix(minutes, t.second, 60);
    assert seconds == 0;
    assert minutes == 0;
  }

  /** `t + timedelta(microseconds=n)`; None where Python raises OverflowError. */
  function AddMicroseconds(t: Timestamp, n: nat): (r: Option<Timestamp>)
    ensures r.None? <==> AddDays(DateOf(t), (TimeOfDay(t) + n) / MicrosPerDay).None?
    ensures r.Some? ==> Some(DateOf(r.value)) == AddDays(DateOf(t), (TimeOfDay(t) + n) / MicrosPerDay)
    ensures r.Some? ==> TimeOfDay(r.value) == (TimeOfDay(t) + n) % MicrosPerDay
  {
    TimeOfDayRange(t);
    var total := TimeOfDay(t) + n;
    match AddDays(DateOf(t), total / MicrosPerDay)
    case None => None
    case Some(d) => Some(AtTimeOfDay(d, total % MicrosPerDay))
  }

  /** An offset that stays within the day only moves the clock. */
  lemma AddMicrosecondsWithinDay(t: Timestamp, n: nat)
    requires TimeOfDay(t) + n < MicrosPerDay
    ensures AddMicroseconds(t, n).Some?
    ensures DateOf(AddMicroseconds(t, n).value) == DateOf(t)
    ensures TimeOfDay(AddMicroseconds(t, n).value) == TimeOfDay(t) + n
  {
    TimeOfDayRange(t);
  }

  lemma DayCarry(total1: int, total2: int)
    requires 0 <= total1 < total2
    ensures total1 / MicrosPerDay < total2 / MicrosPerDay ||
            (total1 / MicrosPerDay == total2 / MicrosPerDay && total1 % MicrosPerDay < total2 % MicrosPerDay)
  {
    var q1, q2 := total1 / MicrosPerDay, total2 / MicrosPerDay;
    assert Radix(q1, total1 % MicrosPerDay, MicrosPerDay) == total1;
    assert Radix(q2, total2 % MicrosPerDay, MicrosPerDay) == total2;
    RadixOrder(q1, total1 % MicrosPerDay, q2, total2 % MicrosPerDay, MicrosPerDay);
  }

  /** A larger offset gives a strictly later datetime, and never overflows sooner. */
  lemma AddMicrosecondsMonotone(t: Timestamp, n1: nat, n2: nat)
    requires n1 < n2 && AddMicroseconds(t, n2).Some?
    ensures AddMicroseconds(t, n1).Some?
    ensures Before(AddMicroseconds(t, n1).value, AddMicroseconds(t, n2).value)
  {
    TimeOfDayRange(t);
    var total1, total2 := TimeOfDay(t) + n1, TimeOfDay(t) + n2;
    DayCarry(total1, total2);
    var q1, q2 := total1 / MicrosPerDay, total2 / MicrosPerDay;
    if q1 < q2 {
      AddDaysMonotone(DateOf(t), q1, q2);
    } else {
      var r1, r2 := AddMicroseconds(t, n1).value, AddMicroseconds(t, n2).value;
      assert DateOf(r1) == DateOf(r2);
      assert TimeOfDay(r1) < TimeOfDay(r2);
      TimeOfDayOrder(r1, r2);
    }
  }
}
