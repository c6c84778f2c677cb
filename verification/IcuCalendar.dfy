/** Timestamps with time zone over a calendar whose clock is a double of milliseconds, with days of
    fixed length. Division is that of C++: it truncates towards zero. */
module IcuCalendar {
  import opened Common

  datatype Interval = Interval(months: int, days: int, micros: int)

  const INT32_MAX: int := 0x7FFF_FFFF
  const INT32_MIN: int := -0x8000_0000
  const INT64_MAX: int := 0x7FFF_FFFF_FFFF_FFFF
  const INT64_MIN: int := -0x8000_0000_0000_0000
  const INFINITY := INT64_MAX

  const MICROS_PER_MSEC := 1000
  const MSECS_PER_SEC := 1000
  const MICROS_PER_SEC := 1_000_000
  const SECS_PER_MINUTE := 60
  const MINS_PER_HOUR := 60
  const MSECS_PER_MINUTE := 60_000
  const MSECS_PER_HOUR := 3_600_000
  const MSECS_PER_DAY := 86_400_000
  const MICROS_PER_DAY := 86_400_000_000

  predicate IsFinite(timestamp: int) {
    timestamp != INFINITY && timestamp != -INFINITY
  }

  predicate IsInt64(x: int) {
    INT64_MIN <= x <= INT64_MAX
  }

  function TruncDiv(a: int, b: int): int
    requires b > 0
  {
    if a >= 0 then a / b else -(-a / b)
  }

  function TruncMod(a: int, b: int): int
    requires b > 0
  {
    if a >= 0 then a % b else -(-a % b)
  }

  lemma TruncSplits(a: int, b: int)
    requires b > 0
    ensures a == TruncDiv(a, b) * b + TruncMod(a, b)
    ensures a >= 0 ==> 0 <= TruncMod(a, b) < b && TruncDiv(a, b) >= 0
    ensures a <= 0 ==> -b < TruncMod(a, b) <= 0 && TruncDiv(a, b) <= 0
  {
    if a >= 0 {
      DivSplits(a, b);
    } else {
      DivSplits(-a, b);
      NegatedProduct(-a / b, b);
    }
  }

  lemma DivSplits(n: nat, b: int)
    requires b > 0
    ensures n == n / b * b + n % b && 0 <= n % b < b && n / b >= 0
  {
  }

  lemma NegatedProduct(q: int, b: int)
    ensures -q * b == -(q * b)
  {
  }

  // ----- doubles -------------------------------------------------------------------------------------------

  /** Up to here every integer is a double. */
  const EXACT: int := 0x20_0000_0000_0000

  predicate IsExact(ms: int) {
    -EXACT <= ms <= EXACT
  }

  /** The nearest multiple of `spacing`, on a tie the even one. */
  function Nearest(x: nat, spacing: nat): nat
    requires spacing > 0
  {
    var below, rest := x / spacing, x % spacing;
    if 2 * rest < spacing || (2 * rest == spacing && below % 2 == 0) then below * spacing else (below + 1) * spacing
  }

  function Rounded(x: nat, spacing: nat): nat
    requires spacing > 0
    decreases if x > EXACT * spacing then x - spacing else 0
  {
    if x <= EXACT * spacing then Nearest(x, spacing) else Rounded(x, 2 * spacing)
  }

  /** Conversion of an integer to a double. */
  function UDate(ms: int): (r: int)
    ensures IsExact(ms) ==> r == ms
  {
    if IsExact(ms) then ms else Beyond(ms)
  }

  function Beyond(ms: int): int {
    var size: int := Rounded(if ms >= 0 then ms else -ms, 1);
    if ms >= 0 then size else -size
  }

  // ----- the calendar --------------------------------------------------------------------------------------

  datatype Field = Millisecond | Second | Minute | Hour | Date

  function Unit(field: Field): int {
    match field
    case Millisecond => 1
    case Second => MSECS_PER_SEC
    case Minute => MSECS_PER_MINUTE
    case Hour => MSECS_PER_HOUR
    case Date => MSECS_PER_DAY
  }

  /** The months of a calendar, which have no fixed length, on a clock of milliseconds: the number of the month,
      the start of a month, adding months and counting the whole months between. */
  datatype Months = Months(numberOf: int -> int, start: int -> int, shift: (int, int) -> int, between: (int, int) -> int)

  /** Months follow one another without gaps, and from the start of one to the start of another the whole months
      between are the difference of their numbers. */
  ghost predicate MonthsValid(months: Months) {
    (forall ms {:trigger months.numberOf(ms)} ::
       months.start(months.numberOf(ms)) <= ms < months.start(months.numberOf(ms) + 1)) &&
    (forall a, b {:trigger months.start(a), months.start(b)} :: a < b ==> months.start(a) < months.start(b)) &&
    (forall a, n {:trigger months.shift(months.start(a), n)} :: months.shift(months.start(a), n) == months.start(a + n)) &&
    (forall a, b {:trigger months.between(months.start(a), months.start(b))} ::
       months.between(months.start(a), months.start(b)) == b - a)
  }

  /** A calendar with its clock. */
  class Calendar {
    const months: Months
    var time: int

    constructor (months: Months)
      ensures this.months == months
    {
      this.months := months;
      time := 0;
    }

    method SetClock(ms: int)
      modifies this
      ensures time == UDate(ms)
    {
      time := UDate(ms);
    }

    method Add(field: Field, amount: int)
      modifies this
      ensures time == UDate(old(time) + amount * Unit(field))
    {
      time := UDate(time + amount * Unit(field));
    }

    method AddMonths(amount: int)
      modifies this
      ensures time == if amount == 0 then old(time) else UDate(months.shift(old(time), amount))
    {
      if amount != 0 {
        time := UDate(months.shift(time, amount));
      }
    }

    /** Sets the clock to the start of its month. */
    method TruncMonth()
      modifies this
      ensures time == UDate(months.start(months.numberOf(old(time))))
    {
      time := UDate(months.start(months.numberOf(time)));
    }

    /** The number of whole months up to `when`; the clock moves by them. */
    method MonthDifference(when: int) returns (n: int)
      modifies this
      ensures n == months.between(old(time), when) && time == UDate(months.shift(old(time), n))
    {
      n := months.between(time, when);
      time := UDate(months.shift(time, n));
    }

    /** The number of whole units up to `when`; the clock moves by them. */
    method FieldDifference(when: int, field: Field) returns (n: int)
      modifies this
      ensures n == TruncDiv(when - old(time), Unit(field))
      ensures time == UDate(old(time) + n * Unit(field))
    {
      n := TruncDiv(when - time, Unit(field));
      time := UDate(time + n * Unit(field));
    }

    // ----- timestamps on the clock -------------------------------------------------------------------------

    /** The clock shows the timestamp rounded down; the microseconds are returned. */
    method SetTime(date: int) returns (micros: nat)
      modifies this
      ensures micros < MICROS_PER_MSEC && time == UDate((date - micros) / MICROS_PER_MSEC)
      ensures (date - micros) % MICROS_PER_MSEC == 0
    {
      var ms, us := TruncDiv(date, MICROS_PER_MSEC), TruncMod(date, MICROS_PER_MSEC);
      if us < 0 {
        ms := ms - 1;
        us := us + MICROS_PER_MSEC;
      }
      SetClock(ms);
      return us;
    }

    /** The timestamp on the clock, if it and the start of its day can be represented. */
    method TryGetTime(micros: int) returns (r: Option<int>)
      ensures r == TimeOf(time, micros)
      ensures IsExact(time) && -2 * MICROS_PER_MSEC < micros < 2 * MICROS_PER_MSEC ==>
                r == Some(time * MICROS_PER_MSEC + micros)
      ensures r.Some? ==> r.value == time * MICROS_PER_MSEC + micros && InDateRange(r.value)
    {
      var us := time * MICROS_PER_MSEC;
      if IsExact(time) && -2 * MICROS_PER_MSEC < micros < 2 * MICROS_PER_MSEC {
        ExactInDateRange(time, micros);
      }
      if !IsInt64(us) {
        return None;
      }
      us := us + micros;
      if !IsInt64(us) || !InDateRange(us) {
        return None;
      }
      return Some(us);
    }

    /** The timestamp on the clock without any check. */
    method GetTimeUnsafe(micros: int) returns (r: int)
      ensures r == time * MICROS_PER_MSEC + micros
    {
      r := time * MICROS_PER_MSEC + micros;
    }

    method GetTime(micros: int) returns (r: Result<int>)
      ensures if TimeOf(time, micros).Some? then r == Ok(TimeOf(time, micros).value) else r.Err?
      ensures IsExact(time) && -2 * MICROS_PER_MSEC < micros < 2 * MICROS_PER_MSEC ==>
                r == Ok(time * MICROS_PER_MSEC + micros)
    {
      var t := TryGetTime(micros);
      if t.None? {
        return Err("ICU date overflows timestamp range");
      }
      return Ok(t.value);
    }

    method SubtractField(field: Field, endDate: int) returns (n: int)
      modifies this
      ensures n == TruncDiv(UDate(TruncDiv(endDate, MICROS_PER_MSEC)) - old(time), Unit(field))
      ensures time == UDate(old(time) + n * Unit(field))
    {
      n := FieldDifference(UDate(TruncDiv(endDate, MICROS_PER_MSEC)), field);
    }
  }

  /** What a clock and microseconds show, unless it or the start of its day overflows. */
  function TimeOf(time: int, micros: int): Option<int> {
    var us := time * MICROS_PER_MSEC;
    if IsInt64(us) && IsInt64(us + micros) && InDateRange(us + micros) then Some(us + micros) else None
  }

  /** What is exact on the clock is in the range of dates. */
  lemma ExactInDateRange(ms: int, micros: int)
    requires IsExact(ms) && -2 * MICROS_PER_MSEC < micros < 2 * MICROS_PER_MSEC
    ensures IsInt64(ms * MICROS_PER_MSEC + micros) && InDateRange(ms * MICROS_PER_MSEC + micros)
  {
  }

  /** The start of the day of the timestamp does not overflow. The day is rounded down. */
  predicate InDateRange(timestamp: int) {
    var negative := if timestamp < 0 then 1 else 0;
    IsInt64((TruncDiv(timestamp + negative, MICROS_PER_DAY) - negative) * MICROS_PER_DAY)
  }

  /** The clock shows the timestamp, rounded down to a millisecond, exactly. */
  predicate OnClock(timestamp: int) {
    IsExact(timestamp / MICROS_PER_MSEC)
  }

  /** The clock shows the timestamp and the milliseconds before and after it exactly. */
  predicate InRange(timestamp: int) {
    -(EXACT - 1) * MICROS_PER_MSEC <= timestamp <= (EXACT - 1) * MICROS_PER_MSEC
  }
}
