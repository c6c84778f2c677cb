/** Adding intervals to timestamps with time zone and taking differences. */
module IcuDateAdd {
  import opened Common
  import opened IcuCalendar

  // ----- adding --------------------------------------------------------------------------------------------

  /** The clock after a sequence of moves; it is a double after each of them. */
  function Moved(time: int, moves: seq<int>): int
    decreases |moves|
  {
    if moves == [] then time else Moved(UDate(time + moves[0]), moves[1..])
  }

  lemma {:induction false} MovedTwice(time: int, a: seq<int>, b: seq<int>)
    ensures Moved(time, a + b) == Moved(Moved(time, a), b)
    decreases |a|
  {
    if a == [] {
      assert a + b == b;
    } else {
      assert (a + b)[1..] == a[1..] + b;
      MovedTwice(UDate(time + a[0]), a[1..], b);
    }
  }

  function Total(moves: seq<int>): int {
    if moves == [] then 0 else moves[0] + Total(moves[1..])
  }

  predicate AllUp(moves: seq<int>) {
    forall k :: 0 <= k < |moves| ==> moves[k] >= 0
  }

  predicate AllDown(moves: seq<int>) {
    forall k :: 0 <= k < |moves| ==> moves[k] <= 0
  }

  lemma {:induction false} TotalTwice(a: seq<int>, b: seq<int>)
    ensures Total(a + b) == Total(a) + Total(b)
  {
    if a == [] {
      assert a + b == b;
    } else {
      assert (a + b)[1..] == a[1..] + b;
      TotalTwice(a[1..], b);
    }
  }

  lemma {:induction false} TotalSign(moves: seq<int>)
    ensures AllUp(moves) ==> Total(moves) >= 0
    ensures AllDown(moves) ==> Total(moves) <= 0
  {
    if moves != [] {
      TotalSign(moves[1..]);
    }
  }

  /** Between exact ends moves in one direction stay exact. */
  lemma {:induction false} MovesAreExact(time: int, moves: seq<int>)
    requires (AllUp(moves) || AllDown(moves)) && ExactMove(time, Total(moves))
    ensures Moved(time, moves) == time + Total(moves)
    decreases |moves|
  {
    if moves != [] {
      TotalSign(moves[1..]);
      MovesAreExact(time + moves[0], moves[1..]);
    }
  }

  /** Both ends of a move of the clock are exact, and so is everything between them. */
  predicate ExactMove(time: int, ms: int) {
    IsExact(time) && IsExact(time + ms)
  }

  /** Hours may exceed 32 bits and are added in pieces. */
  function HoursUp(hours: int): (moves: seq<int>)
    decreases if hours < 0 then 0 else hours
  {
    if hours <= 0 then []
    else [(if hours > INT32_MAX then INT32_MAX else hours) * MSECS_PER_HOUR] + HoursUp(hours - INT32_MAX)
  }

  function HoursDown(hours: int): (moves: seq<int>)
    decreases if hours > 0 then 0 else -hours
  {
    if hours >= 0 then []
    else [(if hours < INT32_MIN then INT32_MIN else hours) * MSECS_PER_HOUR] + HoursDown(hours - INT32_MIN)
  }

  function HourMoves(hours: int): seq<int> {
    if hours >= 0 then HoursUp(hours) else HoursDown(hours)
  }

  lemma {:induction false} HoursUpAdd(hours: int)
    ensures AllUp(HoursUp(hours)) && Total(HoursUp(hours)) == (if hours > 0 then hours else 0) * MSECS_PER_HOUR
    decreases if hours < 0 then 0 else hours
  {
    if hours > 0 {
      HoursUpAdd(hours - INT32_MAX);
    }
  }

  lemma {:induction false} HoursDownAdd(hours: int)
    ensures AllDown(HoursDown(hours)) && Total(HoursDown(hours)) == (if hours < 0 then hours else 0) * MSECS_PER_HOUR
    decreases if hours > 0 then 0 else -hours
  {
    if hours < 0 {
      HoursDownAdd(hours - INT32_MIN);
    }
  }

  lemma HoursAreExact(time: int, hours: int)
    requires ExactMove(time, hours * MSECS_PER_HOUR)
    ensures Moved(time, HourMoves(hours)) == time + hours * MSECS_PER_HOUR
  {
    HoursUpAdd(hours);
    HoursDownAdd(hours);
    MovesAreExact(time, HourMoves(hours));
  }

  method CalendarAddHour(calendar: Calendar, intervalHour: int)
    modifies calendar
    ensures calendar.time == Moved(old(calendar.time), HourMoves(intervalHour))
  {
    ghost var start := calendar.time;
    var hours := intervalHour;
    if hours >= 0 {
      while hours > 0
        invariant Moved(start, HoursUp(intervalHour)) == Moved(calendar.time, HoursUp(hours))
        decreases if hours < 0 then 0 else hours
      {
        calendar.Add(Hour, if hours > INT32_MAX then INT32_MAX else hours);
        hours := hours - INT32_MAX;
      }
    } else {
      while hours < 0
        invariant Moved(start, HoursDown(intervalHour)) == Moved(calendar.time, HoursDown(hours))
        decreases if hours > 0 then 0 else -hours
      {
        calendar.Add(Hour, if hours < INT32_MIN then INT32_MIN else hours);
        hours := hours - INT32_MIN;
      }
    }
  }

  /** The parts of a number of milliseconds, all of its sign. */
  datatype Parts = Parts(hours: int, minutes: int, seconds: int, milliseconds: int)

  function Split(ms: int): (p: Parts)
    ensures ms == p.hours * MSECS_PER_HOUR + p.minutes * MSECS_PER_MINUTE + p.seconds * MSECS_PER_SEC + p.milliseconds
    ensures ms >= 0 ==> p.hours >= 0 && p.minutes >= 0 && p.seconds >= 0 && p.milliseconds >= 0
    ensures ms <= 0 ==> p.hours <= 0 && p.minutes <= 0 && p.seconds <= 0 && p.milliseconds <= 0
  {
    var s := TruncDiv(ms, MSECS_PER_SEC);
    var m := TruncDiv(s, SECS_PER_MINUTE);
    Parts(TruncDiv(m, MINS_PER_HOUR), TruncMod(m, MINS_PER_HOUR), TruncMod(s, SECS_PER_MINUTE), TruncMod(ms, MSECS_PER_SEC))
  }

  function LowParts(p: Parts): seq<int> {
    [p.milliseconds, p.seconds * MSECS_PER_SEC, p.minutes * MSECS_PER_MINUTE]
  }

  function HighParts(p: Parts): seq<int> {
    [p.minutes * MSECS_PER_MINUTE, p.seconds * MSECS_PER_SEC, p.milliseconds]
  }

  /** The moves of a time from its lowest unit to its highest, and from its highest to its lowest. */
  function TimeUp(ms: int): seq<int> {
    LowParts(Split(ms)) + HourMoves(Split(ms).hours)
  }

  function TimeDown(ms: int): seq<int> {
    HourMoves(Split(ms).hours) + HighParts(Split(ms))
  }

  lemma TimeAddsUp(ms: int)
    ensures Total(TimeUp(ms)) == ms == Total(TimeDown(ms))
    ensures ms >= 0 ==> AllUp(TimeUp(ms)) && AllUp(TimeDown(ms))
    ensures ms <= 0 ==> AllDown(TimeUp(ms)) && AllDown(TimeDown(ms))
  {
    var p := Split(ms);
    HoursUpAdd(p.hours);
    HoursDownAdd(p.hours);
    TotalTwice(LowParts(p), HourMoves(p.hours));
    TotalTwice(HourMoves(p.hours), HighParts(p));
    TotalOfThree(p.milliseconds, p.seconds * MSECS_PER_SEC, p.minutes * MSECS_PER_MINUTE);
    TotalOfThree(p.minutes * MSECS_PER_MINUTE, p.seconds * MSECS_PER_SEC, p.milliseconds);
  }

  lemma TotalOfThree(a: int, b: int, c: int)
    ensures Total([a, b, c]) == a + b + c
  {
    assert [a, b, c][1..] == [b, c] && [b, c][1..] == [c];
    assert Total([b, c]) == b + Total([c]);
  }

  lemma MovedThree(time: int, a: int, b: int, c: int)
    ensures Moved(time, [a, b, c]) == UDate(UDate(UDate(time + a) + b) + c)
  {
    assert [a, b, c][1..] == [b, c] && [b, c][1..] == [c];
    assert Moved(UDate(time + a), [b, c]) == Moved(UDate(UDate(time + a) + b), [c]);
  }

  lemma TimeIsExact(time: int, ms: int)
    requires ExactMove(time, ms)
    ensures Moved(time, TimeUp(ms)) == time + ms == Moved(time, TimeDown(ms))
  {
    TimeAddsUp(ms);
    MovesAreExact(time, TimeUp(ms));
    MovesAreExact(time, TimeDown(ms));
  }

  lemma MovedThreeFirst(time: int, a: int, b: int, c: int, moves: seq<int>)
    ensures Moved(time, [a, b, c] + moves) == Moved(UDate(UDate(UDate(time + a) + b) + c), moves)
  {
    MovedTwice(time, [a, b, c], moves);
    MovedThree(time, a, b, c);
  }

  lemma MovedThreeLast(time: int, moves: seq<int>, a: int, b: int, c: int)
    ensures Moved(time, moves + [a, b, c]) == UDate(UDate(UDate(Moved(time, moves) + a) + b) + c)
  {
    MovedTwice(time, moves, [a, b, c]);
    MovedThree(Moved(time, moves), a, b, c);
  }

  /** From the lowest unit to the highest. */
  method AddTimeUp(calendar: Calendar, ms: int)
    modifies calendar
    ensures calendar.time == Moved(old(calendar.time), TimeUp(ms))
  {
    var p := Split(ms);
    MovedThreeFirst(calendar.time, p.milliseconds, p.seconds * MSECS_PER_SEC, p.minutes * MSECS_PER_MINUTE, HourMoves(p.hours));
    calendar.Add(Millisecond, p.milliseconds);
    calendar.Add(Second, p.seconds);
    calendar.Add(Minute, p.minutes);
    CalendarAddHour(calendar, p.hours);
  }

  /** From the highest unit to the lowest. */
  method AddTimeDown(calendar: Calendar, ms: int)
    modifies calendar
    ensures calendar.time == Moved(old(calendar.time), TimeDown(ms))
  {
    var p := Split(ms);
    MovedThreeLast(calendar.time, HourMoves(p.hours), p.minutes * MSECS_PER_MINUTE, p.seconds * MSECS_PER_SEC, p.milliseconds);
    CalendarAddHour(calendar, p.hours);
    calendar.Add(Minute, p.minutes);
    calendar.Add(Second, p.seconds);
    calendar.Add(Millisecond, p.milliseconds);
  }

  /** The clock before the time of the interval is added. */
  function Millis(timestamp: int, interval: Interval): int {
    var micros := TruncMod(timestamp, MICROS_PER_MSEC) + TruncMod(interval.micros, MICROS_PER_MSEC);
    TruncDiv(timestamp, MICROS_PER_MSEC) + if micros >= MICROS_PER_MSEC then 1 else if micros < 0 then -1 else 0
  }

  /** The microseconds carried past the clock; one normalisation may leave them negative. */
  function Micros(timestamp: int, interval: Interval): (micros: int)
    ensures -MICROS_PER_MSEC < micros < MICROS_PER_MSEC
  {
    var micros := TruncMod(timestamp, MICROS_PER_MSEC) + TruncMod(interval.micros, MICROS_PER_MSEC);
    if micros >= MICROS_PER_MSEC then micros - MICROS_PER_MSEC else if micros < 0 then micros + MICROS_PER_MSEC else micros
  }

  predicate AnyNegative(i: Interval) {
    i.months < 0 || i.days < 0 || i.micros < 0
  }

  /** The clock when it has been set, after each group of units, and at the end: with a negative part the time
      comes first, otherwise the months. */
  function Stops(shift: (int, int) -> int, timestamp: int, i: Interval): (stops: seq<int>)
    ensures |stops| == 4
  {
    var start, time := Millis(timestamp, i), TruncDiv(i.micros, MICROS_PER_MSEC);
    var days := i.days * MSECS_PER_DAY;
    if AnyNegative(i) then
      var timed := start + time;
      var shifted := if i.months == 0 then timed else shift(timed, i.months);
      [start, timed, shifted, shifted + days]
    else
      var shifted := if i.months == 0 then start else shift(start, i.months);
      [start, shifted, shifted + days, shifted + days + time]
  }

  predicate AllExact(stops: seq<int>) {
    forall k :: 0 <= k < |stops| ==> IsExact(stops[k])
  }

  /** The timestamp is finite, and the clock exact wherever it stops. */
  predicate Addable(shift: (int, int) -> int, timestamp: int, i: Interval) {
    IsFinite(timestamp) && AllExact(Stops(shift, timestamp, i))
  }

  /** Where the clock stops, and the microseconds. */
  function Sum(shift: (int, int) -> int, timestamp: int, i: Interval): int {
    Stops(shift, timestamp, i)[3] * MICROS_PER_MSEC + Micros(timestamp, i)
  }

  /** The microseconds of both, carried by hand. */
  method MoveMicros(timestamp: int, interval: Interval) returns (millis: int, micros: int)
    ensures millis == Millis(timestamp, interval) && micros == Micros(timestamp, interval)
  {
    millis, micros := TruncDiv(timestamp, MICROS_PER_MSEC), TruncMod(timestamp, MICROS_PER_MSEC);
    micros := micros + TruncMod(interval.micros, MICROS_PER_MSEC);
    if micros >= MICROS_PER_MSEC {
      micros := micros - MICROS_PER_MSEC;
      millis := millis + 1;
    } else if micros < 0 {
      micros := micros + MICROS_PER_MSEC;
      millis := millis - 1;
    }
  }

  function MonthsMoved(shift: (int, int) -> int, time: int, months: int): int {
    if months == 0 then time else UDate(shift(time, months))
  }

  /** Where the clock stops, rounded on the way as doubles are. */
  function ClockAfter(shift: (int, int) -> int, timestamp: int, i: Interval): int {
    var start, time := UDate(Millis(timestamp, i)), TruncDiv(i.micros, MICROS_PER_MSEC);
    if AnyNegative(i) then UDate(MonthsMoved(shift, Moved(start, TimeUp(time)), i.months) + i.days * MSECS_PER_DAY)
    else Moved(UDate(MonthsMoved(shift, start, i.months) + i.days * MSECS_PER_DAY), TimeDown(time))
  }

  /** The start of the clock is checked before it is set. */
  predicate Settable(timestamp: int, i: Interval) {
    var us := Millis(timestamp, i) * MICROS_PER_MSEC;
    IsInt64(us) && InDateRange(us)
  }

  /** What ICUCalendarAdd computes, for all timestamps and intervals. */
  function Added(shift: (int, int) -> int, timestamp: int, i: Interval): Option<int> {
    if !IsFinite(timestamp) then Some(timestamp)
    else if !Settable(timestamp, i) then None
    else TimeOf(ClockAfter(shift, timestamp, i), Micros(timestamp, i))
  }

  /** As long as the clock stays exact, it is where the sum is. */
  lemma ClockIsExact(shift: (int, int) -> int, timestamp: int, i: Interval)
    requires AllExact(Stops(shift, timestamp, i))
    ensures Settable(timestamp, i)
    ensures ClockAfter(shift, timestamp, i) == Stops(shift, timestamp, i)[3]
    ensures TimeOf(ClockAfter(shift, timestamp, i), Micros(timestamp, i)) == Some(Sum(shift, timestamp, i))
  {
    var stops, time := Stops(shift, timestamp, i), TruncDiv(i.micros, MICROS_PER_MSEC);
    assert IsExact(stops[0]) && IsExact(stops[1]) && IsExact(stops[2]) && IsExact(stops[3]);
    TimeIsExact(if AnyNegative(i) then stops[0] else stops[2], time);
    ExactInDateRange(stops[0], 0);
    ExactInDateRange(stops[3], Micros(timestamp, i));
  }

  /** In whole milliseconds, which carry nothing, the parts are added one by one: with a negative part time, months and
      days. */
  lemma NegativePartsInOrder(shift: (int, int) -> int, ms: int, months: int, days: int, time: int)
    requires months < 0 || days < 0 || time < 0
    ensures var timestamp, micros := ms * MICROS_PER_MSEC, time * MICROS_PER_MSEC;
            Sum(shift, timestamp, Interval(months, days, micros))
            == Sum(shift, Sum(shift, Sum(shift, timestamp, Interval(0, 0, micros)), Interval(months, 0, 0)), Interval(0, days, 0))
  {
    var timed := ms + time;
    var shifted := if months == 0 then timed else shift(timed, months);
    OnePart(shift, ms, 0, 0, time);
    OnePart(shift, timed, months, 0, 0);
    OnePart(shift, shifted, 0, days, 0);
    TimeFirst(shift, ms, months, days, time);
  }

  /** Otherwise months, days and time. */
  lemma PartsInOrder(shift: (int, int) -> int, ms: int, months: int, days: int, time: int)
    requires months >= 0 && days >= 0 && time >= 0
    ensures var timestamp, micros := ms * MICROS_PER_MSEC, time * MICROS_PER_MSEC;
            Sum(shift, timestamp, Interval(months, days, micros))
            == Sum(shift, Sum(shift, Sum(shift, timestamp, Interval(months, 0, 0)), Interval(0, days, 0)), Interval(0, 0, micros))
  {
    var shifted := if months == 0 then ms else shift(ms, months);
    TimeLast(shift, ms, months, days, time);
    OnePart(shift, ms, months, 0, 0);
    OnePart(shift, shifted, 0, days, 0);
    OnePart(shift, shifted + days * MSECS_PER_DAY, 0, 0, time);
  }

  lemma OnePart(shift: (int, int) -> int, ms: int, months: int, days: int, time: int)
    requires (months == 0 && days == 0) || (days == 0 && time == 0) || (months == 0 && time == 0)
    ensures Sum(shift, ms * MICROS_PER_MSEC, Interval(months, days, time * MICROS_PER_MSEC))
            == ((if months == 0 then ms else shift(ms, months)) + days * MSECS_PER_DAY + time) * MICROS_PER_MSEC
  {
    NothingCarried(ms, Interval(months, days, time * MICROS_PER_MSEC), time);
  }

  lemma TimeFirst(shift: (int, int) -> int, ms: int, months: int, days: int, time: int)
    requires months < 0 || days < 0 || time < 0
    ensures Sum(shift, ms * MICROS_PER_MSEC, Interval(months, days, time * MICROS_PER_MSEC))
            == ((if months == 0 then ms + time else shift(ms + time, months)) + days * MSECS_PER_DAY) * MICROS_PER_MSEC
  {
    NothingCarried(ms, Interval(months, days, time * MICROS_PER_MSEC), time);
  }

  lemma TimeLast(shift: (int, int) -> int, ms: int, months: int, days: int, time: int)
    requires months >= 0 && days >= 0 && time >= 0
    ensures Sum(shift, ms * MICROS_PER_MSEC, Interval(months, days, time * MICROS_PER_MSEC))
            == ((if months == 0 then ms else shift(ms, months)) + days * MSECS_PER_DAY + time) * MICROS_PER_MSEC
  {
    NothingCarried(ms, Interval(months, days, time * MICROS_PER_MSEC), time);
  }

  lemma NothingCarried(ms: int, i: Interval, time: int)
    requires i.micros == time * MICROS_PER_MSEC
    ensures Millis(ms * MICROS_PER_MSEC, i) == ms && Micros(ms * MICROS_PER_MSEC, i) == 0 && TruncDiv(i.micros, MICROS_PER_MSEC) == time
  {
    WholeTrunc(ms);
    WholeTrunc(time);
  }

  lemma WholeTrunc(ms: int)
    ensures TruncDiv(ms * MICROS_PER_MSEC, MICROS_PER_MSEC) == ms && TruncMod(ms * MICROS_PER_MSEC, MICROS_PER_MSEC) == 0
  {
  }

  /** ICUCalendarAdd. As long as the clock stays exact, the sum is where it stops. */
  method Add(calendar: Calendar, timestamp: int, interval: Interval) returns (r: Result<int>)
    modifies calendar
    ensures var sum := Added(calendar.months.shift, timestamp, interval); if sum.Some? then r == Ok(sum.value) else r.Err?
    ensures !IsFinite(timestamp) ==> r == Ok(timestamp)
    ensures Addable(calendar.months.shift, timestamp, interval) ==> r == Ok(Sum(calendar.months.shift, timestamp, interval))
  {
    if !IsFinite(timestamp) {
      return Ok(timestamp);
    }
    if Addable(calendar.months.shift, timestamp, interval) {
      ClockIsExact(calendar.months.shift, timestamp, interval);
    }
    var millis, micros := MoveMicros(timestamp, interval);
    if !IsInt64(millis * MICROS_PER_MSEC) || !InDateRange(millis * MICROS_PER_MSEC) {
      return Err("Date out of range in timestamp conversion");
    }
    calendar.SetClock(millis);
    var time := TruncDiv(interval.micros, MICROS_PER_MSEC);
    if interval.months < 0 || interval.days < 0 || interval.micros < 0 {
      // from the smallest unit to days
      AddTimeUp(calendar, time);
      calendar.AddMonths(interval.months);
      calendar.Add(Date, interval.days);
    } else {
      // from months to the smallest unit
      calendar.AddMonths(interval.months);
      calendar.Add(Date, interval.days);
      AddTimeDown(calendar, time);
    }
    assert calendar.time == ClockAfter(calendar.months.shift, timestamp, interval);
    r := calendar.GetTime(micros);
  }

  /** Without months: the clock is exact wherever it stops. */
  predicate WayOnClock(timestamp: int, i: Interval) {
    i.months == 0 && AllExact(Stops((ms, n) => ms, timestamp, i))
  }

  /** What is to be added, in microseconds. */
  function FixedMicros(i: Interval): int {
    i.days * MICROS_PER_DAY + i.micros
  }

  /** Without months the clock and the microseconds add up exactly, although one normalisation may leave the
      microseconds negative. */
  lemma StopsAddUp(shift: (int, int) -> int, timestamp: int, i: Interval)
    requires i.months == 0
    ensures Sum(shift, timestamp, i) == timestamp + FixedMicros(i)
    ensures Addable(shift, timestamp, i) <==> WayOnClock(timestamp, i)
  {
    TruncSplits(timestamp, MICROS_PER_MSEC);
    TruncSplits(i.micros, MICROS_PER_MSEC);
    assert Stops(shift, timestamp, i) == Stops((ms, n) => ms, timestamp, i);
    if WayOnClock(timestamp, i) {
      assert IsExact(Stops((ms, n) => ms, timestamp, i)[0]);
    }
  }

  /** For days it is enough, and needed, that both ends are on the clock. */
  lemma DaysAreOnClock(timestamp: int, days: int)
    ensures WayOnClock(timestamp, Interval(0, days, 0)) <==> OnClock(timestamp) && OnClock(timestamp + days * MICROS_PER_DAY)
  {
    var i, stops := Interval(0, days, 0), Stops((ms, n) => ms, timestamp, Interval(0, days, 0));
    assert stops[0] == timestamp / MICROS_PER_MSEC && stops[3] == timestamp / MICROS_PER_MSEC + days * MSECS_PER_DAY;
    assert (timestamp + days * MICROS_PER_DAY) / MICROS_PER_MSEC == stops[3];
    assert forall k :: 0 <= k < 4 ==> stops[k] == stops[0] || stops[k] == stops[3];
  }

  /** Timestamp plus an interval without months: the exact sum. */
  method AddFixed(calendar: Calendar, timestamp: int, interval: Interval) returns (r: Result<int>)
    modifies calendar
    ensures WayOnClock(timestamp, interval) ==> r == Ok(timestamp + FixedMicros(interval))
  {
    if WayOnClock(timestamp, interval) {
      StopsAddUp(calendar.months.shift, timestamp, interval);
    }
    r := Add(calendar, timestamp, interval);
  }

  function Negated(i: Interval): Interval {
    Interval(-i.months, -i.days, -i.micros)
  }

  /** ICUCalendarSub for an interval. */
  method Sub(calendar: Calendar, timestamp: int, interval: Interval) returns (r: Result<int>)
    modifies calendar
    ensures !IsFinite(timestamp) ==> r == Ok(timestamp)
    ensures Addable(calendar.months.shift, timestamp, Negated(interval)) ==>
              r == Ok(Sum(calendar.months.shift, timestamp, Negated(interval)))
    ensures WayOnClock(timestamp, Negated(interval)) ==> r == Ok(timestamp - FixedMicros(interval))
  {
    if WayOnClock(timestamp, Negated(interval)) {
      StopsAddUp(calendar.months.shift, timestamp, Negated(interval));
    }
    r := Add(calendar, timestamp, Negated(interval));
  }

  /** Subtracting undoes adding. */
  method AddThenSub(calendar: Calendar, timestamp: int, interval: Interval) returns (r: Result<int>)
    requires WayOnClock(timestamp, interval) && WayOnClock(timestamp + FixedMicros(interval), Negated(interval))
    modifies calendar
    ensures r == Ok(timestamp)
  {
    var sum := AddFixed(calendar, timestamp, interval);
    r := Sub(calendar, sum.value, interval);
  }

  /** Not every finite timestamp is in range: the clock rounds this one, although the calendar accepts it. */
  lemma LargeTimestampIsRounded()
    ensures var timestamp := (EXACT + 1) * MICROS_PER_MSEC;
            IsFinite(timestamp) && IsInt64(timestamp) && InDateRange(timestamp) && UDate(TruncDiv(timestamp, MICROS_PER_MSEC)) == EXACT
  {
    assert Rounded(EXACT + 1, 1) == Rounded(EXACT + 1, 2) == Nearest(EXACT + 1, 2);
  }

  /** As far as 64-bit microseconds reach, the clock is right exactly on these milliseconds. */
  lemma ClockIsRightIff(ms: int)
    requires -2 * EXACT <= ms <= 2 * EXACT
    ensures UDate(ms) == ms <==> IsExact(ms) || ms % 2 == 0
  {
    var size := if ms >= 0 then ms else -ms;
    if size > EXACT {
      assert Rounded(size, 1) == Rounded(size, 2) == Nearest(size, 2);
    }
  }

  // ----- the difference ------------------------------------------------------------------------------------

  const TWO_32: int := 0x1_0000_0000
  const TWO_64: int := 0x1_0000_0000_0000_0000

  /** Conversion to 64 bits without a sign. */
  function ToUint64(x: int): nat {
    x % TWO_64
  }

  /** Conversion to 32 bits with a sign. */
  function ToInt32(x: int): int {
    (x - INT32_MIN) % TWO_32 + INT32_MIN
  }

  function FromTime(hour: int, minute: int, second: int, micros: int): int {
    ((hour * MINS_PER_HOUR + minute) * SECS_PER_MINUTE + second) * MICROS_PER_SEC + micros
  }

  /** The end in the first millisecond after 1970, with fewer microseconds than the start: the borrowed end is
      negative and is rounded up. */
  predicate BorrowsAcrossZero(start: int, end: int) {
    0 < end < MICROS_PER_MSEC && start % MICROS_PER_MSEC > end
  }

  lemma WrapsBack(x: int)
    requires INT32_MIN <= x <= INT32_MAX
    ensures ToInt32(ToUint64(x)) == x && ToInt32(ToUint64(x + TWO_64)) == x
  {
    assert ToUint64(x) == if x >= 0 then x else x + TWO_64;
    assert ToUint64(x + TWO_64) == ToUint64(x);
  }

  datatype Fields = Fields(days: int, hours: int, minutes: int, seconds: int, milliseconds: int)

  function MillisOf(f: Fields): int {
    f.days * MSECS_PER_DAY + f.hours * MSECS_PER_HOUR + f.minutes * MSECS_PER_MINUTE + f.seconds * MSECS_PER_SEC + f.milliseconds
  }

  /** The clock and the end are exact, and the end is not before. */
  predicate IsAhead(time: int, when: int) {
    IsExact(time) && IsExact(when) && time <= when
  }

  /** One difference: the clock comes within a unit of the end. */
  method SubtractNext(calendar: Calendar, field: Field, endDate: int) returns (n: int)
    modifies calendar
    ensures IsAhead(old(calendar.time), TruncDiv(endDate, MICROS_PER_MSEC)) ==>
              n >= 0 && calendar.time == old(calendar.time) + n * Unit(field) &&
              IsAhead(calendar.time, TruncDiv(endDate, MICROS_PER_MSEC)) &&
              TruncDiv(endDate, MICROS_PER_MSEC) - calendar.time < Unit(field)
  {
    ghost var gap := TruncDiv(endDate, MICROS_PER_MSEC) - calendar.time;
    TruncSplits(gap, Unit(field));
    n := calendar.SubtractField(field, endDate);
  }

  /** Five successive differences, each of what the ones before have left. */
  method SubtractFields(calendar: Calendar, endDate: int) returns (f: Fields)
    modifies calendar
    ensures IsAhead(old(calendar.time), TruncDiv(endDate, MICROS_PER_MSEC)) ==>
              MillisOf(f) == TruncDiv(endDate, MICROS_PER_MSEC) - old(calendar.time) && AreParts(f)
  {
    var days := SubtractNext(calendar, Date, endDate);
    var hours := SubtractNext(calendar, Hour, endDate);
    var minutes := SubtractNext(calendar, Minute, endDate);
    var seconds := SubtractNext(calendar, Second, endDate);
    var milliseconds := SubtractNext(calendar, Millisecond, endDate);
    f := Fields(days, hours, minutes, seconds, milliseconds);
  }

  /** Each part but the days is less than one of the next higher unit. */
  predicate AreParts(f: Fields) {
    f.days >= 0 && 0 <= f.hours < 24 && 0 <= f.minutes < 60 && 0 <= f.seconds < 60 && 0 <= f.milliseconds < 1000
  }

  /** The borrow: fewer microseconds in the end, taken without a sign, than in the start. */
  predicate Borrows(start: int, end: int) {
    start % MICROS_PER_MSEC > ToUint64(TruncMod(end, MICROS_PER_MSEC))
  }

  /** The milliseconds from the start, rounded down, to the end, which after the borrow is rounded to zero. */
  function ClockGap(start: int, end: int): int {
    TruncDiv(if Borrows(start, end) then end - MICROS_PER_MSEC else end, MICROS_PER_MSEC) - start / MICROS_PER_MSEC
  }

  /** The microseconds that are left. */
  function MicrosGap(start: int, end: int): int {
    TruncMod(end, MICROS_PER_MSEC) + (if Borrows(start, end) then MICROS_PER_MSEC else 0) - start % MICROS_PER_MSEC
  }

  /** The difference as days and time: whole days by the clock, and the rest. */
  function DifferenceOf(start: int, end: int): Interval {
    Interval(0, TruncDiv(ClockGap(start, end), MSECS_PER_DAY),
             TruncMod(ClockGap(start, end), MSECS_PER_DAY) * MICROS_PER_MSEC + MicrosGap(start, end))
  }

  /** Before 1970 the clock has the end rounded up and the start rounded down. They are further apart by what has been
      rounded, and if that is more than what is left over the whole days between them, there is a day too many. */
  predicate RoundsPastADay(start: int, end: int) {
    var from, to := start / MICROS_PER_MSEC, TruncDiv(end, MICROS_PER_MSEC);
    var rounded := (start - from * MICROS_PER_MSEC) + (to * MICROS_PER_MSEC - end);
    end < 0 && end % MICROS_PER_MSEC != 0 && (to - from) % MSECS_PER_DAY * MICROS_PER_MSEC < rounded
  }

  lemma Uint64OfMicros(x: int)
    requires -MICROS_PER_MSEC < x < MICROS_PER_MSEC
    ensures ToUint64(x) == if x >= 0 then x else x + TWO_64
  {
  }

  /** End and start in milliseconds and microseconds: the borrow keeps their distance, but across zero. */
  lemma GapsAddUp(start: int, end: int)
    requires start <= end
    ensures ClockGap(start, end) >= 0
    ensures ClockGap(start, end) * MICROS_PER_MSEC + MicrosGap(start, end)
            == end - start + if BorrowsAcrossZero(start, end) then MICROS_PER_MSEC else 0
    ensures -2 * MICROS_PER_MSEC < MicrosGap(start, end) < MICROS_PER_MSEC
    ensures MicrosGap(start, end) < 0 <==> TruncMod(end, MICROS_PER_MSEC) < 0
  {
    var startMs, startMicros := start / MICROS_PER_MSEC, start % MICROS_PER_MSEC;
    assert start == startMs * MICROS_PER_MSEC + startMicros;
    Uint64OfMicros(TruncMod(end, MICROS_PER_MSEC));
    if end >= 0 {
      var ms, micros := end / MICROS_PER_MSEC, end % MICROS_PER_MSEC;
      assert end == ms * MICROS_PER_MSEC + micros;
      if startMicros > micros {
        assert TruncDiv(end - MICROS_PER_MSEC, MICROS_PER_MSEC) == if ms == 0 && micros > 0 then 0 else ms - 1;
      }
    } else {
      var ms, micros := -end / MICROS_PER_MSEC, -end % MICROS_PER_MSEC;
      assert end == -(ms * MICROS_PER_MSEC) - micros;
      if micros == 0 {
        assert TruncDiv(end - MICROS_PER_MSEC, MICROS_PER_MSEC) == -ms - 1;
      }
    }
  }

  /** Days and time recombine to the difference, but for an end where the borrow crosses zero, where there is a
      millisecond too much. */
  lemma DifferenceRecombines(start: int, end: int)
    requires start <= end
    ensures DifferenceOf(start, end).days >= 0
    ensures FixedMicros(DifferenceOf(start, end)) == end - start <==> !BorrowsAcrossZero(start, end)
    ensures BorrowsAcrossZero(start, end) ==> FixedMicros(DifferenceOf(start, end)) == end - start + MICROS_PER_MSEC
  {
    GapsAddUp(start, end);
  }

  /** The time is less than a day, and negative exactly if the end rounds past a day. */
  lemma TimeOfDifference(start: int, end: int)
    requires start <= end
    ensures -2 * MICROS_PER_MSEC < DifferenceOf(start, end).micros < MICROS_PER_DAY
    ensures DifferenceOf(start, end).micros < 0 <==> RoundsPastADay(start, end)
    ensures RoundsPastADay(start, end) ==> end < 0
  {
    GapsAddUp(start, end);
  }

  /** One microsecond before the start of 1970 and one after it: two microseconds come out as 1002. */
  lemma DifferenceAcrossZero()
    ensures BorrowsAcrossZero(-1, 1) && DifferenceOf(-1, 1) == Interval(0, 0, 1002)
  {
    assert ToUint64(1) == 1 && TruncMod(1, MICROS_PER_MSEC) == 1;
  }

  /** From the start of the last day before 1970 to one microsecond before its end: a day, and a microsecond
      taken back. */
  lemma DifferenceWithNegativeTime()
    ensures RoundsPastADay(-MICROS_PER_DAY, -1) && DifferenceOf(-MICROS_PER_DAY, -1) == Interval(0, 1, -1)
  {
    Uint64OfMicros(-1);
    assert TruncMod(-1, MICROS_PER_MSEC) == -1 && TruncDiv(-1, MICROS_PER_MSEC) == 0;
  }

  /** Between timestamps on the clock the borrowed end is ahead of the start. */
  lemma EndIsAhead(start: int, end: int)
    requires start <= end && OnClock(start) && OnClock(end)
    ensures IsAhead(start / MICROS_PER_MSEC, start / MICROS_PER_MSEC + ClockGap(start, end))
  {
    GapsAddUp(start, end);
  }

  /** The conversions to 64 and 32 bits leave the last part as it is. */
  lemma PartsWrapBack(f: Fields, start: int, end: int)
    requires start <= end && 0 <= f.milliseconds < MSECS_PER_SEC
    ensures var carried := ToUint64(TruncMod(end, MICROS_PER_MSEC)) + if Borrows(start, end) then MICROS_PER_MSEC else 0;
            ToInt32(ToUint64(f.milliseconds * MICROS_PER_MSEC + (carried - start % MICROS_PER_MSEC)))
            == f.milliseconds * MICROS_PER_MSEC + MicrosGap(start, end)
  {
    Uint64OfMicros(TruncMod(end, MICROS_PER_MSEC));
    GapsAddUp(start, end);
    WrapsBack(f.milliseconds * MICROS_PER_MSEC + MicrosGap(start, end));
  }

  /** The fields are the whole days of the gap and the time that is left. */
  lemma FieldsAreTheDifference(f: Fields, start: int, end: int)
    requires MillisOf(f) == ClockGap(start, end)
    requires AreParts(f)
    ensures DifferenceOf(start, end)
            == Interval(0, f.days, FromTime(f.hours, f.minutes, f.seconds, f.milliseconds * MICROS_PER_MSEC + MicrosGap(start, end)))
  {
    assert ClockGap(start, end) >= 0;
    assert 0 <= ClockGap(start, end) - f.days * MSECS_PER_DAY < MSECS_PER_DAY;
  }

  /** The earlier of two timestamps subtracted from the later. */
  method Difference(calendar: Calendar, end: int, start: int) returns (r: Interval)
    requires start <= end
    modifies calendar
    ensures OnClock(start) && OnClock(end) ==> r == DifferenceOf(start, end)
  {
    var startMicros := calendar.SetTime(start);
    assert startMicros == start % MICROS_PER_MSEC && (start - startMicros) / MICROS_PER_MSEC == start / MICROS_PER_MSEC;
    var endDate := end;
    var endMicros := ToUint64(TruncMod(end, MICROS_PER_MSEC));
    // take a millisecond from the end if it has fewer microseconds
    if startMicros > endMicros {
      endDate := endDate - MICROS_PER_MSEC;
      endMicros := endMicros + MICROS_PER_MSEC;
    }
    var f := SubtractFields(calendar, endDate);
    var rest := ToInt32(ToUint64(f.milliseconds * MICROS_PER_MSEC + (endMicros - startMicros)));
    if OnClock(start) && OnClock(end) {
      EndIsAhead(start, end);
      PartsWrapBack(f, start, end);
      FieldsAreTheDifference(f, start, end);
    }
    r := Interval(0, f.days, FromTime(f.hours, f.minutes, f.seconds, rest));
  }

  /** ICUCalendarSub for two timestamps: in the other order the difference is negated. */
  method SubTimestamps(calendar: Calendar, end: int, start: int) returns (r: Result<Interval>)
    modifies calendar
    ensures r.Ok? <==> IsFinite(start) && IsFinite(end)
    ensures r.Ok? && OnClock(start) && OnClock(end) ==>
              r.value == if start > end then Negated(DifferenceOf(end, start)) else DifferenceOf(start, end)
    ensures r.Ok? && OnClock(start) && OnClock(end) ==>
              (FixedMicros(r.value) == end - start <==>
               if start > end then !BorrowsAcrossZero(end, start) else !BorrowsAcrossZero(start, end))
    ensures r.Ok? && OnClock(start) && OnClock(end) && start <= end ==> (r.value.micros < 0 <==> RoundsPastADay(start, end))
    ensures r.Ok? && OnClock(start) && OnClock(end) && start > end ==> (r.value.micros > 0 <==> RoundsPastADay(end, start))
  {
    if !IsFinite(end) || !IsFinite(start) {
      return Err("Cannot subtract infinite timestamps");
    }
    DifferenceRecombines(if start > end then end else start, if start > end then start else end);
    TimeOfDifference(if start > end then end else start, if start > end then start else end);
    if start > end {
      var negated := Difference(calendar, start, end);
      return Ok(Negated(negated));
    }
    var difference := Difference(calendar, end, start);
    r := Ok(difference);
  }
}
