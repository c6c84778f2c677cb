/** What the rounding of the clock does to an addition without months: when it moves, and when it stands still. */
module IcuRounding {
  import opened Common
  import opened IcuCalendar
  import opened IcuDateAdd

  // ----- the rounding --------------------------------------------------------------------------------------

  /** From here on in either direction lies no timestamp. */
  const REACH: int := 2 * EXACT

  predicate InReach(ms: int) {
    -REACH <= ms <= REACH
  }

  /** As far as timestamps reach, odd milliseconds are rounded to a multiple of four if they are not exact. */
  lemma UDateInReach(ms: int)
    requires InReach(ms)
    ensures UDate(ms) == if IsExact(ms) || ms % 2 == 0 then ms else if ms % 4 == 1 then ms - 1 else ms + 1
  {
    if !IsExact(ms) {
      var size: nat := if ms >= 0 then ms else -ms;
      assert Rounded(size, 1) == Rounded(size, 2) == Nearest(size, 2);
    }
  }

  lemma {:induction false} RoundedAtLeast(x: nat, spacing: nat)
    requires spacing > 0 && spacing % 2 == 0 && 2 * x >= EXACT * spacing
    ensures 2 * Rounded(x, spacing) >= EXACT * spacing
    decreases if x > EXACT * spacing then x - spacing else 0
  {
    if x > EXACT * spacing {
      RoundedAtLeast(x, 2 * spacing);
    } else {
      NearestAtLeast(x, spacing, EXACT / 2);
    }
  }

  lemma NearestAtLeast(x: nat, spacing: nat, n: nat)
    requires spacing > 0 && x >= n * spacing
    ensures Nearest(x, spacing) >= n * spacing
  {
    var below := x / spacing;
    assert x == below * spacing + x % spacing;
    if below < n {
      Ordered(below + 1, n, spacing);
    }
    Ordered(n, below, spacing);
    Ordered(below, below + 1, spacing);
  }

  lemma Ordered(a: int, b: int, c: nat)
    ensures a <= b ==> a * c <= b * c
  {
  }

  /** What is beyond the reach stays there. */
  lemma UDateBeyondReach(ms: int)
    ensures ms >= REACH ==> UDate(ms) >= REACH
    ensures ms <= -REACH ==> UDate(ms) <= -REACH
  {
    var size: nat := if ms >= 0 then ms else -ms;
    if size >= REACH {
      assert Rounded(size, 1) == Rounded(size, 2);
      if size == REACH {
        assert Rounded(size, 2) == Nearest(size, 2) == REACH;
      } else {
        assert Rounded(size, 2) == Rounded(size, 4);
        RoundedAtLeast(size, 4);
      }
    }
  }

  // ----- moving the clock ----------------------------------------------------------------------------------

  predicate IsDouble(ms: int) {
    IsExact(ms) || ms % 2 == 0
  }

  function Min(a: int, b: int): int {
    if a <= b then a else b
  }

  /** `y` is `x` rounded as far as timestamps reach, and beyond that stays there. */
  predicate RoundsTo(x: int, y: int) {
    (InReach(x) ==> y == if IsDouble(x) then x else if x % 4 == 1 then x - 1 else x + 1) &&
    (x >= REACH ==> y >= REACH) && (x <= -REACH ==> y <= -REACH)
  }

  lemma UDateRounds(ms: int)
    ensures RoundsTo(ms, UDate(ms))
  {
    if InReach(ms) {
      UDateInReach(ms);
    }
    UDateBeyondReach(ms);
  }

  lemma RoundedUp(time: int, move: int, end: int)
    requires move >= 0 && -REACH <= time && (time < REACH ==> IsDouble(time)) && RoundsTo(time + move, end)
    ensures end >= Min(time, REACH) && end >= Min(time + move - 1, REACH) && (end < REACH ==> IsDouble(end))
  {
  }

  /** One move up: the clock falls short of it by at most a millisecond. */
  lemma MoveUp(time: int, move: int)
    requires move >= 0 && -REACH <= time && (time < REACH ==> IsDouble(time))
    ensures UDate(time + move) >= Min(time, REACH) && UDate(time + move) >= Min(time + move - 1, REACH)
    ensures UDate(time + move) < REACH ==> IsDouble(UDate(time + move))
  {
    UDateRounds(time + move);
    RoundedUp(time, move, UDate(time + move));
  }

  lemma {:induction false} MovesUp(time: int, moves: seq<int>)
    requires AllUp(moves) && -REACH <= time && (time < REACH ==> IsDouble(time))
    ensures Moved(time, moves) >= Min(time, REACH)
    ensures forall k :: 0 <= k < |moves| ==> Moved(time, moves) >= Min(time + moves[k] - 1, REACH)
    decreases |moves|
  {
    if moves != [] {
      MoveUp(time, moves[0]);
      MovesUp(UDate(time + moves[0]), moves[1..]);
      forall k | 0 < k < |moves|
        ensures Moved(time, moves) >= Min(time + moves[k] - 1, REACH)
      {
        assert moves[1..][k - 1] == moves[k];
      }
    }
  }

  /** Rounding is the same in both directions. */
  lemma UDateNegated(ms: int)
    ensures UDate(-ms) == -UDate(ms)
  {
  }

  function Opposite(moves: seq<int>): seq<int> {
    seq(|moves|, k requires 0 <= k < |moves| => -moves[k])
  }

  lemma {:induction false} MovedOpposite(time: int, moves: seq<int>)
    ensures Moved(-time, Opposite(moves)) == -Moved(time, moves)
    decreases |moves|
  {
    if moves != [] {
      UDateNegated(time + moves[0]);
      assert Opposite(moves)[1..] == Opposite(moves[1..]);
      MovedOpposite(UDate(time + moves[0]), moves[1..]);
    }
  }

  lemma MovesDown(time: int, moves: seq<int>)
    requires AllDown(moves) && time <= REACH && (time > -REACH ==> IsDouble(time))
    ensures forall k :: 0 <= k < |moves| ==> -Moved(time, moves) >= Min(-time - moves[k] - 1, REACH)
  {
    MovesUp(-time, Opposite(moves));
    MovedOpposite(time, moves);
    assert forall k :: 0 <= k < |moves| ==> Opposite(moves)[k] == -moves[k];
  }

  // ----- the moves of an interval without months -----------------------------------------------------------

  function FixedMoves(i: Interval): seq<int> {
    var time := TruncDiv(i.micros, MICROS_PER_MSEC);
    if AnyNegative(i) then TimeUp(time) + [i.days * MSECS_PER_DAY] else [i.days * MSECS_PER_DAY] + TimeDown(time)
  }

  lemma MovedOnce(time: int, move: int)
    ensures Moved(time, [move]) == UDate(time + move)
  {
    assert [move][1..] == [];
  }

  lemma FixedClock(shift: (int, int) -> int, timestamp: int, i: Interval)
    requires i.months == 0
    ensures ClockAfter(shift, timestamp, i) == Moved(UDate(Millis(timestamp, i)), FixedMoves(i))
  {
    var start, time, days := UDate(Millis(timestamp, i)), TruncDiv(i.micros, MICROS_PER_MSEC), i.days * MSECS_PER_DAY;
    if AnyNegative(i) {
      MovedTwice(start, TimeUp(time), [days]);
      MovedOnce(Moved(start, TimeUp(time)), days);
    } else {
      MovedTwice(start, [days], TimeDown(time));
      MovedOnce(start, days);
    }
  }

  /** Of three milliseconds or more some part is at least that. */
  lemma SomePart(time: int) returns (up: nat, down: nat)
    requires time >= 3 || time <= -3
    ensures up < |TimeUp(time)| && down < |TimeDown(time)| && TimeUp(time)[up] == TimeDown(time)[down]
    ensures if time >= 0 then TimeUp(time)[up] >= 3 else TimeUp(time)[up] <= -3
  {
    var p, hours := Split(time), |HourMoves(Split(time).hours)|;
    if p.hours != 0 {
      up, down := 3, 0;
    } else if p.minutes != 0 {
      up, down := 2, hours;
    } else if p.seconds != 0 {
      up, down := 1, hours + 1;
    } else {
      up, down := 0, hours + 2;
    }
  }

  lemma FewParts(few: int)
    requires -2 <= few <= 2
    ensures TimeUp(few) == [few, 0, 0] && TimeDown(few) == [0, 0, few]
  {
    assert Split(few) == Parts(0, 0, 0, few);
    assert HourMoves(0) == [];
  }

  lemma Standing(time: int)
    requires UDate(time) == time
    ensures Moved(time, [0]) == time
  {
    MovedOnce(time, 0);
  }

  /** A few milliseconds are one move. */
  lemma FewMilliseconds(time: int, few: int)
    requires InReach(time - 2) && InReach(time + 2) && IsDouble(time) && -2 <= few <= 2
    ensures Moved(time, TimeUp(few) + [0]) == UDate(time + few)
    ensures Moved(time, [0] + TimeDown(few)) == UDate(time + few)
  {
    FewParts(few);
    UDateRounds(time);
    Settled(time + few);
    MovedTwice(time, TimeUp(few), [0]);
    MovedThree(time, few, 0, 0);
    Standing(UDate(time + few));
    MovedTwice(time, [0], TimeDown(few));
    Standing(time);
    MovedThree(time, 0, 0, few);
  }

  /** Rounding twice is rounding once. */
  lemma Settled(ms: int)
    requires InReach(ms)
    ensures UDate(UDate(ms)) == UDate(ms)
  {
    UDateInReach(ms);
    UDateInReach(UDate(ms));
  }

  /** Timestamps start the clock here, at most a millisecond off. */
  predicate IsStart(start: int) {
    -EXACT - EXACT / 2 <= start <= EXACT + EXACT / 2
  }

  lemma StartIsNear(start: int)
    requires IsStart(start)
    ensures start - 1 <= UDate(start) <= start + 1 && IsDouble(UDate(start))
  {
    UDateInReach(start);
  }

  /** Where the clock stops after a few milliseconds, or that it moves on. */
  lemma ClockMovesUp(start: int, i: Interval)
    requires IsStart(start) && i.months == 0 && i.days >= 0 && i.micros >= 0
    ensures var time, end := i.micros / MICROS_PER_MSEC, Moved(UDate(start), FixedMoves(i));
            if i.days == 0 && time <= 2 then end == UDate(UDate(start) + time) else end > start
  {
    var time, t := i.micros / MICROS_PER_MSEC, UDate(start);
    StartIsNear(start);
    if i.days == 0 && time <= 2 {
      FewMilliseconds(t, time);
    } else {
      var k := LargeMove(i);
      MovesUp(t, FixedMoves(i));
    }
  }

  lemma ClockMovesDown(start: int, i: Interval)
    requires IsStart(start) && i.months == 0 && i.days <= 0 && i.micros <= 0 && AnyNegative(i)
    ensures var time, end := TruncDiv(i.micros, MICROS_PER_MSEC), Moved(UDate(start), FixedMoves(i));
            if i.days == 0 && time >= -2 then end == UDate(UDate(start) + time) else end < start
  {
    var time, t := TruncDiv(i.micros, MICROS_PER_MSEC), UDate(start);
    StartIsNear(start);
    if i.days == 0 && time >= -2 {
      FewMilliseconds(t, time);
    } else {
      var k := LargeMove(i);
      MovesDown(t, FixedMoves(i));
    }
  }

  /** Days, or three milliseconds or more, are a move of at least that. */
  lemma LargeMove(i: Interval) returns (k: nat)
    requires i.months == 0 && (if AnyNegative(i) then i.days <= 0 && i.micros <= 0 else true)
    requires i.days != 0 || !(-2 <= TruncDiv(i.micros, MICROS_PER_MSEC) <= 2)
    ensures k < |FixedMoves(i)|
    ensures if AnyNegative(i) then AllDown(FixedMoves(i)) && FixedMoves(i)[k] <= -3 else AllUp(FixedMoves(i)) && FixedMoves(i)[k] >= 3
  {
    var time := TruncDiv(i.micros, MICROS_PER_MSEC);
    TimeAddsUp(time);
    if i.days != 0 {
      k := if AnyNegative(i) then |TimeUp(time)| else 0;
    } else {
      var up, down := SomePart(time);
      k := if AnyNegative(i) then up else 1 + down;
    }
  }

  // ----- when an addition moves ----------------------------------------------------------------------------

  /** An interval without months, in one direction. */
  predicate IsFixed(i: Interval) {
    i.months == 0 && ((i.days >= 0 && i.micros >= 0) || (i.days <= 0 && i.micros <= 0)) && (i.days != 0 || i.micros != 0)
  }

  predicate IsUp(i: Interval) {
    i.days > 0 || i.micros > 0
  }

  /** The next millisecond in the direction of the interval. */
  function Next(ms: int, i: Interval): int {
    if IsUp(i) then ms + 1 else ms - 1
  }

  /** One millisecond, from a clock at a multiple of four that has no double next to it. */
  predicate StandsStill(timestamp: int, i: Interval) {
    var start := Millis(timestamp, i);
    i.days == 0 && (i.micros == MICROS_PER_MSEC || i.micros == -MICROS_PER_MSEC) && start % 4 == 0 && !IsExact(Next(start, i))
  }

  /** Less than two milliseconds, from a clock that is not a double and is rounded backwards. */
  predicate IsRoundedBack(timestamp: int, i: Interval) {
    var start := Millis(timestamp, i);
    i.days == 0 && -2 * MICROS_PER_MSEC < i.micros < 2 * MICROS_PER_MSEC &&
    !IsExact(start) && start % 4 == if IsUp(i) then 1 else 3
  }

  /** The stop `end` of a clock that began at `start`: whether it has moved on. */
  lemma FewMove(start: int, time: int, end: int)
    requires IsStart(start) && -2 <= time <= 2 && end == UDate(UDate(start) + time)
    ensures time >= 0 ==>
              (end < start <==> time < 2 && !IsExact(start) && start % 4 == 1) &&
              (end == start && time > 0 <==> time == 1 && start % 4 == 0 && !IsExact(start + 1))
    ensures time <= 0 ==>
              (end > start <==> time > -2 && !IsExact(start) && start % 4 == 3) &&
              (end == start && time < 0 <==> time == -1 && start % 4 == 0 && !IsExact(start - 1))
  {
    UDateRounds(start);
    UDateRounds(UDate(start) + time);
    FewRounded(start, UDate(start), time, end);
  }

  lemma FewRounded(start: int, t: int, time: int, end: int)
    requires IsStart(start) && -2 <= time <= 2 && RoundsTo(start, t) && RoundsTo(t + time, end)
    ensures time >= 0 ==>
              (end < start <==> time < 2 && !IsExact(start) && start % 4 == 1) &&
              (end == start && time > 0 <==> time == 1 && start % 4 == 0 && !IsExact(start + 1))
    ensures time <= 0 ==>
              (end > start <==> time > -2 && !IsExact(start) && start % 4 == 3) &&
              (end == start && time < 0 <==> time == -1 && start % 4 == 0 && !IsExact(start - 1))
  {
    Parity(start);
    Parity(t);
    Parity(t + time);
  }

  lemma Parity(x: int)
    ensures x == 4 * (x / 4) + x % 4 && 0 <= x % 4 < 4
    ensures x % 2 == 0 <==> x % 4 == 0 || x % 4 == 2
  {
    var k, r := x / 4, x % 4;
    assert x == 2 * (2 * k) + r;
  }

  lemma StartOfTimestamp(timestamp: int, i: Interval)
    requires IsInt64(timestamp)
    ensures IsStart(Millis(timestamp, i))
    ensures Millis(timestamp, i) * MICROS_PER_MSEC + Micros(timestamp, i) == timestamp + TruncMod(i.micros, MICROS_PER_MSEC)
  {
    TruncSplits(timestamp, MICROS_PER_MSEC);
    TruncSplits(i.micros, MICROS_PER_MSEC);
  }

  /** Exactly when the addition moves in the direction of the interval, and when it gives the timestamp back. */
  lemma MovesIff(shift: (int, int) -> int, timestamp: int, i: Interval)
    requires IsFixed(i) && IsInt64(timestamp) && IsFinite(timestamp) && Added(shift, timestamp, i).Some?
    ensures var sum := Added(shift, timestamp, i).value;
            ((if IsUp(i) then sum > timestamp else sum < timestamp) <==> !StandsStill(timestamp, i) && !IsRoundedBack(timestamp, i)) &&
            (sum == timestamp <==> StandsStill(timestamp, i))
  {
    var start, end := Millis(timestamp, i), ClockAfter(shift, timestamp, i);
    StartOfTimestamp(timestamp, i);
    FixedClock(shift, timestamp, i);
    if IsUp(i) {
      ClockMovesUp(start, i);
      UpIff(timestamp, i, end);
    } else {
      ClockMovesDown(start, i);
      DownIff(timestamp, i, end);
    }
  }

  lemma UpIff(timestamp: int, i: Interval, end: int)
    requires IsFixed(i) && IsUp(i) && IsInt64(timestamp)
    requires var time, start := i.micros / MICROS_PER_MSEC, Millis(timestamp, i);
             if i.days == 0 && time <= 2 then end == UDate(UDate(start) + time) else end > start
    ensures var sum := end * MICROS_PER_MSEC + Micros(timestamp, i);
            (sum > timestamp <==> !StandsStill(timestamp, i) && !IsRoundedBack(timestamp, i)) &&
            (sum == timestamp <==> StandsStill(timestamp, i))
  {
    var time, start := i.micros / MICROS_PER_MSEC, Millis(timestamp, i);
    StartOfTimestamp(timestamp, i);
    TruncSplits(i.micros, MICROS_PER_MSEC);
    if i.days == 0 && time <= 2 {
      FewMove(start, time, end);
    }
  }

  lemma DownIff(timestamp: int, i: Interval, end: int)
    requires IsFixed(i) && !IsUp(i) && IsInt64(timestamp)
    requires var time, start := TruncDiv(i.micros, MICROS_PER_MSEC), Millis(timestamp, i);
             if i.days == 0 && time >= -2 then end == UDate(UDate(start) + time) else end < start
    ensures var sum := end * MICROS_PER_MSEC + Micros(timestamp, i);
            (sum < timestamp <==> !StandsStill(timestamp, i) && !IsRoundedBack(timestamp, i)) &&
            (sum == timestamp <==> StandsStill(timestamp, i))
  {
    var time, start := TruncDiv(i.micros, MICROS_PER_MSEC), Millis(timestamp, i);
    StartOfTimestamp(timestamp, i);
    TruncSplits(i.micros, MICROS_PER_MSEC);
    if i.days == 0 && time >= -2 {
      FewMove(start, time, end);
    }
  }
}
