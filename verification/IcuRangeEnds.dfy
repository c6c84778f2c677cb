/** Which ranges end, with the addition the code uses: the calendar's, on a clock that is rounded. */
module IcuRangeEnds {
  import opened Common
  import opened IcuCalendar
  import opened IcuDateAdd
  import opened IcuRounding
  import opened IcuRange

  /** What ICUCalendarAdd computes. */
  function AdderOf(shift: (int, int) -> int): Adder {
    (timestamp: int, i: Interval) => Added(shift, timestamp, i)
  }

  predicate Between(p: Range, value: int) {
    if p.up then p.start <= value <= p.end else p.end <= value <= p.start
  }

  /** Between the bounds the addition moves towards the end. */
  ghost predicate Moves(add: Adder, p: Range) {
    forall v {:trigger add(v, p.increment)} :: Between(p, v) && add(v, p.increment).Some? ==>
      if p.up then add(v, p.increment).value > v else add(v, p.increment).value < v
  }

  function Width(p: Range): nat {
    var width := if p.up then p.end - p.start else p.start - p.end;
    if width < 0 then 0 else width + 1
  }

  lemma {:induction false} ElementsMove(add: Adder, p: Range, list: seq<int>, k: nat)
    requires Moves(add, p) && Begins(add, p, list) && k < |list|
    ensures Between(p, list[k]) && if p.up then list[k] >= p.start + k else list[k] <= p.start - k
  {
    assert !Past(p, list[k]);
    if k > 0 {
      ElementsMove(add, p, list, k - 1);
      assert add(list[k - 1], p.increment) == Some(list[k]);
    }
  }

  /** A row on which the addition moves ends: it has no more elements than there are microseconds between its bounds. */
  lemma MovingRowEnds(add: Adder, row: Option<Row>, generateSeries: bool)
    requires var p := GenerateRangeDateTimeParameters(row, generateSeries); p.Ok? ==> Moves(add, p.value)
    ensures var p := GenerateRangeDateTimeParameters(row, generateSeries);
            p.Ok? ==> Ends(add, row, generateSeries, Width(p.value))
  {
    var q := GenerateRangeDateTimeParameters(row, generateSeries);
    if q.Ok? {
      forall list | Begins(add, q.value, list)
        ensures |list| <= Width(q.value)
      {
        if list != [] {
          ElementsMove(add, q.value, list, |list| - 1);
        }
      }
    }
  }

  // ----- intervals without months --------------------------------------------------------------------------

  /** For an interval without months the addition moves between the bounds exactly if it nowhere stands still or is
      rounded back there. */
  lemma FixedMovesIff(shift: (int, int) -> int, p: Range)
    requires IsFixed(p.increment) && p.up == IsUp(p.increment) && IsInt64(p.start) && IsInt64(p.end)
    ensures Moves(AdderOf(shift), p) <==>
            forall v :: Between(p, v) && Added(shift, v, p.increment).Some? ==>
              IsFinite(v) && !StandsStill(v, p.increment) && !IsRoundedBack(v, p.increment)
  {
    forall v | Between(p, v) && Added(shift, v, p.increment).Some?
      ensures var sum := Added(shift, v, p.increment).value;
              (if p.up then sum > v else sum < v) <==>
              IsFinite(v) && !StandsStill(v, p.increment) && !IsRoundedBack(v, p.increment)
    {
      if IsFinite(v) {
        MovesIff(shift, v, p.increment);
      }
    }
    assert forall v :: AdderOf(shift)(v, p.increment) == Added(shift, v, p.increment);
  }

  /** On a clock that shows everything between the bounds exactly, it moves. */
  lemma MovesInRange(shift: (int, int) -> int, p: Range)
    requires IsFixed(p.increment) && p.up == IsUp(p.increment) && InRange(p.start) && InRange(p.end)
    ensures Moves(AdderOf(shift), p)
  {
    forall v | Between(p, v)
      ensures IsFinite(v) && !StandsStill(v, p.increment) && !IsRoundedBack(v, p.increment)
    {
      ExactInRange(v, p.increment);
    }
    FixedMovesIff(shift, p);
  }

  lemma ExactInRange(v: int, i: Interval)
    requires IsFixed(i) && InRange(v)
    ensures IsExact(Millis(v, i)) && (TruncMod(i.micros, MICROS_PER_MSEC) == 0 ==> IsExact(Next(Millis(v, i), i)))
  {
    TruncSplits(v, MICROS_PER_MSEC);
    TruncSplits(i.micros, MICROS_PER_MSEC);
  }

  /** So every row without months whose bounds are in range ends, for every calendar. */
  lemma FixedRowEnds(shift: (int, int) -> int, row: Row, generateSeries: bool)
    requires row.increment.months == 0 && InRange(row.start) && InRange(row.end)
    ensures var p := GenerateRangeDateTimeParameters(Some(row), generateSeries);
            p.Ok? ==> Ends(AdderOf(shift), Some(row), generateSeries, Width(p.value))
  {
    var p := GenerateRangeDateTimeParameters(Some(row), generateSeries);
    if p.Ok? {
      MovesInRange(shift, p.value);
      MovingRowEnds(AdderOf(shift), Some(row), generateSeries);
    }
  }

  // ----- a range without end -------------------------------------------------------------------------------

  lemma {:induction false} OnlyTheStart(add: Adder, p: Range, list: seq<int>, k: nat)
    requires add(p.start, p.increment) == Some(p.start) && Begins(add, p, list) && k < |list|
    ensures list[k] == p.start
  {
    if k > 0 {
      OnlyTheStart(add, p, list, k - 1);
      assert add(list[k - 1], p.increment) == Some(list[k]);
    }
  }

  /** If the addition gives the start back, the range is the start for ever: as many of it as one likes, no end and no
      overflow. */
  lemma StandsStillForEver(add: Adder, p: Range, list: seq<int>)
    requires add(p.start, p.increment) == Some(p.start) && !Past(p, p.start)
    ensures Begins(add, p, list) <==> forall k :: 0 <= k < |list| ==> list[k] == p.start
    ensures !IsRange(add, p, list) && !Overflows(add, p, list)
  {
    if Begins(add, p, list) {
      forall k | 0 <= k < |list|
        ensures list[k] == p.start
      {
        OnlyTheStart(add, p, list, k);
      }
    }
  }

  /** From 2^53 milliseconds by one millisecond: the calls of the table never end, and every vector repeats the start. */
  lemma RangeWithoutEnd(shift: (int, int) -> int, limit: nat)
    ensures var start := EXACT * MICROS_PER_MSEC;
            var row := Some(Row(start, start + MICROS_PER_MSEC, Interval(0, 0, MICROS_PER_MSEC)));
            && StandsStill(start, row.value.increment) && Added(shift, start, row.value.increment) == Some(start)
            && GenerateRangeDateTimeParameters(row, true).Ok?
            && !Ends(AdderOf(shift), row, true, limit) && !Fails(AdderOf(shift), row, true) && !HasList(AdderOf(shift), row, true)
  {
    var start, i := EXACT * MICROS_PER_MSEC, Interval(0, 0, MICROS_PER_MSEC);
    var row, add := Some(Row(start, start + MICROS_PER_MSEC, i)), AdderOf(shift);
    OneMillisecondTooMuch(shift);
    var p := GenerateRangeDateTimeParameters(row, true).value;
    assert add(p.start, p.increment) == Some(p.start);
    var many := seq(limit + 1, k => start);
    StandsStillForEver(add, p, many);
    forall list
      ensures !IsRange(add, p, list) && !Overflows(add, p, list)
    {
      StandsStillForEver(add, p, list);
    }
    assert RangeOf(row.value, true) == p;
  }

  lemma OneMillisecondTooMuch(shift: (int, int) -> int)
    ensures var start, i := EXACT * MICROS_PER_MSEC, Interval(0, 0, MICROS_PER_MSEC);
            StandsStill(start, i) && Added(shift, start, i) == Some(start)
  {
    var start, i := EXACT * MICROS_PER_MSEC, Interval(0, 0, MICROS_PER_MSEC);
    assert Millis(start, i) == EXACT && Micros(start, i) == 0;
    FixedClock(shift, start, i);
    ClockMovesUp(EXACT, i);
    UDateInReach(EXACT + 1);
    ExactInDateRange(EXACT, 0);
  }
}
