/** Time buckets of microseconds and of days are floors, on both sides of the origin. */
module IcuTimeBucket {
  import opened Common
  import opened IcuCalendar
  import opened IcuDateAdd

  /** 2000-01-03, a Monday. */
  const DEFAULT_ORIGIN := 10959 * MICROS_PER_DAY

  /** The bucket of a timestamp: buckets of this width tile the time line from the origin on. */
  ghost predicate IsBucket(bucket: int, ts: int, origin: int, width: int) {
    width > 0 && bucket <= ts < bucket + width && IsEdge(bucket, origin, width)
  }

  ghost predicate IsEdge(x: int, origin: int, width: int) {
    exists k {:trigger Edge(origin, width, k)} :: x == Edge(origin, width, k)
  }

  function Edge(origin: int, width: int, k: int): int {
    origin + k * width
  }

  function Bucket(ts: int, origin: int, width: int): int
    requires width > 0
  {
    Edge(origin, width, (ts - origin) / width)
  }

  lemma Grows(a: int, b: int, width: int)
    requires a <= b && width > 0
    ensures a * width <= b * width
  {
  }

  lemma DivUnique(x: int, width: int, k: int)
    requires width > 0 && k * width <= x < (k + 1) * width
    ensures x / width == k
  {
    var q := x / width;
    assert q * width <= x < (q + 1) * width;
    if q < k {
      Grows(q + 1, k, width);
    } else if q > k {
      Grows(k + 1, q, width);
    }
  }

  /** There is exactly one bucket for a timestamp. */
  lemma BucketIsUnique(bucket: int, ts: int, origin: int, width: int)
    requires width > 0
    ensures IsBucket(bucket, ts, origin, width) <==> bucket == Bucket(ts, origin, width)
  {
    var q := (ts - origin) / width;
    assert q * width <= ts - origin < q * width + width;
    if IsBucket(bucket, ts, origin, width) {
      var k :| bucket == Edge(origin, width, k);
      assert (k + 1) * width == k * width + width;
      DivUnique(ts - origin, width, k);
    }
    if bucket == Bucket(ts, origin, width) {
      assert bucket == Edge(origin, width, q);
    }
  }

  lemma BucketIsIdempotent(ts: int, origin: int, width: int)
    requires width > 0
    ensures Bucket(Bucket(ts, origin, width), origin, width) == Bucket(ts, origin, width)
  {
    var b := Bucket(ts, origin, width);
    assert b == Edge(origin, width, (ts - origin) / width);
    BucketIsUnique(b, b, origin, width);
  }

  lemma BucketIsMonotone(s: int, t: int, origin: int, width: int)
    requires width > 0 && s <= t
    ensures Bucket(s, origin, width) <= Bucket(t, origin, width)
  {
    var p, q := (s - origin) / width, (t - origin) / width;
    assert (q + 1) * width == q * width + width;
    if q < p {
      Grows(q + 1, p, width);
      assert false;
    }
    Grows(p, q, width);
  }

  /** Truncation, corrected below the origin, is the floor. */
  lemma CorrectedTruncation(x: int, width: int)
    requires width > 0
    ensures TruncDiv(x, width) * width - (if x < 0 && TruncMod(x, width) != 0 then width else 0) == x / width * width
  {
    TruncSplits(x, width);
    var q, m := TruncDiv(x, width), TruncMod(x, width);
    if x < 0 && m != 0 {
      assert (q - 1) * width == q * width - width;
      DivUnique(x, width, q - 1);
    } else {
      assert (q + 1) * width == q * width + width;
      DivUnique(x, width, q);
    }
  }

  /** Nothing overflows and the clock stays exact. */
  predicate MicrosFit(ts: int, origin: int, width: int)
    requires width > 0
  {
    var micros := Bucket(ts, origin, width) - origin;
    IsInt64(ts - origin) && IsInt64(micros) && WayOnClock(origin, Interval(0, 0, micros))
  }

  method WidthConvertibleToMicrosCommon(calendar: Calendar, width: nat, ts: int, origin: int) returns (r: Result<int>)
    modifies calendar
    ensures width == 0 ==> r.Err?
    ensures width > 0 && MicrosFit(ts, origin, width) ==> r == Ok(Bucket(ts, origin, width)) && IsBucket(r.value, ts, origin, width)
  {
    if width == 0 {
      return Err("Can't bucket using zero microseconds");
    }
    var tsMicros := ts - origin;
    if !IsInt64(tsMicros) {
      return Err("Overflow");
    }
    CorrectedTruncation(tsMicros, width);
    BucketIsUnique(Bucket(ts, origin, width), ts, origin, width);
    var resultMicros := TruncDiv(tsMicros, width) * width;
    if tsMicros < 0 && TruncMod(tsMicros, width) != 0 {
      resultMicros := resultMicros - width;
      if !IsInt64(resultMicros) {
        return Err("Overflow");
      }
    }
    r := AddFixed(calendar, origin, Interval(0, 0, resultMicros));
  }

  // ----- days ----------------------------------------------------------------------------------------------

  /** The milliseconds from the origin, which the clock rounds down, to the timestamp, which it truncates. */
  function Gap(ts: int, origin: int): int {
    TruncDiv(ts, MICROS_PER_MSEC) - origin / MICROS_PER_MSEC
  }

  /** The microseconds of the origin that the clock leaves out, less those of the timestamp. */
  function Dropped(ts: int, origin: int): int {
    origin % MICROS_PER_MSEC - TruncMod(ts, MICROS_PER_MSEC)
  }

  lemma GapAndDropped(ts: int, origin: int)
    ensures ts - origin == Gap(ts, origin) * MICROS_PER_MSEC - Dropped(ts, origin)
    ensures -MICROS_PER_MSEC < Dropped(ts, origin) < 2 * MICROS_PER_MSEC
    ensures origin % MICROS_PER_MSEC == 0 ==> Dropped(ts, origin) < MICROS_PER_MSEC
    ensures ts >= origin ==> Gap(ts, origin) >= 0
  {
    TruncSplits(ts, MICROS_PER_MSEC);
  }

  /** The milliseconds of the gap into a bucket of clock days. */
  function IntoBucket(ts: int, origin: int, days: nat): int
    requires days > 0
  {
    Gap(ts, origin) % (days * MSECS_PER_DAY)
  }

  /** The truncated days to the timestamp, truncated to the width. */
  function Guess(ts: int, origin: int, days: nat): int
    requires days > 0
  {
    origin + TruncDiv(TruncDiv(Gap(ts, origin), MSECS_PER_DAY), days) * days * MICROS_PER_DAY
  }

  /** The guess, or if it is after the timestamp the bucket before. */
  function Corrected(ts: int, origin: int, days: nat): int
    requires days > 0
  {
    Guess(ts, origin, days) - if ts < Guess(ts, origin, days) then days * MICROS_PER_DAY else 0
  }

  /** A timestamp before the origin that the clock has in the first millisecond of a bucket, although the
      microseconds left out put it before that bucket. */
  predicate MissesBucket(ts: int, origin: int, days: nat)
    requires days > 0
  {
    Gap(ts, origin) < 0 && IntoBucket(ts, origin, days) == 1 && Dropped(ts, origin) > MICROS_PER_MSEC
  }

  /** The same, or it is the start of that bucket. */
  predicate NotAfterCorrected(ts: int, origin: int, days: nat)
    requires days > 0
  {
    Gap(ts, origin) < 0 && IntoBucket(ts, origin, days) == 1 && Dropped(ts, origin) >= MICROS_PER_MSEC
  }

  /** A timestamp from the origin on that the clock has in the first millisecond of a bucket, or the second,
      although the microseconds left out put it before that bucket. */
  predicate CorrectedAfterOrigin(ts: int, origin: int, days: nat)
    requires days > 0
  {
    ts >= origin && IntoBucket(ts, origin, days) * MICROS_PER_MSEC < Dropped(ts, origin)
  }

  /** Dividing twice is dividing once. */
  lemma TruncTwice(x: int, a: int, b: int)
    requires a > 0 && b > 0
    ensures b * a > 0 && TruncDiv(TruncDiv(x, a), b) == TruncDiv(x, b * a)
  {
    var n: nat := if x >= 0 then x else -x;
    DivTwice(n, a, b);
    if x < 0 {
      DivSplits(n, a);
      TruncOfNegated(n, a);
      TruncOfNegated(n / a, b);
      TruncOfNegated(n, b * a);
    }
  }

  lemma TruncOfNegated(n: int, b: int)
    requires n >= 0 && b > 0
    ensures TruncDiv(-n, b) == -(n / b)
  {
    DivSplits(n, b);
  }

  lemma DivTwice(x: nat, a: int, b: int)
    requires a > 0 && b > 0
    ensures b * a > 0 && x / a / b == x / (b * a)
  {
    var p, q := x / a, x / a / b;
    Regroup(q, p % b, x % a, a, b);
    assert x == p * a + x % a && p == q * b + p % b;
    Grows(1, b, a);
    assert (q + 1) * (b * a) == q * (b * a) + b * a;
    DivUnique(x, b * a, q);
  }

  lemma Regroup(q: int, s: int, t: int, a: int, b: int)
    requires 0 <= s < b && 0 <= t < a
    ensures (q * b + s) * a + t == q * (b * a) + (s * a + t) && 0 <= s * a + t < b * a
  {
    Grows(0, s, a);
    Grows(s + 1, b, a);
  }

  /** The guess lies whole widths of the clock from the origin. */
  lemma GuessOnClock(ts: int, origin: int, days: nat)
    requires days > 0
    ensures var width := days * MSECS_PER_DAY; var q := TruncDiv(Gap(ts, origin), width);
            Guess(ts, origin, days) == origin + q * width * MICROS_PER_MSEC == Edge(origin, days * MICROS_PER_DAY, q)
  {
    var width := days * MSECS_PER_DAY;
    TruncTwice(Gap(ts, origin), MSECS_PER_DAY, days);
    var q := TruncDiv(Gap(ts, origin), width);
    assert q * days * MICROS_PER_DAY == q * (days * MICROS_PER_DAY) == q * width * MICROS_PER_MSEC by {
      MultipleOfWidth(q, days);
    }
  }

  lemma MultipleOfWidth(q: int, days: int)
    ensures q * days * MICROS_PER_DAY == q * (days * MICROS_PER_DAY) == q * (days * MSECS_PER_DAY) * MICROS_PER_MSEC
  {
  }

  /** What is left after the truncated quotient: below zero, except on a multiple, a width less than after the floor. */
  lemma AfterTruncation(gap: int, width: int)
    requires width > 0
    ensures 0 <= gap % width < width
    ensures gap - TruncDiv(gap, width) * width == gap % width - if gap < 0 && gap % width != 0 then width else 0
  {
    CorrectedTruncation(gap, width);
    TruncSplits(gap, width);
    assert gap == gap / width * width + gap % width;
  }

  /** The timestamp seen from the guess. */
  lemma AfterGuess(ts: int, origin: int, days: nat)
    requires days > 0
    ensures ts - Guess(ts, origin, days)
            == IntoBucket(ts, origin, days) * MICROS_PER_MSEC - Dropped(ts, origin)
               - if Gap(ts, origin) < 0 && IntoBucket(ts, origin, days) != 0 then days * MICROS_PER_DAY else 0
    ensures 0 <= IntoBucket(ts, origin, days) < days * MSECS_PER_DAY
  {
    GuessOnClock(ts, origin, days);
    AfterTruncation(Gap(ts, origin), days * MSECS_PER_DAY);
    GapAndDropped(ts, origin);
  }

  /** The timestamp seen from the corrected guess, and the conditions asserted on the way. */
  lemma AfterCorrected(ts: int, origin: int, days: nat)
    requires days > 0
    ensures var width, corrected := days * MICROS_PER_DAY, Corrected(ts, origin, days);
            if MissesBucket(ts, origin, days) then corrected - width <= ts < corrected else corrected <= ts < corrected + width
    ensures ts < Guess(ts, origin, days) ==>
              (ts < origin <==> !CorrectedAfterOrigin(ts, origin, days)) &&
              (ts > Corrected(ts, origin, days) <==> !NotAfterCorrected(ts, origin, days))
    ensures ts >= Guess(ts, origin, days) ==> !CorrectedAfterOrigin(ts, origin, days) && !NotAfterCorrected(ts, origin, days)
  {
    AfterGuess(ts, origin, days);
    GapAndDropped(ts, origin);
  }

  /** The corrected guess is an edge of the buckets. */
  lemma CorrectedIsEdge(ts: int, origin: int, days: nat) returns (k: int)
    requires days > 0
    ensures Corrected(ts, origin, days) == Edge(origin, days * MICROS_PER_DAY, k)
    ensures Corrected(ts, origin, days) - days * MICROS_PER_DAY == Edge(origin, days * MICROS_PER_DAY, k - 1)
  {
    GuessOnClock(ts, origin, days);
    k := TruncDiv(Gap(ts, origin), days * MSECS_PER_DAY);
    EdgeBefore(origin, days * MICROS_PER_DAY, k);
    if ts < Guess(ts, origin, days) {
      k := k - 1;
      EdgeBefore(origin, days * MICROS_PER_DAY, k);
    }
  }

  lemma EdgeBefore(origin: int, width: int, k: int)
    ensures Edge(origin, width, k - 1) == Edge(origin, width, k) - width
  {
  }

  /** For every origin: the corrected guess is the bucket, or exactly in the one case the next bucket, which begins
      after the timestamp. The conditions asserted on the way fail exactly in the other two. */
  lemma GuessAndCorrection(ts: int, origin: int, days: nat)
    requires days > 0
    ensures Corrected(ts, origin, days)
            == Bucket(ts, origin, days * MICROS_PER_DAY) + if MissesBucket(ts, origin, days) then days * MICROS_PER_DAY else 0
    ensures IsBucket(Corrected(ts, origin, days), ts, origin, days * MICROS_PER_DAY) <==> !MissesBucket(ts, origin, days)
    ensures MissesBucket(ts, origin, days) ==> ts < Corrected(ts, origin, days)
    ensures ts < Guess(ts, origin, days) && !(ts < origin) <==> CorrectedAfterOrigin(ts, origin, days)
    ensures ts < Guess(ts, origin, days) && !(ts > Corrected(ts, origin, days)) <==> NotAfterCorrected(ts, origin, days)
  {
    var width, corrected := days * MICROS_PER_DAY, Corrected(ts, origin, days);
    AfterCorrected(ts, origin, days);
    var k := CorrectedIsEdge(ts, origin, days);
    if MissesBucket(ts, origin, days) {
      EdgeIsBucket(corrected - width, ts, origin, width, k - 1);
    } else {
      EdgeIsBucket(corrected, ts, origin, width, k);
    }
  }

  lemma EdgeIsBucket(bucket: int, ts: int, origin: int, width: int, k: int)
    requires width > 0 && bucket == Edge(origin, width, k) && bucket <= ts < bucket + width
    ensures bucket == Bucket(ts, origin, width) && IsBucket(bucket, ts, origin, width)
  {
    BucketIsUnique(bucket, ts, origin, width);
  }

  /** For an origin in whole milliseconds the result is always the bucket, and only the first of the two conditions
      can fail: for a timestamp less than a millisecond before the end of a bucket, before 1970. */
  lemma WholeMillisecondOrigin(ts: int, origin: int, days: nat)
    requires days > 0 && origin % MICROS_PER_MSEC == 0
    ensures !MissesBucket(ts, origin, days) && !NotAfterCorrected(ts, origin, days)
    ensures CorrectedAfterOrigin(ts, origin, days) <==>
              origin <= ts < 0 && ts % MICROS_PER_MSEC != 0 && IntoBucket(ts, origin, days) == 0
  {
    GapAndDropped(ts, origin);
    AfterGuess(ts, origin, days);
    TruncSplits(ts, MICROS_PER_MSEC);
  }

  /** A microsecond before the end of the first day from an origin before 1970. */
  lemma EarlyOriginCountsADayTooMuch()
    ensures CorrectedAfterOrigin(-1, -MICROS_PER_DAY, 1)
  {
    assert TruncDiv(-1, MICROS_PER_MSEC) == 0 && TruncMod(-1, MICROS_PER_MSEC) == -1;
  }

  /** After 1970, with an origin that is not in whole milliseconds. */
  lemma FractionalOriginCountsADayTooMuch()
    ensures CorrectedAfterOrigin(MICROS_PER_DAY, 999, 1) && Corrected(MICROS_PER_DAY, 999, 1) == 999
  {
    assert Gap(MICROS_PER_DAY, 999) == MSECS_PER_DAY;
  }

  /** A bucket that begins after its timestamp. */
  lemma FractionalOriginMissesBucket()
    ensures var ts := 500 - MICROS_PER_DAY - 1;
            MissesBucket(ts, 500, 1) && Corrected(ts, 500, 1) == 500 - MICROS_PER_DAY > ts
  {
    var ts := 500 - MICROS_PER_DAY - 1;
    assert TruncDiv(ts, MICROS_PER_MSEC) == 1 - MSECS_PER_DAY && TruncMod(ts, MICROS_PER_MSEC) == -501;
    assert Gap(ts, 500) == 1 - MSECS_PER_DAY;
    assert TruncDiv(Gap(ts, 500), MSECS_PER_DAY) == 0;
  }

  /** Origin, timestamp and bucket are exact on the clock. */
  predicate DaysFit(ts: int, origin: int, days: nat)
    requires days > 0
  {
    OnClock(origin) && OnClock(ts) && OnClock(Bucket(ts, origin, days * MICROS_PER_DAY))
  }

  /** The truncated milliseconds of a timestamp on the clock are exact. */
  lemma TruncatedIsExact(ts: int)
    requires OnClock(ts)
    ensures IsExact(TruncDiv(ts, MICROS_PER_MSEC))
    ensures TruncMod(ts, MICROS_PER_MSEC) < 0 ==> IsExact(TruncDiv(ts, MICROS_PER_MSEC) - 1)
  {
    TruncSplits(ts, MICROS_PER_MSEC);
    assert ts == ts / MICROS_PER_MSEC * MICROS_PER_MSEC + ts % MICROS_PER_MSEC;
  }

  lemma WholeMillisecondsOnClock(origin: int, ms: int)
    ensures (origin + ms * MICROS_PER_MSEC) / MICROS_PER_MSEC == origin / MICROS_PER_MSEC + ms
  {
  }

  /** Truncated quotients are no larger than what is divided. */
  lemma TruncShrinks(x: int, b: int)
    requires b > 0
    ensures x >= 0 ==> 0 <= TruncDiv(x, b) * b <= x
    ensures x < 0 ==> x <= TruncDiv(x, b) * b <= 0
  {
    TruncSplits(x, b);
    if x >= 0 {
      Grows(0, TruncDiv(x, b), b);
    } else {
      Grows(TruncDiv(x, b), 0, b);
    }
  }

  /** The clock stays exact on the way to the guess. */
  lemma GuessOnExactClock(ts: int, origin: int, days: nat)
    requires days > 0 && OnClock(origin) && OnClock(ts)
    ensures OnClock(Guess(ts, origin, days))
  {
    var width, gap := days * MSECS_PER_DAY, Gap(ts, origin);
    TruncatedIsExact(ts);
    GuessOnClock(ts, origin, days);
    TruncShrinks(gap, width);
    WholeMillisecondsOnClock(origin, TruncDiv(gap, width) * width);
  }

  /** A missed bucket begins with the millisecond of the timestamp. */
  lemma MissedOnClock(ts: int, origin: int, days: nat)
    requires days > 0 && OnClock(ts) && MissesBucket(ts, origin, days)
    ensures OnClock(Corrected(ts, origin, days))
  {
    AfterGuess(ts, origin, days);
    GapAndDropped(ts, origin);
    TruncatedIsExact(ts);
    assert Corrected(ts, origin, days) == origin + (Gap(ts, origin) - 1) * MICROS_PER_MSEC;
    WholeMillisecondsOnClock(origin, Gap(ts, origin) - 1);
  }

  /** The clock also stays exact to the corrected guess, and the days are in 32 bits. */
  lemma GuessFits(ts: int, origin: int, days: nat)
    requires days > 0 && DaysFit(ts, origin, days)
    ensures OnClock(Guess(ts, origin, days)) && OnClock(Corrected(ts, origin, days))
    ensures INT32_MIN <= TruncDiv(TruncDiv(Gap(ts, origin), MSECS_PER_DAY), days) * days <= INT32_MAX
  {
    TruncatedIsExact(ts);
    GuessOnExactClock(ts, origin, days);
    GuessAndCorrection(ts, origin, days);
    TruncShrinks(Gap(ts, origin), MSECS_PER_DAY);
    TruncShrinks(TruncDiv(Gap(ts, origin), MSECS_PER_DAY), days);
    if MissesBucket(ts, origin, days) {
      MissedOnClock(ts, origin, days);
    }
  }

  /** Days are added exactly between timestamps on the clock. */
  method AddDays(calendar: Calendar, ts: int, days: int) returns (r: Result<int>)
    modifies calendar
    ensures OnClock(ts) && OnClock(ts + days * MICROS_PER_DAY) ==> r == Ok(ts + days * MICROS_PER_DAY)
  {
    DaysAreOnClock(ts, days);
    r := AddFixed(calendar, ts, Interval(0, days, 0));
  }

  /** The origin plus the days between it and the timestamp, truncated to the width. */
  method FirstGuess(calendar: Calendar, days: nat, ts: int, origin: int) returns (r: Result<int>)
    requires days > 0
    modifies calendar
    ensures DaysFit(ts, origin, days) ==> r == Ok(Guess(ts, origin, days))
  {
    if DaysFit(ts, origin, days) {
      GuessFits(ts, origin, days);
      TruncatedIsExact(ts);
    }
    var originMicros := calendar.SetTime(origin);
    assert (origin - originMicros) / MICROS_PER_MSEC == origin / MICROS_PER_MSEC;
    var tsDays := calendar.SubtractField(Date, ts);
    assert DaysFit(ts, origin, days) ==> tsDays == TruncDiv(Gap(ts, origin), MSECS_PER_DAY);
    var resultDays := TruncDiv(tsDays, days) * days;
    if resultDays < INT32_MIN || resultDays > INT32_MAX {
      return Err("Timestamp out of range");
    }
    r := AddDays(calendar, origin, resultDays);
  }

  /** The day bucket, and whether the conditions hold that the code asserts on the way. */
  method WidthConvertibleToDaysCommon(calendar: Calendar, days: nat, ts: int, origin: int)
      returns (r: Result<int>, first: bool, second: bool)
    modifies calendar
    ensures days == 0 ==> r.Err?
    ensures days > 0 && DaysFit(ts, origin, days) ==>
              r == Ok(Bucket(ts, origin, days * MICROS_PER_DAY) + if MissesBucket(ts, origin, days) then days * MICROS_PER_DAY else 0)
    ensures days > 0 && DaysFit(ts, origin, days) ==>
              (IsBucket(r.value, ts, origin, days * MICROS_PER_DAY) <==> !MissesBucket(ts, origin, days)) &&
              (first <==> !CorrectedAfterOrigin(ts, origin, days)) && (second <==> !NotAfterCorrected(ts, origin, days))
  {
    first, second := true, true;
    if days == 0 {
      return Err("Can't bucket using zero days"), first, second;
    }
    GuessAndCorrection(ts, origin, days);
    if DaysFit(ts, origin, days) {
      GuessFits(ts, origin, days);
    }
    r := FirstGuess(calendar, days, ts, origin);
    if r.Err? {
      return;
    }
    if ts < r.value {
      first := ts < origin;
      r := AddDays(calendar, r.value, -(days as int));
      second := r.Ok? && ts > r.value;
    }
  }

  // ----- months --------------------------------------------------------------------------------------------

  function MonthOf(months: Months, ts: int): int {
    months.numberOf(ts / MICROS_PER_MSEC)
  }

  /** The start of the month in microseconds. */
  function MonthStart(months: Months, month: int): int {
    months.start(month) * MICROS_PER_MSEC
  }

  /** A month bucket: it begins with a month, a multiple of the width from the month of the origin. */
  ghost predicate IsMonthBucket(months: Months, bucket: int, ts: int, origin: int, width: int) {
    width > 0 && exists first {:trigger MonthStart(months, first)} ::
      IsEdge(first, MonthOf(months, origin), width) &&
      bucket == MonthStart(months, first) && bucket <= ts < MonthStart(months, first + width)
  }

  function MonthBucket(months: Months, ts: int, origin: int, width: int): int
    requires width > 0
  {
    MonthStart(months, Bucket(MonthOf(months, ts), MonthOf(months, origin), width))
  }

  /** The timestamp lies between the starts of two months exactly if its month does. */
  lemma MonthsInOrder(months: Months, ts: int, first: int, next: int)
    requires MonthsValid(months)
    ensures MonthStart(months, first) <= ts < MonthStart(months, next) <==> first <= MonthOf(months, ts) < next
  {
    var ms, month := ts / MICROS_PER_MSEC, MonthOf(months, ts);
    assert months.start(months.numberOf(ms)) <= ms < months.start(months.numberOf(ms) + 1);
    assert ts < MonthStart(months, next) <==> ms < months.start(next);
    assert MonthStart(months, first) <= ts <==> months.start(first) <= ms;
    StartsInOrder(months, first, month);
    StartsInOrder(months, month + 1, first);
    StartsInOrder(months, next, month);
    StartsInOrder(months, month + 1, next);
  }

  lemma StartsInOrder(months: Months, a: int, b: int)
    requires MonthsValid(months)
    ensures a <= b ==> months.start(a) <= months.start(b)
  {
    assert a < b ==> months.start(a) < months.start(b);
  }

  /** There is exactly one month bucket for a timestamp. */
  lemma MonthBucketIsUnique(months: Months, bucket: int, ts: int, origin: int, width: int)
    requires width > 0 && MonthsValid(months)
    ensures IsMonthBucket(months, bucket, ts, origin, width) <==> bucket == MonthBucket(months, ts, origin, width)
  {
    MonthBucketIsOne(months, ts, origin, width);
    if IsMonthBucket(months, bucket, ts, origin, width) {
      var first :| IsEdge(first, MonthOf(months, origin), width) && bucket == MonthStart(months, first) &&
                   bucket <= ts < MonthStart(months, first + width);
      MonthEdgeIsBucket(months, ts, origin, width, first);
    }
  }

  lemma MonthBucketIsOne(months: Months, ts: int, origin: int, width: int)
    requires width > 0 && MonthsValid(months)
    ensures IsMonthBucket(months, MonthBucket(months, ts, origin, width), ts, origin, width)
  {
    var found := Bucket(MonthOf(months, ts), MonthOf(months, origin), width);
    BucketIsUnique(found, MonthOf(months, ts), MonthOf(months, origin), width);
    EdgeBeginsMonthBucket(months, ts, origin, width, found);
  }

  lemma EdgeBeginsMonthBucket(months: Months, ts: int, origin: int, width: int, first: int)
    requires MonthsValid(months) && IsBucket(first, MonthOf(months, ts), MonthOf(months, origin), width)
    ensures IsMonthBucket(months, MonthStart(months, first), ts, origin, width)
  {
    MonthsInOrder(months, ts, first, first + width);
  }

  lemma MonthEdgeIsBucket(months: Months, ts: int, origin: int, width: int, first: int)
    requires width > 0 && MonthsValid(months) && IsEdge(first, MonthOf(months, origin), width)
    requires MonthStart(months, first) <= ts < MonthStart(months, first + width)
    ensures first == Bucket(MonthOf(months, ts), MonthOf(months, origin), width)
  {
    MonthsInOrder(months, ts, first, first + width);
    BucketIsUnique(first, MonthOf(months, ts), MonthOf(months, origin), width);
  }

  /** The starts of the months are exact on the clock, and the months in 32 bits. */
  ghost predicate MonthsFit(months: Months, ts: int, origin: int, width: int)
    requires width > 0
  {
    var month, start := MonthOf(months, ts), MonthOf(months, origin);
    var bucket := Bucket(month, start, width);
    MonthsValid(months) && OnClock(ts) && OnClock(origin) &&
    IsExact(months.start(month)) && IsExact(months.start(start)) && IsExact(months.start(bucket)) &&
    INT32_MIN <= month - start <= INT32_MAX && INT32_MIN <= bucket - start
  }

  /** The start of the month of a timestamp. */
  method TruncateToMonth(calendar: Calendar, ts: int) returns (r: int)
    modifies calendar
    ensures OnClock(ts) && IsExact(calendar.months.start(MonthOf(calendar.months, ts))) ==>
              r == MonthStart(calendar.months, MonthOf(calendar.months, ts))
  {
    var micros := calendar.SetTime(ts);
    assert (ts - micros) / MICROS_PER_MSEC == ts / MICROS_PER_MSEC;
    calendar.TruncMonth();
    micros := 0;
    r := calendar.GetTimeUnsafe(micros);
  }

  /** The months from the start of one month to the start of another. */
  method SubtractMonth(calendar: Calendar, startDate: int, endDate: int) returns (n: int)
    modifies calendar
    ensures forall a, b {:trigger MonthStart(calendar.months, a), MonthStart(calendar.months, b)} ::
              MonthsValid(calendar.months) && IsExact(calendar.months.start(a)) && IsExact(calendar.months.start(b)) &&
              startDate == MonthStart(calendar.months, a) && endDate == MonthStart(calendar.months, b)
              ==> n == b - a
  {
    var micros := calendar.SetTime(startDate);
    n := calendar.MonthDifference(UDate(TruncDiv(endDate, MICROS_PER_MSEC)));
    forall a, b | MonthsValid(calendar.months) && IsExact(calendar.months.start(a)) && IsExact(calendar.months.start(b)) &&
                  startDate == MonthStart(calendar.months, a) && endDate == MonthStart(calendar.months, b)
      ensures n == b - a
    {
      assert TruncDiv(endDate, MICROS_PER_MSEC) == calendar.months.start(b);
      assert n == calendar.months.between(calendar.months.start(a), calendar.months.start(b));
    }
  }

  lemma WholeMilliseconds(ms: int, n: int)
    ensures TruncDiv(ms * MICROS_PER_MSEC, MICROS_PER_MSEC) == ms && TruncMod(ms * MICROS_PER_MSEC, MICROS_PER_MSEC) == 0
    ensures Millis(ms * MICROS_PER_MSEC, Interval(n, 0, 0)) == ms && Micros(ms * MICROS_PER_MSEC, Interval(n, 0, 0)) == 0
  {
  }

  /** From the start of a month exactly the months are added. */
  lemma MonthsAdd(months: Months, month: int, n: int)
    requires MonthsValid(months) && IsExact(months.start(month)) && IsExact(months.start(month + n))
    ensures Addable(months.shift, MonthStart(months, month), Interval(n, 0, 0))
    ensures Sum(months.shift, MonthStart(months, month), Interval(n, 0, 0)) == MonthStart(months, month + n)
  {
    var ms, next := months.start(month), months.start(month + n);
    assert months.shift(ms, n) == next;
    WholeMilliseconds(ms, n);
    assert Stops(months.shift, ms * MICROS_PER_MSEC, Interval(n, 0, 0)) == if n < 0 then [ms, ms, next, next] else [ms, next, next, next];
  }

  method WidthConvertibleToMonthsCommon(calendar: Calendar, width: nat, ts: int, origin: int) returns (r: Result<int>)
    modifies calendar
    ensures width == 0 ==> r.Err?
    ensures width > 0 && MonthsFit(calendar.months, ts, origin, width) ==>
              r == Ok(MonthBucket(calendar.months, ts, origin, width)) && IsMonthBucket(calendar.months, r.value, ts, origin, width)
  {
    if width == 0 {
      return Err("Can't bucket using zero months");
    }
    ghost var month, start := MonthOf(calendar.months, ts), MonthOf(calendar.months, origin);
    ghost var fits := MonthsFit(calendar.months, ts, origin, width);
    var truncatedTs := TruncateToMonth(calendar, ts);
    var truncatedOrigin := TruncateToMonth(calendar, origin);
    var tsMonths := SubtractMonth(calendar, truncatedOrigin, truncatedTs);
    if tsMonths < INT32_MIN || tsMonths > INT32_MAX {
      return Err("Months out of range");
    }
    assert fits ==> tsMonths == month - start;
    CorrectedTruncation(tsMonths, width);
    var resultMonths := TruncDiv(tsMonths, width) * width;
    if tsMonths < 0 && TruncMod(tsMonths, width) != 0 {
      resultMonths := resultMonths - width;
      if resultMonths < INT32_MIN {
        return Err("Overflow");
      }
    }
    if fits {
      MonthsAdd(calendar.months, start, resultMonths);
      MonthBucketIsUnique(calendar.months, MonthBucket(calendar.months, ts, origin, width), ts, origin, width);
    }
    r := Add(calendar, truncatedOrigin, Interval(resultMonths, 0, 0));
  }

  const THIRTY_DAYS: int := 2_592_000_000

  function NumberOf(ms: int): int {
    ms / THIRTY_DAYS
  }

  function StartOf(month: int): int {
    month * THIRTY_DAYS
  }

  function Shifted(ms: int, n: int): int {
    ms + StartOf(n)
  }

  function Between(a: int, b: int): int {
    TruncDiv(b - a, THIRTY_DAYS)
  }

  lemma MonthAround(ms: int)
    ensures StartOf(NumberOf(ms)) <= ms < StartOf(NumberOf(ms) + 1)
  {
  }

  lemma MonthsApart(a: int, n: int)
    ensures Shifted(StartOf(a), n) == StartOf(a + n) && Between(StartOf(a), StartOf(a + n)) == n
    ensures n > 0 ==> StartOf(a) < StartOf(a + n)
  {
    assert StartOf(a + n) - StartOf(a) == n * THIRTY_DAYS;
  }

  /** Months of thirty days are months in this sense. */
  lemma EqualMonthsAreValid()
    ensures MonthsValid(Months(NumberOf, StartOf, Shifted, Between))
  {
    forall ms: int
      ensures StartOf(NumberOf(ms)) <= ms < StartOf(NumberOf(ms) + 1)
    {
      MonthAround(ms);
    }
    forall a, b
      ensures a < b ==> StartOf(a) < StartOf(b)
      ensures Between(StartOf(a), StartOf(b)) == b - a
    {
      MonthsApart(a, b - a);
    }
    forall a, n
      ensures Shifted(StartOf(a), n) == StartOf(a + n)
    {
      MonthsApart(a, n);
    }
  }

  // ----- the operators -------------------------------------------------------------------------------------

  datatype BucketWidthType = ConvertibleToMicros | ConvertibleToDays | ConvertibleToMonths

  function ClassifyBucketWidthErrorThrow(width: Interval): (r: Result<BucketWidthType>)
    ensures r == Ok(ConvertibleToMicros) ==> width == Interval(0, 0, width.micros) && width.micros > 0
    ensures r == Ok(ConvertibleToDays) ==> width == Interval(0, width.days, 0) && width.days > 0
    ensures r == Ok(ConvertibleToMonths) ==> width == Interval(width.months, 0, 0) && width.months > 0
    ensures r.Err? ==> (width.months != 0 && width.days != 0) || (width.months != 0 && width.micros != 0) ||
                       (width.days != 0 && width.micros != 0) || width.months + width.days + width.micros <= 0
  {
    if width.months == 0 && width.days == 0 then
      if width.micros <= 0 then Err("Period must be greater than 0") else Ok(ConvertibleToMicros)
    else if width.months == 0 && width.micros == 0 then
      if width.days <= 0 then Err("Period must be greater than 0") else Ok(ConvertibleToDays)
    else if width.days == 0 && width.micros == 0 then
      if width.months <= 0 then Err("Period must be greater than 0") else Ok(ConvertibleToMonths)
    else if width.months == 0 then Err("Day intervals cannot have time component")
    else Err("Month intervals cannot have day or time component")
  }

  /** One positive unit. */
  type Width = i: Interval | ClassifyBucketWidthErrorThrow(i).Ok? witness Interval(0, 1, 0)

  /** The width of buckets without months in microseconds. */
  function WidthMicros(width: Interval): int {
    width.days * MICROS_PER_DAY + width.micros
  }

  /** 2000-01-01. */
  const DEFAULT_MONTH_ORIGIN := 10957 * MICROS_PER_DAY

  function DefaultOrigin(width: Interval): int {
    if width.months > 0 then DEFAULT_MONTH_ORIGIN else DEFAULT_ORIGIN
  }

  // ----- dates ----------------------------------------------------------------------------------------------

  predicate IsLeapYear(year: nat) {
    (year % 4 == 0 && year % 100 != 0) || year % 400 == 0
  }

  /** Days from the start of 1970 to the start of this year. */
  function DaysToYear(year: nat): nat
    requires year >= 1970
  {
    if year == 1970 then 0 else DaysToYear(year - 1) + if IsLeapYear(year - 1) then 366 else 365
  }

  /** The start of a day of January, by its number from 1. */
  function January(year: nat, day: nat): int
    requires year >= 1970 && day > 0
  {
    (DaysToYear(year) + (day - 1)) * MICROS_PER_DAY
  }

  datatype Weekday = Monday | Tuesday | Wednesday | Thursday | Friday | Saturday | Sunday

  function NextDay(day: Weekday): Weekday {
    match day
    case Monday => Tuesday
    case Tuesday => Wednesday
    case Wednesday => Thursday
    case Thursday => Friday
    case Friday => Saturday
    case Saturday => Sunday
    case Sunday => Monday
  }

  /** The day of the week some days after the start of 1970, which was a Thursday. */
  function WeekdayAfter(days: nat): Weekday {
    if days == 0 then Thursday else NextDay(WeekdayAfter(days - 1))
  }

  lemma {:induction false} WeeksLater(days: nat, weeks: nat)
    ensures WeekdayAfter(days + 7 * weeks) == WeekdayAfter(days)
    decreases weeks
  {
    if weeks > 0 {
      WeeksLater(days, weeks - 1);
      OneWeekLater(days + 7 * (weeks - 1));
    }
  }

  lemma OneWeekLater(days: nat)
    ensures WeekdayAfter(days + 7) == WeekdayAfter(days)
  {
    var d := WeekdayAfter(days);
    assert WeekdayAfter(days + 1) == NextDay(d);
    assert WeekdayAfter(days + 2) == NextDay(NextDay(d));
    assert WeekdayAfter(days + 3) == NextDay(NextDay(NextDay(d)));
    assert WeekdayAfter(days + 4) == NextDay(NextDay(NextDay(NextDay(d))));
    assert WeekdayAfter(days + 5) == NextDay(NextDay(NextDay(NextDay(NextDay(d)))));
    assert WeekdayAfter(days + 6) == NextDay(NextDay(NextDay(NextDay(NextDay(NextDay(d))))));
  }

  lemma DaysToTwoThousand()
    ensures DaysToYear(2000) == 10957
  {
    assert DaysToYear(1975) == 1826;
    assert DaysToYear(1980) == 3652;
    assert DaysToYear(1985) == 5479;
    assert DaysToYear(1990) == 7305;
    assert DaysToYear(1995) == 9131;
  }

  /** The default origins: for months the first day of 2000, otherwise the third, which is a Monday. */
  lemma DefaultOrigins(width: Interval)
    ensures width.months > 0 ==> DefaultOrigin(width) == January(2000, 1)
    ensures width.months <= 0 ==> DefaultOrigin(width) == January(2000, 3)
    ensures WeekdayAfter(DaysToYear(2000) + 2) == Monday
  {
    DaysToTwoThousand();
    WeeksLater(4, 1565);
    assert WeekdayAfter(4) == Monday;
  }

  /** A bucket of the kind that the width says. */
  ghost predicate IsBucketOf(months: Months, bucket: int, ts: int, origin: int, width: Width) {
    if width.months > 0 then IsMonthBucket(months, bucket, ts, origin, width.months) else IsBucket(bucket, ts, origin, WidthMicros(width))
  }

  function BucketOf(months: Months, ts: int, origin: int, width: Width): int {
    if width.months > 0 then MonthBucket(months, ts, origin, width.months) else Bucket(ts, origin, WidthMicros(width))
  }

  ghost predicate Fits(months: Months, ts: int, origin: int, width: Width) {
    if width.months > 0 then MonthsFit(months, ts, origin, width.months)
    else if width.days > 0 then DaysFit(ts, origin, width.days)
    else MicrosFit(ts, origin, width.micros)
  }

  /** Only buckets of days may be missed, and only if the origin is not in whole milliseconds. */
  predicate Misses(ts: int, origin: int, width: Width) {
    width.days > 0 && MissesBucket(ts, origin, width.days)
  }

  /** The bucket of a timestamp by the kind of the width. */
  method BucketFrom(calendar: Calendar, width: Width, ts: int, origin: int) returns (r: Result<int>)
    modifies calendar
    ensures Fits(calendar.months, ts, origin, width) ==>
              r == Ok(BucketOf(calendar.months, ts, origin, width) + if Misses(ts, origin, width) then WidthMicros(width) else 0) &&
              (IsBucketOf(calendar.months, r.value, ts, origin, width) <==> !Misses(ts, origin, width))
  {
    match ClassifyBucketWidthErrorThrow(width).value
    case ConvertibleToMicros =>
      r := WidthConvertibleToMicrosCommon(calendar, width.micros, ts, origin);
    case ConvertibleToDays =>
      var first, second;
      r, first, second := WidthConvertibleToDaysCommon(calendar, width.days, ts, origin);
    case ConvertibleToMonths =>
      r := WidthConvertibleToMonthsCommon(calendar, width.months, ts, origin);
  }

  /** From the default origin no bucket is missed, and neither asserted condition fails. */
  lemma DefaultOriginNeverMisses(ts: int, width: Width)
    ensures !Misses(ts, DefaultOrigin(width), width)
    ensures width.days > 0 ==>
              !CorrectedAfterOrigin(ts, DefaultOrigin(width), width.days) && !NotAfterCorrected(ts, DefaultOrigin(width), width.days)
  {
    if width.days > 0 {
      WholeMillisecondOrigin(ts, DEFAULT_ORIGIN, width.days);
    }
  }

  /** TIME_BUCKET with the default origin. */
  method BinaryOperator(calendar: Calendar, width: Interval, ts: int) returns (r: Result<int>)
    modifies calendar
    ensures ClassifyBucketWidthErrorThrow(width).Err? ==> r.Err?
    ensures ClassifyBucketWidthErrorThrow(width).Ok? ==>
              (!IsFinite(ts) ==> r == Ok(ts)) &&
              (IsFinite(ts) && Fits(calendar.months, ts, DefaultOrigin(width), width) ==>
                 r.Ok? && IsBucketOf(calendar.months, r.value, ts, DefaultOrigin(width), width))
  {
    var kind := ClassifyBucketWidthErrorThrow(width);
    if kind.Err? {
      return Err(kind.message);
    }
    if !IsFinite(ts) {
      return Ok(ts);
    }
    DefaultOriginNeverMisses(ts, width);
    r := BucketFrom(calendar, width, ts, DefaultOrigin(width));
  }

  /** TIME_BUCKET with an origin of its own, which must be finite. */
  method OriginTernaryOperator(calendar: Calendar, width: Interval, ts: int, origin: int) returns (r: Result<Option<int>>)
    modifies calendar
    ensures !IsFinite(origin) ==> r == Ok(None)
    ensures IsFinite(origin) && ClassifyBucketWidthErrorThrow(width).Err? ==> r.Err?
    ensures IsFinite(origin) && ClassifyBucketWidthErrorThrow(width).Ok? ==>
              (!IsFinite(ts) ==> r == Ok(Some(ts))) &&
              (IsFinite(ts) && Fits(calendar.months, ts, origin, width) ==>
                 r.Ok? && r.value.Some? &&
                 (IsBucketOf(calendar.months, r.value.value, ts, origin, width) <==> !Misses(ts, origin, width)) &&
                 (Misses(ts, origin, width) ==> r.value.value == BucketOf(calendar.months, ts, origin, width) + WidthMicros(width) > ts))
  {
    if !IsFinite(origin) {
      return Ok(None);
    }
    var kind := ClassifyBucketWidthErrorThrow(width);
    if kind.Err? {
      return Err(kind.message);
    }
    if !IsFinite(ts) {
      return Ok(Some(ts));
    }
    if width.days > 0 {
      GuessAndCorrection(ts, origin, width.days);
    }
    var bucket := BucketFrom(calendar, width, ts, origin);
    r := if bucket.Ok? then Ok(Some(bucket.value)) else Err(bucket.message);
  }

  /** The timestamp moved back by the offset has a bucket that can be moved forward. */
  ghost predicate OffsetFits(months: Months, ts: int, width: Width, offset: Interval) {
    var moved := Sum(months.shift, ts, Negated(offset));
    Addable(months.shift, ts, Negated(offset)) && Fits(months, moved, DefaultOrigin(width), width) &&
    Addable(months.shift, BucketOf(months, moved, DefaultOrigin(width), width), offset)
  }

  function OffsetBucket(months: Months, ts: int, width: Width, offset: Interval): int {
    Sum(months.shift, BucketOf(months, Sum(months.shift, ts, Negated(offset)), DefaultOrigin(width), width), offset)
  }

  /** TIME_BUCKET with an offset. */
  method OffsetTernaryOperator(calendar: Calendar, width: Interval, ts: int, offset: Interval) returns (r: Result<int>)
    modifies calendar
    ensures ClassifyBucketWidthErrorThrow(width).Err? ==> r.Err?
    ensures ClassifyBucketWidthErrorThrow(width).Ok? ==>
              (!IsFinite(ts) ==> r == Ok(ts)) &&
              (OffsetFits(calendar.months, ts, width, offset) ==> r == Ok(OffsetBucket(calendar.months, ts, width, offset)))
  {
    var kind := ClassifyBucketWidthErrorThrow(width);
    if kind.Err? {
      return Err(kind.message);
    }
    if !IsFinite(ts) {
      return Ok(ts);
    }
    r := Sub(calendar, ts, offset);
    if r.Err? {
      return;
    }
    DefaultOriginNeverMisses(r.value, width);
    r := BucketFrom(calendar, width, r.value, DefaultOrigin(width));
    if r.Err? {
      return;
    }
    r := Add(calendar, r.value, offset);
  }

  /** An offset without months moves the timestamp back and its bucket forward by the same. */
  lemma OffsetIsAdded(months: Months, ts: int, width: Width, offset: Interval)
    requires offset.months == 0
    ensures OffsetBucket(months, ts, width, offset)
            == BucketOf(months, ts - FixedMicros(offset), DefaultOrigin(width), width) + FixedMicros(offset)
  {
    var moved := Sum(months.shift, ts, Negated(offset));
    var bucket := BucketOf(months, moved, DefaultOrigin(width), width);
    NegatedMicros(offset);
    StopsAddUp(months.shift, ts, Negated(offset));
    StopsAddUp(months.shift, bucket, offset);
    assert OffsetBucket(months, ts, width, offset) == Sum(months.shift, bucket, offset);
  }

  lemma NegatedMicros(i: Interval)
    ensures FixedMicros(Negated(i)) == -FixedMicros(i) && Negated(i).months == -i.months
  {
  }

  /** So buckets without months are those of the moved origin. */
  lemma OffsetMovesOrigin(months: Months, ts: int, width: Width, offset: Interval)
    requires offset.months == 0 && width.months == 0
    ensures IsBucket(OffsetBucket(months, ts, width, offset), ts, DEFAULT_ORIGIN + FixedMicros(offset), WidthMicros(width))
  {
    var moved := ts - FixedMicros(offset);
    OffsetIsAdded(months, ts, width, offset);
    BucketIsUnique(Bucket(moved, DEFAULT_ORIGIN, WidthMicros(width)), moved, DEFAULT_ORIGIN, WidthMicros(width));
    MovedBucket(Bucket(moved, DEFAULT_ORIGIN, WidthMicros(width)), ts, DEFAULT_ORIGIN, WidthMicros(width), FixedMicros(offset));
  }

  lemma MovedBucket(bucket: int, ts: int, origin: int, width: int, offset: int)
    requires IsBucket(bucket, ts - offset, origin, width)
    ensures IsBucket(bucket + offset, ts, origin + offset, width)
  {
    var k :| bucket == Edge(origin, width, k);
    assert bucket + offset == Edge(origin + offset, width, k);
  }
}
