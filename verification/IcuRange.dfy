/** Ranges of timestamps with time zone, built as lists and streamed as a table. Nothing is assumed of the addition:
    a range need not end. */
module IcuRange {
  import opened Common
  import opened IcuCalendar

  /** `None` is a timestamp out of range. */
  type Adder = (int, Interval) -> Option<int>

  datatype Row = Row(start: int, end: int, increment: Interval)

  const MAX_LENGTH: int := 0xFFFF_FFFF

  predicate HasPositive(i: Interval) {
    i.months > 0 || i.days > 0 || i.micros > 0
  }

  predicate HasNegative(i: Interval) {
    i.months < 0 || i.days < 0 || i.micros < 0
  }

  // ----- what a range is -----------------------------------------------------------------------------------

  datatype Range = Range(start: int, end: int, increment: Interval, up: bool, inclusive: bool)

  /** The end is passed. */
  predicate Past(p: Range, value: int) {
    if p.up then if p.inclusive then value > p.end else value >= p.end
    else if p.inclusive then value < p.end else value <= p.end
  }

  /** What comes after `list`. */
  function After(add: Adder, p: Range, list: seq<int>): Option<int> {
    if list == [] then Some(p.start) else add(list[|list| - 1], p.increment)
  }

  /** The first elements: each is inside the bounds and comes from the one before. */
  ghost predicate Begins(add: Adder, p: Range, list: seq<int>) {
    (list != [] ==> list[0] == p.start) && (forall k :: 0 <= k < |list| ==> !Past(p, list[k])) &&
    forall k :: 0 < k < |list| ==> add(list[k - 1], p.increment) == Some(list[k])
  }

  /** All elements: the next one would be past the end. */
  ghost predicate IsRange(add: Adder, p: Range, list: seq<int>) {
    Begins(add, p, list) && After(add, p, list).Some? && Past(p, After(add, p, list).value)
  }

  /** The addition leaves the range of timestamps, if only after the last element. */
  ghost predicate Overflows(add: Adder, p: Range, list: seq<int>) {
    Begins(add, p, list) && After(add, p, list).None?
  }

  /** On the way up no element lies beyond the end and what comes after the last one does not lie before it, on the way
      down the other way round. Where the end itself is hit, it is an element of an inclusive range and of no other. */
  lemma EndOfRange(add: Adder, p: Range, list: seq<int>)
    requires IsRange(add, p, list)
    ensures forall k :: 0 <= k < |list| ==> (if p.up then list[k] <= p.end else list[k] >= p.end) && (list[k] == p.end ==> p.inclusive)
    ensures var next := After(add, p, list).value;
            (if p.up then next >= p.end else next <= p.end) && (next == p.end ==> !p.inclusive)
  {
    assert forall k :: 0 <= k < |list| ==> !Past(p, list[k]);
  }

  lemma {:induction false} BeginningsAgree(add: Adder, p: Range, a: seq<int>, b: seq<int>)
    requires Begins(add, p, a) && Begins(add, p, b) && |a| <= |b|
    ensures a <= b
    decreases |a|
  {
    if a != [] {
      var n := |a| - 1;
      BeginningsAgree(add, p, a[..n], b);
      assert n > 0 ==> a[n - 1] == b[n - 1];
    }
  }

  /** What comes after first elements is the next one. */
  lemma NextElement(add: Adder, p: Range, list: seq<int>, more: seq<int>)
    requires Begins(add, p, more) && list <= more && |list| < |more|
    ensures After(add, p, list) == Some(more[|list|]) && !Past(p, more[|list|])
  {
    assert list != [] ==> list[|list| - 1] == more[|list| - 1];
  }

  /** Nothing follows the range, and nothing an overflow. */
  lemma NoneFollows(add: Adder, p: Range, list: seq<int>, more: seq<int>)
    requires IsRange(add, p, list) || Overflows(add, p, list)
    requires Begins(add, p, more)
    ensures more <= list
  {
    if |more| <= |list| {
      BeginningsAgree(add, p, more, list);
    } else {
      BeginningsAgree(add, p, list, more);
      NextElement(add, p, list, more);
    }
  }

  /** There is at most one range, and none if the addition overflows on the way. */
  lemma RangeIsUnique(add: Adder, p: Range, a: seq<int>, b: seq<int>)
    requires IsRange(add, p, a) && (IsRange(add, p, b) || Overflows(add, p, b))
    ensures a == b && IsRange(add, p, b) && !Overflows(add, p, b)
  {
    NoneFollows(add, p, a, b);
    NoneFollows(add, p, b, a);
  }

  /** Up to any number of elements there is the range, an overflow, or as many first elements. */
  lemma {:induction false} RangeOrMore(add: Adder, p: Range, n: nat) returns (list: seq<int>)
    ensures |list| <= n
    ensures IsRange(add, p, list) || Overflows(add, p, list) || (|list| == n && Begins(add, p, list))
  {
    list := [];
    if n > 0 {
      list := RangeOrMore(add, p, n - 1);
      if !IsRange(add, p, list) && !Overflows(add, p, list) {
        list := list + [After(add, p, list).value];
      }
    }
  }

  // ----- the list ------------------------------------------------------------------------------------------

  function RangeOf(row: Row, inclusive: bool): Range {
    Range(row.start, row.end, row.increment, HasPositive(row.increment), inclusive)
  }

  /** The list of a row. A zero interval and an interval that leads away from the end give an empty list. */
  ghost predicate IsList(add: Adder, row: Row, inclusive: bool, list: seq<int>) {
    var up, down := HasPositive(row.increment), HasNegative(row.increment);
    if !up && !down then list == []
    else
      IsFinite(row.start) && IsFinite(row.end) && !(up && down) &&
      if (row.start > row.end && up) || (row.start < row.end && down) then list == []
      else IsRange(add, RangeOf(row, inclusive), list) && |list| <= MAX_LENGTH
  }

  ghost predicate IsListOfRow(add: Adder, row: Option<Row>, inclusive: bool, list: seq<int>) {
    if row.None? then list == [] else IsList(add, row.value, inclusive, list)
  }

  ghost predicate HasList(add: Adder, row: Option<Row>, inclusive: bool) {
    exists list :: IsListOfRow(add, row, inclusive, list)
  }

  lemma ListIsUnique(add: Adder, row: Option<Row>, inclusive: bool, a: seq<int>, b: seq<int>)
    requires IsListOfRow(add, row, inclusive, a) && IsListOfRow(add, row, inclusive, b)
    ensures a == b
  {
    if a != b {
      RangeIsUnique(add, RangeOf(row.value, inclusive), a, b);
    }
  }

  /** The number of elements, which are `list`; the call fails if there is no list. */
  method ListLength(add: Adder, row: Row, inclusive: bool) returns (r: Result<nat>, ghost list: seq<int>)
    ensures r.Ok? <==> exists any :: IsList(add, row, inclusive, any)
    ensures r.Ok? ==> IsList(add, row, inclusive, list) && r.value == |list|
  {
    list := [];
    var up, down := HasPositive(row.increment), HasNegative(row.increment);
    if !down && !up {
      assert IsList(add, row, inclusive, []);
      return Ok(0), list;
    }
    if !IsFinite(row.start) || !IsFinite(row.end) {
      return Err("infinite bounds"), list;
    }
    if down && up {
      return Err("mixed signs"), list;
    }
    if row.start > row.end && up {
      assert IsList(add, row, inclusive, []);
      return Ok(0), list;
    }
    if row.start < row.end && down {
      assert IsList(add, row, inclusive, []);
      return Ok(0), list;
    }
    r, list := CountElements(add, RangeOf(row, inclusive));
    assert forall any :: IsList(add, row, inclusive, any) <==> IsRange(add, RangeOf(row, inclusive), any) && |any| <= MAX_LENGTH;
  }

  /** The counting loop. */
  method CountElements(add: Adder, p: Range) returns (r: Result<nat>, ghost list: seq<int>)
    ensures r.Ok? <==> exists any :: IsRange(add, p, any) && |any| <= MAX_LENGTH
    ensures r.Ok? ==> IsRange(add, p, list) && r.value == |list| <= MAX_LENGTH
  {
    var value, total := p.start, 0;
    list := [];
    while !Past(p, value)
      invariant total == |list| <= MAX_LENGTH && Begins(add, p, list) && After(add, p, list) == Some(value)
      decreases MAX_LENGTH - total
    {
      ghost var before := list;
      list := list + [value];
      var next := add(value, p.increment);
      if next.None? {
        NoneButOverflow(add, p, list);
        return Err("timestamp out of range"), list;
      }
      value := next.value;
      total := total + 1;
      if total > MAX_LENGTH {
        NoneSoShort(add, p, list);
        return Err("too many elements"), list;
      }
    }
    return Ok(total), list;
  }

  lemma NoneButOverflow(add: Adder, p: Range, list: seq<int>)
    requires Overflows(add, p, list)
    ensures !exists any :: IsRange(add, p, any)
  {
    if any :| IsRange(add, p, any) {
      RangeIsUnique(add, p, any, list);
    }
  }

  lemma NoneSoShort(add: Adder, p: Range, list: seq<int>)
    requires Begins(add, p, list)
    ensures !exists any :: IsRange(add, p, any) && |any| < |list|
  {
    if any :| IsRange(add, p, any) && |any| < |list| {
      NoneFollows(add, p, any, list);
    }
  }

  /** The lists of rows, one behind the other. */
  function Concat(lists: seq<seq<int>>): seq<int> {
    if lists == [] then [] else Concat(lists[..|lists| - 1]) + lists[|lists| - 1]
  }

  ghost predicate AreLists(add: Adder, rows: seq<Option<Row>>, inclusive: bool, lists: seq<seq<int>>) {
    |lists| <= |rows| && forall k :: 0 <= k < |lists| ==> IsListOfRow(add, rows[k], inclusive, lists[k])
  }

  /** The entries are the slices of the lists. */
  predicate AreEntries(rows: seq<Option<Row>>, lists: seq<seq<int>>, entries: seq<ListEntry>, validity: seq<bool>)
    requires |lists| <= |rows|
  {
    |entries| == |validity| == |lists| &&
    forall k :: 0 <= k < |lists| ==>
      validity[k] == rows[k].Some? && entries[k] == ListEntry(|Concat(lists[..k])|, |lists[k]|)
  }

  lemma ConcatMore(lists: seq<seq<int>>, list: seq<int>)
    ensures Concat(lists + [list]) == Concat(lists) + list
    ensures forall k :: 0 <= k <= |lists| ==> (lists + [list])[..k] == lists[..k]
    ensures (lists + [list])[..|lists|] == lists == lists[..|lists|]
  {
  }

  lemma EntriesMore(rows: seq<Option<Row>>, lists: seq<seq<int>>, entries: seq<ListEntry>, validity: seq<bool>, list: seq<int>)
    requires |lists| < |rows| && AreEntries(rows, lists, entries, validity)
    ensures AreEntries(rows, lists + [list], entries + [ListEntry(|Concat(lists)|, |list|)], validity + [rows[|lists|].Some?])
  {
    ConcatMore(lists, list);
  }

  /** NULL counts as empty. */
  method RowLength(add: Adder, row: Option<Row>, inclusive: bool) returns (r: Result<nat>, ghost list: seq<int>)
    ensures r.Ok? <==> HasList(add, row, inclusive)
    ensures r.Ok? ==> IsListOfRow(add, row, inclusive, list) && r.value == |list|
  {
    if row.None? {
      assert IsListOfRow(add, row, inclusive, []);
      return Ok(0), [];
    }
    r, list := ListLength(add, row.value, inclusive);
    assert forall any :: IsListOfRow(add, row, inclusive, any) <==> IsList(add, row.value, inclusive, any);
  }

  /** The list function: lengths first, then the elements. It succeeds iff every row has a list, and then every entry
      is the slice of the list of its row. */
  method ICUListRangeFunction(add: Adder, rows: seq<Option<Row>>, inclusive: bool)
    returns (r: Result<seq<int>>, entries: seq<ListEntry>, validity: seq<bool>, ghost lists: seq<seq<int>>)
    ensures r.Ok? <==> forall k :: 0 <= k < |rows| ==> HasList(add, rows[k], inclusive)
    ensures r.Ok? ==> |lists| == |rows| && AreLists(add, rows, inclusive, lists) && r.value == Concat(lists)
    ensures r.Ok? ==> AreEntries(rows, lists, entries, validity)
  {
    entries, validity, lists := [], [], [];
    var total := 0;
    for i := 0 to |rows|
      invariant |lists| == i && AreLists(add, rows, inclusive, lists) && total == |Concat(lists)|
      invariant AreEntries(rows, lists, entries, validity)
    {
      var length;
      ghost var list;
      length, list := RowLength(add, rows[i], inclusive);
      if length.Err? {
        return Err(length.message), entries, validity, lists;
      }
      EntriesMore(rows, lists, entries, validity, list);
      ConcatMore(lists, list);
      entries, validity := entries + [ListEntry(total, length.value)], validity + [rows[i].Some?];
      lists := lists + [list];
      total := total + length.value;
    }
    var data := FillLists(add, rows, inclusive, entries, lists);
    forall k | 0 <= k < |rows|
      ensures HasList(add, rows[k], inclusive)
    {
      assert IsListOfRow(add, rows[k], inclusive, lists[k]);
    }
    r := Ok(data);
  }

  /** The loop over the rows that fills the child vector. */
  method FillLists(add: Adder, rows: seq<Option<Row>>, inclusive: bool, entries: seq<ListEntry>, ghost lists: seq<seq<int>>)
    returns (data: seq<int>)
    requires |lists| == |rows| == |entries| && AreLists(add, rows, inclusive, lists)
    requires forall k :: 0 <= k < |lists| ==> entries[k].length == |lists[k]|
    ensures data == Concat(lists)
  {
    data := [];
    for i := 0 to |rows|
      invariant data == Concat(lists[..i])
    {
      assert lists[..i + 1] == lists[..i] + [lists[i]];
      ConcatMore(lists[..i], lists[i]);
      var list := FillList(add, rows[i], inclusive, entries[i].length, lists[i]);
      data := data + list;
    }
    assert lists[..|rows|] == lists;
  }

  /** The elements of a row, counted out: the interval is added between elements only. */
  method FillList(add: Adder, row: Option<Row>, inclusive: bool, length: nat, ghost whole: seq<int>) returns (list: seq<int>)
    requires IsListOfRow(add, row, inclusive, whole) && length == |whole|
    ensures list == whole
  {
    list := [];
    if row.None? {
      return;
    }
    assert length > 0 ==> Begins(add, RangeOf(row.value, inclusive), whole);
    var value := row.value.start;
    for k := 0 to length
      invariant list == whole[..k]
      invariant value == if k == 0 then row.value.start else whole[k - 1]
    {
      if k > 0 {
        assert add(whole[k - 1], row.value.increment) == Some(whole[k]);
        value := add(value, row.value.increment).value;
      }
      list := list + [value];
    }
  }

  // ----- the table -----------------------------------------------------------------------------------------

  /** The parameters of a streamed row: NULL is an empty range. */
  function GenerateRangeDateTimeParameters(row: Option<Row>, generateSeries: bool): Result<Range> {
    if row.None? then Ok(Range(0, 0, Interval(0, 0, 0), true, false))
    else
      var (start, end, i) := (row.value.start, row.value.end, row.value.increment);
      if !IsFinite(start) || !IsFinite(end) then Err("RANGE with infinite bounds is not supported")
      else if i == Interval(0, 0, 0) then Err("interval cannot be 0!")
      else if HasPositive(i) then
        if HasNegative(i) then Err("RANGE with composite interval that has mixed signs is not supported")
        else if start > end then Err("start is bigger than end")
        else Ok(Range(start, end, i, true, generateSeries))
      else if start < end then Err("start is smaller than end")
      else Ok(Range(start, end, i, false, generateSeries))
  }

  /** A row is accepted if its bounds are finite, the parts of its interval have one sign, and it does not lead away from
      the end. */
  lemma TableAccepts(row: Row, generateSeries: bool)
    ensures var i := row.increment;
            var forward := i.months >= 0 && i.days >= 0 && i.micros >= 0 && row.start <= row.end;
            var backward := i.months <= 0 && i.days <= 0 && i.micros <= 0 && row.start >= row.end;
            var zero := i.months == 0 && i.days == 0 && i.micros == 0;
            var r := GenerateRangeDateTimeParameters(Some(row), generateSeries);
            && (r.Ok? <==> IsFinite(row.start) && IsFinite(row.end) && !zero && (forward || backward))
            && (r.Ok? ==> r.value.start == row.start && r.value.end == row.end && r.value.increment == i
                          && r.value.inclusive == generateSeries && (if r.value.up then forward else backward))
  {
  }

  /** The row is accepted and these are its elements. */
  ghost predicate IsTable(add: Adder, row: Option<Row>, generateSeries: bool, list: seq<int>) {
    var p := GenerateRangeDateTimeParameters(row, generateSeries);
    p.Ok? && IsRange(add, p.value, list)
  }

  /** The row is refused, or the addition overflows. */
  ghost predicate Fails(add: Adder, row: Option<Row>, generateSeries: bool) {
    var p := GenerateRangeDateTimeParameters(row, generateSeries);
    p.Err? || exists list :: Overflows(add, p.value, list)
  }

  lemma FailsOrIsTable(add: Adder, row: Option<Row>, generateSeries: bool, list: seq<int>)
    requires IsTable(add, row, generateSeries, list)
    ensures !Fails(add, row, generateSeries)
  {
    var p := GenerateRangeDateTimeParameters(row, generateSeries).value;
    if other :| Overflows(add, p, other) {
      RangeIsUnique(add, p, list, other);
    }
  }

  /** Finite bounds, and an interval with one direction. */
  predicate IsBounded(row: Row) {
    HasPositive(row.increment) != HasNegative(row.increment) && IsFinite(row.start) && IsFinite(row.end)
  }

  /** Where the two agree: on every row the table accepts they give the same elements, unless there are more
      than a list can hold. Where the table refuses a zero interval between finite bounds or an interval that
      leads away from the end, the list is empty; otherwise both refuse. */
  lemma ListAndTableAgree(add: Adder, row: Option<Row>, inclusive: bool, list: seq<int>)
    ensures var p := GenerateRangeDateTimeParameters(row, inclusive);
            && (p.Ok? ==> (IsListOfRow(add, row, inclusive, list) <==> IsTable(add, row, inclusive, list) && |list| <= MAX_LENGTH))
            && (p.Err? ==>
                  (IsListOfRow(add, row, inclusive, list) <==>
                   list == [] && (row.value.increment == Interval(0, 0, 0) || IsBounded(row.value))))
  {
    if row.None? {
      var p := GenerateRangeDateTimeParameters(row, inclusive).value;
      assert IsRange(add, p, []);
      if IsRange(add, p, list) {
        RangeIsUnique(add, p, list, []);
      }
    }
  }

  datatype OperatorResult = NeedMoreInput | HaveMoreOutput(output: seq<int>)

  class ICURangeLocalState {
    var initializedRow: bool
    var currentInputRow: nat
    var currentState: int
    var start: int
    var end: int
    var increment: Interval
    var inclusiveBound: bool
    var greaterThanCheck: bool
    /** The elements of the current row that have been put out. */
    ghost var emitted: seq<int>

    constructor ()
      ensures !initializedRow && currentInputRow == 0 && emitted == []
    {
      initializedRow, currentInputRow := false, 0;
      currentState, start, end, increment, inclusiveBound, greaterThanCheck := 0, 0, 0, Interval(0, 0, 0), false, true;
      emitted := [];
    }

    ghost function Parameters(): Range
      reads this
    {
      Range(start, end, increment, greaterThanCheck, inclusiveBound)
    }

    predicate Finished(value: int)
      reads this
      ensures Finished(value) <==> Past(Parameters(), value)
    {
      if greaterThanCheck then if inclusiveBound then value > end else value >= end
      else if inclusiveBound then value < end else value <= end
    }

    /** What has been put out are the first elements of the current row, and the current state comes after them. */
    ghost predicate Valid(add: Adder, rows: seq<Option<Row>>, generateSeries: bool)
      reads this
    {
      currentInputRow <= |rows| &&
      if !initializedRow then emitted == []
      else
        currentInputRow < |rows| &&
        GenerateRangeDateTimeParameters(rows[currentInputRow], generateSeries) == Ok(Parameters()) &&
        Begins(add, Parameters(), emitted) && After(add, Parameters(), emitted) == Some(currentState)
    }

    /** Starts the current input row. */
    method InitializeRow(add: Adder, rows: seq<Option<Row>>, generateSeries: bool) returns (ok: bool)
      requires Valid(add, rows, generateSeries) && currentInputRow < |rows| && !initializedRow
      modifies this
      ensures currentInputRow == old(currentInputRow) && emitted == []
      ensures !ok ==> Fails(add, rows[currentInputRow], generateSeries)
      ensures ok ==> Valid(add, rows, generateSeries) && initializedRow
    {
      var p := GenerateRangeDateTimeParameters(rows[currentInputRow], generateSeries);
      if p.Err? {
        return false;
      }
      start, end, increment := p.value.start, p.value.end, p.value.increment;
      inclusiveBound, greaterThanCheck := p.value.inclusive, p.value.up;
      initializedRow := true;
      currentState := start;
      return true;
    }

    /** Fills one output vector from the current row. */
    method FillOutput(add: Adder, rows: seq<Option<Row>>, generateSeries: bool, vectorSize: nat) returns (ok: bool, data: seq<int>)
      requires Valid(add, rows, generateSeries) && initializedRow && vectorSize > 0
      modifies `currentState, `emitted
      ensures |data| <= vectorSize && emitted == old(emitted) + data
      ensures !ok ==> Fails(add, rows[currentInputRow], generateSeries)
      ensures ok ==> Valid(add, rows, generateSeries)
      ensures ok && |data| < vectorSize ==> IsTable(add, rows[currentInputRow], generateSeries, emitted)
    {
      data := [];
      while !Finished(currentState)
        invariant Valid(add, rows, generateSeries) && |data| < vectorSize && emitted == old(emitted) + data
        decreases vectorSize - |data|
      {
        data := data + [currentState];
        emitted := emitted + [currentState];
        var next := add(currentState, increment);
        if next.None? {
          assert Overflows(add, Parameters(), emitted);
          return false, data;
        }
        currentState := next.value;
        if |data| >= vectorSize {
          return true, data;
        }
      }
      return true, data;
    }

    /** One call. Either a non-empty vector with elements of one row, which follow those put out before; the
        rows passed over are complete. Or all rows are complete and the state is as at the start. */
    method ICUTableRangeFunction(add: Adder, rows: seq<Option<Row>>, generateSeries: bool, vectorSize: nat)
      returns (r: Result<OperatorResult>)
      requires Valid(add, rows, generateSeries) && vectorSize > 0
      modifies this
      ensures r.Err? ==> exists j :: old(currentInputRow) <= j < |rows| && Fails(add, rows[j], generateSeries)
      ensures r.Ok? ==> Valid(add, rows, generateSeries)
      ensures r == Ok(NeedMoreInput) ==>
                && !initializedRow && currentInputRow == 0
                && RowsDone(add, rows, generateSeries, old(currentInputRow), |rows|, old(emitted))
      ensures r.Ok? && r.value.HaveMoreOutput? ==>
                && 0 < |r.value.output| <= vectorSize && initializedRow && old(currentInputRow) <= currentInputRow
                && RowsDone(add, rows, generateSeries, old(currentInputRow), currentInputRow, old(emitted))
                && emitted == (if currentInputRow == old(currentInputRow) then old(emitted) else []) + r.value.output
    {
      while true
        invariant Valid(add, rows, generateSeries) && old(currentInputRow) <= currentInputRow
        invariant RowsDone(add, rows, generateSeries, old(currentInputRow), currentInputRow, old(emitted))
        invariant if currentInputRow == old(currentInputRow) then
                    emitted == old(emitted) && initializedRow == old(initializedRow)
                  else !initializedRow
        decreases |rows| - currentInputRow
      {
        if !initializedRow {
          // a row is begun
          if currentInputRow >= |rows| {
            currentInputRow := 0;
            initializedRow := false;
            emitted := [];
            return Ok(NeedMoreInput);
          }
          var ok := InitializeRow(add, rows, generateSeries);
          if !ok {
            return Err("invalid range");
          }
        }
        var filled, data := FillOutput(add, rows, generateSeries, vectorSize);
        if !filled {
          return Err("timestamp out of range");
        }
        if data == [] {
          // the row is finished
          assert emitted == if currentInputRow == old(currentInputRow) then old(emitted) else [];
          currentInputRow := currentInputRow + 1;
          initializedRow := false;
          emitted := [];
          continue;
        }
        return Ok(HaveMoreOutput(data));
      }
    }
  }

  /** The rows `from` to `to` are complete: of the first one `emitted` had been put out, the others are empty. */
  ghost predicate RowsDone(add: Adder, rows: seq<Option<Row>>, generateSeries: bool, from: nat, to: nat, emitted: seq<int>)
    requires to <= |rows|
  {
    forall j :: from <= j < to ==> IsTable(add, rows[j], generateSeries, if j == from then emitted else [])
  }

  // ----- a whole run ---------------------------------------------------------------------------------------

  datatype Chunk = Chunk(row: nat, data: seq<int>)

  /** What the chunks hold of one row. */
  function Gather(chunks: seq<Chunk>, row: nat): seq<int> {
    if chunks == [] then []
    else Gather(chunks[..|chunks| - 1], row) + if chunks[|chunks| - 1].row == row then chunks[|chunks| - 1].data else []
  }

  lemma GatherMore(chunks: seq<Chunk>, chunk: Chunk, row: nat)
    ensures Gather(chunks + [chunk], row) == if chunk.row == row then Gather(chunks, row) + chunk.data else Gather(chunks, row)
  {
    assert (chunks + [chunk])[..|chunks|] == chunks;
  }

  /** The chunks hold the rows before `n` completely and `emitted` of row `n`. */
  ghost predicate Holds(add: Adder, rows: seq<Option<Row>>, generateSeries: bool, chunks: seq<Chunk>, n: nat, emitted: seq<int>)
    requires n <= |rows|
  {
    (forall j :: 0 <= j < n ==> IsTable(add, rows[j], generateSeries, Gather(chunks, j))) &&
    Gather(chunks, n) == emitted && forall j :: j > n ==> Gather(chunks, j) == []
  }

  lemma HoldsMore(add: Adder, rows: seq<Option<Row>>, generateSeries: bool, chunks: seq<Chunk>, from: nat, emitted: seq<int>,
                  to: nat, data: seq<int>)
    requires from <= to < |rows| && Holds(add, rows, generateSeries, chunks, from, emitted)
    requires RowsDone(add, rows, generateSeries, from, to, emitted)
    ensures Holds(add, rows, generateSeries, chunks + [Chunk(to, data)], to, (if to == from then emitted else []) + data)
  {
    var more := chunks + [Chunk(to, data)];
    GatherEach(chunks, Chunk(to, data));
    forall j | 0 <= j < to
      ensures IsTable(add, rows[j], generateSeries, Gather(more, j))
    {
      assert Gather(more, j) == Gather(chunks, j);
    }
  }

  lemma GatherEach(chunks: seq<Chunk>, chunk: Chunk)
    ensures forall j: nat :: Gather(chunks + [chunk], j) == if chunk.row == j then Gather(chunks, j) + chunk.data else Gather(chunks, j)
  {
    forall j: nat
      ensures Gather(chunks + [chunk], j) == if chunk.row == j then Gather(chunks, j) + chunk.data else Gather(chunks, j)
    {
      GatherMore(chunks, chunk, j);
    }
  }

  lemma HoldsAll(add: Adder, rows: seq<Option<Row>>, generateSeries: bool, chunks: seq<Chunk>, from: nat, emitted: seq<int>)
    requires from <= |rows| && Holds(add, rows, generateSeries, chunks, from, emitted)
    requires RowsDone(add, rows, generateSeries, from, |rows|, emitted)
    ensures forall j :: 0 <= j < |rows| ==> IsTable(add, rows[j], generateSeries, Gather(chunks, j))
  {
  }

  /** The chunks are non-empty, of at most a vector, and in the order of the rows. */
  predicate InOrder(chunks: seq<Chunk>, vectorSize: nat, n: nat) {
    (forall k :: 0 <= k < |chunks| ==> 0 < |chunks[k].data| <= vectorSize && chunks[k].row <= n) &&
    forall k, l :: 0 <= k < l < |chunks| ==> chunks[k].row <= chunks[l].row
  }

  /** A run between two calls. */
  ghost predicate Running(add: Adder, rows: seq<Option<Row>>, generateSeries: bool, vectorSize: nat, state: ICURangeLocalState,
                          chunks: seq<Chunk>)
    reads state
  {
    state.Valid(add, rows, generateSeries) && InOrder(chunks, vectorSize, state.currentInputRow) &&
    Holds(add, rows, generateSeries, chunks, state.currentInputRow, state.emitted)
  }

  /** One call of a run, and what it adds to the chunks: `Ok(None)` when the input is done. */
  method Call(add: Adder, rows: seq<Option<Row>>, generateSeries: bool, vectorSize: nat, state: ICURangeLocalState,
              ghost chunks: seq<Chunk>) returns (r: Result<Option<Chunk>>)
    requires vectorSize > 0 && Running(add, rows, generateSeries, vectorSize, state, chunks)
    modifies state
    ensures r.Err? ==> exists j :: 0 <= j < |rows| && Fails(add, rows[j], generateSeries)
    ensures r == Ok(None) ==>
              && !state.initializedRow && state.currentInputRow == 0 && state.emitted == []
              && InOrder(chunks, vectorSize, |rows|)
              && forall j :: 0 <= j < |rows| ==> IsTable(add, rows[j], generateSeries, Gather(chunks, j))
    ensures r.Ok? && r.value.Some? ==>
              && Running(add, rows, generateSeries, vectorSize, state, chunks + [r.value.value]) && state.initializedRow
              && old(state.currentInputRow) <= state.currentInputRow
              && (state.currentInputRow == old(state.currentInputRow) ==> |state.emitted| > |old(state.emitted)|)
  {
    ghost var from, emitted := state.currentInputRow, state.emitted;
    var out := state.ICUTableRangeFunction(add, rows, generateSeries, vectorSize);
    if out.Err? {
      return Err(out.message);
    }
    if out.value.NeedMoreInput? {
      HoldsAll(add, rows, generateSeries, chunks, from, emitted);
      return Ok(None);
    }
    HoldsMore(add, rows, generateSeries, chunks, from, emitted, state.currentInputRow, out.value.output);
    return Ok(Some(Chunk(state.currentInputRow, out.value.output)));
  }

  /** The row is refused, or has no more than `limit` elements. */
  ghost predicate Ends(add: Adder, row: Option<Row>, generateSeries: bool, limit: nat) {
    var p := GenerateRangeDateTimeParameters(row, generateSeries);
    p.Ok? ==> forall list :: Begins(add, p.value, list) ==> |list| <= limit
  }

  lemma EmittedIsLimited(add: Adder, rows: seq<Option<Row>>, generateSeries: bool, state: ICURangeLocalState, limit: nat)
    requires state.Valid(add, rows, generateSeries) && state.initializedRow
    requires Ends(add, rows[state.currentInputRow], generateSeries, limit)
    ensures |state.emitted| <= limit
  {
  }

  /** Calls until more input is needed. If every row ends, the calls end, and for every vector size the chunks hold, row
      by row, exactly the rows. `limit` only says that the rows end. */
  method RunTable(add: Adder, rows: seq<Option<Row>>, generateSeries: bool, vectorSize: nat, state: ICURangeLocalState,
                  ghost limit: nat) returns (r: Result<seq<Chunk>>)
    requires vectorSize > 0 && !state.initializedRow && state.currentInputRow == 0 && state.emitted == []
    requires forall j :: 0 <= j < |rows| ==> Ends(add, rows[j], generateSeries, limit)
    modifies state
    ensures r.Ok? <==> forall j :: 0 <= j < |rows| ==> !Fails(add, rows[j], generateSeries)
    ensures r.Ok? ==> !state.initializedRow && state.currentInputRow == 0 && state.emitted == []
    ensures r.Ok? ==> forall j :: 0 <= j < |rows| ==> IsTable(add, rows[j], generateSeries, Gather(r.value, j))
    ensures r.Ok? ==> InOrder(r.value, vectorSize, |rows|)
    ensures r.Ok? ==> forall j :: 0 <= j < |rows| && |Gather(r.value, j)| <= MAX_LENGTH ==>
              IsListOfRow(add, rows[j], generateSeries, Gather(r.value, j))
  {
    var chunks: seq<Chunk> := [];
    while true
      invariant Running(add, rows, generateSeries, vectorSize, state, chunks) && |state.emitted| <= limit
      decreases |rows| - state.currentInputRow, limit - |state.emitted|
    {
      var out := Call(add, rows, generateSeries, vectorSize, state, chunks);
      if out.Err? {
        return Err(out.message);
      }
      if out.value.None? {
        forall j | 0 <= j < |rows|
          ensures !Fails(add, rows[j], generateSeries)
          ensures |Gather(chunks, j)| <= MAX_LENGTH ==> IsListOfRow(add, rows[j], generateSeries, Gather(chunks, j))
        {
          FailsOrIsTable(add, rows[j], generateSeries, Gather(chunks, j));
          ListAndTableAgree(add, rows[j], generateSeries, Gather(chunks, j));
        }
        return Ok(chunks);
      }
      EmittedIsLimited(add, rows, generateSeries, state, limit);
      chunks := chunks + [out.value.value];
    }
  }
}
