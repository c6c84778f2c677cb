/** Vectorised execution of lambdas over lists (`list_filter` and `list_transform`): the elements
    of all lists are run through the lambda in chunks of a fixed size, and the filtered lists are
    rebuilt by a cursor that survives from chunk to chunk. */
module LambdaExecution {
  import opened Common

  /** A row of the list column: NULL, or a stretch of the child column. */
  type Row = Option<ListEntry>

  /** `holds` says that a lambda value is valid and true. */
  datatype Functor<!E> = ListFilter(holds: E -> bool) | ListTransform

  /** The lambda takes an element, its index in the list if it asks for it, and the row, which
      stands for the other columns. */
  type Lambda<!E> = (E, Option<nat>, nat) -> E

  /** One element of one list. */
  datatype Cell = Cell(position: nat, index: Option<nat>, row: nat)

  // ----- what is to be computed ---------------------------------------------------------------------------

  function Length(row: Row): nat {
    if row.None? then 0 else row.value.length
  }

  predicate InChild<E>(row: Row, child: seq<E>) {
    row.Some? ==> row.value.offset + row.value.length <= |child|
  }

  function CellOf(row: Row, r: nat, hasIndex: bool, k: nat): Cell
    requires row.Some?
  {
    Cell(row.value.offset + k, if hasIndex then Some(k + 1) else None, r)
  }

  /** The first `n` elements of row `r`. */
  function RowCells(row: Row, r: nat, hasIndex: bool, n: nat): seq<Cell>
    requires n <= Length(row)
  {
    if n == 0 then [] else RowCells(row, r, hasIndex, n - 1) + [CellOf(row, r, hasIndex, n - 1)]
  }

  /** The elements of the first `n` rows. */
  function Cells(rows: seq<Row>, hasIndex: bool, n: nat): seq<Cell>
    requires n <= |rows|
  {
    if n == 0 then []
    else Cells(rows, hasIndex, n - 1) + RowCells(rows[n - 1], n - 1, hasIndex, Length(rows[n - 1]))
  }

  predicate CellsInside<E>(cells: seq<Cell>, child: seq<E>) {
    forall i :: 0 <= i < |cells| ==> cells[i].position < |child|
  }

  /** What one element contributes to the result. */
  function Contribution<E>(f: Functor<E>, lambda: Lambda<E>, child: seq<E>, cell: Cell): seq<E>
    requires cell.position < |child|
  {
    var x := child[cell.position];
    var y := lambda(x, cell.index, cell.row);
    match f
    case ListTransform => [y]
    case ListFilter(holds) => if holds(y) then [x] else []
  }

  /** The plain per-element definition of the result. */
  function Output<E>(f: Functor<E>, lambda: Lambda<E>, child: seq<E>, cells: seq<Cell>): seq<E>
    requires CellsInside(cells, child)
  {
    if cells == [] then []
    else Output(f, lambda, child, cells[..|cells| - 1]) + Contribution(f, lambda, child, cells[|cells| - 1])
  }

  lemma {:induction false} OutputAppend<E>(f: Functor<E>, lambda: Lambda<E>, child: seq<E>, a: seq<Cell>, b: seq<Cell>)
    requires CellsInside(a, child) && CellsInside(b, child)
    ensures CellsInside(a + b, child)
    ensures Output(f, lambda, child, a + b) == Output(f, lambda, child, a) + Output(f, lambda, child, b)
  {
    if b == [] {
      assert a + b == a;
    } else {
      assert (a + b)[..|a + b| - 1] == a + b[..|b| - 1];
      OutputAppend(f, lambda, child, a, b[..|b| - 1]);
    }
  }

  /** Sum of the first `n` lengths. */
  function Sum(lengths: seq<nat>, n: nat): nat
    requires n <= |lengths|
  {
    if n == 0 then 0 else Sum(lengths, n - 1) + lengths[n - 1]
  }

  lemma {:induction false} SumMonotone(lengths: seq<nat>, m: nat, n: nat)
    requires m <= n <= |lengths|
    ensures Sum(lengths, m) <= Sum(lengths, n)
    decreases n - m
  {
    if m < n {
      SumMonotone(lengths, m, n - 1);
    }
  }

  lemma {:induction false} SumPrefix(lengths: seq<nat>, more: seq<nat>, n: nat)
    requires n <= |lengths| && lengths <= more
    ensures Sum(more, n) == Sum(lengths, n)
  {
    if n > 0 {
      SumPrefix(lengths, more, n - 1);
    }
  }

  /** Number of results for the elements `from` to `to`. */
  function Count<E>(f: Functor<E>, lambda: Lambda<E>, child: seq<E>, cells: seq<Cell>, from: nat, to: nat): nat
    requires CellsInside(cells, child) && from <= to <= |cells|
  {
    |Output(f, lambda, child, cells[from..to])|
  }

  /** The result list of row `r` when the rows have these lengths. */
  function ResultEntry<E>(f: Functor<E>, lambda: Lambda<E>, child: seq<E>, cells: seq<Cell>, lengths: seq<nat>, r: nat)
    : ListEntry
    requires CellsInside(cells, child) && r < |lengths| && Sum(lengths, r + 1) <= |cells|
  {
    var from, to := Sum(lengths, r), Sum(lengths, r + 1);
    ListEntry(Count(f, lambda, child, cells, 0, from), Count(f, lambda, child, cells, from, to))
  }

  lemma CountSplit<E>(f: Functor<E>, lambda: Lambda<E>, child: seq<E>, cells: seq<Cell>, a: nat, b: nat, c: nat)
    requires CellsInside(cells, child) && a <= b <= c <= |cells|
    ensures Count(f, lambda, child, cells, a, c) == Count(f, lambda, child, cells, a, b) + Count(f, lambda, child, cells, b, c)
  {
    assert cells[a..c] == cells[a..b] + cells[b..c];
    OutputAppend(f, lambda, child, cells[a..b], cells[b..c]);
  }

  /** One more element does not change the counts before it. */
  lemma CountSame<E>(f: Functor<E>, lambda: Lambda<E>, child: seq<E>, cells: seq<Cell>, cell: Cell, a: nat, b: nat)
    requires CellsInside(cells, child) && cell.position < |child| && a <= b <= |cells|
    ensures CellsInside(cells + [cell], child)
    ensures Count(f, lambda, child, cells + [cell], a, b) == Count(f, lambda, child, cells, a, b)
  {
    assert (cells + [cell])[a..b] == cells[a..b];
  }

  lemma CountMore<E>(f: Functor<E>, lambda: Lambda<E>, child: seq<E>, cells: seq<Cell>, cell: Cell, a: nat)
    requires CellsInside(cells, child) && cell.position < |child| && a <= |cells|
    ensures CellsInside(cells + [cell], child)
    ensures Count(f, lambda, child, cells + [cell], a, |cells| + 1)
            == Count(f, lambda, child, cells, a, |cells|) + |Contribution(f, lambda, child, cell)|
  {
    var part := (cells + [cell])[a..|cells| + 1];
    assert part[..|part| - 1] == cells[a..|cells|] && part[|part| - 1] == cell;
  }

  // ----- the cursor -----------------------------------------------------------------------------------------

  /** Position of the cursor: `written` lists are finished, `srcLength` elements of the next one
      have been seen and `length` of them kept; `offset` results belong to finished lists. */
  datatype Position = Position(written: seq<ListEntry>, srcLength: nat, length: nat, offset: nat)

  /** Row `r` has been seen completely and its entry is its result list. */
  ghost predicate EntryIsFinal<E>(f: Functor<E>, lambda: Lambda<E>, child: seq<E>, lengths: seq<nat>, done: seq<Cell>,
                                  written: seq<ListEntry>, r: nat)
    requires CellsInside(done, child) && r < |written| <= |lengths|
  {
    Sum(lengths, r + 1) <= |done| && written[r] == ResultEntry(f, lambda, child, done, lengths, r)
  }

  /** The cursor has seen the elements `done` of lists with these lengths. */
  ghost predicate Describes<E>(f: Functor<E>, lambda: Lambda<E>, child: seq<E>, lengths: seq<nat>, done: seq<Cell>, p: Position)
  {
    var row := |p.written|;
    CellsInside(done, child) && row <= |lengths| &&
    Sum(lengths, row) + p.srcLength == |done| &&
    (p.srcLength > 0 ==> row < |lengths| && p.srcLength < lengths[row]) &&
    p.offset == Count(f, lambda, child, done, 0, Sum(lengths, row)) &&
    p.length == Count(f, lambda, child, done, Sum(lengths, row), |done|) &&
    forall r :: 0 <= r < row ==> EntryIsFinal(f, lambda, child, lengths, done, p.written, r)
  }

  datatype Tracking = Tracked | Lost

  /** `Describes` as one atomic condition. */
  ghost function Cursor<E>(f: Functor<E>, lambda: Lambda<E>, child: seq<E>, lengths: seq<nat>, done: seq<Cell>, p: Position)
    : Tracking
  {
    if Describes(f, lambda, child, lengths, done, p) then Tracked else Lost
  }

  /** An empty list is finished. */
  lemma SkipStep<E>(f: Functor<E>, lambda: Lambda<E>, child: seq<E>, lengths: seq<nat>, done: seq<Cell>, p: Position)
    requires Cursor(f, lambda, child, lengths, done, p) == Tracked
    requires |p.written| < |lengths| && lengths[|p.written|] == 0
    ensures Cursor(f, lambda, child, lengths, done, p.(written := p.written + [ListEntry(p.offset, 0)])) == Tracked
  {
    assert done[|done|..|done|] == [];
    var row, written := |p.written|, p.written + [ListEntry(p.offset, 0)];
    assert EntryIsFinal(f, lambda, child, lengths, done, written, row);
    forall r | 0 <= r < row
      ensures EntryIsFinal(f, lambda, child, lengths, done, written, r)
    {
      assert EntryIsFinal(f, lambda, child, lengths, done, p.written, r);
    }
  }

  /** While elements are missing, the cursor is at a list. */
  lemma CursorInside<E>(f: Functor<E>, lambda: Lambda<E>, child: seq<E>, lengths: seq<nat>, done: seq<Cell>, p: Position)
    requires Cursor(f, lambda, child, lengths, done, p) == Tracked && |done| < Sum(lengths, |lengths|)
    ensures |p.written| < |lengths|
  {
  }

  /** After one more element the cursor moves inside the list or finishes it. */
  function Moved(lengths: seq<nat>, p: Position, keep: bool): Position
    requires |p.written| < |lengths|
  {
    var length := if keep then p.length + 1 else p.length;
    if lengths[|p.written|] == p.srcLength + 1
    then Position(p.written + [ListEntry(p.offset, length)], 0, 0, p.offset + length)
    else Position(p.written, p.srcLength + 1, length, p.offset)
  }

  /** One more element does not change a finished entry. */
  lemma EntryStays<E>(f: Functor<E>, lambda: Lambda<E>, child: seq<E>, lengths: seq<nat>, done: seq<Cell>, cell: Cell, r: nat)
    requires CellsInside(done, child) && cell.position < |child| && r < |lengths| && Sum(lengths, r + 1) <= |done|
    ensures CellsInside(done + [cell], child)
    ensures ResultEntry(f, lambda, child, done + [cell], lengths, r) == ResultEntry(f, lambda, child, done, lengths, r)
  {
    var from, to := Sum(lengths, r), Sum(lengths, r + 1);
    CountSame(f, lambda, child, done, cell, 0, from);
    CountSame(f, lambda, child, done, cell, from, to);
  }

  lemma StaysInside<E>(f: Functor<E>, lambda: Lambda<E>, child: seq<E>, lengths: seq<nat>, done: seq<Cell>, p: Position,
                       cell: Cell, keep: bool)
    requires Describes(f, lambda, child, lengths, done, p) && cell.position < |child|
    requires |p.written| < |lengths| && p.srcLength + 1 < lengths[|p.written|]
    requires |Contribution(f, lambda, child, cell)| == if keep then 1 else 0
    ensures Describes(f, lambda, child, lengths, done + [cell],
                      Position(p.written, p.srcLength + 1, if keep then p.length + 1 else p.length, p.offset))
  {
    var from := Sum(lengths, |p.written|);
    CountSame(f, lambda, child, done, cell, 0, from);
    CountMore(f, lambda, child, done, cell, from);
    forall r | 0 <= r < |p.written|
      ensures EntryIsFinal(f, lambda, child, lengths, done + [cell], p.written, r)
    {
      assert EntryIsFinal(f, lambda, child, lengths, done, p.written, r);
      EntryStays(f, lambda, child, lengths, done, cell, r);
    }
  }

  lemma Finishes<E>(f: Functor<E>, lambda: Lambda<E>, child: seq<E>, lengths: seq<nat>, done: seq<Cell>, p: Position,
                    cell: Cell, length: nat)
    requires Describes(f, lambda, child, lengths, done, p) && cell.position < |child|
    requires |p.written| < |lengths| && p.srcLength + 1 == lengths[|p.written|]
    requires length == p.length + |Contribution(f, lambda, child, cell)|
    ensures Describes(f, lambda, child, lengths, done + [cell],
                      Position(p.written + [ListEntry(p.offset, length)], 0, 0, p.offset + length))
  {
    var done', written := done + [cell], p.written + [ListEntry(p.offset, length)];
    FinishedEntry(f, lambda, child, lengths, done, p, cell, length);
    forall r | 0 <= r < |p.written|
      ensures EntryIsFinal(f, lambda, child, lengths, done', written, r)
    {
      assert EntryIsFinal(f, lambda, child, lengths, done, p.written, r);
      EntryStays(f, lambda, child, lengths, done, cell, r);
    }
  }

  lemma FinishedEntry<E>(f: Functor<E>, lambda: Lambda<E>, child: seq<E>, lengths: seq<nat>, done: seq<Cell>, p: Position,
                         cell: Cell, length: nat)
    requires Describes(f, lambda, child, lengths, done, p) && cell.position < |child|
    requires |p.written| < |lengths| && p.srcLength + 1 == lengths[|p.written|]
    requires length == p.length + |Contribution(f, lambda, child, cell)|
    ensures CellsInside(done + [cell], child) && Sum(lengths, |p.written| + 1) == |done + [cell]|
    ensures ListEntry(p.offset, length) == ResultEntry(f, lambda, child, done + [cell], lengths, |p.written|)
    ensures p.offset + length == Count(f, lambda, child, done + [cell], 0, |done + [cell]|)
    ensures Count(f, lambda, child, done + [cell], |done + [cell]|, |done + [cell]|) == 0
  {
    var done' := done + [cell];
    var from := Sum(lengths, |p.written|);
    assert Sum(lengths, |p.written| + 1) == |done'|;
    CountSame(f, lambda, child, done, cell, 0, from);
    CountMore(f, lambda, child, done, cell, from);
    CountSplit(f, lambda, child, done', 0, from, |done'|);
    assert done'[|done'|..|done'|] == [];
  }

  lemma MoveStep<E>(f: Functor<E>, lambda: Lambda<E>, child: seq<E>, lengths: seq<nat>, done: seq<Cell>, p: Position,
                    cell: Cell, keep: bool)
    requires Cursor(f, lambda, child, lengths, done, p) == Tracked && cell.position < |child|
    requires |p.written| < |lengths| && lengths[|p.written|] > 0
    requires |Contribution(f, lambda, child, cell)| == if keep then 1 else 0
    ensures Cursor(f, lambda, child, lengths, done + [cell], Moved(lengths, p, keep)) == Tracked
  {
    if lengths[|p.written|] == p.srcLength + 1 {
      Finishes(f, lambda, child, lengths, done, p, cell, if keep then p.length + 1 else p.length);
    } else {
      StaysInside(f, lambda, child, lengths, done, p, cell, keep);
    }
  }

  lemma MoreLists<E>(f: Functor<E>, lambda: Lambda<E>, child: seq<E>, lengths: seq<nat>, done: seq<Cell>, p: Position, n: nat)
    requires Cursor(f, lambda, child, lengths, done, p) == Tracked
    ensures Cursor(f, lambda, child, lengths + [n], done, p) == Tracked
  {
    forall r | 0 <= r <= |lengths|
      ensures Sum(lengths + [n], r) == Sum(lengths, r)
    {
      SumPrefix(lengths, lengths + [n], r);
    }
    forall r | 0 <= r < |p.written|
      ensures EntryIsFinal(f, lambda, child, lengths + [n], done, p.written, r)
    {
      assert EntryIsFinal(f, lambda, child, lengths, done, p.written, r);
    }
  }

  class ListFilterInfo {
    var entryLengths: seq<nat>
    var length: nat
    var offset: nat
    var rowIdx: nat
    var srcLength: nat

    constructor ()
      ensures entryLengths == [] && length == 0 && offset == 0 && rowIdx == 0 && srcLength == 0
    {
      entryLengths, length, offset, rowIdx, srcLength := [], 0, 0, 0, 0;
    }

    ghost function At(entries: array<ListEntry>): Position
      requires rowIdx <= entries.Length
      reads this, entries
    {
      Position(entries[..rowIdx], srcLength, length, offset)
    }

    /** Sets the entries of empty lists. */
    method SkipEmpty<E>(entries: array<ListEntry>, ghost f: Functor<E>, ghost lambda: Lambda<E>, ghost child: seq<E>,
                        ghost done: seq<Cell>)
      requires rowIdx <= |entryLengths| <= entries.Length && Cursor(f, lambda, child, entryLengths, done, At(entries)) == Tracked
      modifies `rowIdx, entries
      ensures rowIdx <= |entryLengths| && Cursor(f, lambda, child, entryLengths, done, At(entries)) == Tracked
      ensures rowIdx < |entryLengths| ==> entryLengths[rowIdx] > 0
    {
      while rowIdx < |entryLengths| && entryLengths[rowIdx] == 0
        invariant rowIdx <= |entryLengths| && Cursor(f, lambda, child, entryLengths, done, At(entries)) == Tracked
      {
        SkipStep(f, lambda, child, entryLengths, done, At(entries));
        ghost var p := At(entries);
        entries[rowIdx] := ListEntry(offset, 0);
        rowIdx := rowIdx + 1;
        assert At(entries) == p.(written := p.written + [ListEntry(p.offset, 0)]);
      }
    }

    /** Sets the entry of the list the cursor is at and moves to the next one. */
    method FinishList(entries: array<ListEntry>)
      requires rowIdx < entries.Length
      modifies `rowIdx, `length, `srcLength, `offset, entries
      ensures rowIdx == old(rowIdx) + 1
      ensures At(entries) == Position(old(entries[..rowIdx]) + [ListEntry(old(offset), old(length))], 0, 0, old(offset + length))
    {
      entries[rowIdx] := ListEntry(offset, length);
      offset := offset + length;
      rowIdx := rowIdx + 1;
      length := 0;
      srcLength := 0;
    }

    /** Takes one element, which is kept or not. The cursor is never past the last list. */
    method Take<E>(entries: array<ListEntry>, keep: bool, ghost f: Functor<E>, ghost lambda: Lambda<E>,
                   ghost child: seq<E>, ghost done: seq<Cell>, ghost cell: Cell)
      requires rowIdx <= |entryLengths| <= entries.Length && Cursor(f, lambda, child, entryLengths, done, At(entries)) == Tracked
      requires cell.position < |child| && |Contribution(f, lambda, child, cell)| == if keep then 1 else 0
      requires |done| < Sum(entryLengths, |entryLengths|)
      modifies `rowIdx, `length, `srcLength, `offset, entries
      ensures rowIdx <= |entryLengths| && Cursor(f, lambda, child, entryLengths, done + [cell], At(entries)) == Tracked
    {
      // empty lists have their entries before the next element is taken
      SkipEmpty(entries, f, lambda, child, done);
      ghost var p := At(entries);
      CursorInside(f, lambda, child, entryLengths, done, p);
      MoveStep(f, lambda, child, entryLengths, done, p, cell, keep);
      Move(entries, keep);
    }

    /** Counts one element, and at the last one of its list finishes the list. */
    method Move(entries: array<ListEntry>, keep: bool)
      requires rowIdx < |entryLengths| <= entries.Length
      modifies `rowIdx, `length, `srcLength, `offset, entries
      ensures rowIdx <= |entryLengths| && At(entries) == Moved(entryLengths, old(At(entries)), keep)
    {
      if keep {
        length := length + 1;
      }
      srcLength := srcLength + 1;
      if entryLengths[rowIdx] == srcLength {
        FinishList(entries);
      }
    }
  }

  // ----- the execution --------------------------------------------------------------------------------------

  /** The list lengths as the cursor is told them: a NULL row counts as an empty list. */
  function Lengths(rows: seq<Row>, n: nat): (lengths: seq<nat>)
    requires n <= |rows|
    ensures |lengths| == n
  {
    if n == 0 then [] else Lengths(rows, n - 1) + [Length(rows[n - 1])]
  }

  lemma {:induction false} LengthsPrefix(rows: seq<Row>, m: nat, n: nat)
    requires m <= n <= |rows|
    ensures Lengths(rows, m) == Lengths(rows, n)[..m]
    decreases n
  {
    if m < n {
      LengthsPrefix(rows, m, n - 1);
    }
  }

  lemma {:induction false} RowCellsLength(row: Row, r: nat, hasIndex: bool, n: nat)
    requires n <= Length(row)
    ensures |RowCells(row, r, hasIndex, n)| == n
  {
    if n > 0 {
      RowCellsLength(row, r, hasIndex, n - 1);
    }
  }

  lemma {:induction false} CellsLength(rows: seq<Row>, hasIndex: bool, m: nat, n: nat)
    requires m <= n <= |rows|
    ensures |Cells(rows, hasIndex, m)| == Sum(Lengths(rows, n), m)
    decreases m
  {
    if m > 0 {
      CellsLength(rows, hasIndex, m - 1, n);
      RowCellsLength(rows[m - 1], m - 1, hasIndex, Length(rows[m - 1]));
      LengthsPrefix(rows, m, n);
    }
  }

  lemma {:induction false} CellsPrefix(rows: seq<Row>, hasIndex: bool, m: nat, n: nat)
    requires m <= n <= |rows|
    ensures Cells(rows, hasIndex, m) <= Cells(rows, hasIndex, n)
    decreases n
  {
    if m < n {
      CellsPrefix(rows, hasIndex, m, n - 1);
    }
  }

  lemma {:induction false} RowCellsInside<E>(row: Row, r: nat, hasIndex: bool, n: nat, child: seq<E>)
    requires n <= Length(row) && InChild(row, child)
    ensures CellsInside(RowCells(row, r, hasIndex, n), child)
  {
    if n > 0 {
      RowCellsInside(row, r, hasIndex, n - 1, child);
    }
  }

  lemma {:induction false} AllCellsInside<E>(rows: seq<Row>, hasIndex: bool, n: nat, child: seq<E>)
    requires n <= |rows| && forall r :: 0 <= r < |rows| ==> InChild(rows[r], child)
    ensures CellsInside(Cells(rows, hasIndex, n), child)
  {
    if n > 0 {
      AllCellsInside(rows, hasIndex, n - 1, child);
      RowCellsInside(rows[n - 1], n - 1, hasIndex, Length(rows[n - 1]), child);
    }
  }

  lemma {:induction false} TransformKeepsCount<E>(lambda: Lambda<E>, child: seq<E>, cells: seq<Cell>)
    requires CellsInside(cells, child)
    ensures |Output(ListTransform, lambda, child, cells)| == |cells|
  {
    if cells != [] {
      TransformKeepsCount(lambda, child, cells[..|cells| - 1]);
    }
  }

  /** The results of the first `n` rows. */
  ghost function Before<E>(f: Functor<E>, lambda: Lambda<E>, child: seq<E>, rows: seq<Row>, hasIndex: bool, n: nat): seq<E>
    requires n <= |rows| && forall r :: 0 <= r < |rows| ==> InChild(rows[r], child)
  {
    AllCellsInside(rows, hasIndex, n, child);
    Output(f, lambda, child, Cells(rows, hasIndex, n))
  }

  /** The filtered or transformed list of row `r`. */
  ghost function RowResult<E>(f: Functor<E>, lambda: Lambda<E>, child: seq<E>, rows: seq<Row>, hasIndex: bool, r: nat): seq<E>
    requires r < |rows| && forall r :: 0 <= r < |rows| ==> InChild(rows[r], child)
  {
    RowCellsInside(rows[r], r, hasIndex, Length(rows[r]), child);
    Output(f, lambda, child, RowCells(rows[r], r, hasIndex, Length(rows[r])))
  }

  lemma BeforeStep<E>(f: Functor<E>, lambda: Lambda<E>, child: seq<E>, rows: seq<Row>, hasIndex: bool, r: nat)
    requires r < |rows| && forall r :: 0 <= r < |rows| ==> InChild(rows[r], child)
    ensures Before(f, lambda, child, rows, hasIndex, r + 1)
            == Before(f, lambda, child, rows, hasIndex, r) + RowResult(f, lambda, child, rows, hasIndex, r)
  {
    AllCellsInside(rows, hasIndex, r, child);
    RowCellsInside(rows[r], r, hasIndex, Length(rows[r]), child);
    OutputAppend(f, lambda, child, Cells(rows, hasIndex, r), RowCells(rows[r], r, hasIndex, Length(rows[r])));
  }

  lemma BeforePrefix<E>(f: Functor<E>, lambda: Lambda<E>, child: seq<E>, rows: seq<Row>, hasIndex: bool, m: nat, n: nat)
    requires m <= n <= |rows| && forall r :: 0 <= r < |rows| ==> InChild(rows[r], child)
    ensures Before(f, lambda, child, rows, hasIndex, m) <= Before(f, lambda, child, rows, hasIndex, n)
  {
    var part, whole := Cells(rows, hasIndex, m), Cells(rows, hasIndex, n);
    CellsPrefix(rows, hasIndex, m, n);
    AllCellsInside(rows, hasIndex, m, child);
    AllCellsInside(rows, hasIndex, n, child);
    var rest := whole[|part|..];
    assert whole == part + rest;
    OutputAppend(f, lambda, child, part, rest);
  }

  ghost predicate SliceIs<E>(whole: seq<E>, from: nat, list: seq<E>) {
    from + |list| <= |whole| && whole[from..from + |list|] == list
  }

  lemma Slice<E>(a: seq<E>, b: seq<E>, ab: seq<E>, whole: seq<E>)
    requires ab == a + b && ab <= whole
    ensures SliceIs(whole, |a|, b)
  {
    assert whole[..|ab|] == ab;
    assert whole[|a|..|ab|] == ab[|a|..];
  }

  /** The slice of the result that belongs to row `r` is the filtered or transformed list of row `r`. */
  lemma ResultsInOrder<E>(f: Functor<E>, lambda: Lambda<E>, child: seq<E>, rows: seq<Row>, hasIndex: bool, r: nat)
    requires r < |rows| && forall r :: 0 <= r < |rows| ==> InChild(rows[r], child)
    ensures SliceIs(Before(f, lambda, child, rows, hasIndex, |rows|), |Before(f, lambda, child, rows, hasIndex, r)|,
                    RowResult(f, lambda, child, rows, hasIndex, r))
  {
    BeforeStep(f, lambda, child, rows, hasIndex, r);
    BeforePrefix(f, lambda, child, rows, hasIndex, r + 1, |rows|);
    Slice(Before(f, lambda, child, rows, hasIndex, r), RowResult(f, lambda, child, rows, hasIndex, r),
          Before(f, lambda, child, rows, hasIndex, r + 1), Before(f, lambda, child, rows, hasIndex, |rows|));
  }

  /** The entry of row `r` in terms of the cursor is the entry in terms of the rows. */
  lemma EntryOfRow<E>(f: Functor<E>, lambda: Lambda<E>, child: seq<E>, rows: seq<Row>, hasIndex: bool, r: nat)
    requires r < |rows| && forall r :: 0 <= r < |rows| ==> InChild(rows[r], child)
    ensures CellsInside(Cells(rows, hasIndex, |rows|), child)
    ensures Sum(Lengths(rows, |rows|), r + 1) <= |Cells(rows, hasIndex, |rows|)|
    ensures ResultEntry(f, lambda, child, Cells(rows, hasIndex, |rows|), Lengths(rows, |rows|), r)
            == ListEntry(|Before(f, lambda, child, rows, hasIndex, r)|, |RowResult(f, lambda, child, rows, hasIndex, r)|)
  {
    var all := Cells(rows, hasIndex, |rows|);
    AllCellsInside(rows, hasIndex, |rows|, child);
    CellsLength(rows, hasIndex, r, |rows|);
    CellsLength(rows, hasIndex, r + 1, |rows|);
    CellsPrefix(rows, hasIndex, r, |rows|);
    CellsPrefix(rows, hasIndex, r + 1, |rows|);
    var from, to := |Cells(rows, hasIndex, r)|, |Cells(rows, hasIndex, r + 1)|;
    assert all[0..from] == Cells(rows, hasIndex, r);
    assert all[..to] == Cells(rows, hasIndex, r + 1);
    assert all[from..to] == all[..to][from..];
    assert all[from..to] == RowCells(rows[r], r, hasIndex, Length(rows[r]));
  }

  /** Validity of the result after `n` rows. */
  function ValidityOf(rows: seq<Row>, n: nat): (validity: seq<bool>)
    ensures |validity| == |rows|
  {
    seq(|rows|, r requires 0 <= r < |rows| => r < n ==> rows[r].Some?)
  }

  /** Everything the loops of the execution share: the selection vectors of the current chunk, the
      cursor of `list_filter` and the result. */
  class LambdaExecuteInfo<!E> {
    const f: Functor<E>
    const lambda: Lambda<E>
    const child: seq<E>
    const hasIndex: bool
    const sel: array<nat>
    const rowSel: array<nat>
    const index: array<nat>
    const info: ListFilterInfo
    const entries: array<ListEntry>
    const validity: array<bool>
    var elemCnt: nat
    var offset: nat
    var result: seq<E>
    /** The elements of the current chunk. */
    ghost var pending: seq<Cell>
    /** The elements of the chunks that have been run. */
    ghost var done: seq<Cell>

    constructor (f: Functor<E>, lambda: Lambda<E>, rows: seq<Row>, child: seq<E>, hasIndex: bool, vectorSize: nat)
      requires vectorSize > 0
      ensures fresh(Repr()) && sel.Length == vectorSize
      ensures this.f == f && this.lambda == lambda && this.child == child && this.hasIndex == hasIndex
      ensures entries.Length == validity.Length == |rows| && validity[..] == ValidityOf(rows, 0)
      ensures Running(rows, 0, []) == Tracked
    {
      this.f, this.lambda, this.child, this.hasIndex := f, lambda, child, hasIndex;
      sel, rowSel, index := new nat[vectorSize], new nat[vectorSize], new nat[vectorSize];
      info := new ListFilterInfo();
      entries := new ListEntry[|rows|](_ => ListEntry(0, 0));
      validity := new bool[|rows|](_ => true);
      elemCnt, offset, result, pending, done := 0, 0, [], [], [];
      new;
      assert info.At(entries).written == [];
    }

    ghost function Repr(): set<object> {
      {this, sel, rowSel, index, info, entries, validity}
    }

    /** The result of the chunks that have been run. */
    ghost predicate HasResult()
      reads this
    {
      CellsInside(done, child) && result == Output(f, lambda, child, done)
    }

    /** After `n` rows: list_filter has put the first entries in place, list_transform all of them. */
    ghost function Progress(rows: seq<Row>, n: nat): Tracking
      requires n <= |rows| == entries.Length
      reads this, info, entries
    {
      if f.ListFilter? then
        if info.rowIdx <= n && info.entryLengths == Lengths(rows, n)
        then Cursor(f, lambda, child, info.entryLengths, done, info.At(entries))
        else Lost
      else
        if offset == Sum(Lengths(rows, n), n) &&
           forall r :: 0 <= r < n && rows[r].Some? ==> entries[r] == ListEntry(Sum(Lengths(rows, r), r), Length(rows[r]))
        then Tracked else Lost
    }

    ghost predicate Valid()
      reads this, sel, rowSel, index
    {
      0 < sel.Length == rowSel.Length == index.Length &&
      sel != rowSel && sel != index && rowSel != index &&
      |pending| == elemCnt <= sel.Length && CellsInside(pending, child) &&
      forall i :: 0 <= i < elemCnt ==>
        pending[i] == Cell(sel[i], if hasIndex then Some(index[i]) else None, rowSel[i])
    }

    /** Adds an element to the chunk. */
    method Select(position: nat, childIdx: nat, rowIdx: nat)
      requires Valid() && elemCnt < sel.Length && position < |child|
      modifies this`elemCnt, this`pending, sel, rowSel, index
      ensures Valid()
      ensures pending == old(pending) + [Cell(position, if hasIndex then Some(childIdx + 1) else None, rowIdx)]
    {
      sel[elemCnt] := position;
      rowSel[elemCnt] := rowIdx;
      if hasIndex {
        index[elemCnt] := childIdx + 1;
      }
      elemCnt := elemCnt + 1;
      pending := pending + [Cell(position, if hasIndex then Some(childIdx + 1) else None, rowIdx)];
    }

    /** Runs the lambda on the chunk. */
    method ExecuteExpression() returns (values: seq<E>)
      requires Valid()
      ensures AreValues(values)
    {
      values := [];
      for i := 0 to elemCnt
        invariant |values| == i
        invariant forall k :: 0 <= k < i ==> values[k] == lambda(child[pending[k].position], pending[k].index, pending[k].row)
      {
        values := values + [lambda(child[sel[i]], if hasIndex then Some(index[i]) else None, rowSel[i])];
      }
    }

    ghost predicate AreValues(values: seq<E>)
      reads this
    {
      CellsInside(pending, child) && |values| == |pending| &&
      forall i :: 0 <= i < |values| ==>
        values[i] == lambda(child[pending[i].position], pending[i].index, pending[i].row)
    }

    /** list_transform: the lambda values are the result. */
    method AppendTransformed(values: seq<E>)
      requires f.ListTransform? && AreValues(values)
      modifies `result, `done
      ensures result == old(result) + Output(f, lambda, child, pending) && done == old(done) + pending
    {
      TransformIsMap(lambda, child, pending, values);
      result := result + values;
      done := done + pending;
    }

    /** The cursor has seen the elements that have been run. */
    ghost predicate CursorValid()
      reads this, info, entries
    {
      info.rowIdx <= |info.entryLengths| <= entries.Length &&
      Cursor(f, lambda, child, info.entryLengths, done, info.At(entries)) == Tracked
    }

    /** One element of the chunk is selected if its lambda value is valid and true; the cursor moves over it. */
    method SelectIfKept(i: nat, values: seq<E>, kept: seq<nat>) returns (selected: seq<nat>)
      requires f.ListFilter? && AreValues(values) && i < |values|
      requires AreIndices(kept, pending) && Selected(child, pending, kept) == Output(f, lambda, child, pending[..i])
      requires CursorValid() && |done| < Sum(info.entryLengths, |info.entryLengths|)
      modifies `done, info`rowIdx, info`length, info`srcLength, info`offset, entries
      ensures AreIndices(selected, pending)
      ensures Selected(child, pending, selected) == Output(f, lambda, child, pending[..i + 1])
      ensures CursorValid() && done == old(done) + [pending[i]]
    {
      var keep := f.holds(values[i]);
      FilterOneMore(f, lambda, child, pending, i, keep, kept);
      selected := if keep then kept + [i] else kept;
      info.Take(entries, keep, f, lambda, child, done, pending[i]);
      done := done + [pending[i]];
    }

    /** Moves the cursor over the chunk and selects the elements whose lambda value is valid and true. */
    method SelectKept(values: seq<E>) returns (kept: seq<nat>)
      requires f.ListFilter? && AreValues(values)
      requires CursorValid() && |done| + |pending| <= Sum(info.entryLengths, |info.entryLengths|)
      modifies `done, info`rowIdx, info`length, info`srcLength, info`offset, entries
      ensures AreIndices(kept, pending) && Selected(child, pending, kept) == Output(f, lambda, child, pending)
      ensures CursorValid() && done == old(done) + pending
    {
      kept := [];
      for i := 0 to |values|
        invariant AreIndices(kept, pending) && Selected(child, pending, kept) == Output(f, lambda, child, pending[..i])
        invariant CursorValid() && done == old(done) + pending[..i]
      {
        kept := SelectIfKept(i, values, kept);
        OneMore(old(done), pending, i);
      }
      assert pending[..|values|] == pending;
    }

    /** list_filter: the selected elements are the result. */
    method AppendFiltered(values: seq<E>)
      requires Valid() && f.ListFilter? && AreValues(values)
      requires CursorValid() && |done| + |pending| <= Sum(info.entryLengths, |info.entryLengths|)
      modifies `result, `done, info`rowIdx, info`length, info`srcLength, info`offset, entries
      ensures result == old(result) + Output(f, lambda, child, pending) && done == old(done) + pending
      ensures CursorValid() && (info.rowIdx < |info.entryLengths| ==> info.entryLengths[info.rowIdx] > 0)
    {
      var kept := SelectKept(values);
      // empty lists after the last element
      info.SkipEmpty(entries, f, lambda, child, done);
      Append(kept);
    }

    /** Appends the selected elements of the chunk to the result. */
    method Append(kept: seq<nat>)
      requires Valid() && AreIndices(kept, pending)
      modifies `result
      ensures result == old(result) + Selected(child, pending, kept)
    {
      for k := 0 to |kept|
        invariant result == old(result) + Selected(child, pending, kept[..k])
      {
        result := result + [child[sel[kept[k]]]];
        assert kept[..k + 1] == kept[..k] + [kept[k]];
      }
      assert kept[..|kept|] == kept;
    }

    /** Appends the result of the chunk. */
    method AppendResult(values: seq<E>, ghost rows: seq<Row>, ghost n: nat)
      requires Valid() && AreValues(values) && n <= |rows| == entries.Length && Progress(rows, n) == Tracked
      requires |done| + |pending| <= Sum(Lengths(rows, n), n)
      modifies `result, `done, info`rowIdx, info`length, info`srcLength, info`offset, entries
      ensures result == old(result) + Output(f, lambda, child, pending) && done == old(done) + pending
      ensures Progress(rows, n) == Tracked
      ensures f.ListFilter? && info.rowIdx < n ==> info.entryLengths[info.rowIdx] > 0
    {
      if f.ListTransform? {
        AppendTransformed(values);
      } else {
        AppendFiltered(values);
      }
    }

    /** Runs the lambda on the chunk, appends the result and starts an empty chunk. */
    method ExecuteChunk(ghost rows: seq<Row>, ghost n: nat)
      requires Valid() && HasResult() && n <= |rows| == entries.Length && Progress(rows, n) == Tracked
      requires |done| + |pending| <= Sum(Lengths(rows, n), n)
      modifies `result, `done, `elemCnt, `pending, info`rowIdx, info`length, info`srcLength, info`offset, entries
      ensures Valid() && HasResult() && Progress(rows, n) == Tracked
      ensures done == old(done + pending) && pending == []
      ensures f.ListFilter? && info.rowIdx < n ==> info.entryLengths[info.rowIdx] > 0
    {
      var values := ExecuteExpression();
      OutputAppend(f, lambda, child, done, pending);
      AppendResult(values, rows, n);
      assert HasResult();
      EmptyChunk(rows, n);
    }

    method EmptyChunk(ghost rows: seq<Row>, ghost n: nat)
      requires Valid() && HasResult() && n <= |rows| == entries.Length && Progress(rows, n) == Tracked
      modifies `elemCnt, `pending
      ensures Valid() && HasResult() && Progress(rows, n) == Tracked && pending == []
    {
      elemCnt, pending := 0, [];
    }

    /** Begins row `n`: a NULL row is marked, list_filter is told the length of the list, list_transform
        sets the entry. */
    method BeginRow(rows: seq<Row>, n: nat)
      requires n < |rows| == entries.Length && validity[..] == ValidityOf(rows, n) && Progress(rows, n) == Tracked
      modifies `offset, info`entryLengths, entries, validity
      ensures Progress(rows, n + 1) == Tracked
      ensures validity[..] == ValidityOf(rows, n + 1)
    {
      if rows[n].None? {
        validity[n] := false;
      }
      if f.ListFilter? {
        TellLength(rows, n);
      } else {
        SetEntry(rows, n);
      }
    }

    /** list_filter: the cursor gets to know the length of the list. */
    method TellLength(rows: seq<Row>, n: nat)
      requires f.ListFilter? && n < |rows| == entries.Length && Progress(rows, n) == Tracked
      modifies info`entryLengths
      ensures Progress(rows, n + 1) == Tracked
    {
      MoreLists(f, lambda, child, Lengths(rows, n), done, info.At(entries), Length(rows[n]));
      info.entryLengths := info.entryLengths + [if rows[n].None? then 0 else rows[n].value.length];
    }

    /** list_transform: the entry is known at once. */
    method SetEntry(rows: seq<Row>, n: nat)
      requires f.ListTransform? && n < |rows| == entries.Length && Progress(rows, n) == Tracked
      modifies `offset, entries
      ensures Progress(rows, n + 1) == Tracked
    {
      SumPrefix(Lengths(rows, n), Lengths(rows, n + 1), n);
      if rows[n].Some? {
        entries[n] := ListEntry(offset, rows[n].value.length);
        offset := offset + rows[n].value.length;
      }
    }

    /** Everything the loops keep: `n` rows have been begun and the elements `cells` have been run or
        stand in the chunk. */
    ghost function Running(rows: seq<Row>, n: nat, cells: seq<Cell>): Tracking
      requires n <= |rows| == entries.Length
      reads this, sel, rowSel, index, info, entries
    {
      if Valid() && HasResult() && done + pending == cells then Progress(rows, n) else Lost
    }

    /** Runs the chunk if it is full. */
    method MakeRoom(rows: seq<Row>, n: nat, childIdx: nat)
      requires n < |rows| == entries.Length && childIdx <= Length(rows[n])
      requires Running(rows, n + 1, CellsUpTo(rows, hasIndex, n, childIdx)) == Tracked
      modifies `result, `done, `elemCnt, `pending, info`rowIdx, info`length, info`srcLength, info`offset, entries
      ensures Running(rows, n + 1, CellsUpTo(rows, hasIndex, n, childIdx)) == Tracked
      ensures elemCnt < sel.Length
    {
      if elemCnt == sel.Length {
        RoomForRow(rows, hasIndex, n, childIdx);
        ExecuteChunk(rows, n + 1);
      }
    }

    /** Takes element `childIdx` of row `n` into the chunk. */
    method AddElement(rows: seq<Row>, n: nat, childIdx: nat)
      requires n < |rows| == entries.Length && childIdx < Length(rows[n]) && InChild(rows[n], child)
      requires Running(rows, n + 1, CellsUpTo(rows, hasIndex, n, childIdx)) == Tracked
      requires elemCnt < sel.Length
      modifies `elemCnt, `pending, sel, rowSel, index
      ensures Running(rows, n + 1, CellsUpTo(rows, hasIndex, n, childIdx + 1)) == Tracked
    {
      OneMoreCell(done, pending, Cells(rows, hasIndex, n), RowCells(rows[n], n, hasIndex, childIdx),
                  CellOf(rows[n], n, hasIndex, childIdx));
      Select(rows[n].value.offset + childIdx, childIdx, n);
    }

    /** Runs the elements of row `n`, chunk by chunk. */
    method ExecuteRow(rows: seq<Row>, n: nat)
      requires n < |rows| == entries.Length && rows[n].Some? && InChild(rows[n], child)
      requires Running(rows, n + 1, Cells(rows, hasIndex, n)) == Tracked
      modifies `result, `done, `elemCnt, `pending, sel, rowSel, index
      modifies info`rowIdx, info`length, info`srcLength, info`offset, entries
      ensures Running(rows, n + 1, Cells(rows, hasIndex, n + 1)) == Tracked
    {
      var entry := rows[n].value;
      RowBounds(rows, hasIndex, n);
      for childIdx := 0 to entry.length
        invariant Running(rows, n + 1, CellsUpTo(rows, hasIndex, n, childIdx)) == Tracked
      {
        MakeRoom(rows, n, childIdx);
        AddElement(rows, n, childIdx);
      }
    }

    method BeginAndExecuteRow(rows: seq<Row>, n: nat)
      requires n < |rows| == entries.Length && validity[..] == ValidityOf(rows, n) && InChild(rows[n], child)
      requires Running(rows, n, Cells(rows, hasIndex, n)) == Tracked
      modifies `offset, info`entryLengths, entries, validity
      modifies `result, `done, `elemCnt, `pending, sel, rowSel, index
      modifies info`rowIdx, info`length, info`srcLength, info`offset
      ensures Running(rows, n + 1, Cells(rows, hasIndex, n + 1)) == Tracked
      ensures validity[..] == ValidityOf(rows, n + 1)
    {
      BeginRow(rows, n);
      if rows[n].Some? && rows[n].value.length > 0 {
        ExecuteRow(rows, n);
      }
    }

    /** Runs all rows, and the last chunk even if it is empty. */
    method ExecuteRows(rows: seq<Row>)
      requires |rows| == entries.Length && forall r :: 0 <= r < |rows| ==> InChild(rows[r], child)
      requires Running(rows, 0, []) == Tracked && validity[..] == ValidityOf(rows, 0)
      modifies Repr()
      ensures Finished(rows)
      ensures validity.Length == |rows| && forall r :: 0 <= r < |rows| ==> (validity[r] <==> rows[r].Some?)
    {
      for n := 0 to |rows|
        invariant Running(rows, n, Cells(rows, hasIndex, n)) == Tracked
        invariant validity[..] == ValidityOf(rows, n)
      {
        BeginAndExecuteRow(rows, n);
      }
      assert forall r :: 0 <= r < |rows| ==> validity[..][r] == validity[r];
      CellsLength(rows, hasIndex, |rows|, |rows|);
      ExecuteChunk(rows, |rows|);
    }

    /** All rows have been run, and list_filter has told the entries of the last empty lists. */
    ghost predicate Finished(rows: seq<Row>)
      requires |rows| == entries.Length
      reads this, info, entries
    {
      HasResult() && done == Cells(rows, hasIndex, |rows|) && Progress(rows, |rows|) == Tracked &&
      (f.ListFilter? && info.rowIdx < |rows| ==> info.entryLengths[info.rowIdx] > 0)
    }

    /** Then every entry is the slice of its row. */
    lemma EntriesAreSlices(rows: seq<Row>)
      requires |rows| == entries.Length && (forall r :: 0 <= r < |rows| ==> InChild(rows[r], child)) && Finished(rows)
      ensures result == Before(f, lambda, child, rows, hasIndex, |rows|)
      ensures forall r :: 0 <= r < |rows| && (f.ListFilter? || rows[r].Some?) ==>
                entries[r] == ListEntry(|Before(f, lambda, child, rows, hasIndex, r)|, |RowResult(f, lambda, child, rows, hasIndex, r)|)
    {
      if f.ListFilter? {
        FilterEntries(f, lambda, child, rows, hasIndex, info.At(entries));
      } else {
        TransformEntries(f, lambda, child, rows, hasIndex, entries[..]);
      }
    }
  }

  /** The elements before element `childIdx` of row `n`. */
  function CellsUpTo(rows: seq<Row>, hasIndex: bool, n: nat, childIdx: nat): seq<Cell>
    requires n < |rows| && childIdx <= Length(rows[n])
  {
    Cells(rows, hasIndex, n) + RowCells(rows[n], n, hasIndex, childIdx)
  }

  lemma RowBounds(rows: seq<Row>, hasIndex: bool, n: nat)
    requires n < |rows|
    ensures CellsUpTo(rows, hasIndex, n, 0) == Cells(rows, hasIndex, n)
    ensures CellsUpTo(rows, hasIndex, n, Length(rows[n])) == Cells(rows, hasIndex, n + 1)
  {
  }

  lemma OneMoreCell<T>(done: seq<T>, pending: seq<T>, cells: seq<T>, row: seq<T>, cell: T)
    requires done + pending == cells + row
    ensures done + (pending + [cell]) == cells + (row + [cell])
  {
    assert done + (pending + [cell]) == (done + pending) + [cell];
    assert cells + (row + [cell]) == (cells + row) + [cell];
  }

  lemma RoomForRow(rows: seq<Row>, hasIndex: bool, n: nat, childIdx: nat)
    requires n < |rows| && childIdx <= Length(rows[n])
    ensures |CellsUpTo(rows, hasIndex, n, childIdx)| <= Sum(Lengths(rows, n + 1), n + 1)
  {
    CellsLength(rows, hasIndex, n, n + 1);
    RowCellsLength(rows[n], n, hasIndex, childIdx);
  }

  predicate AreIndices(kept: seq<nat>, cells: seq<Cell>) {
    forall k :: 0 <= k < |kept| ==> kept[k] < |cells|
  }

  /** The elements picked by a selection vector. */
  function Selected<E>(child: seq<E>, cells: seq<Cell>, kept: seq<nat>): seq<E>
    requires CellsInside(cells, child) && AreIndices(kept, cells)
  {
    seq(|kept|, k requires 0 <= k < |kept| => child[cells[kept[k]].position])
  }

  lemma OneMore<T>(a: seq<T>, b: seq<T>, i: nat)
    requires i < |b|
    ensures a + b[..i + 1] == (a + b[..i]) + [b[i]]
  {
  }

  lemma OutputOneMore<E>(f: Functor<E>, lambda: Lambda<E>, child: seq<E>, cells: seq<Cell>, i: nat)
    requires CellsInside(cells, child) && i < |cells|
    ensures Output(f, lambda, child, cells[..i + 1])
            == Output(f, lambda, child, cells[..i]) + Contribution(f, lambda, child, cells[i])
  {
    assert cells[..i + 1][..i] == cells[..i];
  }

  lemma SelectedOneMore<E>(child: seq<E>, cells: seq<Cell>, i: nat, kept: seq<nat>)
    requires CellsInside(cells, child) && i < |cells| && AreIndices(kept, cells)
    ensures Selected(child, cells, kept + [i]) == Selected(child, cells, kept) + [child[cells[i].position]]
  {
  }

  lemma FilterOneMore<E>(f: Functor<E>, lambda: Lambda<E>, child: seq<E>, cells: seq<Cell>, i: nat, keep: bool, kept: seq<nat>)
    requires CellsInside(cells, child) && i < |cells| && f.ListFilter? && AreIndices(kept, cells)
    requires keep == f.holds(lambda(child[cells[i].position], cells[i].index, cells[i].row))
    requires Selected(child, cells, kept) == Output(f, lambda, child, cells[..i])
    ensures AreIndices(if keep then kept + [i] else kept, cells)
    ensures Selected(child, cells, if keep then kept + [i] else kept) == Output(f, lambda, child, cells[..i + 1])
    ensures |Contribution(f, lambda, child, cells[i])| == if keep then 1 else 0
  {
    OutputOneMore(f, lambda, child, cells, i);
    SelectedOneMore(child, cells, i, kept);
  }

  lemma {:induction false} TransformIsMap<E>(lambda: Lambda<E>, child: seq<E>, cells: seq<Cell>, values: seq<E>)
    requires CellsInside(cells, child) && |values| == |cells|
    requires forall i :: 0 <= i < |cells| ==> values[i] == lambda(child[cells[i].position], cells[i].index, cells[i].row)
    ensures values == Output(ListTransform, lambda, child, cells)
  {
    if cells != [] {
      TransformIsMap(lambda, child, cells[..|cells| - 1], values[..|cells| - 1]);
    }
  }

  /** When every element has been seen and empty lists have been skipped, the cursor is past the last list. */
  lemma CursorAtEnd<E>(f: Functor<E>, lambda: Lambda<E>, child: seq<E>, lengths: seq<nat>, done: seq<Cell>, p: Position)
    requires Cursor(f, lambda, child, lengths, done, p) == Tracked && |done| == Sum(lengths, |lengths|)
    requires |p.written| < |lengths| ==> lengths[|p.written|] > 0
    ensures |p.written| == |lengths|
    ensures CellsInside(done, child)
    ensures forall r :: 0 <= r < |lengths| ==> EntryIsFinal(f, lambda, child, lengths, done, p.written, r)
  {
    if |p.written| < |lengths| {
      SumMonotone(lengths, |p.written| + 1, |lengths|);
    }
  }

  // ----- the result, element by element ---------------------------------------------------------------------

  /** Sum of the lengths of the result lists of the first `n` rows; a NULL row has none. */
  function Shares(rows: seq<Row>, entries: seq<ListEntry>, n: nat): nat
    requires n <= |rows| == |entries|
  {
    if n == 0 then 0 else Shares(rows, entries, n - 1) + if rows[n - 1].Some? then entries[n - 1].length else 0
  }

  /** The lists of the rows stand one behind the other, and nothing else stands in the result. */
  ghost predicate LaidOut<E>(rows: seq<Row>, entries: seq<ListEntry>, result: seq<E>) {
    |entries| == |rows| && Shares(rows, entries, |rows|) == |result| &&
    forall r :: 0 <= r < |rows| && rows[r].Some? ==>
      entries[r].offset == Shares(rows, entries, r) && entries[r].offset + entries[r].length <= |result|
  }

  /** `slice` is the lambda values of the elements of row `r`, in order. */
  ghost predicate IsTransformed<E>(lambda: Lambda<E>, list: ListEntry, r: nat, child: seq<E>, hasIndex: bool, slice: seq<E>)
    requires list.offset + list.length <= |child|
  {
    |slice| == list.length &&
    forall k :: 0 <= k < |slice| ==> slice[k] == lambda(child[list.offset + k], if hasIndex then Some(k + 1) else None, r)
  }

  predicate Increasing(picks: seq<nat>) {
    forall i, j :: 0 <= i < j < |picks| ==> picks[i] < picks[j]
  }

  /** `slice` is the elements at the increasing places `picks`, which are exactly those of the first
      `n` elements whose lambda value is valid and true. */
  ghost predicate IsFiltered<E>(holds: E -> bool, lambda: Lambda<E>, list: ListEntry, r: nat, child: seq<E>, hasIndex: bool,
                                n: nat, picks: seq<nat>, slice: seq<E>)
    requires n <= list.length && list.offset + list.length <= |child|
  {
    |slice| == |picks| && Increasing(picks) && (forall k :: k in picks ==> k < n) &&
    (forall j :: 0 <= j < |picks| ==> picks[j] < n && slice[j] == child[list.offset + picks[j]]) &&
    forall k :: 0 <= k < n ==>
      (k in picks <==> holds(lambda(child[list.offset + k], if hasIndex then Some(k + 1) else None, r)))
  }

  ghost predicate IsFilterOf<E>(holds: E -> bool, lambda: Lambda<E>, list: ListEntry, r: nat, child: seq<E>, hasIndex: bool,
                                n: nat, slice: seq<E>)
    requires n <= list.length && list.offset + list.length <= |child|
  {
    exists picks :: IsFiltered(holds, lambda, list, r, child, hasIndex, n, picks, slice)
  }

  lemma OutputOfOneMore<E>(f: Functor<E>, lambda: Lambda<E>, child: seq<E>, cells: seq<Cell>, cell: Cell, all: seq<Cell>)
    requires all == cells + [cell] && CellsInside(all, child)
    ensures CellsInside(cells, child) && cell.position < |child|
    ensures Output(f, lambda, child, all) == Output(f, lambda, child, cells) + Contribution(f, lambda, child, cell)
  {
    assert all[..|all| - 1] == cells && all[|all| - 1] == cell;
    assert forall i :: 0 <= i < |cells| ==> cells[i] == all[i];
  }

  /** What the first `n` elements of a row contribute. */
  function RowSoFar<E>(f: Functor<E>, lambda: Lambda<E>, row: Row, r: nat, child: seq<E>, hasIndex: bool, n: nat): seq<E>
    requires row.Some? && n <= Length(row) && InChild(row, child)
  {
    if n == 0 then []
    else RowSoFar(f, lambda, row, r, child, hasIndex, n - 1) + Contribution(f, lambda, child, CellOf(row, r, hasIndex, n - 1))
  }

  lemma {:induction false} RowSoFarIsOutput<E>(f: Functor<E>, lambda: Lambda<E>, row: Row, r: nat, child: seq<E>, hasIndex: bool, n: nat)
    requires row.Some? && n <= Length(row) && InChild(row, child)
    ensures CellsInside(RowCells(row, r, hasIndex, n), child)
    ensures RowSoFar(f, lambda, row, r, child, hasIndex, n) == Output(f, lambda, child, RowCells(row, r, hasIndex, n))
  {
    if n > 0 {
      RowSoFarIsOutput(f, lambda, row, r, child, hasIndex, n - 1);
      RowCellsInside(row, r, hasIndex, n, child);
      OutputOfOneMore(f, lambda, child, RowCells(row, r, hasIndex, n - 1), CellOf(row, r, hasIndex, n - 1), RowCells(row, r, hasIndex, n));
    }
  }

  lemma {:induction false} TransformedRow<E>(lambda: Lambda<E>, row: Row, r: nat, child: seq<E>, hasIndex: bool, n: nat)
    requires row.Some? && n <= Length(row) && InChild(row, child)
    ensures IsTransformed(lambda, ListEntry(row.value.offset, n), r, child, hasIndex,
                          RowSoFar(ListTransform, lambda, row, r, child, hasIndex, n))
  {
    if n > 0 {
      TransformedRow(lambda, row, r, child, hasIndex, n - 1);
    }
  }

  lemma KeepOne<E>(holds: E -> bool, lambda: Lambda<E>, list: ListEntry, r: nat, child: seq<E>, hasIndex: bool, n: nat, slice: seq<E>)
    requires n < list.length && list.offset + list.length <= |child|
    requires IsFilterOf(holds, lambda, list, r, child, hasIndex, n, slice)
    requires holds(lambda(child[list.offset + n], if hasIndex then Some(n + 1) else None, r))
    ensures IsFilterOf(holds, lambda, list, r, child, hasIndex, n + 1, slice + [child[list.offset + n]])
  {
    var picks :| IsFiltered(holds, lambda, list, r, child, hasIndex, n, picks, slice);
    assert IsFiltered(holds, lambda, list, r, child, hasIndex, n + 1, picks + [n], slice + [child[list.offset + n]]);
  }

  lemma DropOne<E>(holds: E -> bool, lambda: Lambda<E>, list: ListEntry, r: nat, child: seq<E>, hasIndex: bool, n: nat, slice: seq<E>)
    requires n < list.length && list.offset + list.length <= |child|
    requires IsFilterOf(holds, lambda, list, r, child, hasIndex, n, slice)
    requires !holds(lambda(child[list.offset + n], if hasIndex then Some(n + 1) else None, r))
    ensures IsFilterOf(holds, lambda, list, r, child, hasIndex, n + 1, slice)
  {
    var picks :| IsFiltered(holds, lambda, list, r, child, hasIndex, n, picks, slice);
    assert IsFiltered(holds, lambda, list, r, child, hasIndex, n + 1, picks, slice);
  }

  lemma FilterStep<E>(f: Functor<E>, lambda: Lambda<E>, row: Row, r: nat, child: seq<E>, hasIndex: bool, n: nat,
                      slice: seq<E>, next: seq<E>)
    requires f.ListFilter? && row.Some? && n < Length(row) && InChild(row, child)
    requires IsFilterOf(f.holds, lambda, row.value, r, child, hasIndex, n, slice)
    requires next == slice + Contribution(f, lambda, child, CellOf(row, r, hasIndex, n))
    ensures IsFilterOf(f.holds, lambda, row.value, r, child, hasIndex, n + 1, next)
  {
    if f.holds(lambda(child[row.value.offset + n], if hasIndex then Some(n + 1) else None, r)) {
      KeepOne(f.holds, lambda, row.value, r, child, hasIndex, n, slice);
    } else {
      DropOne(f.holds, lambda, row.value, r, child, hasIndex, n, slice);
      assert next == slice;
    }
  }

  lemma {:induction false} FilteredRow<E>(f: Functor<E>, lambda: Lambda<E>, row: Row, r: nat, child: seq<E>, hasIndex: bool, n: nat)
    requires f.ListFilter? && row.Some? && n <= Length(row) && InChild(row, child)
    ensures IsFilterOf(f.holds, lambda, row.value, r, child, hasIndex, n, RowSoFar(f, lambda, row, r, child, hasIndex, n))
  {
    if n == 0 {
      assert IsFiltered(f.holds, lambda, row.value, r, child, hasIndex, 0, [], []);
    } else {
      FilteredRow(f, lambda, row, r, child, hasIndex, n - 1);
      FilterStep(f, lambda, row, r, child, hasIndex, n - 1,
                 RowSoFar(f, lambda, row, r, child, hasIndex, n - 1), RowSoFar(f, lambda, row, r, child, hasIndex, n));
    }
  }

  /** The result lists are as long as the rows' own results, so the slices tile the result. */
  lemma {:induction false} SharesAreBefore<E>(f: Functor<E>, lambda: Lambda<E>, child: seq<E>, rows: seq<Row>, hasIndex: bool,
                                              entries: seq<ListEntry>, n: nat)
    requires n <= |rows| == |entries| && forall r :: 0 <= r < |rows| ==> InChild(rows[r], child)
    requires forall r :: 0 <= r < |rows| && rows[r].Some? ==> entries[r].length == |RowResult(f, lambda, child, rows, hasIndex, r)|
    ensures Shares(rows, entries, n) == |Before(f, lambda, child, rows, hasIndex, n)|
  {
    if n > 0 {
      SharesAreBefore(f, lambda, child, rows, hasIndex, entries, n - 1);
      BeforeStep(f, lambda, child, rows, hasIndex, n - 1);
    }
  }

  lemma ResultIsLaidOut<E>(f: Functor<E>, lambda: Lambda<E>, child: seq<E>, rows: seq<Row>, hasIndex: bool, entries: seq<ListEntry>)
    requires |entries| == |rows| && forall r :: 0 <= r < |rows| ==> InChild(rows[r], child)
    requires forall r :: 0 <= r < |rows| && rows[r].Some? ==>
               entries[r] == ListEntry(|Before(f, lambda, child, rows, hasIndex, r)|, |RowResult(f, lambda, child, rows, hasIndex, r)|)
    ensures LaidOut(rows, entries, Before(f, lambda, child, rows, hasIndex, |rows|))
  {
    SharesAreBefore(f, lambda, child, rows, hasIndex, entries, |rows|);
    forall r | 0 <= r < |rows| && rows[r].Some?
      ensures entries[r].offset == Shares(rows, entries, r)
      ensures entries[r].offset + entries[r].length <= |Before(f, lambda, child, rows, hasIndex, |rows|)|
    {
      SharesAreBefore(f, lambda, child, rows, hasIndex, entries, r);
      ResultsInOrder(f, lambda, child, rows, hasIndex, r);
    }
  }

  /** What one row finds in its slice of the result. */
  ghost predicate IsResultOf<E>(f: Functor<E>, lambda: Lambda<E>, list: ListEntry, r: nat, child: seq<E>, hasIndex: bool, slice: seq<E>)
    requires list.offset + list.length <= |child|
  {
    match f
    case ListTransform => IsTransformed(lambda, list, r, child, hasIndex, slice)
    case ListFilter(holds) => IsFilterOf(holds, lambda, list, r, child, hasIndex, list.length, slice)
  }

  lemma RowOfResult<E>(f: Functor<E>, lambda: Lambda<E>, child: seq<E>, rows: seq<Row>, hasIndex: bool, r: nat)
    requires r < |rows| && rows[r].Some? && forall r :: 0 <= r < |rows| ==> InChild(rows[r], child)
    ensures IsResultOf(f, lambda, rows[r].value, r, child, hasIndex, RowResult(f, lambda, child, rows, hasIndex, r))
  {
    var row := rows[r];
    RowSoFarIsOutput(f, lambda, row, r, child, hasIndex, Length(row));
    if f.ListFilter? {
      FilteredRow(f, lambda, row, r, child, hasIndex, Length(row));
    } else {
      TransformedRow(lambda, row, r, child, hasIndex, Length(row));
    }
  }

  /** The slice an entry stands for. */
  function SliceOf<E>(result: seq<E>, entry: ListEntry): seq<E>
    requires entry.offset + entry.length <= |result|
  {
    result[entry.offset..entry.offset + entry.length]
  }

  lemma SliceOfRow<E>(f: Functor<E>, lambda: Lambda<E>, child: seq<E>, rows: seq<Row>, hasIndex: bool, r: nat, entry: ListEntry,
                      result: seq<E>)
    requires r < |rows| && rows[r].Some? && forall r :: 0 <= r < |rows| ==> InChild(rows[r], child)
    requires result == Before(f, lambda, child, rows, hasIndex, |rows|)
    requires entry.offset == |Before(f, lambda, child, rows, hasIndex, r)|
    requires entry.length == |RowResult(f, lambda, child, rows, hasIndex, r)|
    ensures entry.offset + entry.length <= |result|
    ensures IsResultOf(f, lambda, rows[r].value, r, child, hasIndex, SliceOf(result, entry))
  {
    ResultsInOrder(f, lambda, child, rows, hasIndex, r);
    RowOfResult(f, lambda, child, rows, hasIndex, r);
  }

  lemma EntriesAreResults<E>(f: Functor<E>, lambda: Lambda<E>, child: seq<E>, rows: seq<Row>, hasIndex: bool, entries: seq<ListEntry>,
                             result: seq<E>)
    requires |entries| == |rows| && forall r :: 0 <= r < |rows| ==> InChild(rows[r], child)
    requires result == Before(f, lambda, child, rows, hasIndex, |rows|)
    requires forall r :: 0 <= r < |rows| && rows[r].Some? ==>
               entries[r] == ListEntry(|Before(f, lambda, child, rows, hasIndex, r)|, |RowResult(f, lambda, child, rows, hasIndex, r)|)
    ensures LaidOut(rows, entries, result)
    ensures forall r :: 0 <= r < |rows| && rows[r].Some? ==>
              IsResultOf(f, lambda, rows[r].value, r, child, hasIndex, SliceOf(result, entries[r]))
  {
    ResultIsLaidOut(f, lambda, child, rows, hasIndex, entries);
    forall r | 0 <= r < |rows| && rows[r].Some?
      ensures IsResultOf(f, lambda, rows[r].value, r, child, hasIndex, SliceOf(result, entries[r]))
    {
      SliceOfRow(f, lambda, child, rows, hasIndex, r, entries[r], result);
    }
  }

  /** list_filter and list_transform: for any vector size the child of the result is the results of
      the rows, one behind the other, and each row has its own slice of it. */
  method ExecuteLambda<E>(f: Functor<E>, lambda: Lambda<E>, rows: seq<Row>, child: seq<E>, hasIndex: bool, vectorSize: nat)
    returns (entries: array<ListEntry>, validity: array<bool>, result: seq<E>)
    requires vectorSize > 0 && forall r :: 0 <= r < |rows| ==> InChild(rows[r], child)
    ensures result == Before(f, lambda, child, rows, hasIndex, |rows|)
    ensures entries.Length == validity.Length == |rows|
    ensures forall r :: 0 <= r < |rows| ==> (validity[r] <==> rows[r].Some?)
    ensures forall r :: 0 <= r < |rows| && (f.ListFilter? || rows[r].Some?) ==>
              entries[r] == ListEntry(|Before(f, lambda, child, rows, hasIndex, r)|, |RowResult(f, lambda, child, rows, hasIndex, r)|)
    ensures LaidOut(rows, entries[..], result)
    ensures forall r :: 0 <= r < |rows| && rows[r].Some? ==>
              IsResultOf(f, lambda, rows[r].value, r, child, hasIndex, SliceOf(result, entries[r]))
  {
    var exec := new LambdaExecuteInfo(f, lambda, rows, child, hasIndex, vectorSize);
    exec.ExecuteRows(rows);
    exec.EntriesAreSlices(rows);
    entries, validity, result := exec.entries, exec.validity, exec.result;
    EntriesAreResults(f, lambda, child, rows, hasIndex, entries[..], result);
  }

  lemma FilterEntries<E>(f: Functor<E>, lambda: Lambda<E>, child: seq<E>, rows: seq<Row>, hasIndex: bool, p: Position)
    requires forall r :: 0 <= r < |rows| ==> InChild(rows[r], child)
    requires Cursor(f, lambda, child, Lengths(rows, |rows|), Cells(rows, hasIndex, |rows|), p) == Tracked
    requires |p.written| < |rows| ==> Lengths(rows, |rows|)[|p.written|] > 0
    ensures |p.written| == |rows|
    ensures forall r :: 0 <= r < |rows| ==>
              p.written[r] == ListEntry(|Before(f, lambda, child, rows, hasIndex, r)|, |RowResult(f, lambda, child, rows, hasIndex, r)|)
  {
    var lengths, cells := Lengths(rows, |rows|), Cells(rows, hasIndex, |rows|);
    CellsLength(rows, hasIndex, |rows|, |rows|);
    CursorAtEnd(f, lambda, child, lengths, cells, p);
    forall r | 0 <= r < |rows|
      ensures p.written[r] == ListEntry(|Before(f, lambda, child, rows, hasIndex, r)|, |RowResult(f, lambda, child, rows, hasIndex, r)|)
    {
      assert EntryIsFinal(f, lambda, child, lengths, cells, p.written, r);
      EntryOfRow(f, lambda, child, rows, hasIndex, r);
    }
  }

  lemma TransformEntries<E>(f: Functor<E>, lambda: Lambda<E>, child: seq<E>, rows: seq<Row>, hasIndex: bool, written: seq<ListEntry>)
    requires f.ListTransform? && |written| == |rows| && forall r :: 0 <= r < |rows| ==> InChild(rows[r], child)
    requires forall r :: 0 <= r < |rows| && rows[r].Some? ==>
               written[r] == ListEntry(Sum(Lengths(rows, r), r), Length(rows[r]))
    ensures forall r :: 0 <= r < |rows| && rows[r].Some? ==>
              written[r] == ListEntry(|Before(f, lambda, child, rows, hasIndex, r)|, |RowResult(f, lambda, child, rows, hasIndex, r)|)
  {
    forall r | 0 <= r < |rows| && rows[r].Some?
      ensures written[r] == ListEntry(|Before(f, lambda, child, rows, hasIndex, r)|, |RowResult(f, lambda, child, rows, hasIndex, r)|)
    {
      CellsLength(rows, hasIndex, r, r);
      RowCellsLength(rows[r], r, hasIndex, Length(rows[r]));
      AllCellsInside(rows, hasIndex, r, child);
      RowCellsInside(rows[r], r, hasIndex, Length(rows[r]), child);
      TransformKeepsCount(lambda, child, Cells(rows, hasIndex, r));
      TransformKeepsCount(lambda, child, RowCells(rows[r], r, hasIndex, Length(rows[r])));
    }
  }
}
