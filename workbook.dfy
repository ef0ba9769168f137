/** The active worksheet of the validation stage and the three operations on
    it that do not group rows: the header row, the scan for the next empty
    output row, and the habitat columns K and T. */
module Workbook {
  import opened Runtime
  import opened Classify

  /** The cells holding a value, keyed by (row, column), both counted from 1.
      A cell openpyxl holds no value for is absent. */
  type Cells = map<(int, int), Value>

  /** The value of one cell, None when it has none. */
  function Get(cells: Cells, r: int, c: int): Option<Value>
  {
    if (r, c) in cells then Some(cells[(r, c)]) else None
  }

  /** `maxRow` bounds the sheet as openpyxl's `max_row` does: it is at least 1
      and no cell holding a value lies below it. */
  predicate InBounds(cells: Cells, maxRow: int)
  {
    maxRow >= 1 && forall p :: p in cells ==> 1 <= p.0 <= maxRow && 1 <= p.1
  }

  /** Columns A to K (1 to 11) of row r hold no value. */
  predicate RowEmpty(cells: Cells, r: int)
  {
    forall c :: 1 <= c <= 11 ==> (r, c) !in cells
  }

  /** The eleven headers of row 1 (secondary.py:22-24). */
  const Headers: seq<string> :=
    ["VALIDATION", "SEASON", "FILENAME", "SPECIES 1", "HOW MANY OF SPECIES 1",
     "SPECIES 2", "HOW MANY OF SPECIES 2", "TIME OF DAY", "TEMPERATURE",
     "MONTH", "HABITAT"]

  /** The active worksheet, updated in place. */
  class Sheet {
    var cells: Cells
    var maxRow: int

    ghost predicate Valid()
      reads this
    {
      InBounds(cells, maxRow)
    }

    constructor (cells: Cells, maxRow: int)
      requires InBounds(cells, maxRow)
      ensures this.cells == cells && this.maxRow == maxRow && Valid()
    {
      this.cells := cells;
      this.maxRow := maxRow;
    }

    /** `sheet.cell(row=r, column=c).value = v`: the cell takes the value and
        `max_row` grows to cover it. */
    method SetCell(r: int, c: int, v: Value)
      requires Valid() && r >= 1 && c >= 1
      modifies this
      ensures cells == old(cells)[(r, c) := v]
      ensures maxRow == Max(old(maxRow), r)
      ensures Valid()
    {
      cells := cells[(r, c) := v];
      maxRow := Max(maxRow, r);
    }
  }

  /** Setting one cell changes the value of that cell alone. */
  lemma GetAfterSet(cells: Cells, r: int, c: int, v: Value)
    ensures forall r', c' :: Get(cells[(r, c) := v], r', c') == Updated(cells, r, c, v, r', c')
  {
  }

  /** The value of cell (r', c') once cell (r, c) is set to v. */
  function Updated(cells: Cells, r: int, c: int, v: Value, r': int, c': int): Option<Value>
  {
    if r' == r && c' == c then Some(v) else Get(cells, r', c')
  }

  // ---------------------------------------------------------------------------
  // find_next_empty_row

  /** The first row from r up to (not including) `limit` whose columns A to K
      are empty, or `limit - 1` when there is none. */
  function FirstEmptyFrom(cells: Cells, r: int, limit: int): (n: int)
    ensures n <= limit - 1 && (r < limit ==> r <= n)
    decreases limit - r
  {
    if r >= limit then limit - 1
    else if RowEmpty(cells, r) then r
    else FirstEmptyFrom(cells, r + 1, limit)
  }

  /** `find_next_empty_row` (secondary.py:34-38): rows 2 to `max_row + 1`
      are scanned, with `max_row + 1` as the fallback. */
  function NextEmptyRow(cells: Cells, maxRow: int): (n: int)
    ensures maxRow >= 1 ==> 2 <= n <= maxRow + 1
  {
    FirstEmptyFrom(cells, 2, maxRow + 2)
  }

  lemma {:induction false} FirstEmptyFromSpec(cells: Cells, r: int, limit: int)
    requires r < limit && RowEmpty(cells, limit - 1)
    ensures r <= FirstEmptyFrom(cells, r, limit) < limit
    ensures RowEmpty(cells, FirstEmptyFrom(cells, r, limit))
    ensures forall q :: r <= q < FirstEmptyFrom(cells, r, limit) ==> !RowEmpty(cells, q)
    decreases limit - r
  {
    if !RowEmpty(cells, r) {
      FirstEmptyFromSpec(cells, r + 1, limit);
    }
  }

  /** The next empty row is at least 2 and at most `max_row + 1`, its columns
      A to K are empty, and every row from 2 before it has a value among them. */
  lemma NextEmptyRowSpec(cells: Cells, maxRow: int)
    requires InBounds(cells, maxRow)
    ensures var n := NextEmptyRow(cells, maxRow);
      2 <= n <= maxRow + 1 && RowEmpty(cells, n) &&
      forall q :: 2 <= q < n ==> !RowEmpty(cells, q)
  {
    assert RowEmpty(cells, maxRow + 1);
    FirstEmptyFromSpec(cells, 2, maxRow + 2);
  }

  /** Any row satisfying that description is the next empty row. */
  lemma NextEmptyRowUnique(cells: Cells, maxRow: int, n: int)
    requires InBounds(cells, maxRow)
    requires 2 <= n && RowEmpty(cells, n) && forall q :: 2 <= q < n ==> !RowEmpty(cells, q)
    ensures NextEmptyRow(cells, maxRow) == n
  {
    NextEmptyRowSpec(cells, maxRow);
  }

  /** The result does not depend on which bound `max_row` reports, as long as
      no value lies below it: the cells openpyxl creates empty while reading
      move `max_row` without changing the answer. */
  lemma NextEmptyRowIgnoresBound(cells: Cells, m1: int, m2: int)
    requires InBounds(cells, m1) && InBounds(cells, m2)
    ensures NextEmptyRow(cells, m1) == NextEmptyRow(cells, m2)
  {
    NextEmptyRowSpec(cells, m1);
    NextEmptyRowUnique(cells, m2, NextEmptyRow(cells, m1));
  }

  /** Adding values never moves the next empty row up, and filling the next
      empty row moves it down past that row. */
  lemma NextEmptyRowGrows(cells: Cells, maxRow: int, cells': Cells, maxRow': int)
    requires InBounds(cells, maxRow) && InBounds(cells', maxRow')
    requires cells.Keys <= cells'.Keys
    ensures NextEmptyRow(cells, maxRow) <= NextEmptyRow(cells', maxRow')
    ensures (NextEmptyRow(cells, maxRow), 1) in cells' ==> NextEmptyRow(cells, maxRow) < NextEmptyRow(cells', maxRow')
  {
    NextEmptyRowSpec(cells, maxRow);
    NextEmptyRowSpec(cells', maxRow');
    var n, n' := NextEmptyRow(cells, maxRow), NextEmptyRow(cells', maxRow');
    forall q | 2 <= q < n ensures !RowEmpty(cells', q) {
      assert !RowEmpty(cells, q);
      var c :| 1 <= c <= 11 && (q, c) in cells;
      assert (q, c) in cells';
    }
  }

  /** `find_next_empty_row` (secondary.py:34-38), scanning the sheet. */
  method FindNextEmptyRow(sheet: Sheet) returns (row: int)
    ensures row == NextEmptyRow(sheet.cells, sheet.maxRow)
  {
    var limit := sheet.maxRow + 2;
    row := 2;
    while row < limit
      invariant 2 <= row && (row <= limit || limit < 2)
      invariant FirstEmptyFrom(sheet.cells, row, limit) == NextEmptyRow(sheet.cells, sheet.maxRow)
      decreases limit - row
    {
      var empty := true;
      for c := 1 to 12
        invariant empty <==> forall c' :: 1 <= c' < c ==> (row, c') !in sheet.cells
      {
        if (row, c) in sheet.cells {
          empty := false;
        }
      }
      if empty {
        return;
      }
      row := row + 1;
    }
    row := sheet.maxRow + 1;
  }

  // ---------------------------------------------------------------------------
  // create_headings

  /** The value of cell (r, c) once the headers of columns 1 to `upto - 1`
      are written to row 1. */
  function Headed(cells: Cells, upto: int, r: int, c: int): Option<Value>
  {
    if r == 1 && 1 <= c < upto && c <= |Headers| then Some(Text(Headers[c - 1])) else Get(cells, r, c)
  }

  /** `create_headings` (secondary.py:16-31): row 1, columns 1 to 11, takes
      the eleven headers; every other cell keeps its value. */
  method CreateHeadings(sheet: Sheet)
    requires sheet.Valid()
    modifies sheet
    ensures sheet.Valid() && sheet.maxRow == old(sheet.maxRow)
    ensures forall r, c :: Get(sheet.cells, r, c) == Headed(old(sheet.cells), 12, r, c)
  {
    for col := 1 to 12
      invariant sheet.Valid() && sheet.maxRow == old(sheet.maxRow)
      invariant forall r, c :: Get(sheet.cells, r, c) == Headed(old(sheet.cells), col, r, c)
    {
      ghost var before := sheet.cells;
      GetAfterSet(sheet.cells, 1, col, Text(Headers[col - 1]));
      sheet.SetCell(1, col, Text(Headers[col - 1]));
      forall r, c ensures Get(sheet.cells, r, c) == Headed(old(sheet.cells), col + 1, r, c) {
        assert Get(sheet.cells, r, c) == Updated(before, 1, col, Text(Headers[col - 1]), r, c);
        assert Get(before, r, c) == Headed(old(sheet.cells), col, r, c);
      }
    }
  }

  /** The header row does not change the next empty row, which is searched
      from row 2. */
  lemma HeadingsKeepNextEmptyRow(cells: Cells, cells': Cells, maxRow: int)
    requires InBounds(cells, maxRow) && InBounds(cells', maxRow)
    requires forall r, c :: r != 1 ==> Get(cells', r, c) == Get(cells, r, c)
    ensures NextEmptyRow(cells', maxRow) == NextEmptyRow(cells, maxRow)
  {
    NextEmptyRowSpec(cells, maxRow);
    var n := NextEmptyRow(cells, maxRow);
    forall q | 2 <= q <= n ensures RowEmpty(cells', q) <==> RowEmpty(cells, q) {
      forall c | 1 <= c <= 11 ensures (q, c) in cells' <==> (q, c) in cells {
        assert Get(cells', q, c) == Get(cells, q, c);
      }
    }
    NextEmptyRowUnique(cells', maxRow, n);
  }

  // ---------------------------------------------------------------------------
  // add_habitat_type

  /** The number of rows from lo to hi whose cell in column `col` is true. */
  function TruthyCount(cells: Cells, col: int, lo: int, hi: int): (n: int)
    ensures 0 <= n <= Max(0, hi - lo + 1)
    decreases hi - lo
  {
    if lo > hi then 0
    else (if Truthy(Get(cells, lo, col)) then 1 else 0) + TruthyCount(cells, col, lo + 1, hi)
  }

  /** The bound `add_habitat_type` computes (secondary.py:161-164): column L
      never holds more true values than the sheet has rows, so it is `max_row`. */
  lemma HabitatBoundIsMaxRow(cells: Cells, maxRow: int)
    requires maxRow >= 1
    ensures Max(maxRow, Max(maxRow, TruthyCount(cells, 12, 1, maxRow))) == maxRow
  {
  }

  /** The value of cell (r, c) once the pass over rows 2 to `last` has
      written, in column `dst`, the habitat named by column `src` wherever
      column `src` is true. */
  function HabitatPass(cells: Cells, src: int, dst: int, last: int, r: int, c: int): Option<Value>
  {
    if c == dst && 2 <= r <= last && Truthy(Get(cells, r, src)) then Some(Text(HabitatOfCell(cells[(r, src)])))
    else Get(cells, r, c)
  }

  /** Each cell after `add_habitat_type` over rows 2 to `maxRow`: column K
      holds the habitat named by column C where column C is true, column T the
      habitat named by column L where column L is true; nothing else changes. */
  function Enriched(cells: Cells, maxRow: int, r: int, c: int): (v: Option<Value>)
    ensures (c != 11 && c != 20) || r < 2 || r > maxRow ==> v == Get(cells, r, c)
    ensures v != Get(cells, r, c) ==> v.Some? && v.value.Text? && v.value.s in HabitatLabels
  {
    if c == 20 then HabitatPass(cells, 12, 20, maxRow, r, c) else HabitatPass(cells, 3, 11, maxRow, r, c)
  }

  /** Cell (r, c) during the second pass, once it has reached row `last`. */
  function Enriching(cells: Cells, maxRow: int, last: int, r: int, c: int): Option<Value>
  {
    if c == 20 then HabitatPass(cells, 12, 20, last, r, c) else Enriched(cells, maxRow, r, c)
  }

  /** `add_habitat_type` (secondary.py:155-181): two passes over rows 2 to
      `max_row`, writing column K from column C and then column T from
      column L. */
  method AddHabitatType(sheet: Sheet)
    requires sheet.Valid()
    modifies sheet
    ensures sheet.Valid() && sheet.maxRow == old(sheet.maxRow)
    ensures forall r, c :: Get(sheet.cells, r, c) == Enriched(old(sheet.cells), old(sheet.maxRow), r, c)
  {
    var maxRowC := sheet.maxRow;
    var maxRowL := Max(sheet.maxRow, TruthyCount(sheet.cells, 12, 1, sheet.maxRow));
    var maxRow := Max(maxRowC, maxRowL);
    HabitatBoundIsMaxRow(sheet.cells, sheet.maxRow);
    for row := 2 to maxRow + 1
      invariant sheet.Valid() && sheet.maxRow == old(sheet.maxRow)
      invariant forall r, c :: Get(sheet.cells, r, c) == HabitatPass(old(sheet.cells), 3, 11, row - 1, r, c)
    {
      var filename := Get(sheet.cells, row, 3);
      assert filename == Get(old(sheet.cells), row, 3);
      ghost var before := sheet.cells;
      if Truthy(filename) {
        GetAfterSet(sheet.cells, row, 11, Text(HabitatOfCell(filename.value)));
        sheet.SetCell(row, 11, Text(HabitatOfCell(filename.value)));
      }
      forall r, c ensures Get(sheet.cells, r, c) == (HabitatPass(old(sheet.cells), 3, 11, row, r, c)) {
        assert Get(before, r, c) == (HabitatPass(old(sheet.cells), 3, 11, row - 1, r, c));
      }
    }
    for row := 2 to maxRow + 1
      invariant sheet.Valid() && sheet.maxRow == old(sheet.maxRow)
      invariant forall r, c :: Get(sheet.cells, r, c) == Enriching(old(sheet.cells), maxRow, row - 1, r, c)
    {
      var filename := Get(sheet.cells, row, 12);
      assert filename == Get(old(sheet.cells), row, 12);
      ghost var before := sheet.cells;
      if Truthy(filename) {
        GetAfterSet(sheet.cells, row, 20, Text(HabitatOfCell(filename.value)));
        sheet.SetCell(row, 20, Text(HabitatOfCell(filename.value)));
      }
      forall r, c ensures Get(sheet.cells, r, c) == Enriching(old(sheet.cells), maxRow, row, r, c) {
        assert Get(before, r, c) == Enriching(old(sheet.cells), maxRow, row - 1, r, c);
      }
    }
  }

  /** The result does not depend on which bound `max_row` reports, as long as
      no value lies below it. */
  lemma EnrichedIgnoresBound(cells: Cells, m1: int, m2: int)
    requires InBounds(cells, m1) && InBounds(cells, m2)
    ensures forall r, c :: Enriched(cells, m1, r, c) == Enriched(cells, m2, r, c)
  {
    forall r, c ensures Enriched(cells, m1, r, c) == Enriched(cells, m2, r, c) {
      if Truthy(Get(cells, r, 3)) {
        assert (r, 3) in cells;
      }
      if Truthy(Get(cells, r, 12)) {
        assert (r, 12) in cells;
      }
    }
  }

  /** After `add_habitat_type`, column K of every row from 2 whose column C
      is true holds one of the six habitat labels, and so does column T of
      every row whose column L is true. */
  lemma EnrichedLabels(cells: Cells, maxRow: int, r: int)
    requires InBounds(cells, maxRow) && r >= 2
    ensures Truthy(Get(cells, r, 3)) ==>
      var v := Enriched(cells, maxRow, r, 11); v.Some? && v.value.Text? && v.value.s in HabitatLabels
    ensures Truthy(Get(cells, r, 12)) ==>
      var v := Enriched(cells, maxRow, r, 20); v.Some? && v.value.Text? && v.value.s in HabitatLabels
  {
    if Truthy(Get(cells, r, 3)) {
      assert (r, 3) in cells;
    }
    if Truthy(Get(cells, r, 12)) {
      assert (r, 12) in cells;
    }
  }
}
