/** `process_data`: the rows of the frame grouped by filename, checked for
    agreement, and consolidated into one output row per filename in columns
    A to K of the sheet. */
module Validation {
  import opened Runtime
  import opened Classify
  import opened Workbook

  /** One group of `df.groupby(df.columns[11])`: the filename it is keyed by
      and its rows in frame order, each row the frame's values by 0-based
      column. */
  datatype Group = Group(key: string, rows: seq<seq<Value>>)

  /** What pandas guarantees of a group: it has a row, and every row has the
      frame's width. */
  predicate GroupFramed(g: Group, width: nat)
  {
    |g.rows| > 0 && forall j :: 0 <= j < |g.rows| ==> |g.rows[j]| == width
  }

  predicate Framed(groups: seq<Group>, width: nat)
  {
    forall i :: 0 <= i < |groups| ==> GroupFramed(groups[i], width)
  }

  const NODATA := Text("NODATA")

  // ---------------------------------------------------------------------------
  // is_valid

  /** The distinct values of column c, NaN left out, as `nunique` counts them. */
  function Distinct(rows: seq<seq<Value>>, c: nat): (d: set<string>)
    ensures rows == [] ==> d == {}
  {
    set i | 0 <= i < |rows| && c < |rows[i]| && rows[i][c].Text? :: rows[i][c].s
  }

  /** `group.iloc[:, [12, 13, 14, 15]].nunique().eq(1).all()` (secondary.py:102). */
  predicate IsValid(rows: seq<seq<Value>>): (valid: bool)
    ensures valid ==> |Distinct(rows, 12)| == 1 && rows != []
  {
    forall c :: 12 <= c <= 15 ==> |Distinct(rows, c)| == 1
  }

  /** Column c has a value in some row, and all its values are the same. */
  predicate Agrees(rows: seq<seq<Value>>, c: nat)
    requires forall i :: 0 <= i < |rows| ==> c < |rows[i]|
  {
    && (exists i :: 0 <= i < |rows| && rows[i][c].Text?)
    && forall i, j :: 0 <= i < |rows| && 0 <= j < |rows| && rows[i][c].Text? && rows[j][c].Text? ==>
         rows[i][c] == rows[j][c]
  }

  lemma DistinctOne(rows: seq<seq<Value>>, c: nat)
    requires forall i :: 0 <= i < |rows| ==> c < |rows[i]|
    ensures |Distinct(rows, c)| == 1 <==> Agrees(rows, c)
  {
    var d := Distinct(rows, c);
    if |d| == 1 {
      var x :| x in d;
      assert |d - {x}| == 0;
      assert d - {x} == {};
      forall i, j | 0 <= i < |rows| && 0 <= j < |rows| && rows[i][c].Text? && rows[j][c].Text?
        ensures rows[i][c] == rows[j][c]
      {
        assert rows[i][c].s in d && rows[j][c].s in d;
      }
      var i :| 0 <= i < |rows| && c < |rows[i]| && rows[i][c].Text? && rows[i][c].s == x;
    }
    if Agrees(rows, c) {
      var i :| 0 <= i < |rows| && rows[i][c].Text?;
      assert d == {rows[i][c].s};
    }
  }

  /** A group is valid exactly when each of columns 12 to 15 has a value in
      some row and no two of its values differ; a column of NaN alone makes
      the group invalid. */
  lemma IsValidMeans(rows: seq<seq<Value>>)
    requires forall i :: 0 <= i < |rows| ==> 16 <= |rows[i]|
    ensures IsValid(rows) <==> forall c :: 12 <= c <= 15 ==> Agrees(rows, c)
  {
    forall c | 12 <= c <= 15 ensures |Distinct(rows, c)| == 1 <==> Agrees(rows, c) {
      DistinctOne(rows, c);
    }
  }

  // ---------------------------------------------------------------------------
  // The first row whose column 16 is not "NODATA"

  /** `group[group.iloc[:, 16] != "NODATA"].iloc[0]` (secondary.py:123, 132)
      as a position: NaN is not "NODATA" and so is kept by the filter. */
  function FirstNotNoData(rows: seq<seq<Value>>): (r: Option<nat>)
    requires forall i :: 0 <= i < |rows| ==> 16 < |rows[i]|
    ensures r.Some? ==> r.value < |rows| && rows[r.value][16] != NODATA
    ensures r.Some? ==> forall j :: 0 <= j < r.value ==> rows[j][16] == NODATA
    ensures r.None? ==> forall j :: 0 <= j < |rows| ==> rows[j][16] == NODATA
    decreases |rows|
  {
    if rows == [] then None
    else if rows[0][16] != NODATA then Some(0)
    else
      match FirstNotNoData(rows[1..])
      case None => None
      case Some(j) => Some(j + 1)
  }

  // ---------------------------------------------------------------------------
  // The writes of one group

  /** `sheet.cell(row=row, column=col).value = v`. */
  datatype Write = Write(row: int, col: int, v: Value)

  /** The cell assignments made for one group, in order, and the IndexError
      that cuts them short when the frame is too narrow. */
  datatype Writes = Writes(cells: seq<Write>, error: Option<PyError>)

  function Flag(valid: bool): Value
  {
    if valid then Text("TRUE") else Text("FALSE")
  }

  /** Columns C, A and B of the output row (secondary.py:105-112). */
  function Head(g: Group, row: int): (ws: seq<Write>)
    ensures |ws| == 3 && forall k :: 0 <= k < 3 ==> ws[k].row == row && ws[k].col == [3, 1, 2][k]
  {
    [Write(row, 3, Text(g.key)), Write(row, 1, Flag(IsValid(g.rows))), Write(row, 2, Text(ExtractSeason(g.key)))]
  }

  /** The first n of the copies `src[from + k]` to column `to + k` of the output row. */
  function Copies(row: int, src: seq<Value>, from: nat, to: int, n: nat): (ws: seq<Write>)
    requires from + n <= |src|
    ensures |ws| == n
    ensures forall k :: 0 <= k < n ==> ws[k] == Write(row, to + k, src[from + k])
  {
    if n == 0 then [] else Copies(row, src, from, to, n - 1) + [Write(row, to + n - 1, src[from + n - 1])]
  }

  /** The assignments after the head (secondary.py:115-137). In the valid
      case the copy of columns 12 to 19 stops at the frame's edge; in the
      invalid case reading column 16 raises before any write when the frame
      lacks it, and the copy of columns 16 to 18 stops at the frame's edge;
      with every column 16 "NODATA", row 9 rather than the output row gets
      the middle "NODATA". */
  function Tail(g: Group, row: int, width: nat): (t: Writes)
    requires GroupFramed(g, width) && width >= 16
    ensures forall k :: 0 <= k < |t.cells| ==>
      4 <= t.cells[k].col <= 11 && (t.cells[k].row == row || (t.cells[k].row == 9 && t.cells[k].col == 9))
    ensures t.error.Some? ==> t.error == Some(IndexError) && width < 20
  {
    if IsValid(g.rows) then
      Writes(Copies(row, g.rows[0], 12, 4, Min(8, width - 12)), if width < 20 then Some(IndexError) else None)
    else if width < 17 then Writes([], Some(IndexError))
    else
      match FirstNotNoData(g.rows)
      case None => Writes([Write(row, 8, NODATA), Write(9, 9, NODATA), Write(row, 10, NODATA)], None)
      case Some(j) => Writes(Copies(row, g.rows[j], 16, 8, Min(3, width - 16)), if width < 19 then Some(IndexError) else None)
  }

  /** The assignments `process_data` makes for a new filename at `row`
      (secondary.py:102-137): reading columns 12 to 15 out of the frame
      raises before any write; otherwise the head, then the tail. */
  function GroupWrites(g: Group, row: int, width: nat): (w: Writes)
    requires GroupFramed(g, width)
    ensures Targets(w.cells, row)
    ensures width < 16 ==> w.cells == []
    ensures w.error.Some? ==> w.error == Some(IndexError) && width < 20
  {
    if width < 16 then Writes([], Some(IndexError))
    else
      var t := Tail(g, row, width);
      Writes(Head(g, row) + t.cells, t.error)
  }

  // ---------------------------------------------------------------------------
  // Applying writes to a sheet

  /** The sheet's cells with the bound openpyxl reports as `max_row`. */
  datatype Grid = Grid(cells: Cells, maxRow: int)

  /** The sheet after the assignments `ws`, in order. */
  function Apply(grid: Grid, ws: seq<Write>): Grid
    decreases |ws|
  {
    if ws == [] then grid
    else
      var before := Apply(grid, ws[..|ws| - 1]);
      var w := ws[|ws| - 1];
      Grid(before.cells[(w.row, w.col) := w.v], Max(before.maxRow, w.row))
  }

  /** The value the last assignment to (r, c) among `ws` gives it. */
  function LastWrite(ws: seq<Write>, r: int, c: int): Option<Value>
    decreases |ws|
  {
    if ws == [] then None
    else if ws[|ws| - 1].row == r && ws[|ws| - 1].col == c then Some(ws[|ws| - 1].v)
    else LastWrite(ws[..|ws| - 1], r, c)
  }

  /** Each cell after a run of assignments holds the last value assigned to
      it, or what it held before. */
  lemma {:induction false} ApplyGet(grid: Grid, ws: seq<Write>, r: int, c: int)
    ensures Get(Apply(grid, ws).cells, r, c) ==
      match LastWrite(ws, r, c) case Some(v) => Some(v) case None => Get(grid.cells, r, c)
    decreases |ws|
  {
    if ws != [] {
      ApplyGet(grid, ws[..|ws| - 1], r, c);
    }
  }

  /** Assignments keep the sheet's values bounded, never remove a value, and
      cover every cell they assign. */
  lemma {:induction false} ApplyBounds(grid: Grid, ws: seq<Write>)
    requires InBounds(grid.cells, grid.maxRow)
    requires forall k :: 0 <= k < |ws| ==> ws[k].row >= 1 && ws[k].col >= 1
    ensures InBounds(Apply(grid, ws).cells, Apply(grid, ws).maxRow)
    ensures grid.cells.Keys <= Apply(grid, ws).cells.Keys
    decreases |ws|
  {
    if ws != [] {
      ApplyBounds(grid, ws[..|ws| - 1]);
    }
  }

  /** An assignment to other cells does not change what the last assignment
      to (r, c) is. */
  lemma {:induction false} LastWriteSkip(a: seq<Write>, b: seq<Write>, r: int, c: int)
    requires forall k :: 0 <= k < |b| ==> b[k].row != r || b[k].col != c
    ensures LastWrite(a + b, r, c) == LastWrite(a, r, c)
    decreases |b|
  {
    if b == [] {
      assert a + b == a;
    } else {
      assert (a + b)[..|a + b| - 1] == a + b[..|b| - 1];
      assert (a + b)[|a + b| - 1] == b[|b| - 1];
      LastWriteSkip(a, b[..|b| - 1], r, c);
    }
  }

  /** No assignment in `ws` is to (r, c). */
  lemma {:induction false} LastWriteNone(ws: seq<Write>, r: int, c: int)
    requires forall k :: 0 <= k < |ws| ==> ws[k].row != r || ws[k].col != c
    ensures LastWrite(ws, r, c).None?
    decreases |ws|
  {
    if ws != [] {
      LastWriteNone(ws[..|ws| - 1], r, c);
    }
  }

  /** Assignments in two runs are the assignments of the whole. */
  lemma {:induction false} ApplyConcat(grid: Grid, a: seq<Write>, b: seq<Write>)
    ensures Apply(grid, a + b) == Apply(Apply(grid, a), b)
    decreases |b|
  {
    if b == [] {
      assert a + b == a;
    } else {
      assert (a + b)[..|a + b| - 1] == a + b[..|b| - 1];
      ApplyConcat(grid, a, b[..|b| - 1]);
    }
  }

  lemma ApplySnoc(grid: Grid, ws: seq<Write>, w: Write)
    ensures Apply(grid, ws + [w]) ==
      Grid(Apply(grid, ws).cells[(w.row, w.col) := w.v], Max(Apply(grid, ws).maxRow, w.row))
  {
    assert (ws + [w])[..|ws|] == ws;
  }

  // ---------------------------------------------------------------------------
  // The shape of one group's writes

  /** Every assignment is to columns A to K of the output row, or to cell
      (9, 9). */
  predicate Targets(ws: seq<Write>, row: int)
  {
    forall k :: 0 <= k < |ws| ==>
      1 <= ws[k].col <= 11 && (ws[k].row == row || (ws[k].row == 9 && ws[k].col == 9))
  }

  /** The first three assignments write columns C, A and B of the output row;
      the rest are to columns from D on. */
  predicate HeadFirst(ws: seq<Write>, g: Group, row: int)
  {
    |ws| >= 3 && ws[..3] == Head(g, row) && forall k :: 3 <= k < |ws| ==> ws[k].col >= 4
  }

  lemma GroupWritesShape(g: Group, row: int, width: nat)
    requires GroupFramed(g, width)
    ensures Targets(GroupWrites(g, row, width).cells, row)
    ensures width >= 16 ==> HeadFirst(GroupWrites(g, row, width).cells, g, row)
  {
    var ws := GroupWrites(g, row, width).cells;
    if width >= 16 {
      assert ws[..3] == Head(g, row);
    }
  }

  /** The head of a group's writes leaves columns C, A and B of the output row
      holding the filename, the flag and the season. */
  lemma HeadCells(ws: seq<Write>, g: Group, row: int)
    requires HeadFirst(ws, g, row)
    ensures LastWrite(ws, row, 3) == Some(Text(g.key))
    ensures LastWrite(ws, row, 1) == Some(Flag(IsValid(g.rows)))
    ensures LastWrite(ws, row, 2) == Some(Text(ExtractSeason(g.key)))
  {
    assert ws == Head(g, row) + ws[3..];
    var head := Head(g, row);
    assert head[..2][..1] == head[..1] && head[..2] == head[..|head| - 1] && head[..1] == head[..2][..|head[..2]| - 1];
    assert LastWrite(head[..1], row, 3) == Some(Text(g.key));
    assert LastWrite(head[..2], row, 3) == Some(Text(g.key));
    LastWriteSkip(head, ws[3..], row, 1);
    LastWriteSkip(head, ws[3..], row, 2);
    LastWriteSkip(head, ws[3..], row, 3);
  }

  // ---------------------------------------------------------------------------
  // What one group's writes put in its output row

  /** The last n assignments of `Copies` decide columns `to` to `to + n - 1`. */
  lemma {:induction false} CopiesLast(a: seq<Write>, row: int, src: seq<Value>, from: nat, to: int, n: nat, k: nat)
    requires from + n <= |src| && k < n
    ensures LastWrite(a + Copies(row, src, from, to, n), row, to + k) == Some(src[from + k])
    decreases n
  {
    var ws := a + Copies(row, src, from, to, n);
    var prev := Copies(row, src, from, to, n - 1);
    assert ws[..|ws| - 1] == a + prev;
    assert ws[|ws| - 1] == Write(row, to + n - 1, src[from + n - 1]);
    if k < n - 1 {
      CopiesLast(a, row, src, from, to, n - 1, k);
    }
  }

  /** A valid group's writes leave the first row's columns 12 to 19 in
      columns D to K of the output row (secondary.py:115-118), when the frame
      has them all. */
  lemma ValidWrites(g: Group, row: int, width: nat)
    requires GroupFramed(g, width) && width >= 20 && IsValid(g.rows)
    ensures GroupWrites(g, row, width).error.None?
    ensures forall c :: 4 <= c <= 11 ==> LastWrite(GroupWrites(g, row, width).cells, row, c) == Some(g.rows[0][c + 8])
  {
    forall c | 4 <= c <= 11 ensures LastWrite(GroupWrites(g, row, width).cells, row, c) == Some(g.rows[0][c + 8]) {
      CopiesLast(Head(g, row), row, g.rows[0], 12, 4, 8, c - 4);
    }
  }

  /** An invalid group with a row whose column 16 is not "NODATA": its writes
      leave that row's columns 16 to 18 in columns H to J of the output row,
      and none goes to columns D to G or K (secondary.py:130-137). */
  lemma InvalidCopyWrites(g: Group, row: int, width: nat, j: nat)
    requires GroupFramed(g, width) && width >= 19
    requires !IsValid(g.rows) && FirstNotNoData(g.rows) == Some(j)
    ensures GroupWrites(g, row, width).error.None?
    ensures forall c :: 8 <= c <= 10 ==> LastWrite(GroupWrites(g, row, width).cells, row, c) == Some(g.rows[j][c + 8])
    ensures forall c :: (4 <= c <= 7 || c == 11) ==> LastWrite(GroupWrites(g, row, width).cells, row, c).None?
  {
    var ws := GroupWrites(g, row, width).cells;
    var copies := Copies(row, g.rows[j], 16, 8, 3);
    assert ws == Head(g, row) + copies;
    forall c | 8 <= c <= 10 ensures LastWrite(ws, row, c) == Some(g.rows[j][c + 8]) {
      CopiesLast(Head(g, row), row, g.rows[j], 16, 8, 3, c - 8);
    }
    forall c | 4 <= c <= 7 || c == 11 ensures LastWrite(ws, row, c).None? {
      forall k | 0 <= k < |ws| ensures ws[k].row != row || ws[k].col != c {
        if k >= 3 {
          assert ws[k] == copies[k - 3];
        }
      }
      LastWriteNone(ws, row, c);
    }
  }

  /** An invalid group whose every column 16 is "NODATA": its writes put
      "NODATA" in columns H and J of the output row and in cell (9, 9), and
      none goes to columns D to G and K, nor to column I unless the output
      row is row 9 (secondary.py:125-129). */
  lemma InvalidNoDataWrites(g: Group, row: int, width: nat)
    requires GroupFramed(g, width) && width >= 17
    requires !IsValid(g.rows) && FirstNotNoData(g.rows).None?
    ensures GroupWrites(g, row, width).error.None?
    ensures LastWrite(GroupWrites(g, row, width).cells, row, 8) == Some(NODATA)
    ensures LastWrite(GroupWrites(g, row, width).cells, row, 10) == Some(NODATA)
    ensures LastWrite(GroupWrites(g, row, width).cells, 9, 9) == Some(NODATA)
    ensures forall c :: (4 <= c <= 7 || c == 11 || (c == 9 && row != 9)) ==>
      LastWrite(GroupWrites(g, row, width).cells, row, c).None?
  {
    var ws := GroupWrites(g, row, width).cells;
    var tail := [Write(row, 8, NODATA), Write(9, 9, NODATA), Write(row, 10, NODATA)];
    assert ws == Head(g, row) + tail;
    assert ws[..5] == Head(g, row) + tail[..2];
    assert ws[..4] == Head(g, row) + tail[..1];
    assert LastWrite(ws, 9, 9) == Some(NODATA) by {
      assert LastWrite(ws[..5], 9, 9) == Some(NODATA);
    }
    assert LastWrite(ws, row, 8) == Some(NODATA) by {
      assert ws[..5][..4] == ws[..4];
      assert LastWrite(ws[..4], row, 8) == Some(NODATA);
    }
    forall c | 4 <= c <= 7 || c == 11 || (c == 9 && row != 9) ensures LastWrite(ws, row, c).None? {
      forall k | 0 <= k < |ws| ensures ws[k].row != row || ws[k].col != c {
        if k >= 3 {
          assert ws[k] == tail[k - 3];
        }
      }
      LastWriteNone(ws, row, c);
    }
  }

  /** Columns A to K of `row` hold what the writes of group g at that row
      left there, cell (9, 9) aside, which a later group may overwrite. At a
      row that was empty, a column no write names holds nothing. */
  predicate RowKept(cells: Cells, g: Group, row: int, width: nat)
    requires GroupFramed(g, width)
  {
    forall c :: 1 <= c <= 11 && (row != 9 || c != 9) ==>
      Get(cells, row, c) == LastWrite(GroupWrites(g, row, width).cells, row, c)
  }

  /** Columns D to G and K of the output row hold nothing. */
  predicate Unfilled(cells: Cells, row: int)
  {
    forall c :: 4 <= c <= 11 && (c <= 7 || c == 11) ==> Get(cells, row, c).None?
  }

  /** Columns D to K of the output row hold columns 12 to 19 of `src`, the
      group's first row; cell (9, 9) aside. */
  predicate ValidCopied(cells: Cells, src: seq<Value>, row: int)
    requires |src| >= 20
  {
    forall c :: 4 <= c <= 11 && (row != 9 || c != 9) ==> Get(cells, row, c) == Some(src[c + 8])
  }

  /** Columns H to J of the output row hold columns 16 to 18 of `src`, the
      first row whose column 16 is not "NODATA"; cell (9, 9) aside. The rest
      of D to K holds nothing. */
  predicate InvalidCopied(cells: Cells, src: seq<Value>, row: int)
    requires |src| >= 19
  {
    && (forall c :: 8 <= c <= 10 && (row != 9 || c != 9) ==> Get(cells, row, c) == Some(src[c + 8]))
    && Unfilled(cells, row)
  }

  /** Columns H and J of the output row hold "NODATA"; column I holds nothing
      unless the output row is row 9; the rest of D to K holds nothing. */
  predicate NoDataMarked(cells: Cells, row: int)
  {
    && Get(cells, row, 8) == Some(NODATA)
    && Get(cells, row, 10) == Some(NODATA)
    && (row != 9 ==> Get(cells, row, 9).None?)
    && Unfilled(cells, row)
  }

  /** The consolidated output row of group g, for a group whose writes raised
      nothing: C is its filename, A its validation flag, B its season, and
      D to K as its branch of secondary.py:115-137 fills them. */
  predicate Consolidated(cells: Cells, g: Group, row: int, width: nat)
    requires GroupFramed(g, width) && GroupWrites(g, row, width).error.None?
  {
    && Get(cells, row, 3) == Some(Text(g.key))
    && Get(cells, row, 1) == Some(Flag(IsValid(g.rows)))
    && Get(cells, row, 2) == Some(Text(ExtractSeason(g.key)))
    && if IsValid(g.rows) then ValidCopied(cells, g.rows[0], row)
       else match FirstNotNoData(g.rows)
         case None => NoDataMarked(cells, row)
         case Some(j) => InvalidCopied(cells, g.rows[j], row)
  }

  /** A row that keeps what its group's writes left is that group's
      consolidated row. */
  lemma RowKeptConsolidated(cells: Cells, g: Group, row: int, width: nat)
    requires GroupFramed(g, width) && GroupWrites(g, row, width).error.None?
    requires RowKept(cells, g, row, width)
    ensures Consolidated(cells, g, row, width)
  {
    var ws := GroupWrites(g, row, width).cells;
    GroupWritesShape(g, row, width);
    HeadCells(ws, g, row);
    if IsValid(g.rows) {
      ValidWrites(g, row, width);
    } else {
      match FirstNotNoData(g.rows)
      case None =>
        InvalidNoDataWrites(g, row, width);
      case Some(j) =>
        InvalidCopyWrites(g, row, width, j);
    }
  }

  // ---------------------------------------------------------------------------
  // The loop over the groups

  /** The state of `process_data` between groups: the sheet, the set
      `written_filenames`, `next_row`, the IndexError that ended the run
      early, and the group and output row of each filename written so far. */
  datatype Run = Run(grid: Grid, written: set<string>, nextRow: int, error: Option<PyError>, log: seq<(Group, int)>)

  /** Before the first group (secondary.py:84-87). */
  function Start(grid: Grid): (s: Run)
    ensures s.grid == grid && s.written == {} && s.log == [] && s.error.None?
    ensures grid.maxRow >= 1 ==> 2 <= s.nextRow <= grid.maxRow + 1
  {
    Run(grid, {}, NextEmptyRow(grid.cells, grid.maxRow), None, [])
  }

  /** One pass of the group loop (secondary.py:97-141): a filename already
      written is skipped; otherwise its writes are made at `next_row`, and
      `next_row` is searched again unless an IndexError escaped. */
  function Step(s: Run, g: Group, width: nat): (r: Run)
    requires GroupFramed(g, width)
    ensures r.written == s.written + {g.key}
    ensures g.key in s.written ==> r == s
    ensures r.error.Some? && s.error.None? ==> r.error == Some(IndexError) && width < 20
    ensures |s.log| <= |r.log| <= |s.log| + 1
  {
    if g.key in s.written then s
    else
      var w := GroupWrites(g, s.nextRow, width);
      var grid := Apply(s.grid, w.cells);
      if w.error.Some? then Run(grid, s.written + {g.key}, s.nextRow, w.error, s.log)
      else Run(grid, s.written + {g.key}, NextEmptyRow(grid.cells, grid.maxRow), None, s.log + [(g, s.nextRow)])
  }

  /** The group loop of secondary.py:92-141 from state s, ending at the first
      IndexError. */
  function ProcessAll(s: Run, groups: seq<Group>, width: nat): (r: Run)
    requires Framed(groups, width)
    ensures s.error.Some? ==> r == s
    ensures s.written <= r.written && |s.log| <= |r.log|
    ensures r.error.Some? && s.error.None? ==> r.error == Some(IndexError) && width < 20
    decreases |groups|
  {
    if groups == [] || s.error.Some? then s
    else ProcessAll(Step(s, groups[0], width), groups[1..], width)
  }

  lemma FramedSuffix(groups: seq<Group>, width: nat, i: nat)
    requires Framed(groups, width) && i <= |groups|
    ensures Framed(groups[i..], width)
  {
    forall k | 0 <= k < |groups[i..]| ensures GroupFramed(groups[i..][k], width) {
      assert groups[i..][k] == groups[i + k];
    }
  }

  /** The filenames of the log. */
  function LogKeys(log: seq<(Group, int)>): set<string>
  {
    set i | 0 <= i < |log| :: log[i].0.key
  }

  /** The filenames of the groups. */
  function GroupKeys(groups: seq<Group>): set<string>
  {
    set i | 0 <= i < |groups| :: groups[i].key
  }

  /** Cell (r, c) is one `process_data` never assigns, given the output rows
      of the log: any cell from column L on, and any cell outside the output
      rows other than (9, 9). */
  predicate Untouched(log: seq<(Group, int)>, r: int, c: int)
  {
    c >= 12 || ((r != 9 || c != 9) && forall i :: 0 <= i < |log| ==> log[i].1 != r)
  }

  /** Output rows go to distinct filenames at ascending rows. */
  predicate Ascending(log: seq<(Group, int)>)
  {
    forall i, j :: 0 <= i < j < |log| ==> log[i].0.key != log[j].0.key && log[i].1 < log[j].1
  }

  /** Each logged group raised nothing, and its output row lies before
      `nextRow` and keeps what the group's writes left there. */
  predicate LogKept(cells: Cells, log: seq<(Group, int)>, nextRow: int, width: nat)
  {
    forall i :: 0 <= i < |log| ==>
      && 2 <= log[i].1 < nextRow
      && GroupFramed(log[i].0, width)
      && GroupWrites(log[i].0, log[i].1, width).error.None?
      && RowKept(cells, log[i].0, log[i].1, width)
  }

  /** What holds between groups of a run that started from `start` and has
      not raised: `next_row` is the sheet's next empty row, each filename in
      `written_filenames` has exactly one output row, the output rows ascend
      and lie before `next_row`, each keeps what its group's writes left
      there, and every other cell keeps its starting value. */
  ghost predicate Consistent(start: Grid, s: Run, width: nat)
  {
    && s.error.None?
    && InBounds(s.grid.cells, s.grid.maxRow)
    && s.nextRow == NextEmptyRow(s.grid.cells, s.grid.maxRow)
    && s.written == LogKeys(s.log)
    && Ascending(s.log)
    && LogKept(s.grid.cells, s.log, s.nextRow, width)
    && (forall r, c :: Untouched(s.log, r, c) ==> Get(s.grid.cells, r, c) == Get(start.cells, r, c))
  }

  lemma StartConsistent(grid: Grid, width: nat)
    requires InBounds(grid.cells, grid.maxRow)
    ensures Consistent(grid, Start(grid), width)
  {
  }

  lemma LogKeysSnoc(log: seq<(Group, int)>, e: (Group, int))
    ensures LogKeys(log + [e]) == LogKeys(log) + {e.0.key}
  {
    var log' := log + [e];
    assert forall i :: 0 <= i < |log| ==> log'[i] == log[i];
    assert log'[|log|] == e;
  }

  lemma AscendingSnoc(log: seq<(Group, int)>, e: (Group, int))
    requires Ascending(log) && e.0.key !in LogKeys(log)
    requires forall i :: 0 <= i < |log| ==> log[i].1 < e.1
    ensures Ascending(log + [e])
  {
    var log' := log + [e];
    forall i, j | 0 <= i < j < |log'| ensures log'[i].0.key != log'[j].0.key && log'[i].1 < log'[j].1 {
      assert log'[i] == log[i];
      if j < |log| {
        assert log'[j] == log[j];
      } else {
        assert log[i].0.key in LogKeys(log);
      }
    }
  }

  /** Writes to a later output row and to (9, 9) keep every earlier output
      row as its own group's writes left it. */
  lemma LogKeptStep(grid: Grid, ws: seq<Write>, row: int, log: seq<(Group, int)>, width: nat)
    requires Targets(ws, row)
    requires LogKept(grid.cells, log, row, width)
    ensures LogKept(Apply(grid, ws).cells, log, row, width)
  {
    forall i | 0 <= i < |log| ensures RowKept(Apply(grid, ws).cells, log[i].0, log[i].1, width) {
      var r := log[i].1;
      forall c | 1 <= c <= 11 && (r != 9 || c != 9) ensures Get(Apply(grid, ws).cells, r, c) == Get(grid.cells, r, c) {
        LastWriteNone(ws, r, c);
        ApplyGet(grid, ws, r, c);
      }
    }
  }

  /** Writes to the output row and (9, 9) keep every cell untouched once that
      row is logged. */
  lemma UntouchedKept(start: Grid, grid: Grid, ws: seq<Write>, row: int, log: seq<(Group, int)>, g: Group)
    requires Targets(ws, row)
    requires forall r, c :: Untouched(log, r, c) ==> Get(grid.cells, r, c) == Get(start.cells, r, c)
    ensures forall r, c :: Untouched(log + [(g, row)], r, c) ==> Get(Apply(grid, ws).cells, r, c) == Get(start.cells, r, c)
  {
    var log' := log + [(g, row)];
    forall r, c | Untouched(log', r, c) ensures Get(Apply(grid, ws).cells, r, c) == Get(start.cells, r, c) {
      if c < 12 {
        forall i | 0 <= i < |log| ensures log[i].1 != r {
          assert log'[i] == log[i];
        }
        assert log'[|log|].1 == row;
      }
      LastWriteNone(ws, r, c);
      ApplyGet(grid, ws, r, c);
    }
  }

  /** The output row of a new filename, taken at the next empty row, holds
      exactly what the group's writes left there, and the next empty row
      moves past it. */
  lemma NewRowKept(grid: Grid, g: Group, width: nat)
    requires InBounds(grid.cells, grid.maxRow) && GroupFramed(g, width) && width >= 16
    ensures var row := NextEmptyRow(grid.cells, grid.maxRow);
      var after := Apply(grid, GroupWrites(g, row, width).cells);
      && InBounds(after.cells, after.maxRow)
      && RowKept(after.cells, g, row, width)
      && row < NextEmptyRow(after.cells, after.maxRow)
  {
    var row := NextEmptyRow(grid.cells, grid.maxRow);
    NextEmptyRowSpec(grid.cells, grid.maxRow);
    var ws := GroupWrites(g, row, width).cells;
    GroupWritesShape(g, row, width);
    var after := Apply(grid, ws);
    ApplyBounds(grid, ws);
    forall c | 1 <= c <= 11 ensures Get(after.cells, row, c) == LastWrite(ws, row, c) {
      ApplyGet(grid, ws, row, c);
    }
    HeadCells(ws, g, row);
    NextEmptyRowGrows(grid.cells, grid.maxRow, after.cells, after.maxRow);
  }

  /** One group keeps a run consistent. */
  lemma StepConsistent(start: Grid, s: Run, g: Group, width: nat)
    requires Consistent(start, s, width) && GroupFramed(g, width) && Step(s, g, width).error.None?
    ensures Consistent(start, Step(s, g, width), width)
  {
    if g.key !in s.written {
      var row := s.nextRow;
      var ws := GroupWrites(g, row, width).cells;
      assert width >= 16;
      GroupWritesShape(g, row, width);
      NewRowKept(s.grid, g, width);
      LogKeptStep(s.grid, ws, row, s.log, width);
      UntouchedKept(start, s.grid, ws, row, s.log, g);
      LogKeysSnoc(s.log, (g, row));
      AscendingSnoc(s.log, (g, row));
      var s' := Step(s, g, width);
      assert s'.log == s.log + [(g, row)];
      assert LogKept(s'.grid.cells, s'.log, s'.nextRow, width) by {
        NextEmptyRowSpec(s.grid.cells, s.grid.maxRow);
        assert s'.log[|s.log|] == (g, row);
        assert forall i :: 0 <= i < |s.log| ==> s'.log[i] == s.log[i];
      }
    }
  }

  lemma GroupKeysCons(groups: seq<Group>)
    requires groups != []
    ensures GroupKeys(groups) == {groups[0].key} + GroupKeys(groups[1..])
  {
    var rest := groups[1..];
    forall k | k in GroupKeys(groups) ensures k in {groups[0].key} + GroupKeys(rest) {
      var i :| 0 <= i < |groups| && groups[i].key == k;
      if i > 0 {
        assert rest[i - 1] == groups[i];
      }
    }
    forall k | k in GroupKeys(rest) ensures k in GroupKeys(groups) {
      var i :| 0 <= i < |rest| && rest[i].key == k;
      assert groups[i + 1] == rest[i];
    }
  }

  /** The log of a run extends the log it started with, by groups of the run. */
  predicate Extends(log: seq<(Group, int)>, log': seq<(Group, int)>, groups: seq<Group>)
  {
    |log| <= |log'| && log'[..|log|] == log && forall i :: |log| <= i < |log'| ==> log'[i].0 in groups
  }

  /** One group adds at most itself to the log. */
  lemma StepExtends(s: Run, g: Group, groups: seq<Group>, width: nat)
    requires GroupFramed(g, width) && g in groups
    ensures Extends(s.log, Step(s, g, width).log, groups)
  {
    var log' := Step(s, g, width).log;
    if log' == s.log {
      assert s.log[..|s.log|] == s.log;
    } else {
      assert log' == s.log + [(g, s.nextRow)];
      assert log'[..|s.log|] == s.log;
    }
  }

  /** Extending a log twice extends it. */
  lemma ExtendsTrans(a: seq<(Group, int)>, b: seq<(Group, int)>, c: seq<(Group, int)>, groups: seq<Group>, rest: seq<Group>)
    requires Extends(a, b, groups) && Extends(b, c, rest)
    requires forall x :: x in rest ==> x in groups
    ensures Extends(a, c, groups)
  {
    assert c[..|a|] == c[..|b|][..|a|];
    forall i | |a| <= i < |c| ensures c[i].0 in groups {
      if i < |b| {
        assert c[i] == c[..|b|][i];
      }
    }
  }

  /** The log of a run grows by groups of the run alone. */
  lemma {:induction false} ProcessAllExtends(s: Run, groups: seq<Group>, width: nat)
    requires Framed(groups, width)
    ensures Extends(s.log, ProcessAll(s, groups, width).log, groups)
    decreases |groups|
  {
    if groups == [] || s.error.Some? {
      assert s.log[..|s.log|] == s.log;
    } else {
      var s1 := Step(s, groups[0], width);
      StepExtends(s, groups[0], groups, width);
      FramedSuffix(groups, width, 1);
      ProcessAllExtends(s1, groups[1..], width);
      forall x | x in groups[1..] ensures x in groups {
      }
      ExtendsTrans(s.log, s1.log, ProcessAll(s1, groups[1..], width).log, groups, groups[1..]);
    }
  }

  /** A run that does not raise stays consistent to its end, and its set
      `written_filenames` gains exactly the filenames of the groups. */
  lemma {:induction false} ProcessAllConsistent(start: Grid, s: Run, groups: seq<Group>, width: nat)
    requires Consistent(start, s, width) && Framed(groups, width) && ProcessAll(s, groups, width).error.None?
    ensures Consistent(start, ProcessAll(s, groups, width), width)
    ensures ProcessAll(s, groups, width).written == s.written + GroupKeys(groups)
    decreases |groups|
  {
    if groups != [] {
      var s1 := Step(s, groups[0], width);
      assert s1.error.None?;
      StepConsistent(start, s, groups[0], width);
      FramedSuffix(groups, width, 1);
      ProcessAllConsistent(start, s1, groups[1..], width);
      GroupKeysCons(groups);
    }
  }

  /** `process_data` on a sheet, when no IndexError escapes: every filename of
      the frame gets exactly one output row, at ascending rows from 2 on,
      taken from a group of that filename in the frame; each output row is
      that group's consolidated row, with its filename, its own validation
      flag, its season and the columns D to K its branch fills; `next_row`
      ends at the sheet's next empty row; every cell outside columns A to K
      of the output rows and cell (9, 9) keeps its value. */
  lemma ProcessDataSpec(grid: Grid, groups: seq<Group>, width: nat)
    requires InBounds(grid.cells, grid.maxRow) && Framed(groups, width)
    requires ProcessAll(Start(grid), groups, width).error.None?
    ensures var final := ProcessAll(Start(grid), groups, width);
      && InBounds(final.grid.cells, final.grid.maxRow)
      && LogKeys(final.log) == GroupKeys(groups)
      && final.written == GroupKeys(groups)
      && Ascending(final.log)
      && (forall i :: 0 <= i < |final.log| ==>
            && 2 <= final.log[i].1
            && final.log[i].0 in groups
            && GroupFramed(final.log[i].0, width)
            && GroupWrites(final.log[i].0, final.log[i].1, width).error.None?
            && Consolidated(final.grid.cells, final.log[i].0, final.log[i].1, width))
      && final.nextRow == NextEmptyRow(final.grid.cells, final.grid.maxRow)
      && (forall r, c :: Untouched(final.log, r, c) ==> Get(final.grid.cells, r, c) == Get(grid.cells, r, c))
  {
    StartConsistent(grid, width);
    ProcessAllConsistent(grid, Start(grid), groups, width);
    ProcessAllExtends(Start(grid), groups, width);
    var final := ProcessAll(Start(grid), groups, width);
    LogConsolidated(final.grid.cells, final.log, final.nextRow, width);
  }

  /** Every logged output row that keeps its group's writes is that group's
      consolidated row. */
  lemma LogConsolidated(cells: Cells, log: seq<(Group, int)>, nextRow: int, width: nat)
    requires LogKept(cells, log, nextRow, width)
    ensures forall i :: 0 <= i < |log| ==>
      && GroupFramed(log[i].0, width)
      && GroupWrites(log[i].0, log[i].1, width).error.None?
      && Consolidated(cells, log[i].0, log[i].1, width)
  {
    forall i | 0 <= i < |log|
      ensures Consolidated(cells, log[i].0, log[i].1, width)
    {
      RowKeptConsolidated(cells, log[i].0, log[i].1, width);
    }
  }

  /** A group whose filename is already written changes nothing: only the
      first group of a filename is consolidated. */
  lemma DuplicateSkipped(s: Run, g: Group, rest: seq<Group>, width: nat)
    requires g.key in s.written && Framed([g] + rest, width)
    ensures Framed(rest, width)
    ensures ProcessAll(s, [g] + rest, width) == ProcessAll(s, rest, width)
  {
    FramedSuffix([g] + rest, width, 1);
    assert ([g] + rest)[1..] == rest;
  }

  /** Only IndexError escapes a run, and a frame of at least 20 columns never
      raises one. */
  lemma {:induction false} RunErrors(s: Run, groups: seq<Group>, width: nat)
    requires Framed(groups, width) && s.error.None?
    ensures ProcessAll(s, groups, width).error.Some? ==> ProcessAll(s, groups, width).error == Some(IndexError)
    ensures width >= 20 ==> ProcessAll(s, groups, width).error.None?
    decreases |groups|
  {
    if groups != [] {
      var s1 := Step(s, groups[0], width);
      FramedSuffix(groups, width, 1);
      if s1.error.None? {
        RunErrors(s1, groups[1..], width);
      }
    }
  }

  /** A frame narrower than 16 columns raises at the first new filename,
      before any cell is written. */
  lemma NarrowFrameRaises(s: Run, groups: seq<Group>, width: nat)
    requires Framed(groups, width) && s.error.None? && width < 16
    requires groups != [] && groups[0].key !in s.written
    ensures ProcessAll(s, groups, width).error == Some(IndexError)
    ensures ProcessAll(s, groups, width).grid == s.grid
  {
    FramedSuffix(groups, width, 1);
  }

  // ---------------------------------------------------------------------------
  // The sheet updated in place

  /** Columns C, A and B of the output row (secondary.py:102-112). */
  method WriteHead(sheet: Sheet, g: Group, row: int)
    requires sheet.Valid() && row >= 1
    modifies sheet
    ensures sheet.Valid()
    ensures Grid(sheet.cells, sheet.maxRow) == Apply(Grid(old(sheet.cells), old(sheet.maxRow)), Head(g, row))
  {
    ghost var start := Grid(sheet.cells, sheet.maxRow);
    var valid := IsValid(g.rows);
    var w1 := Write(row, 3, Text(g.key));
    sheet.SetCell(row, 3, Text(g.key));
    ApplySnoc(start, [], w1);
    var flag := if valid then Text("TRUE") else Text("FALSE");
    var w2 := Write(row, 1, flag);
    sheet.SetCell(row, 1, flag);
    ApplySnoc(start, [w1], w2);
    var season := ExtractSeason(g.key);
    var w3 := Write(row, 2, Text(season));
    sheet.SetCell(row, 2, Text(season));
    ApplySnoc(start, [w1, w2], w3);
    assert [w1, w2] + [w3] == Head(g, row);
  }

  /** The copy of a valid group's first row, columns 12 to 19, to columns D
      to K (secondary.py:115-118), stopped by the IndexError of a column
      beyond the frame. */
  method CopyValid(sheet: Sheet, g: Group, row: int, width: nat) returns (error: Option<PyError>)
    requires sheet.Valid() && row >= 1 && GroupFramed(g, width) && width >= 16 && IsValid(g.rows)
    modifies sheet
    ensures sheet.Valid()
    ensures Grid(sheet.cells, sheet.maxRow) == Apply(Grid(old(sheet.cells), old(sheet.maxRow)), Tail(g, row, width).cells)
    ensures error == Tail(g, row, width).error
  {
    ghost var start := Grid(sheet.cells, sheet.maxRow);
    var first := g.rows[0];
    var i := 4;
    while i < 12
      invariant 4 <= i <= 12 && i + 8 <= width
      invariant sheet.Valid() && Grid(sheet.cells, sheet.maxRow) == Apply(start, Copies(row, first, 12, 4, i - 4))
    {
      var colIndex := i + 9;
      if colIndex - 1 >= width {
        return Some(IndexError);
      }
      sheet.SetCell(row, i, first[colIndex - 1]);
      ApplySnoc(start, Copies(row, first, 12, 4, i - 4), Write(row, i, first[colIndex - 1]));
      i := i + 1;
    }
    return None;
  }

  /** Every column 16 is "NODATA" (secondary.py:125-129): columns H and J
      of the output row and cell (9, 9) get "NODATA". */
  method WriteNoData(sheet: Sheet, row: int)
    requires sheet.Valid() && row >= 1
    modifies sheet
    ensures sheet.Valid()
    ensures Grid(sheet.cells, sheet.maxRow) ==
      Apply(Grid(old(sheet.cells), old(sheet.maxRow)), [Write(row, 8, NODATA), Write(9, 9, NODATA), Write(row, 10, NODATA)])
  {
    ghost var start := Grid(sheet.cells, sheet.maxRow);
    var w1, w2, w3 := Write(row, 8, NODATA), Write(9, 9, NODATA), Write(row, 10, NODATA);
    sheet.SetCell(row, 8, NODATA);
    ApplySnoc(start, [], w1);
    sheet.SetCell(9, 9, NODATA);
    ApplySnoc(start, [w1], w2);
    sheet.SetCell(row, 10, NODATA);
    ApplySnoc(start, [w1, w2], w3);
    assert [w1, w2] + [w3] == [w1, w2, w3];
  }

  /** Columns 16 to 18 of `src`, the first row whose column 16 is not
      "NODATA", to columns H to J (secondary.py:130-137), each read raising
      once it leaves the frame. */
  method CopyFirstNotNoData(sheet: Sheet, src: seq<Value>, row: int, width: nat) returns (error: Option<PyError>)
    requires sheet.Valid() && row >= 1 && |src| == width && width >= 17
    modifies sheet
    ensures sheet.Valid()
    ensures Grid(sheet.cells, sheet.maxRow) == Apply(Grid(old(sheet.cells), old(sheet.maxRow)), Copies(row, src, 16, 8, Min(3, width - 16)))
    ensures error == if width < 19 then Some(IndexError) else None
  {
    ghost var start := Grid(sheet.cells, sheet.maxRow);
    var w1 := Write(row, 8, src[16]);
    sheet.SetCell(row, 8, src[16]);
    ApplySnoc(start, [], w1);
    assert [w1] == Copies(row, src, 16, 8, 1);
    if width < 18 {
      return Some(IndexError);
    }
    var w2 := Write(row, 9, src[17]);
    sheet.SetCell(row, 9, src[17]);
    ApplySnoc(start, [w1], w2);
    assert [w1] + [w2] == Copies(row, src, 16, 8, 2);
    if width < 19 {
      return Some(IndexError);
    }
    var w3 := Write(row, 10, src[18]);
    sheet.SetCell(row, 10, src[18]);
    ApplySnoc(start, [w1, w2], w3);
    assert [w1, w2] + [w3] == Copies(row, src, 16, 8, 3);
    return None;
  }

  /** The invalid case (secondary.py:121-137): column 16 is read, raising
      when the frame lacks it, then one of the two writes above. */
  method WriteInvalid(sheet: Sheet, g: Group, row: int, width: nat) returns (error: Option<PyError>)
    requires sheet.Valid() && row >= 1 && GroupFramed(g, width) && width >= 16 && !IsValid(g.rows)
    modifies sheet
    ensures sheet.Valid()
    ensures Grid(sheet.cells, sheet.maxRow) == Apply(Grid(old(sheet.cells), old(sheet.maxRow)), Tail(g, row, width).cells)
    ensures error == Tail(g, row, width).error
  {
    if width < 17 {
      return Some(IndexError);
    }
    match FirstNotNoData(g.rows)
    case None =>
      WriteNoData(sheet, row);
      return None;
    case Some(j) =>
      error := CopyFirstNotNoData(sheet, g.rows[j], row, width);
  }

  /** The assignments of one new filename (secondary.py:102-137), made on the
      sheet at `row`: the sheet ends as the writes of `GroupWrites` leave it,
      and the IndexError that cuts them short is returned. */
  method WriteGroup(sheet: Sheet, g: Group, row: int, width: nat) returns (error: Option<PyError>)
    requires sheet.Valid() && row >= 1 && GroupFramed(g, width)
    modifies sheet
    ensures sheet.Valid()
    ensures Grid(sheet.cells, sheet.maxRow) == Apply(Grid(old(sheet.cells), old(sheet.maxRow)), GroupWrites(g, row, width).cells)
    ensures error == GroupWrites(g, row, width).error
  {
    ghost var start := Grid(sheet.cells, sheet.maxRow);
    if width < 16 {
      return Some(IndexError);
    }
    WriteHead(sheet, g, row);
    if IsValid(g.rows) {
      error := CopyValid(sheet, g, row, width);
    } else {
      error := WriteInvalid(sheet, g, row, width);
    }
    ApplyConcat(start, Head(g, row), Tail(g, row, width).cells);
  }

  /** `process_data` (secondary.py:72-144) on the sheet: the sheet and the
      escaping IndexError are those of the group loop `ProcessAll` run from
      the sheet's next empty row. */
  method ProcessData(sheet: Sheet, groups: seq<Group>, width: nat) returns (error: Option<PyError>)
    requires sheet.Valid() && Framed(groups, width)
    modifies sheet
    ensures sheet.Valid()
    ensures var final := ProcessAll(Start(Grid(old(sheet.cells), old(sheet.maxRow))), groups, width);
      Grid(sheet.cells, sheet.maxRow) == final.grid && error == final.error
  {
    ghost var start := Start(Grid(sheet.cells, sheet.maxRow));
    var written: set<string> := {};
    var nextRow := FindNextEmptyRow(sheet);
    ghost var log: seq<(Group, int)> := [];
    var i := 0;
    while i < |groups|
      invariant 0 <= i <= |groups| && sheet.Valid()
      invariant nextRow == NextEmptyRow(sheet.cells, sheet.maxRow)
      invariant Framed(groups[i..], width)
      invariant ProcessAll(Run(Grid(sheet.cells, sheet.maxRow), written, nextRow, None, log), groups[i..], width) ==
        ProcessAll(start, groups, width)
    {
      var g := groups[i];
      assert groups[i..][0] == g && groups[i..][1..] == groups[i + 1..];
      FramedSuffix(groups, width, i + 1);
      if g.key !in written {
        written := written + {g.key};
        NextEmptyRowSpec(sheet.cells, sheet.maxRow);
        var e := WriteGroup(sheet, g, nextRow, width);
        if e.Some? {
          return e;
        }
        log := log + [(g, nextRow)];
        nextRow := FindNextEmptyRow(sheet);
      }
      i := i + 1;
    }
    return None;
  }
}
