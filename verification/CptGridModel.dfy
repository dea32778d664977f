/**
  The editable grid of one conditional probability table: cells are written one at a time, pasted as a
  rectangle or normalised a row at a time, and validated before the rows go to the backend.
 */
module CptGridModel {
  import opened Wrappers
  import opened MachineIntegers
  import CptRows

  datatype Number = Finite(value: real) | NotFinite

  type Cell = Option<Number>

  type Grid = seq<seq<Cell>>

  datatype CptEditor = CptEditor(
    childStateIds: seq<string>,
    orderedParentStateIds: CptRows.Axes,
    materializedProbabilities: seq<seq<Number>>,
    requiredRowCount: nat)

  datatype GridError =
    | OutOfRange
    | IndexOutOfBounds
    | EmptyBlock
    | NotAProbability
    | NotRectangular
    | DoesNotFit
    | NotNormalizable
    | Invalid(first: Diagnostic)

  datatype Code = RowCountCode | ColumnCountCode | CellMissing | CellRange | RowSum

  datatype Diagnostic = Diagnostic(code: Code, row: Option<nat>, column: Option<nat>)

  datatype Validation = Validation(isValid: bool, rowCount: nat, cellCount: nat, diagnostics: seq<Diagnostic>)

  // ----- Rows -----

  predicate InRange(cell: Cell) {
    cell.Some? && cell.value.Finite? && 0.0 <= cell.value.value <= 1.0
  }

  predicate IsFinite(cell: Cell) {
    cell.Some? && cell.value.Finite?
  }

  predicate AllFinite(row: seq<Cell>) {
    forall k :: 0 <= k < |row| ==> IsFinite(row[k])
  }

  predicate AllInRange(row: seq<Cell>) {
    forall k :: 0 <= k < |row| ==> InRange(row[k])
  }

  // The sum of the cells in range among the first n.
  function SumInRange(row: seq<Cell>, n: nat): real
    requires n <= |row|
  {
    if n == 0 then 0.0
    else SumInRange(row, n - 1) + (if InRange(row[n - 1]) then row[n - 1].value.value else 0.0)
  }

  function Sum(row: seq<Cell>, n: nat): real
    requires n <= |row| && AllFinite(row)
  {
    if n == 0 then 0.0 else Sum(row, n - 1) + row[n - 1].value.value
  }

  function Abs(x: real): real {
    if x < 0.0 then -x else x
  }

  predicate Distribution(row: seq<Cell>, tolerance: real) {
    AllInRange(row) && Abs(Sum(row, |row|) - 1.0) <= tolerance
  }

  lemma {:induction false} SumsAgree(row: seq<Cell>, n: nat)
    requires n <= |row| && AllInRange(row)
    ensures SumInRange(row, n) == Sum(row, n)
  {
    if n > 0 {
      SumsAgree(row, n - 1);
    }
  }

  // ----- Validation -----

  function CellDiagnostics(row: seq<Cell>, index: nat, n: nat): seq<Diagnostic>
    requires n <= |row|
  {
    if n == 0 then []
    else
      var cell := row[n - 1];
      CellDiagnostics(row, index, n - 1) +
      (if cell.None? then [Diagnostic(CellMissing, Some(index), Some(n - 1))]
       else if !InRange(cell) then [Diagnostic(CellRange, Some(index), Some(n - 1))]
       else [])
  }

  function RowDiagnostics(row: seq<Cell>, index: nat, columns: nat, tolerance: real): seq<Diagnostic> {
    if |row| != columns then [Diagnostic(ColumnCountCode, Some(index), None)]
    else
      CellDiagnostics(row, index, |row|) +
      (if AllFinite(row) && Abs(SumInRange(row, |row|) - 1.0) > tolerance
       then [Diagnostic(RowSum, Some(index), None)] else [])
  }

  // What a search finds in rows 0 to n - 1, in order.
  function Collect(search: nat -> seq<Diagnostic>, n: nat): seq<Diagnostic> {
    if n == 0 then [] else Collect(search, n - 1) + search(n - 1)
  }

  lemma {:induction false} CollectsNothing(search: nat -> seq<Diagnostic>, n: nat)
    ensures Collect(search, n) == [] <==> forall k :: 0 <= k < n ==> search(k) == []
  {
    if n > 0 {
      CollectsNothing(search, n - 1);
    }
  }

  lemma {:induction false} CollectsFrom(search: nat -> seq<Diagnostic>, n: nat, d: Diagnostic)
    ensures d in Collect(search, n) <==> exists k :: 0 <= k < n && d in search(k)
  {
    if n > 0 {
      CollectsFrom(search, n - 1, d);
    }
  }

  function RowSearch(grid: Grid, columns: nat, tolerance: real): nat -> seq<Diagnostic> {
    (k: nat) => if k < |grid| then RowDiagnostics(grid[k], k, columns, tolerance) else []
  }

  function ShapeDiagnostics(grid: Grid, rows: nat): seq<Diagnostic> {
    if rows != |grid| then [Diagnostic(RowCountCode, None, None)] else []
  }

  function GridDiagnostics(grid: Grid, rows: nat, columns: nat, tolerance: real): seq<Diagnostic> {
    ShapeDiagnostics(grid, rows) + Collect(RowSearch(grid, columns, tolerance), |grid|)
  }

  function CellCount(grid: Grid, n: nat): nat
    requires n <= |grid|
  {
    if n == 0 then 0 else CellCount(grid, n - 1) + |grid[n - 1]|
  }

  lemma {:induction false} NoCellDiagnostics(row: seq<Cell>, index: nat, n: nat)
    requires n <= |row|
    ensures CellDiagnostics(row, index, n) == [] <==> forall k :: 0 <= k < n ==> InRange(row[k])
  {
    if n > 0 {
      NoCellDiagnostics(row, index, n - 1);
    }
  }

  lemma NoRowDiagnostics(row: seq<Cell>, index: nat, columns: nat, tolerance: real)
    ensures RowDiagnostics(row, index, columns, tolerance) == [] <==> |row| == columns && Distribution(row, tolerance)
  {
    NoCellDiagnostics(row, index, |row|);
    if AllInRange(row) {
      SumsAgree(row, |row|);
    }
  }

  // No diagnostic is raised exactly for the full-shape grids whose rows are distributions within the tolerance.
  lemma AcceptsExactlyDistributions(grid: Grid, rows: nat, columns: nat, tolerance: real)
    ensures GridDiagnostics(grid, rows, columns, tolerance) == []
            <==> |grid| == rows
                 && forall k :: 0 <= k < |grid| ==> |grid[k]| == columns && Distribution(grid[k], tolerance)
  {
    var search := RowSearch(grid, columns, tolerance);
    CollectsNothing(search, |grid|);
    forall k | 0 <= k < |grid|
      ensures search(k) == [] <==> |grid[k]| == columns && Distribution(grid[k], tolerance)
    {
      NoRowDiagnostics(grid[k], k, columns, tolerance);
    }
  }

  predicate Faulty(cell: Cell, code: Code) {
    (code == CellMissing && cell.None?) || (code == CellRange && cell.Some? && !InRange(cell))
  }

  lemma {:induction false} CellDiagnosticsPinpoint(row: seq<Cell>, index: nat, n: nat, d: Diagnostic)
    requires n <= |row|
    ensures d in CellDiagnostics(row, index, n) <==>
            && d.row == Some(index) && d.column.Some? && d.column.value < n
            && Faulty(row[d.column.value], d.code)
  {
    if n > 0 {
      CellDiagnosticsPinpoint(row, index, n - 1, d);
    }
  }

  lemma RowDiagnosticsPinpoint(row: seq<Cell>, index: nat, columns: nat, tolerance: real, d: Diagnostic)
    requires d.column.Some?
    ensures d in RowDiagnostics(row, index, columns, tolerance) <==>
            && d.row == Some(index) && |row| == columns && d.column.value < columns
            && Faulty(row[d.column.value], d.code)
  {
    CellDiagnosticsPinpoint(row, index, |row|, d);
  }

  // The cell diagnostics name exactly the missing and the out-of-range cells of the rows of the right width.
  lemma DiagnosticsPinpoint(grid: Grid, rows: nat, columns: nat, tolerance: real, d: Diagnostic)
    requires d.column.Some?
    ensures d in GridDiagnostics(grid, rows, columns, tolerance) <==>
            && d.row.Some? && d.row.value < |grid| && |grid[d.row.value]| == columns && d.column.value < columns
            && Faulty(grid[d.row.value][d.column.value], d.code)
  {
    var search := RowSearch(grid, columns, tolerance);
    CollectsFrom(search, |grid|, d);
    forall k | 0 <= k < |grid|
      ensures d in search(k) <==>
              && d.row == Some(k) && |grid[k]| == columns && d.column.value < columns
              && Faulty(grid[k][d.column.value], d.code)
    {
      RowDiagnosticsPinpoint(grid[k], k, columns, tolerance, d);
    }
    if d.row.Some? && d.row.value < |grid| {
      assert d in search(d.row.value) ==> d in Collect(search, |grid|);
    }
  }

  // What is wrong with a row as a whole, or with the number of rows.
  predicate FaultyRow(grid: Grid, rows: nat, columns: nat, tolerance: real, d: Diagnostic) {
    match d.code
    case RowCountCode => d.row.None? && |grid| != rows
    case ColumnCountCode => d.row.Some? && d.row.value < |grid| && |grid[d.row.value]| != columns
    case RowSum =>
      && d.row.Some? && d.row.value < |grid|
      && var row := grid[d.row.value];
         |row| == columns && AllFinite(row) && Abs(SumInRange(row, |row|) - 1.0) > tolerance
    case _ => false
  }

  lemma {:induction false} CellDiagnosticsHaveColumns(row: seq<Cell>, index: nat, n: nat, d: Diagnostic)
    requires n <= |row| && d in CellDiagnostics(row, index, n)
    ensures d.column.Some?
  {
    if d in CellDiagnostics(row, index, n - 1) {
      CellDiagnosticsHaveColumns(row, index, n - 1, d);
    }
  }

  lemma RowFaultsPinpoint(grid: Grid, rows: nat, columns: nat, tolerance: real, k: nat, d: Diagnostic)
    requires d.column.None? && k < |grid|
    ensures d in RowDiagnostics(grid[k], k, columns, tolerance) <==>
            d.row == Some(k) && FaultyRow(grid, rows, columns, tolerance, d)
  {
    if d in CellDiagnostics(grid[k], k, |grid[k]|) {
      CellDiagnosticsHaveColumns(grid[k], k, |grid[k]|, d);
    }
  }

  // The other diagnostics name exactly the rows of the wrong width, the rows that do not sum to one, and a wrong
  // number of rows.
  lemma RowDiagnosticsAreExact(grid: Grid, rows: nat, columns: nat, tolerance: real, d: Diagnostic)
    requires d.column.None?
    ensures d in GridDiagnostics(grid, rows, columns, tolerance) <==> FaultyRow(grid, rows, columns, tolerance, d)
  {
    var search := RowSearch(grid, columns, tolerance);
    CollectsFrom(search, |grid|, d);
    forall k | 0 <= k < |grid|
      ensures d in search(k) <==> d.row == Some(k) && FaultyRow(grid, rows, columns, tolerance, d)
    {
      RowFaultsPinpoint(grid, rows, columns, tolerance, k, d);
    }
    if d.row.Some? && d.row.value < |grid| {
      assert d in search(d.row.value) ==> d in Collect(search, |grid|);
    }
  }

  // ----- Normalising -----

  predicate Normalizable(row: seq<Cell>) {
    AllFinite(row) && (forall k :: 0 <= k < |row| ==> row[k].value.value >= 0.0) && Sum(row, |row|) > 0.0
  }

  function Scaled(row: seq<Cell>, total: real): (scaled: seq<Cell>)
    requires AllFinite(row) && total > 0.0
    ensures |scaled| == |row| && AllFinite(scaled)
  {
    seq(|row|, k requires 0 <= k < |row| => Some(Finite(row[k].value.value / total)))
  }

  lemma {:induction false} ScaledSum(row: seq<Cell>, total: real, n: nat)
    requires AllFinite(row) && total > 0.0 && n <= |row|
    ensures Sum(Scaled(row, total), n) == Sum(row, n) / total
  {
    if n > 0 {
      ScaledSum(row, total, n - 1);
    }
  }

  lemma {:induction false} PartBelowSum(row: seq<Cell>, n: nat, k: nat)
    requires AllFinite(row) && (forall k :: 0 <= k < |row| ==> row[k].value.value >= 0.0) && n <= |row|
    ensures Sum(row, n) >= 0.0
    ensures k < n ==> row[k].value.value <= Sum(row, n)
    decreases n
  {
    if n > 0 {
      PartBelowSum(row, n - 1, if k < n - 1 then k else 0);
    }
  }

  // A normalised row always passes, whatever the tolerance.
  lemma NormalizedPasses(row: seq<Cell>, tolerance: real)
    requires Normalizable(row) && tolerance >= 0.0
    ensures Distribution(Scaled(row, Sum(row, |row|)), tolerance)
  {
    var total := Sum(row, |row|);
    ScaledSum(row, total, |row|);
    OverItself(total);
    forall k | 0 <= k < |row| ensures InRange(Scaled(row, total)[k]) {
      PartBelowSum(row, |row|, k);
      Quotient(row[k].value.value, total);
    }
  }

  // Normalising keeps the proportions: each cell is its share of the row's sum.
  lemma NormalizedShares(row: seq<Cell>, k: nat)
    requires Normalizable(row) && k < |row|
    ensures var total := Sum(row, |row|);
            Scaled(row, total)[k].value.value * total == row[k].value.value
  {
  }

  // Sums are those of the cells, however the row is cut.
  lemma {:induction false} SumSplits(a: seq<Cell>, b: seq<Cell>)
    requires AllFinite(a) && AllFinite(b)
    ensures AllFinite(a + b) && Sum(a + b, |a + b|) == Sum(a, |a|) + Sum(b, |b|)
    decreases |b|
  {
    if b == [] {
      assert a + b == a;
    } else {
      var n := |b| - 1;
      SumSplits(a, b[..n]);
      assert (a + b)[..|a| + n] == a + b[..n];
      SumOfPrefix(a + b, |a| + n);
      SumOfPrefix(b, n);
    }
  }

  lemma {:induction false} SumOfPrefix(row: seq<Cell>, n: nat)
    requires AllFinite(row) && n <= |row|
    ensures AllFinite(row[..n]) && Sum(row[..n], n) == Sum(row, n)
    decreases n
  {
    if n > 0 {
      SumOfPrefix(row, n - 1);
      SumOfPrefix(row[..n], n - 1);
      assert row[..n][..n - 1] == row[..n - 1];
    }
  }

  lemma OverItself(total: real)
    requires total != 0.0
    ensures total / total == 1.0
  {
  }

  lemma Quotient(part: real, total: real)
    requires 0.0 <= part <= total && total > 0.0
    ensures 0.0 <= part / total <= 1.0
  {
  }

  // And normalising it again changes nothing.
  lemma NormalizingTwice(row: seq<Cell>)
    requires Normalizable(row)
    ensures var once := Scaled(row, Sum(row, |row|));
            Normalizable(once) && Scaled(once, Sum(once, |once|)) == once
  {
    var once := Scaled(row, Sum(row, |row|));
    NormalizedPasses(row, 0.0);
    assert Sum(once, |once|) == 1.0;
  }

  // ----- Pasting -----

  // The longest array there can be.
  const ARRAY_MAXIMUM: int32 := 0x7FFFFFC7

  // The check before a paste; its 32-bit sums can wrap.
  predicate Guard(startRow: int32, startColumn: int32, block: seq<seq<real>>, rows: nat, columns: nat) {
    && startRow >= 0 && startColumn >= 0
    && Wrap(startRow + |block|) <= rows
    && (block != [] ==> Wrap(startColumn + |block[0]|) <= columns)
  }

  // Cells written over a row from a column on, as far as the row goes.
  function Overlay(row: seq<Cell>, column: nat, cells: seq<real>): (r: seq<Cell>)
    ensures |r| == |row|
  {
    seq(|row|, k requires 0 <= k < |row| =>
      if column <= k < column + |cells| then Some(Finite(cells[k - column])) else row[k])
  }

  // The rows of a block written one after another, up to the first write outside the grid.
  function Paste(grid: Grid, row: nat, column: nat, block: seq<seq<real>>): (Grid, bool)
    decreases |block|
  {
    if block == [] then (grid, true)
    else if row >= |grid| then (grid, false)
    else
      var next := grid[row := Overlay(grid[row], column, block[0])];
      if column + |block[0]| > |grid[row]| then (next, false)
      else Paste(next, row + 1, column, block[1..])
  }

  predicate InBlock(row: nat, column: nat, block: seq<seq<real>>, r: nat, c: nat) {
    row <= r < row + |block| && column <= c < column + |block[r - row]|
  }

  ghost predicate FullShape(grid: Grid, rows: nat, columns: nat) {
    |grid| == rows && forall r :: 0 <= r < rows ==> |grid[r]| == columns
  }

  predicate Rectangular(block: seq<seq<real>>, width: nat) {
    block != [] && width > 0 && forall k :: 0 <= k < |block| ==> |block[k]| == width
  }

  // A block too wide for its place stops within its first row; one too long stops after the last row of the grid.
  predicate Reached(row: nat, column: nat, width: nat, columns: nat, r: nat) {
    column + width <= columns || r == row
  }

  // What any paste leaves in each cell: the block where it was reached, and the old value elsewhere.
  lemma {:induction false} PasteCells(grid: Grid, rows: nat, columns: nat, row: nat, column: nat,
                                      block: seq<seq<real>>, width: nat)
    requires FullShape(grid, rows, columns) && Rectangular(block, width)
    ensures var (after, ok) := Paste(grid, row, column, block);
            && (ok <==> row + |block| <= rows && column + width <= columns)
            && FullShape(after, rows, columns)
            && forall r, c :: 0 <= r < rows && 0 <= c < columns ==>
                 after[r][c] == if InBlock(row, column, block, r, c) && Reached(row, column, width, columns, r)
                                then Some(Finite(block[r - row][c - column])) else grid[r][c]
    decreases |block|
  {
    if row < rows && column + width <= columns && |block| > 1 {
      var next := grid[row := Overlay(grid[row], column, block[0])];
      assert Rectangular(block[1..], width);
      PasteCells(next, rows, columns, row + 1, column, block[1..], width);
      forall r, c | 0 <= r < rows && 0 <= c < columns && r != row
        ensures InBlock(row, column, block, r, c) == InBlock(row + 1, column, block[1..], r, c)
      {
      }
    }
  }

  /**
    A block let through by the check replaces exactly its rectangle, if and only if the 32-bit sums of the check
    did not wrap.  If they did, the paste fails having written the part of the block that PasteCells says, which is
    nothing exactly when it starts outside the grid or what it wrote was there already.
   */
  lemma PasteExactly(grid: Grid, rows: int32, columns: int32, row: int32, column: int32,
                     block: seq<seq<real>>, width: int32)
    requires rows >= 0 && columns >= 0 && width > 0 && |block| <= MAXIMUM
    requires FullShape(grid, rows, columns) && Rectangular(block, width)
    requires Guard(row, column, block, rows, columns)
    ensures var (after, ok) := Paste(grid, row, column, block);
            && (ok <==> row + |block| <= MAXIMUM && column + width <= MAXIMUM)
            && FullShape(after, rows, columns)
            && (ok ==> forall r, c :: 0 <= r < rows && 0 <= c < columns ==>
                  after[r][c] == if InBlock(row, column, block, r, c)
                                 then Some(Finite(block[r - row][c - column])) else grid[r][c])
            && (!ok ==> (after == grid <==>
                  forall r, c :: row <= r < rows && column <= c < columns && InBlock(row, column, block, r, c)
                                 && Reached(row, column, width, columns, r) ==>
                    grid[r][c] == Some(Finite(block[r - row][c - column]))))
  {
    PasteCells(grid, rows, columns, row, column, block, width);
    var after := Paste(grid, row, column, block).0;
    if forall r, c :: 0 <= r < rows && 0 <= c < columns ==> after[r][c] == grid[r][c] {
      SameCells(grid, after, rows, columns);
    }
  }

  lemma SameCells(a: Grid, b: Grid, rows: nat, columns: nat)
    requires FullShape(a, rows, columns) && FullShape(b, rows, columns)
    requires forall r, c :: 0 <= r < rows && 0 <= c < columns ==> b[r][c] == a[r][c]
    ensures a == b
  {
    forall r | 0 <= r < rows ensures a[r] == b[r] {
      assert forall c :: 0 <= c < columns ==> b[r][c] == a[r][c];
    }
  }

  // On any grid with a column, a single cell pasted at the last row number there is passes the check, and fails at
  // its first write, which leaves the grid as it was.
  lemma StartAtMaximumWraps(grid: Grid, rows: nat, columns: nat, p: real)
    requires FullShape(grid, rows, columns) && rows <= ARRAY_MAXIMUM && columns > 0
    ensures Guard(MAXIMUM, 0, [[p]], rows, columns)
    ensures Paste(grid, MAXIMUM, 0, [[p]]) == (grid, false)
  {
  }

  // On a grid of the greatest height, 58 rows pasted at the last one pass the check, overwrite that row and fail.
  lemma LastRowPasteWraps(grid: Grid, p: real)
    requires FullShape(grid, ARRAY_MAXIMUM, 1)
    ensures var block := seq(58, _ => [p]);
            && Guard(ARRAY_MAXIMUM - 1, 0, block, ARRAY_MAXIMUM, 1)
            && Paste(grid, ARRAY_MAXIMUM - 1, 0, block) ==
               (grid[ARRAY_MAXIMUM - 1 := [Some(Finite(p))]], false)
  {
    assert Overlay(grid[ARRAY_MAXIMUM - 1], 0, [p]) == [Some(Finite(p))];
  }

  // The rows the pasted lines hold, or why they are refused.
  function ParseBlock(lines: seq<string>, parseRow: string -> Option<seq<real>>): Result<seq<seq<real>>, GridError> {
    if lines == [] then Err(EmptyBlock)
    else if exists line <- lines :: parseRow(line).None? then Err(NotAProbability)
    else
      var rows := seq(|lines|, k requires 0 <= k < |lines| =>
        assert lines[k] in lines;
        parseRow(lines[k]).value);
      if rows[0] == [] || exists row <- rows :: |row| != |rows[0]| then Err(NotRectangular) else Ok(rows)
  }

  // A block is taken exactly when every line is read and all have one width, at least one cell; the kinds of refusal.
  lemma ParsesExactly(lines: seq<string>, parseRow: string -> Option<seq<real>>)
    ensures var block, read := ParseBlock(lines, parseRow), forall line <- lines :: parseRow(line).Some?;
            && (block == Err(EmptyBlock) <==> lines == [])
            && (block == Err(NotAProbability) <==> lines != [] && !read)
            && (block == Err(NotRectangular) <==>
                  lines != [] && read && !exists width: nat :: width > 0 && Width(lines, parseRow, width))
            && (block.Ok? ==>
                  && |block.value| == |lines|
                  && forall k :: 0 <= k < |lines| ==> parseRow(lines[k]) == Some(block.value[k]))
  {
    if lines != [] && forall line <- lines :: parseRow(line).Some? {
      var rows := seq(|lines|, k requires 0 <= k < |lines| =>
        assert lines[k] in lines;
        parseRow(lines[k]).value);
      assert forall k :: 0 <= k < |lines| ==> rows[k] in rows;
      if rows[0] != [] && forall row <- rows :: |row| == |rows[0]| {
        forall k | 0 <= k < |lines| ensures parseRow(lines[k]).Some? && |parseRow(lines[k]).value| == |rows[0]| {
          assert lines[k] in lines && rows[k] in rows;
        }
        assert Width(lines, parseRow, |rows[0]|);
      }
    }
  }

  ghost predicate Width(lines: seq<string>, parseRow: string -> Option<seq<real>>, width: nat) {
    forall k :: 0 <= k < |lines| ==> parseRow(lines[k]).Some? && |parseRow(lines[k]).value| == width
  }

  // ----- The grid -----

  const DEFAULT_ROW_SUM_TOLERANCE := 0.000000001

  // The materialised probabilities as far as they and the grid's shape go, and blanks elsewhere.
  function CreatedRow(editor: CptEditor, r: nat, n: nat): seq<Cell> {
    var source := editor.materializedProbabilities;
    seq(|editor.childStateIds|, c requires 0 <= c < |editor.childStateIds| =>
      if c < n && r < |source| && c < |source[r]| then Some(source[r][c]) else None)
  }

  function Created(editor: CptEditor): Grid {
    seq(editor.requiredRowCount, r requires 0 <= r < editor.requiredRowCount =>
      CreatedRow(editor, r, |editor.childStateIds|))
  }

  // The cells of a new grid.
  lemma CreatedCells(editor: CptEditor)
    ensures var grid, source := Created(editor), editor.materializedProbabilities;
            && FullShape(grid, editor.requiredRowCount, |editor.childStateIds|)
            && forall r, c :: 0 <= r < |grid| && 0 <= c < |grid[r]| ==>
                 && (r < |source| && c < |source[r]| ==> grid[r][c] == Some(source[r][c]))
                 && (r >= |source| || c >= |source[r]| ==> grid[r][c] == None)
  {
  }

  function Probabilities(grid: Grid): seq<seq<real>>
    requires forall r :: 0 <= r < |grid| ==> AllFinite(grid[r])
  {
    seq(|grid|, r requires 0 <= r < |grid| => RowProbabilities(grid[r]))
  }

  function RowProbabilities(row: seq<Cell>): seq<real>
    requires AllFinite(row)
  {
    seq(|row|, c requires 0 <= c < |row| => row[c].value.value)
  }

  // What goes to the backend is the number in each cell.
  ghost predicate Delivers(grid: Grid, rows: seq<seq<real>>) {
    && |rows| == |grid|
    && forall r :: 0 <= r < |grid| ==>
         |rows[r]| == |grid[r]| && forall c :: 0 <= c < |grid[r]| ==> grid[r][c] == Some(Finite(rows[r][c]))
  }

  lemma ProbabilitiesAreDelivered(grid: Grid)
    requires forall r :: 0 <= r < |grid| ==> AllFinite(grid[r])
    ensures Delivers(grid, Probabilities(grid))
  {
  }

  // A table that is opened and sent without an edit goes back as it came, if it was complete.
  lemma UneditedTableIsReturned(editor: CptEditor, rows: seq<seq<real>>)
    requires editor.requiredRowCount == |editor.materializedProbabilities|
    requires forall r :: 0 <= r < |editor.materializedProbabilities| ==>
               |editor.materializedProbabilities[r]| == |editor.childStateIds|
    requires Delivers(Created(editor), rows)
    ensures |rows| == |editor.materializedProbabilities|
    ensures forall r, c :: 0 <= r < |rows| && 0 <= c < |editor.childStateIds| ==>
              |rows[r]| == |editor.childStateIds| && editor.materializedProbabilities[r][c] == Finite(rows[r][c])
  {
    CreatedCells(editor);
  }

  ghost predicate Accepted(grid: Grid, editor: CptEditor, tolerance: real) {
    && |grid| == editor.requiredRowCount
    && forall r :: 0 <= r < |grid| ==> |grid[r]| == |editor.childStateIds| && Distribution(grid[r], tolerance)
  }

  class CptGridModel {
    var editor: CptEditor
    var values: array<array<Cell>>

    // The rows are arrays of their own, as many and as wide as the editor says.
    ghost predicate Valid()
      reads this, values
    {
      && values.Length == editor.requiredRowCount
      && (forall r :: 0 <= r < values.Length ==> values[r].Length == |editor.childStateIds|)
      && (forall q, r :: 0 <= q < r < values.Length ==> values[q] != values[r])
    }

    ghost function View(): (grid: Grid)
      reads this, values, values[..]
      ensures |grid| == values.Length
      ensures forall r :: 0 <= r < |grid| ==> grid[r] == values[r][..]
    {
      seq(values.Length, r requires 0 <= r < values.Length reads this, values, values[..] => values[r][..])
    }

    constructor (editor: CptEditor)
      ensures Valid() && this.editor == editor && View() == Created(editor) && fresh(values) && fresh(values[..])
    {
      this.editor := editor;
      values := new array<Cell>[0];
      new;
      values := CreateValues(editor);
    }

    static method CreateValues(editor: CptEditor) returns (values: array<array<Cell>>)
      ensures fresh(values) && fresh(values[..]) && values.Length == editor.requiredRowCount
      ensures forall r :: 0 <= r < values.Length ==>
                values[r].Length == |editor.childStateIds| && values[r][..] == Created(editor)[r]
      ensures forall q, r :: 0 <= q < r < values.Length ==> values[q] != values[r]
    {
      var blank := new Cell[0];
      values := new array<Cell>[editor.requiredRowCount](_ => blank);
      for row := 0 to values.Length
        invariant fresh(values)
        invariant forall r :: 0 <= r < row ==>
                    && fresh(values[r]) && values[r].Length == |editor.childStateIds|
                    && values[r][..] == Created(editor)[r]
        invariant forall q, r :: 0 <= q < r < row ==> values[q] != values[r]
      {
        var cells := CreateRow(editor, row);
        values[row] := cells;
      }
    }

    static method CreateRow(editor: CptEditor, row: nat) returns (cells: array<Cell>)
      ensures fresh(cells) && cells[..] == CreatedRow(editor, row, |editor.childStateIds|)
    {
      cells := new Cell[|editor.childStateIds|](_ => None);
      if row >= |editor.materializedProbabilities| {
        return;
      }
      var source := editor.materializedProbabilities[row];
      var column := 0;
      while column < |source| && column < cells.Length
        invariant 0 <= column <= |source| && column <= cells.Length
        invariant cells[..] == CreatedRow(editor, row, column)
      {
        cells[column] := Some(source[column]);
        column := column + 1;
      }
    }

    method SetCell(row: int, column: int, value: Cell) returns (r: Result<(), GridError>)
      requires Valid()
      modifies values[..]
      ensures Valid() && editor == old(editor)
      ensures r.Ok? <==> 0 <= row < editor.requiredRowCount && 0 <= column < |editor.childStateIds|
      ensures View() == if r.Ok? then old(View())[row := old(View())[row][column := value]] else old(View())
    {
      if row < 0 || row >= editor.requiredRowCount || column < 0 || column >= |editor.childStateIds| {
        return Err(OutOfRange);
      }
      Write(row, column, value);
      return Ok(());
    }

    method Write(row: nat, column: nat, value: Cell)
      requires Valid() && row < values.Length && column < values[row].Length
      modifies values[row]
      ensures View() == old(View())[row := old(View())[row][column := value]]
    {
      values[row][column] := value;
    }

    static method ScaleInPlace(cells: array<Cell>) returns (ok: bool)
      modifies cells
      ensures ok == Normalizable(old(cells[..]))
      ensures cells[..] == if ok then Scaled(old(cells[..]), Sum(old(cells[..]), cells.Length)) else old(cells[..])
    {
      ghost var was := cells[..];
      var total := 0.0;
      for column := 0 to cells.Length
        invariant forall k :: 0 <= k < column ==> IsFinite(cells[k]) && cells[k].value.value >= 0.0
      {
        if !IsFinite(cells[column]) || cells[column].value.value < 0.0 {
          assert was[column] == cells[column];
          return false;
        }
      }
      for column := 0 to cells.Length
        invariant total == Sum(was, column)
      {
        total := total + cells[column].value.value;
      }
      if total <= 0.0 {
        return false;
      }
      for column := 0 to cells.Length
        invariant forall k :: 0 <= k < column ==> cells[k] == Scaled(was, total)[k]
        invariant forall k :: column <= k < cells.Length ==> cells[k] == was[k]
      {
        cells[column] := Some(Finite(cells[column].value.value / total));
      }
      return true;
    }

    method NormalizeRow(row: int) returns (r: Result<(), GridError>)
      requires Valid()
      modifies values[..]
      ensures Valid() && editor == old(editor)
      ensures r == Err(OutOfRange) <==> row < 0 || row >= editor.requiredRowCount
      ensures r.Ok? <==> 0 <= row < editor.requiredRowCount && Normalizable(old(View())[row])
      ensures View() == if r.Ok?
                        then old(View())[row := Scaled(old(View())[row], Sum(old(View())[row], |editor.childStateIds|))]
                        else old(View())
    {
      if row < 0 || row >= editor.requiredRowCount {
        return Err(OutOfRange);
      }
      var ok := ScaleInPlace(values[row]);
      return if ok then Ok(()) else Err(NotNormalizable);
    }

    static method OverlayInPlace(cells: array<Cell>, column: nat, block: seq<real>) returns (ok: bool)
      modifies cells
      ensures cells[..] == Overlay(old(cells[..]), column, block)
      ensures ok <==> column + |block| <= cells.Length || block == []
    {
      var k := 0;
      while k < |block|
        invariant 0 <= k <= |block| && (k > 0 ==> column + k <= cells.Length)
        invariant cells[..] == Overlay(old(cells[..]), column, block[..k])
      {
        if column + k >= cells.Length {
          return false;
        }
        cells[column + k] := Some(Finite(block[k]));
        k := k + 1;
      }
      assert block[..|block|] == block;
      return true;
    }

    // Accepted blocks are written; a write outside the grid stops the paste half-way.
    method ApplyRectangularText(startRow: int32, startColumn: int32, lines: seq<string>,
                                parseRow: string -> Option<seq<real>>)
      returns (r: Result<(nat, nat), GridError>)
      requires Valid()
      modifies values[..]
      ensures Valid() && editor == old(editor)
      ensures var block := ParseBlock(lines, parseRow);
              if block.Err? then r == Err(block.error) && View() == old(View())
              else if !Guard(startRow, startColumn, block.value, editor.requiredRowCount, |editor.childStateIds|)
              then r == Err(DoesNotFit) && View() == old(View())
              else
                && View() == Paste(old(View()), startRow, startColumn, block.value).0
                && r == if Paste(old(View()), startRow, startColumn, block.value).1
                        then Ok((|block.value|, |block.value[0]|)) else Err(IndexOutOfBounds)
    {
      var block := ParseBlock(lines, parseRow);
      if block.Err? {
        return Err(block.error);
      }
      var rows := block.value;
      if !Guard(startRow, startColumn, rows, editor.requiredRowCount, |editor.childStateIds|) {
        return Err(DoesNotFit);
      }
      assert forall k :: 0 <= k < |rows| ==> rows[k] in rows;
      var ok := PasteRows(startRow, startColumn, rows);
      return if ok then Ok((|rows|, |rows[0]|)) else Err(IndexOutOfBounds);
    }

    method PasteRows(startRow: nat, startColumn: nat, rows: seq<seq<real>>) returns (ok: bool)
      requires Valid() && forall k :: 0 <= k < |rows| ==> rows[k] != []
      modifies values[..]
      ensures Valid() && (View(), ok) == Paste(old(View()), startRow, startColumn, rows)
    {
      var row := 0;
      while row < |rows|
        invariant 0 <= row <= |rows| && Valid()
        invariant Paste(old(View()), startRow, startColumn, rows) ==
                  Paste(View(), startRow + row, startColumn, rows[row..])
      {
        if startRow + row >= values.Length {
          return false;
        }
        ghost var grid := View();
        ok := OverlayInPlace(values[startRow + row], startColumn, rows[row]);
        assert View() == grid[startRow + row := Overlay(grid[startRow + row], startColumn, rows[row])];
        assert rows[row..][0] == rows[row] && rows[row..][1..] == rows[row + 1..];
        if !ok {
          return false;
        }
        row := row + 1;
      }
      return true;
    }

    method Validate(tolerance: real) returns (v: Validation)
      requires Valid()
      ensures v.diagnostics == GridDiagnostics(View(), editor.requiredRowCount, |editor.childStateIds|, tolerance)
      ensures v.isValid <==> Accepted(View(), editor, tolerance)
      ensures v.rowCount == |View()| && v.cellCount == CellCount(View(), |View()|)
    {
      var diagnostics := [];
      if editor.requiredRowCount != values.Length {
        diagnostics := [Diagnostic(RowCountCode, None, None)];
      }
      var found, count := ValidateRows(tolerance);
      diagnostics := diagnostics + found;
      AcceptsExactlyDistributions(View(), editor.requiredRowCount, |editor.childStateIds|, tolerance);
      return Validation(diagnostics == [], values.Length, count, diagnostics);
    }

    method ValidateRows(tolerance: real) returns (found: seq<Diagnostic>, cells: nat)
      requires Valid()
      ensures found == Collect(RowSearch(View(), |editor.childStateIds|, tolerance), |View()|)
      ensures cells == CellCount(View(), |View()|)
    {
      ghost var grid := View();
      ghost var search := RowSearch(grid, |editor.childStateIds|, tolerance);
      found, cells := [], 0;
      for row := 0 to values.Length
        invariant found == Collect(search, row) && cells == CellCount(grid, row)
      {
        var here := SearchRow(values[row], grid, row, |editor.childStateIds|, tolerance);
        found := found + here;
        cells := cells + values[row].Length;
      }
    }

    static method SearchRow(cells: array<Cell>, ghost grid: Grid, row: nat, columns: nat, tolerance: real)
      returns (found: seq<Diagnostic>)
      requires row < |grid| && grid[row] == cells[..]
      ensures found == RowSearch(grid, columns, tolerance)(row)
    {
      found := ValidateRow(cells, row, columns, tolerance);
    }

    static method ValidateRow(cells: array<Cell>, row: nat, columns: nat,
                              tolerance: real) returns (found: seq<Diagnostic>)
      ensures found == RowDiagnostics(cells[..], row, columns, tolerance)
    {
      if cells.Length != columns {
        return [Diagnostic(ColumnCountCode, Some(row), None)];
      }
      found := [];
      var sum := 0.0;
      for column := 0 to cells.Length
        invariant found == CellDiagnostics(cells[..], row, column)
        invariant sum == SumInRange(cells[..], column)
      {
        var cell := cells[column];
        if cell.None? {
          found := found + [Diagnostic(CellMissing, Some(row), Some(column))];
        } else if !InRange(cell) {
          found := found + [Diagnostic(CellRange, Some(row), Some(column))];
        } else {
          sum := sum + cell.value.value;
        }
      }
      if AllFinite(cells[..]) && Abs(sum - 1.0) > tolerance {
        found := found + [Diagnostic(RowSum, Some(row), None)];
      }
    }

    // Only grids of full shape whose rows are distributions ever reach the backend, and they reach it unchanged.
    method BuildBackendRows() returns (r: Result<seq<seq<real>>, GridError>)
      requires Valid()
      ensures r.Ok? <==> Accepted(View(), editor, DEFAULT_ROW_SUM_TOLERANCE)
      ensures r.Ok? ==> r.value == Probabilities(View()) && Delivers(View(), r.value)
      ensures r.Err? ==> r.error.Invalid?
    {
      var validation := Validate(DEFAULT_ROW_SUM_TOLERANCE);
      if !validation.isValid {
        AcceptsExactlyDistributions(View(), editor.requiredRowCount, |editor.childStateIds|, DEFAULT_ROW_SUM_TOLERANCE);
        return Err(Invalid(validation.diagnostics[0]));
      }
      var rows: seq<seq<real>> := [];
      for row := 0 to values.Length
        invariant |rows| == row && forall k :: 0 <= k < row ==> rows[k] == Probabilities(View())[k]
      {
        assert AllFinite(View()[row]);
        rows := rows + [RowProbabilities(values[row][..])];
      }
      ProbabilitiesAreDelivered(View());
      return Ok(rows);
    }

    method ReplaceCanonical(editor: CptEditor)
      modifies this
      ensures Valid() && this.editor == editor && View() == Created(editor) && fresh(values) && fresh(values[..])
    {
      this.editor := editor;
      values := CreateValues(editor);
    }
  }
}
