/**
 * The main window: the entry table of cell texts, its row and column counts,
 * and the visibility of the "Submit Matrix" button, with the two button
 * handlers that act on them.
 */
module Form {
  import opened Wrappers
  import opened CellText
  import opened Matrix
  import Scanner

  /** Why "Create Matrix" refuses its input (the ValueError the handler prints). */
  datatype DimensionError =
    | NotAnInteger(text: string)
    | NotPositive(rows: int, cols: int)

  /** Why "Submit Matrix" stops: the first cell, in row-major order, whose text is no integer. */
  datatype CellError = CellError(row: nat, col: nat, text: string)

  /** Reads the row count, then the column count, then demands that both be positive. */
  function CheckDimensions(rowText: string, colText: string): (r: Result<(nat, nat), DimensionError>)
    ensures r.Success? <==>
      ParseInt(rowText).Some? && ParseInt(colText).Some? &&
      ParseInt(rowText).value > 0 && ParseInt(colText).value > 0
    ensures r.Success? ==>
      Some(r.value.0 as int) == ParseInt(rowText) && Some(r.value.1 as int) == ParseInt(colText)
    ensures r.Success? ==> r.value.0 > 0 && r.value.1 > 0
  {
    match ParseInt(rowText)
    case None => Failure(NotAnInteger(rowText))
    case Some(rows) =>
      match ParseInt(colText)
      case None => Failure(NotAnInteger(colText))
      case Some(cols) =>
        if rows <= 0 || cols <= 0 then Failure(NotPositive(rows, cols))
        else Success((rows as nat, cols as nat))
  }

  /** Typing the decimal counts `rows` and `cols` succeeds exactly when both are positive. */
  lemma CheckDimensionsRender(rows: int, cols: int)
    ensures CheckDimensions(Render(rows), Render(cols)) ==
      if rows > 0 && cols > 0 then Success((rows as nat, cols as nat))
      else Failure(NotPositive(rows, cols))
  {
    ParseIntRender(rows);
    ParseIntRender(cols);
  }

  /** Every cell's text of `table` is an integer. */
  predicate AllCellsParse(table: seq<seq<string>>)
  {
    forall i, j :: 0 <= i < |table| && 0 <= j < |table[i]| ==> ParseCell(table[i][j]).Some?
  }

  /** Cell (i, j) is visited before cell (r, c) in row-major order. */
  predicate Before(i: int, j: int, r: int, c: int)
  {
    Precedes(Entry(i, j, 0), Entry(r, c, 0))
  }

  /** (r, c) is the first cell, in row-major order, whose text is no integer. */
  predicate FirstBadCell(table: seq<seq<string>>, r: int, c: int)
  {
    0 <= r < |table| && 0 <= c < |table[r]| && ParseCell(table[r][c]).None? &&
    forall i, j :: 0 <= i < |table| && 0 <= j < |table[i]| && Before(i, j, r, c) ==>
      ParseCell(table[i][j]).Some?
  }

  /** `m` holds, cell by cell, the values of the texts of `table`. */
  predicate ParsedFrom(m: seq<seq<int>>, table: seq<seq<string>>)
  {
    |m| == |table| &&
    (forall i :: 0 <= i < |m| ==> |m[i]| == |table[i]|) &&
    forall i, j :: 0 <= i < |m| && 0 <= j < |m[i]| ==> ParseCell(table[i][j]) == Some(m[i][j])
  }

  /** The cell texts determine the grid: two grids parsed from one table are equal. */
  lemma ParsedFromUnique(m1: seq<seq<int>>, m2: seq<seq<int>>, table: seq<seq<string>>)
    requires ParsedFrom(m1, table) && ParsedFrom(m2, table)
    ensures m1 == m2
  {
    forall i | 0 <= i < |m1| ensures m1[i] == m2[i] {
      forall j | 0 <= j < |m1[i]| ensures m1[i][j] == m2[i][j] {
        assert ParseCell(table[i][j]) == Some(m1[i][j]) == Some(m2[i][j]);
      }
    }
  }

  /** At most one cell is the first bad one. */
  lemma FirstBadCellUnique(table: seq<seq<string>>, r1: int, c1: int, r2: int, c2: int)
    requires FirstBadCell(table, r1, c1) && FirstBadCell(table, r2, c2)
    ensures r1 == r2 && c1 == c2
  {
  }

  /**
   * The grid-building loops of "Submit Matrix": read each cell's text in
   * row-major order and append its value to the current row; the first text
   * that is no integer ends the build with no grid at all.
   */
  method BuildGrid(table: seq<seq<string>>, rows: nat, cols: nat) returns (res: Result<seq<seq<int>>, CellError>)
    requires IsGrid(table, rows, cols)
    ensures res.Success? <==> AllCellsParse(table)
    ensures res.Success? ==> IsGrid(res.value, rows, cols) && ParsedFrom(res.value, table)
    ensures res.Failure? ==>
      FirstBadCell(table, res.error.row, res.error.col) &&
      res.error.text == table[res.error.row][res.error.col]
  {
    var matrix: seq<seq<int>> := [];
    var i := 0;
    while i < rows
      invariant 0 <= i <= rows
      invariant |matrix| == i
      invariant forall a :: 0 <= a < i ==> |matrix[a]| == cols
      invariant forall a, b :: 0 <= a < i && 0 <= b < cols ==> ParseCell(table[a][b]) == Some(matrix[a][b])
    {
      var row: seq<int> := [];
      var j := 0;
      while j < cols
        invariant 0 <= j <= cols
        invariant |row| == j
        invariant forall b :: 0 <= b < j ==> ParseCell(table[i][b]) == Some(row[b])
      {
        var value := table[i][j];
        var element := ParseCell(value);
        if element.None? {
          return Failure(CellError(i, j, value));
        }
        row := row + [element.value];
        j := j + 1;
      }
      matrix := matrix + [row];
      i := i + 1;
    }
    return Success(matrix);
  }

  /** The application's main window, reduced to the state its handlers use. */
  class MatrixApp {
    /** The text of every cell of the entry table, row by row. */
    var table: seq<seq<string>>
    var rowCount: nat
    var colCount: nat
    var submitVisible: bool

    ghost predicate Valid()
      reads this
    {
      IsGrid(table, rowCount, colCount)
    }

    /** A new window: an empty entry table and a hidden "Submit Matrix" button. */
    constructor ()
      ensures Valid()
      ensures table == [] && rowCount == 0 && colCount == 0 && !submitVisible
    {
      table, rowCount, colCount := [], 0, 0;
      submitVisible := false;
    }

    /**
     * "Create Matrix": on valid counts, replace the entry table by a
     * rows x cols table of empty cells and show "Submit Matrix"; on invalid
     * counts change nothing.
     */
    method CreateMatrix(rowText: string, colText: string) returns (outcome: Result<(nat, nat), DimensionError>)
      requires Valid()
      modifies this
      ensures Valid()
      ensures outcome == CheckDimensions(rowText, colText)
      ensures outcome.Failure? ==>
        table == old(table) && rowCount == old(rowCount) && colCount == old(colCount) &&
        submitVisible == old(submitVisible)
      ensures outcome.Success? ==>
        rowCount == outcome.value.0 && colCount == outcome.value.1 && submitVisible &&
        forall i, j :: 0 <= i < rowCount && 0 <= j < colCount ==> table[i][j] == ""
    {
      outcome := CheckDimensions(rowText, colText);
      if outcome.Failure? {
        return;
      }
      var (rows, cols) := outcome.value;
      var cells: seq<seq<string>> := [];
      for i := 0 to rows
        invariant |cells| == i
        invariant forall a :: 0 <= a < i ==> |cells[a]| == cols
        invariant forall a, b :: 0 <= a < i && 0 <= b < cols ==> cells[a][b] == ""
      {
        var row: seq<string> := [];
        for j := 0 to cols
          invariant |row| == j
          invariant forall b :: 0 <= b < j ==> row[b] == ""
        {
          row := row + [""];
        }
        cells := cells + [row];
      }
      table, rowCount, colCount := cells, rows, cols;
      submitVisible := true;
    }

    /** The user typing `text` into cell (i, j), which the entry table's own editor does. */
    method EditCell(i: nat, j: nat, text: string)
      requires Valid() && i < rowCount && j < colCount
      modifies this
      ensures Valid()
      ensures table == old(table[i := table[i][j := text]])
      ensures rowCount == old(rowCount) && colCount == old(colCount) && submitVisible == old(submitVisible)
    {
      table := table[i := table[i][j := text]];
    }

    /**
     * "Submit Matrix": build the grid from the cell texts and, only if every
     * text is an integer, scan it for the "Matrix Info" window.
     */
    method SubmitMatrix() returns (r: Result<Scanner.ScanResult, CellError>)
      requires Valid()
      ensures r.Success? <==> AllCellsParse(table)
      ensures r.Failure? ==>
        FirstBadCell(table, r.error.row, r.error.col) && r.error.text == table[r.error.row][r.error.col]
      ensures r.Success? ==>
        r.value.rows == rowCount && r.value.cols == colCount &&
        r.value.zeroCount + r.value.nonZeroCount == rowCount * colCount &&
        r.value.nonZeroCount == |r.value.entries| &&
        exists m :: ParsedFrom(m, table) && IsGrid(m, rowCount, colCount) &&
          r.value.entries == NonZeroEntries(m) && r.value.zeroCount == ZeroCount(m)
    {
      var rows := rowCount;
      var cols := colCount;
      var built := BuildGrid(table, rows, cols);
      if built.Failure? {
        return Failure(built.error);
      }
      var info := Scanner.DisplayNonZeroElements(built.value, rows, cols);
      return Success(info);
    }
  }
}
