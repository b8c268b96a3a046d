# Sparse-Matrix form: a Dafny model

The program is a small desktop form. The user types a row count and a column
count and presses "Create Matrix". The form then shows an editable table of
empty cells and a "Submit Matrix" button. On submit, every cell's text is read
in row-major order. An empty text stands for 0 and any other text must be an
integer. The resulting grid is scanned, and a "Matrix Info" window lists every
non-zero cell as a (row, column, value) row, together with the number of
non-zero and zero cells.

This project models that logic and proves what it promises:

- `Matrix` holds the grid, the result entries and the reference definitions of
  the expected entries (`NonZeroEntries`) and of the zero counter (`ZeroCount`).
  It also holds the lemmas about them.
- `Scanner.DisplayNonZeroElements` is the counting and listing loop. It keeps
  the two counters and grows the result table. Each new row is inserted at
  index `nonZeroCount`, as the source does, and the proof shows that this is
  always the end of the table.
- `CellText` turns cell text into integers. `ParseInt` is a decimal reading of
  Python's `int()`: it strips surrounding ASCII whitespace and then accepts an
  optional sign followed by ASCII digits. `ParseCell` is the form's rule
  `int(value) if value else 0`. `Render` writes an integer the way `str()` does
  and serves as the inverse that `ParseInt` is checked against.
- `Form` holds the dimension check, the grid-building loop with its early exit,
  and the class `MatrixApp`. Its fields are the cell texts of the entry table,
  the row count, the column count and whether "Submit Matrix" is visible. Its
  methods are the two button handlers. `EditCell` stands for the user typing
  into a cell; the table widget's built-in editor does this, and the
  repository has no code for it.
- `Scenarios` has client sessions that drive the window through these
  contracts: an all-zero grid, a diagonal grid, a 1 x 1 negative grid, a bad
  cell and rejected counts.

The contract of `DisplayNonZeroElements` fixes its whole result as a function
of the grid. Scanning the same grid twice therefore gives the same result.

Only the empty cell text is 0. A whitespace-only cell is rejected, because
`int()` refuses it (`CellText.ParseCellBlank`). A cell error carries the
cell's position and its text (`Form.CellError`).

## Model

| member | source | states |
|---|---|---|
| `Matrix.RowEntriesSpec` | sparse-matrix.py:119-127 | After `j` columns of row `i`, every listed entry lies in row `i`, to the left of column `j`, and carries that cell's non-zero value. The entries are strictly left to right and every non-zero cell so far is listed. Listed entries plus zero cells number `j`. |
| `Matrix.GridEntriesSpec` | sparse-matrix.py:118-127 | After the first `i` rows, every listed entry names a non-zero cell of those rows with its value. The entries are strictly row-major and every non-zero cell of those rows is listed. |
| `Matrix.GridCounts` | sparse-matrix.py:118-127 | After `i` full rows of `cols` cells, listed entries plus zero cells number `i * cols`. |
| `Matrix.NonZeroEntriesSound` | sparse-matrix.py:118-124 | Every entry `(i, j, v)` has `0 <= i < rows`, `0 <= j < cols`, `v == matrix[i][j]` and `v != 0`. |
| `Matrix.NonZeroEntriesComplete` | sparse-matrix.py:118-125 | Every cell with a non-zero value appears among the entries with that value. |
| `Matrix.NonZeroEntriesRowMajor` | sparse-matrix.py:118-121 | The entries are strictly ascending in row-major order: for any two, and in particular for consecutive ones, either the row grows or the row is equal and the column grows. |
| `Matrix.NonZeroEntriesExactlyOnce` | sparse-matrix.py:118-127 | A non-zero cell occurs exactly once in the entries (its multiset count is 1). A zero cell occurs under no value at all. |
| `Matrix.NonZeroAndZeroCoverGrid` | sparse-matrix.py:110-127 | For a `rows x cols` grid, the non-zero entries plus the zero count equal `rows * cols`. |
| `Matrix.AllZeroGrid` | sparse-matrix.py:118-127 | An all-zero grid yields no entries and a zero count of `rows * cols`. |
| `Matrix.RowMajorOccursOnce` | sparse-matrix.py:121-125 | A strictly row-major listing holds each of its elements exactly once, so a table grown in visit order has no duplicate. |
| `Matrix.RowMajorHeadLeast` | sparse-matrix.py:118-121 | The first entry of a row-major listing is before every other entry in it. |
| `Matrix.RowMajorUnique` | sparse-matrix.py:118-125 | Two strictly row-major listings with the same elements are the same sequence. |
| `Matrix.NonZeroEntriesUnique` | sparse-matrix.py:118-125 | The scan's entries are the only strictly row-major sequence that lists exactly the non-zero cells with their values. |
| `Scanner.DisplayNonZeroElements` | sparse-matrix.py:110-127 | The returned table is `NonZeroEntries(matrix)`. `nonZeroCount` is its length and `zeroCount` is `ZeroCount(matrix)`. The two counts sum to `rows * cols`. Every entry records a non-zero cell, every non-zero cell is listed, and the order is strictly row-major. |
| `CellText.ParseInt` | sparse-matrix.py:53-54 | The model of `int()` on a count (lines 53-54; on a cell text at line 88 it is reached through `CellText.ParseCell`): Some of the value when an optional sign and ASCII digits remain after stripping ASCII whitespace, None otherwise. The function has no `ensures` of its own. Its properties are stated by `CellText.ParseIntRender` (it reads back every integer's decimal text) and `CellText.ParseIntRejects` (any character other than whitespace, digit or sign makes it fail). |
| `CellText.ParseCell` | sparse-matrix.py:88 | The model of `int(value) if value else 0`. The function has no `ensures` of its own. Its properties are stated by `CellText.ParseCellBlank` (only the empty text is 0, and whitespace-only text fails) and `CellText.ParseCellRender` (a cell holding the decimal text of `n` is `n`). |
| `CellText.NatDigitsValue` | sparse-matrix.py:88 | The decimal digits of a natural number form a digit run whose value is that number. |
| `CellText.ParseIntRender` | sparse-matrix.py:88 | The model's `int()` (`ParseInt`) reads the decimal text of any integer, negative ones included, back as that integer. Python's own `int()` does so only up to its digit limit; see Left out. |
| `CellText.ParseCellRender` | sparse-matrix.py:88 | A cell whose text is the decimal text of `n` has the value `n`. |
| `CellText.ParseCellBlank` | sparse-matrix.py:88 | An empty cell is 0. A non-empty cell of only whitespace is not an integer: only the empty string is mapped to 0. |
| `CellText.ParseIntRejects` | sparse-matrix.py:87-91 | Text holding any character that is not whitespace, a digit or a sign is not an integer. |
| `CellText.StripKeeps` | sparse-matrix.py:88 | Stripping before parsing removes only whitespace: every other character stays. |
| `CellText.TrimLeftKeeps` | sparse-matrix.py:88 | Removing leading whitespace keeps every non-whitespace character. |
| `CellText.TrimRightKeeps` | sparse-matrix.py:88 | Removing trailing whitespace keeps every non-whitespace character. |
| `CellText.TrimLeftAllSpace` | sparse-matrix.py:88 | Text of only whitespace strips to the empty string. |
| `Form.CheckDimensions` | sparse-matrix.py:52-59 | Succeeds exactly when both texts are integers and both are positive. It then returns those two values. |
| `Form.CheckDimensionsRender` | sparse-matrix.py:52-59 | Typed decimal counts are accepted as `(rows, cols)` when both are positive. Otherwise they are refused as not positive. |
| `Form.ParsedFromUnique` | sparse-matrix.py:82-93 | The cell texts determine the integer grid: two grids parsed from one table are equal. |
| `Form.FirstBadCellUnique` | sparse-matrix.py:86-91 | At most one cell is the first, in row-major order, whose text is not an integer. |
| `Form.BuildGrid` | sparse-matrix.py:82-93 | Succeeds exactly when every cell's text is an integer. It then returns a `rows x cols` grid holding each cell's value at its position. Otherwise it stops at the first bad cell in row-major order and returns its position and text. |
| `Form.MatrixApp.constructor` | sparse-matrix.py:30-38 | A new window has an empty entry table and a hidden "Submit Matrix" button. |
| `Form.MatrixApp.CreateMatrix` | sparse-matrix.py:51-76 | The outcome is `CheckDimensions` of the two texts. On failure nothing changes. On success the table becomes `rows x cols` with every cell's text empty, and "Submit Matrix" is shown. |
| `Form.MatrixApp.SubmitMatrix` | sparse-matrix.py:78-95 | All or nothing. With one bad cell, the first one in row-major order is reported and no scan happens. Otherwise the result holds the grid's size, `NonZeroEntries` and `ZeroCount` of the parsed grid, and the counts sum to `rows * cols`. |

## Left out

- Window construction, layout, sizing, alignment, headers, stylesheets and showing the windows: these are presentation and calls into the widget library.
- The console messages for a bad count or a bad cell: they appear as the `Failure` value of `CheckDimensions` and `BuildGrid`.
- CellText.ParseInt: does not accept everything Python's `int()` accepts. It has no `_` digit separators, no non-ASCII digits and no non-ASCII whitespace.
- CellText.ParseInt: has no digit limit. From Python 3.11 on (and in the security releases back to 3.7.14), `int()` raises ValueError on a decimal string longer than `sys.get_int_max_str_digits()` digits (4300 by default). The source then aborts the submit or refuses the count. The model accepts such text; it agrees with `int()` only on ASCII text without underscores and within that limit.
- Form.MatrixApp.CreateMatrix: accepts any positive count. The table widget holds its row and column counts as C `int`s, so a count above 2147483647 passes the dimension check but makes `setRowCount` or `setColumnCount` fail after the old cells were cleared, outside the handler's `try`, and the handler crashes. The model has no such bound and builds the `rows x cols` table.
- Form.MatrixApp.EditCell: models user input, not a line of the program. It stands for the table widget's built-in cell editor, through which the user types cell text between "Create Matrix" and "Submit Matrix", and it has no row under "## Model".
- The `str()` text written into the result table's cells: entries stay integer triples.
- The entry table is rebuilt row by row as a new value, not cleared and filled item by item. No other object can see the table, so the difference is not observable.
- The window's own rendering of the summary labels: they are the `rows`, `cols`, `nonZeroCount` and `zeroCount` fields of `Scanner.ScanResult`.
