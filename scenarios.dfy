/** Sessions with the main window, as a user would drive it. */
module Scenarios {
  import opened Wrappers
  import opened CellText
  import opened Matrix
  import opened Form
  import Scanner

  /** Enter [[1, 0], [0, 2]] by filling two cells of a fresh 2 x 2 table. */
  method DiagonalSession() {
    var app := new MatrixApp();
    CheckDimensionsRender(2, 2);
    assert Render(2) == "2";
    var created := app.CreateMatrix("2", "2");
    assert created == Success((2, 2));
    ParseCellRender(1);
    ParseCellRender(2);
    assert Render(1) == "1";
    assert app.table[0] == ["", ""] && app.table[1] == ["", ""];
    app.EditCell(0, 0, "1");
    assert app.table[0] == ["1", ""] && app.table[1] == ["", ""];
    app.EditCell(1, 1, "2");
    assert app.table[0] == ["1", ""] && app.table[1] == ["", "2"];
    assert app.table == [["1", ""], ["", "2"]];
    var submitted := app.SubmitMatrix();
    assert submitted.Success?;
    var m :| ParsedFrom(m, app.table) && IsGrid(m, 2, 2) &&
      submitted.value.entries == NonZeroEntries(m) && submitted.value.zeroCount == ZeroCount(m);
    ParsedFromUnique(m, [[1, 0], [0, 2]], app.table);
    assert submitted.value.entries == [Entry(0, 0, 1), Entry(1, 1, 2)];
    assert submitted.value.zeroCount == 2 && submitted.value.nonZeroCount == 2;
  }

  /** A cell holding "abc" aborts the submit and is reported; nothing is scanned. */
  method BadCellSession() {
    var app := new MatrixApp();
    CheckDimensionsRender(1, 2);
    assert Render(1) == "1" && Render(2) == "2";
    var created := app.CreateMatrix("1", "2");
    assert created.Success?;
    ParseIntRejects("abc", 0);
    app.EditCell(0, 1, "abc");
    var submitted := app.SubmitMatrix();
    assert ParseCell(app.table[0][1]) == None;
    assert submitted.Failure?;
    assert FirstBadCell(app.table, 0, 1);
    FirstBadCellUnique(app.table, 0, 1, submitted.error.row, submitted.error.col);
    assert submitted.error == CellError(0, 1, "abc");
  }

  /** Invalid counts leave the window as it was. */
  method RejectedCountsSession() {
    var app := new MatrixApp();
    CheckDimensionsRender(0, 3);
    assert Render(0) == "0" && Render(3) == "3";
    var created := app.CreateMatrix("0", "3");
    assert created == Failure(NotPositive(0, 3));
    assert app.table == [] && !app.submitVisible;
  }

  /** Three example scans: an all-zero grid, a diagonal grid and a 1 x 1 negative grid. */
  method ScanExamples() {
    var r1 := Scanner.DisplayNonZeroElements([[0, 0], [0, 0]], 2, 2);
    assert r1.entries == [] && r1.zeroCount == 4 && r1.nonZeroCount == 0;
    var r2 := Scanner.DisplayNonZeroElements([[1, 0], [0, 2]], 2, 2);
    assert r2.entries == [Entry(0, 0, 1), Entry(1, 1, 2)] && r2.zeroCount == 2 && r2.nonZeroCount == 2;
    var r3 := Scanner.DisplayNonZeroElements([[-5]], 1, 1);
    assert r3.entries == [Entry(0, 0, -5)] && r3.zeroCount == 0 && r3.nonZeroCount == 1;
  }
}
