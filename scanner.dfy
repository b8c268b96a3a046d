/**
 * The counting and listing loops of the "Matrix Info" window: every cell is
 * visited in row-major order; a non-zero cell becomes a new row of the result
 * table and counts as non-zero, a zero cell counts as zero.
 */
module Scanner {
  import opened Matrix

  /**
   * What the window shows: the size label, the result table (one entry per
   * row) and the two counters of the summary label.
   */
  datatype ScanResult = ScanResult(rows: nat, cols: nat, entries: seq<Entry>, nonZeroCount: nat, zeroCount: nat)

  method DisplayNonZeroElements(matrix: seq<seq<int>>, rows: nat, cols: nat) returns (r: ScanResult)
    requires IsGrid(matrix, rows, cols)
    ensures r.rows == rows && r.cols == cols
    ensures r.entries == NonZeroEntries(matrix)
    ensures r.nonZeroCount == |r.entries|
    ensures r.zeroCount == ZeroCount(matrix)
    ensures r.zeroCount + r.nonZeroCount == rows * cols
    ensures forall k :: 0 <= k < |r.entries| ==> Records(matrix, r.entries[k])
    ensures forall i, j :: 0 <= i < rows && 0 <= j < cols && matrix[i][j] != 0 ==>
      Entry(i, j, matrix[i][j]) in r.entries
    ensures RowMajor(r.entries)
  {
    var nonZeroCount: nat := 0;
    var zeroCount: nat := 0;
    var table: seq<Entry> := [];
    var i := 0;
    while i < rows
      invariant 0 <= i <= rows
      invariant table == GridEntries(matrix, i)
      invariant nonZeroCount == |table|
      invariant zeroCount == GridZeros(matrix, i)
    {
      var j := 0;
      while j < cols
        invariant 0 <= j <= cols
        invariant table == GridEntries(matrix, i) + RowEntries(matrix[i], i, j)
        invariant nonZeroCount == |table|
        invariant zeroCount == GridZeros(matrix, i) + RowZeros(matrix[i], j)
      {
        if matrix[i][j] != 0 {
          // the new table row goes in at index nonZeroCount, which is the end
          table := table[..nonZeroCount] + [Entry(i, j, matrix[i][j])] + table[nonZeroCount..];
          nonZeroCount := nonZeroCount + 1;
        } else {
          zeroCount := zeroCount + 1;
        }
        j := j + 1;
      }
      i := i + 1;
    }
    r := ScanResult(rows, cols, table, nonZeroCount, zeroCount);
    NonZeroAndZeroCoverGrid(matrix, rows, cols);
    NonZeroEntriesSound(matrix);
    NonZeroEntriesComplete(matrix);
    NonZeroEntriesRowMajor(matrix);
  }
}
