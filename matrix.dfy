/**
 * The integer grid a submitted form holds, the rows of the "Matrix Info"
 * table (one per non-zero cell) and the reference definitions of what that
 * table and the zero counter must contain.
 */
module Matrix {

  /** One row of the result table: the cell's row index, column index and value. */
  datatype Entry = Entry(row: int, col: int, value: int)

  /** `m` is rectangular with `rows` rows of `cols` cells each. */
  predicate IsGrid<T>(m: seq<seq<T>>, rows: nat, cols: nat)
  {
    |m| == rows && forall i :: 0 <= i < rows ==> |m[i]| == cols
  }

  /** `a` sits strictly before `b` in row-major order. */
  predicate Precedes(a: Entry, b: Entry)
  {
    a.row < b.row || (a.row == b.row && a.col < b.col)
  }

  /** The entries are strictly ascending in row-major order. */
  predicate RowMajor(s: seq<Entry>)
  {
    forall a, b :: 0 <= a < b < |s| ==> Precedes(s[a], s[b])
  }

  /** `e` names a cell of `m`, carries that cell's value, and that value is non-zero. */
  predicate Records(m: seq<seq<int>>, e: Entry)
  {
    0 <= e.row < |m| && 0 <= e.col < |m[e.row]| && e.value == m[e.row][e.col] && e.value != 0
  }

  /** The non-zero cells among the first `j` columns of row `i`, left to right. */
  function RowEntries(row: seq<int>, i: int, j: nat): seq<Entry>
    requires j <= |row|
  {
    if j == 0 then []
    else RowEntries(row, i, j - 1) + (if row[j - 1] != 0 then [Entry(i, j - 1, row[j - 1])] else [])
  }

  /** The non-zero cells of the first `i` rows of `m`, in row-major order. */
  function GridEntries(m: seq<seq<int>>, i: nat): seq<Entry>
    requires i <= |m|
  {
    if i == 0 then [] else GridEntries(m, i - 1) + RowEntries(m[i - 1], i - 1, |m[i - 1]|)
  }

  /** The result table the scan must produce for `m`. */
  function NonZeroEntries(m: seq<seq<int>>): seq<Entry>
  {
    GridEntries(m, |m|)
  }

  /** The number of zero cells among the first `j` columns of `row`. */
  function RowZeros(row: seq<int>, j: nat): nat
    requires j <= |row|
  {
    if j == 0 then 0 else RowZeros(row, j - 1) + (if row[j - 1] == 0 then 1 else 0)
  }

  /** The number of zero cells in the first `i` rows of `m`. */
  function GridZeros(m: seq<seq<int>>, i: nat): nat
    requires i <= |m|
  {
    if i == 0 then 0 else GridZeros(m, i - 1) + RowZeros(m[i - 1], |m[i - 1]|)
  }

  /** The number of zero cells of `m`. */
  function ZeroCount(m: seq<seq<int>>): nat
  {
    GridZeros(m, |m|)
  }

  // ---------------------------------------------------------------------
  // Facts about prefixes of the scan
  // ---------------------------------------------------------------------

  lemma {:induction false} RowEntriesSpec(row: seq<int>, i: int, j: nat)
    requires j <= |row|
    ensures forall k :: 0 <= k < |RowEntries(row, i, j)| ==>
      var e := RowEntries(row, i, j)[k];
      e.row == i && 0 <= e.col < j && e.value == row[e.col] && e.value != 0
    ensures RowMajor(RowEntries(row, i, j))
    ensures forall c :: 0 <= c < j && row[c] != 0 ==> Entry(i, c, row[c]) in RowEntries(row, i, j)
    ensures |RowEntries(row, i, j)| + RowZeros(row, j) == j
  {
    if j > 0 {
      RowEntriesSpec(row, i, j - 1);
      var p := RowEntries(row, i, j - 1);
      var x := if row[j - 1] != 0 then [Entry(i, j - 1, row[j - 1])] else [];
      assert RowEntries(row, i, j) == p + x;
      forall a, b | 0 <= a < b < |p + x| ensures Precedes((p + x)[a], (p + x)[b]) {
        if b >= |p| {
          assert (p + x)[b] == Entry(i, j - 1, row[j - 1]);
          assert (p + x)[a] == p[a];
        }
      }
    }
  }

  lemma {:induction false} GridEntriesSpec(m: seq<seq<int>>, i: nat)
    requires i <= |m|
    ensures forall k :: 0 <= k < |GridEntries(m, i)| ==>
      Records(m, GridEntries(m, i)[k]) && GridEntries(m, i)[k].row < i
    ensures RowMajor(GridEntries(m, i))
    ensures forall r, c :: 0 <= r < i && 0 <= c < |m[r]| && m[r][c] != 0 ==>
      Entry(r, c, m[r][c]) in GridEntries(m, i)
  {
    if i > 0 {
      GridEntriesSpec(m, i - 1);
      RowEntriesSpec(m[i - 1], i - 1, |m[i - 1]|);
      var g := GridEntries(m, i - 1);
      var q := RowEntries(m[i - 1], i - 1, |m[i - 1]|);
      assert GridEntries(m, i) == g + q;
      forall k | 0 <= k < |g + q| ensures Records(m, (g + q)[k]) && (g + q)[k].row < i {
        if k >= |g| {
          assert (g + q)[k] == q[k - |g|];
        }
      }
      forall a, b | 0 <= a < b < |g + q| ensures Precedes((g + q)[a], (g + q)[b]) {
        if a < |g| && b >= |g| {
          assert (g + q)[a] == g[a] && (g + q)[b] == q[b - |g|];
        } else if a >= |g| {
          assert (g + q)[a] == q[a - |g|] && (g + q)[b] == q[b - |g|];
        }
      }
    }
  }

  lemma {:induction false} GridCounts(m: seq<seq<int>>, i: nat, cols: nat)
    requires i <= |m|
    requires forall r :: 0 <= r < |m| ==> |m[r]| == cols
    ensures |GridEntries(m, i)| + GridZeros(m, i) == i * cols
  {
    if i > 0 {
      GridCounts(m, i - 1, cols);
      RowEntriesSpec(m[i - 1], i - 1, |m[i - 1]|);
      assert (i - 1) * cols + cols == i * cols;
    }
  }

  // ---------------------------------------------------------------------
  // What the result table promises
  // ---------------------------------------------------------------------

  /** Every row of the result table names a non-zero cell of the grid and carries its value. */
  lemma NonZeroEntriesSound(m: seq<seq<int>>)
    ensures forall k :: 0 <= k < |NonZeroEntries(m)| ==> Records(m, NonZeroEntries(m)[k])
  {
    GridEntriesSpec(m, |m|);
  }

  /** Every non-zero cell of the grid is listed in the result table. */
  lemma NonZeroEntriesComplete(m: seq<seq<int>>)
    ensures forall i, j :: 0 <= i < |m| && 0 <= j < |m[i]| && m[i][j] != 0 ==>
      Entry(i, j, m[i][j]) in NonZeroEntries(m)
  {
    GridEntriesSpec(m, |m|);
  }

  /** The result table is strictly ascending in row-major order, consecutive rows included. */
  lemma NonZeroEntriesRowMajor(m: seq<seq<int>>)
    ensures RowMajor(NonZeroEntries(m))
    ensures forall k :: 0 <= k < |NonZeroEntries(m)| - 1 ==>
      var e1, e2 := NonZeroEntries(m)[k], NonZeroEntries(m)[k + 1];
      e1.row < e2.row || (e1.row == e2.row && e1.col < e2.col)
  {
    GridEntriesSpec(m, |m|);
  }

  /** Non-zero and zero cells together make up the whole grid. */
  lemma NonZeroAndZeroCoverGrid(m: seq<seq<int>>, rows: nat, cols: nat)
    requires IsGrid(m, rows, cols)
    ensures |NonZeroEntries(m)| + ZeroCount(m) == rows * cols
  {
    GridCounts(m, rows, cols);
  }

  /** A strictly row-major sequence holds each of its entries exactly once. */
  lemma {:induction false} RowMajorOccursOnce(s: seq<Entry>, x: Entry)
    requires RowMajor(s)
    requires x in s
    ensures multiset(s)[x] == 1
  {
    assert s == [s[0]] + s[1..];
    assert multiset(s) == multiset([s[0]]) + multiset(s[1..]);
    if x == s[0] {
      assert x !in s[1..] by {
        forall k | 0 <= k < |s[1..]| ensures s[1..][k] != x {
          assert Precedes(s[0], s[k + 1]);
        }
      }
    } else {
      RowMajorOccursOnce(s[1..], x);
    }
  }

  /**
   * A non-zero cell is listed exactly once; a zero cell is never listed,
   * under any value.
   */
  lemma NonZeroEntriesExactlyOnce(m: seq<seq<int>>, i: nat, j: nat)
    requires i < |m| && j < |m[i]|
    ensures multiset(NonZeroEntries(m))[Entry(i, j, m[i][j])] == if m[i][j] != 0 then 1 else 0
    ensures m[i][j] == 0 ==> forall v :: Entry(i, j, v) !in NonZeroEntries(m)
  {
    GridEntriesSpec(m, |m|);
    if m[i][j] != 0 {
      RowMajorOccursOnce(NonZeroEntries(m), Entry(i, j, m[i][j]));
    }
  }

  /** An all-zero grid yields an empty result table and every cell counts as zero. */
  lemma AllZeroGrid(m: seq<seq<int>>, rows: nat, cols: nat)
    requires IsGrid(m, rows, cols)
    requires forall i, j :: 0 <= i < rows && 0 <= j < cols ==> m[i][j] == 0
    ensures NonZeroEntries(m) == []
    ensures ZeroCount(m) == rows * cols
  {
    NonZeroEntriesSound(m);
    assert NonZeroEntries(m) != [] ==> Records(m, NonZeroEntries(m)[0]);
    NonZeroAndZeroCoverGrid(m, rows, cols);
  }

  /** The head of a strictly row-major sequence precedes every other element of it. */
  lemma RowMajorHeadLeast(s: seq<Entry>, x: Entry)
    requires RowMajor(s)
    requires x in s
    ensures x == s[0] || Precedes(s[0], x)
  {
  }

  /** Two strictly row-major sequences with the same elements are equal. */
  lemma {:induction false} RowMajorUnique(s: seq<Entry>, t: seq<Entry>)
    requires RowMajor(s) && RowMajor(t)
    requires forall x :: x in s <==> x in t
    ensures s == t
  {
    assert s != [] ==> s[0] in t;
    assert t != [] ==> t[0] in s;
    if s != [] && t != [] {
      RowMajorHeadLeast(s, t[0]);
      RowMajorHeadLeast(t, s[0]);
      assert s[0] == t[0];
      forall x ensures x in s[1..] <==> x in t[1..] {
        if x in s[1..] {
          var k :| 0 <= k < |s[1..]| && s[1..][k] == x;
          assert Precedes(s[0], s[k + 1]);
          assert x in t;
        }
        if x in t[1..] {
          var k :| 0 <= k < |t[1..]| && t[1..][k] == x;
          assert Precedes(t[0], t[k + 1]);
          assert x in s;
        }
      }
      RowMajorUnique(s[1..], t[1..]);
      assert s == [s[0]] + s[1..] && t == [t[0]] + t[1..];
    }
  }

  /**
   * The result table is characterised without reference to how it is built:
   * any strictly row-major listing of exactly the non-zero cells is it.
   */
  lemma NonZeroEntriesUnique(m: seq<seq<int>>, s: seq<Entry>)
    requires RowMajor(s)
    requires forall k :: 0 <= k < |s| ==> Records(m, s[k])
    requires forall i, j :: 0 <= i < |m| && 0 <= j < |m[i]| && m[i][j] != 0 ==> Entry(i, j, m[i][j]) in s
    ensures s == NonZeroEntries(m)
  {
    var e := NonZeroEntries(m);
    GridEntriesSpec(m, |m|);
    forall x ensures x in s <==> x in e {
      if x in s {
        var k :| 0 <= k < |s| && s[k] == x;
        assert Records(m, s[k]);
      }
      if x in e {
        var k :| 0 <= k < |e| && e[k] == x;
        assert Records(m, e[k]);
      }
    }
    RowMajorUnique(s, e);
  }
}
