/** Occurrence counts over the cells of a grid `cell(q, j)`, read row by row
    or column by column. Row starts are built by repeated addition so that
    the lemmas here need no multiplication; `RowStartIsProduct` links them
    to `q * width` once. */
module GridCounts {

  /** Flat position of the first cell of row `q` in a buffer of rows of `width` cells. */
  function RowStart(width: nat, q: nat): nat {
    if q == 0 then 0 else RowStart(width, q - 1) + width
  }

  lemma {:induction false} RowStartIsProduct(width: nat, q: nat)
    ensures RowStart(width, q) == q * width
  {
    if q > 0 {
      RowStartIsProduct(width, q - 1);
      assert q * width == (q - 1) * width + width;
    }
  }

  /** Number of cells (q, 0) .. (q, k - 1) equal to `x`. */
  ghost function RowCount<T>(cell: (nat, nat) -> T, x: T, q: nat, k: nat): nat {
    if k == 0 then 0 else RowCount(cell, x, q, k - 1) + (if cell(q, k - 1) == x then 1 else 0)
  }

  /** Number of cells (0, j) .. (k - 1, j) equal to `x`. */
  ghost function ColumnCount<T>(cell: (nat, nat) -> T, x: T, j: nat, k: nat): nat {
    if k == 0 then 0 else ColumnCount(cell, x, j, k - 1) + (if cell(k - 1, j) == x then 1 else 0)
  }

  /** Occurrences of `x` among the first `w` cells of each of the rows 0 .. k - 1. */
  ghost function RowsCount<T>(cell: (nat, nat) -> T, x: T, k: nat, w: nat): nat {
    if k == 0 then 0 else RowsCount(cell, x, k - 1, w) + RowCount(cell, x, k - 1, w)
  }

  /** Occurrences of `x` among the first `k` cells of each of the columns 0 .. w - 1. */
  ghost function ColumnsCount<T>(cell: (nat, nat) -> T, x: T, k: nat, w: nat): nat {
    if w == 0 then 0 else ColumnsCount(cell, x, k, w - 1) + ColumnCount(cell, x, w - 1, k)
  }

  lemma {:induction false} RowsCountStep<T>(cell: (nat, nat) -> T, x: T, k: nat, w: nat)
    ensures RowsCount(cell, x, k, w + 1) == RowsCount(cell, x, k, w) + ColumnCount(cell, x, w, k)
  {
    if k > 0 {
      RowsCountStep(cell, x, k - 1, w);
    }
  }

  lemma {:induction false} RowsCountEmpty<T>(cell: (nat, nat) -> T, x: T, k: nat)
    ensures RowsCount(cell, x, k, 0) == 0
  {
    if k > 0 {
      RowsCountEmpty(cell, x, k - 1);
    }
  }

  /** Counting a grid's cells row by row or column by column gives the same number. */
  lemma {:induction false} CountsExchange<T>(cell: (nat, nat) -> T, x: T, k: nat, w: nat)
    ensures RowsCount(cell, x, k, w) == ColumnsCount(cell, x, k, w)
  {
    if w == 0 {
      RowsCountEmpty(cell, x, k);
    } else {
      CountsExchange(cell, x, k, w - 1);
      RowsCountStep(cell, x, k, w - 1);
    }
  }

  lemma ExtendCount<T>(s: seq<T>, x: T, lo: nat, k: nat)
    requires lo + k < |s|
    ensures multiset(s[lo..lo + k + 1])[x] == multiset(s[lo..lo + k])[x] + (if s[lo + k] == x then 1 else 0)
  {
    assert s[lo..lo + k + 1] == s[lo..lo + k] + [s[lo + k]];
  }

  lemma SplitCount<T>(s: seq<T>, x: T, lo: nat, hi: nat)
    requires lo <= hi <= |s|
    ensures multiset(s[..hi])[x] == multiset(s[..lo])[x] + multiset(s[lo..hi])[x]
  {
    assert s[..hi] == s[..lo] + s[lo..hi];
  }

  /** A buffer slice holding row `q` has that row's count. */
  lemma {:induction false} RowSliceCount<T>(s: seq<T>, cell: (nat, nat) -> T, x: T, lo: nat, q: nat, k: nat)
    requires lo + k <= |s|
    requires forall j :: 0 <= j < k ==> s[lo + j] == cell(q, j)
    ensures multiset(s[lo..lo + k])[x] == RowCount(cell, x, q, k)
  {
    if k > 0 {
      RowSliceCount(s, cell, x, lo, q, k - 1);
      ExtendCount(s, x, lo, k - 1);
      assert s[lo + (k - 1)] == cell(q, k - 1);
    }
  }

  /** A buffer slice holding column `j` has that column's count. */
  lemma {:induction false} ColumnSliceCount<T>(s: seq<T>, cell: (nat, nat) -> T, x: T, lo: nat, j: nat, k: nat)
    requires lo + k <= |s|
    requires forall q :: 0 <= q < k ==> s[lo + q] == cell(q, j)
    ensures multiset(s[lo..lo + k])[x] == ColumnCount(cell, x, j, k)
  {
    if k > 0 {
      ColumnSliceCount(s, cell, x, lo, j, k - 1);
      ExtendCount(s, x, lo, k - 1);
      assert s[lo + (k - 1)] == cell(k - 1, j);
    }
  }

  /** Position `j` of the `q`-th run of `width` cells of `s` exists and holds `c`. */
  ghost predicate StoredAt<T>(s: seq<T>, width: nat, q: nat, j: nat, c: T) {
    RowStart(width, q) + j < |s| && s[RowStart(width, q) + j] == c
  }

  /** A buffer of `k` rows of `width` cells, stored row after row, has the rows' count. */
  lemma {:induction false} RowMajorCount<T>(s: seq<T>, cell: (nat, nat) -> T, x: T, width: nat, k: nat)
    requires RowStart(width, k) <= |s|
    requires forall q, j :: 0 <= q < k && 0 <= j < width ==> StoredAt(s, width, q, j, cell(q, j))
    ensures multiset(s[..RowStart(width, k)])[x] == RowsCount(cell, x, k, width)
  {
    if k > 0 {
      var last := k - 1;
      var lo := RowStart(width, last);
      forall j | 0 <= j < width ensures s[lo + j] == cell(last, j) {
        assert StoredAt(s, width, last, j, cell(last, j));
      }
      RowMajorCount(s, cell, x, width, last);
      RowSliceCount(s, cell, x, lo, last, width);
      SplitCount(s, x, lo, lo + width);
    }
  }

  /** A buffer of `w` columns of `height` cells, stored column after column, has the columns' count. */
  lemma {:induction false} ColumnMajorCount<T>(s: seq<T>, cell: (nat, nat) -> T, x: T, height: nat, w: nat)
    requires RowStart(height, w) <= |s|
    requires forall j, q :: 0 <= j < w && 0 <= q < height ==> StoredAt(s, height, j, q, cell(q, j))
    ensures multiset(s[..RowStart(height, w)])[x] == ColumnsCount(cell, x, height, w)
  {
    if w > 0 {
      var last := w - 1;
      var lo := RowStart(height, last);
      forall q | 0 <= q < height ensures s[lo + q] == cell(q, last) {
        assert StoredAt(s, height, last, q, cell(q, last));
      }
      ColumnMajorCount(s, cell, x, height, last);
      ColumnSliceCount(s, cell, x, lo, last, height);
      SplitCount(s, x, lo, lo + height);
    }
  }
}
