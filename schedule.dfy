/** The partition of the grid's columns into worker bands, and the order in
    which one band's sweep reaches the cells. */
module Schedule {

  const NUM_THREADS: nat := 4

  /** Width of every band: `cols // num_threads`. */
  function BandWidth(cols: nat): nat
  {
    cols / NUM_THREADS
  }

  /** First column of band i: band 0 starts at column 0, and every later band
      starts where the previous one ends. */
  function BandStart(cols: nat, i: nat): (s: nat)
    ensures i == 0 ==> s == 0
    ensures i > 0 ==> s == BandEnd(cols, i - 1)
  {
    i * BandWidth(cols)
  }

  /** End (exclusive) of band i: no band of the four ends past the covered
      columns, and the last one ends exactly there. */
  function BandEnd(cols: nat, i: nat): (e: nat)
    ensures i < NUM_THREADS ==> e <= Covered(cols)
    ensures i == NUM_THREADS - 1 ==> e == Covered(cols)
  {
    (i + 1) * BandWidth(cols)
  }

  /** The columns the four bands cover together: `4 * (cols // 4)`. */
  function Covered(cols: nat): (c: nat)
    ensures c <= cols && cols - c < NUM_THREADS
  {
    NUM_THREADS * BandWidth(cols)
  }

  predicate InBand(cols: nat, i: nat, x: int)
  {
    BandStart(cols, i) <= x < BandEnd(cols, i)
  }

  /** Each band lies inside the covered columns, and band i + 1 starts where band i ends. */
  lemma BandBounds(cols: nat, i: nat)
    requires i < NUM_THREADS
    ensures BandStart(cols, i) <= BandEnd(cols, i) <= Covered(cols)
    ensures i == 0 ==> BandStart(cols, i) == 0
    ensures i == NUM_THREADS - 1 ==> BandEnd(cols, i) == Covered(cols)
    ensures i + 1 < NUM_THREADS ==> BandEnd(cols, i) == BandStart(cols, i + 1)
  {
    var w := BandWidth(cols);
    if i == 0 {
    } else if i == 1 {
    } else if i == 2 {
    } else {
    }
  }

  /** A later band starts at or after the end of an earlier one. */
  lemma {:induction false} BandOrder(cols: nat, i: nat, j: nat)
    requires i < j
    ensures BandEnd(cols, i) <= BandStart(cols, j)
    decreases j - i
  {
    var w := BandWidth(cols);
    if i + 1 < j {
      BandOrder(cols, i, j - 1);
      assert j * w == (j - 1) * w + w;
    }
  }

  /** A column belongs to exactly one band if it is below `4 * (cols // 4)`, and
      to none otherwise: the bands are disjoint and contiguous, and the last
      `cols % 4` columns are never swept. */
  lemma BandsPartition(cols: nat, x: int)
    ensures (exists i :: 0 <= i < NUM_THREADS && InBand(cols, i, x)) <==> 0 <= x < Covered(cols)
    ensures forall i, j :: 0 <= i < NUM_THREADS && 0 <= j < NUM_THREADS && InBand(cols, i, x) && InBand(cols, j, x) ==> i == j
  {
    var w := BandWidth(cols);
    forall i | 0 <= i < NUM_THREADS && InBand(cols, i, x)
      ensures 0 <= x < Covered(cols)
    {
      BandBounds(cols, i);
    }
    if 0 <= x < Covered(cols) {
      var i := if x < w then 0 else if x < 2 * w then 1 else if x < 3 * w then 2 else 3;
      assert BandStart(cols, i) == i * w && BandEnd(cols, i) == (i + 1) * w;
      assert InBand(cols, i, x);
    }
    forall i, j | 0 <= i < NUM_THREADS && 0 <= j < NUM_THREADS && InBand(cols, i, x) && InBand(cols, j, x)
      ensures i == j
    {
      if i < j {
        BandOrder(cols, i, j);
      } else if j < i {
        BandOrder(cols, j, i);
      }
    }
  }

  /** The cells of column x in the order the sweep reaches them: from the bottom
      row `rows - 1` up to row 0. */
  function ColumnScan(x: int, rows: nat): (s: seq<(int, int)>)
    ensures |s| == rows
    ensures forall k :: 0 <= k < rows ==> s[k] == (x, rows - 1 - k)
  {
    seq(rows, k requires 0 <= k < rows => (x, rows - 1 - k))
  }

  /** The cells of the band [lo, hi) in sweep order: column by column from lo,
      each column from the bottom row up. */
  function ScanOrder(lo: int, hi: int, rows: nat): (s: seq<(int, int)>)
    ensures |s| == if lo <= hi then (hi - lo) * rows else 0
    decreases hi - lo
  {
    if hi <= lo then [] else ScanOrder(lo, hi - 1, rows) + ColumnScan(hi - 1, rows)
  }

  /** The sweep's order: left column before right column, lower row before upper row. */
  predicate ScanBefore(a: (int, int), b: (int, int))
  {
    a.0 < b.0 || (a.0 == b.0 && a.1 > b.1)
  }

  /** The sweep reaches exactly the cells of its band. */
  lemma {:induction false} ScanOrderCells(lo: int, hi: int, rows: nat, c: (int, int))
    ensures c in ScanOrder(lo, hi, rows) <==> lo <= c.0 < hi && 0 <= c.1 < rows
    decreases hi - lo
  {
    if hi > lo {
      ScanOrderCells(lo, hi - 1, rows, c);
      if lo <= c.0 < hi && 0 <= c.1 < rows && c.0 == hi - 1 {
        assert ColumnScan(hi - 1, rows)[rows - 1 - c.1] == c;
      }
    }
  }

  /** The sweep reaches the cells in strictly increasing `ScanBefore` order, so
      it reaches each cell of its band once, columns left to right and each
      column bottom to top. */
  lemma {:induction false} ScanOrderSorted(lo: int, hi: int, rows: nat)
    ensures var s := ScanOrder(lo, hi, rows);
      forall a, b :: 0 <= a < b < |s| ==> ScanBefore(s[a], s[b])
    decreases hi - lo
  {
    if hi > lo {
      ScanOrderSorted(lo, hi - 1, rows);
      var p := ScanOrder(lo, hi - 1, rows);
      var col := ColumnScan(hi - 1, rows);
      var s := p + col;
      forall a, b | 0 <= a < b < |s|
        ensures ScanBefore(s[a], s[b])
      {
        if b >= |p| && a < |p| {
          ScanOrderCells(lo, hi - 1, rows, s[a]);
          assert s[a] in p;
        }
      }
    }
  }

  /** Sweeping [lo, mid) and then [mid, hi) reaches the cells in the same order
      as one sweep of [lo, hi). */
  lemma {:induction false} ScanOrderSplit(lo: int, mid: int, hi: int, rows: nat)
    requires lo <= mid <= hi
    ensures ScanOrder(lo, mid, rows) + ScanOrder(mid, hi, rows) == ScanOrder(lo, hi, rows)
    decreases hi - mid
  {
    if hi > mid {
      ScanOrderSplit(lo, mid, hi - 1, rows);
      assert ScanOrder(lo, mid, rows) + (ScanOrder(mid, hi - 1, rows) + ColumnScan(hi - 1, rows)) ==
             (ScanOrder(lo, mid, rows) + ScanOrder(mid, hi - 1, rows)) + ColumnScan(hi - 1, rows);
    }
  }
}
