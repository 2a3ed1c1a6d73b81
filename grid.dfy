/** A column-major grid of optional cells, `g[x][y]`, as the simulation keeps it:
    `g[x]` is column x and `g[x][y]` is the cell in row y (row 0 at the top).
    Everything here is a pure value operation; the simulation's mutable grid
    is a field of this type that its methods reassign. */
module Grid {

  datatype Option<T> = None | Some(value: T)

  /** Every column has `rows` cells. */
  predicate Rect<T>(g: seq<seq<Option<T>>>, rows: nat)
  {
    forall x :: 0 <= x < |g| ==> |g[x]| == rows
  }

  predicate InBounds<T>(g: seq<seq<Option<T>>>, rows: nat, x: int, y: int)
  {
    0 <= x < |g| && 0 <= y < rows
  }

  /** The all-empty grid of `cols` columns and `rows` rows. */
  function CreateGrid<T>(cols: nat, rows: nat): (g: seq<seq<Option<T>>>)
    ensures |g| == cols && Rect(g, rows)
    ensures forall x, y :: 0 <= x < cols && 0 <= y < rows ==> g[x][y].None?
  {
    seq(cols, _ => seq(rows, _ => None))
  }

  /** The grid with cell (x, y) replaced by v. */
  function Set<T>(g: seq<seq<Option<T>>>, x: int, y: int, v: Option<T>): (r: seq<seq<Option<T>>>)
    requires 0 <= x < |g| && 0 <= y < |g[x]|
    ensures |r| == |g| && forall i :: 0 <= i < |g| ==> |r[i]| == |g[i]|
    ensures r[x][y] == v
    ensures forall i, j :: 0 <= i < |g| && 0 <= j < |g[i]| && (i != x || j != y) ==> r[i][j] == g[i][j]
  {
    g[x := g[x][y := v]]
  }

  /** Moving the occupant of (fx, fy) to (tx, ty) the way the simulation does it:
      the destination first receives the source's content, then the source is
      cleared. The two cells must differ. */
  function Moved<T>(g: seq<seq<Option<T>>>, fx: int, fy: int, tx: int, ty: int): (r: seq<seq<Option<T>>>)
    requires 0 <= fx < |g| && 0 <= fy < |g[fx]|
    requires 0 <= tx < |g| && 0 <= ty < |g[tx]|
    requires fx != tx || fy != ty
    ensures |r| == |g| && forall i :: 0 <= i < |g| ==> |r[i]| == |g[i]|
    ensures r[tx][ty] == g[fx][fy] && r[fx][fy].None?
    ensures forall i, j ::
      0 <= i < |g| && 0 <= j < |g[i]| && (i != fx || j != fy) && (i != tx || j != ty) ==> r[i][j] == g[i][j]
  {
    Set(Set(g, tx, ty, g[fx][fy]), fx, fy, None)
  }

  /** Two moves in a row, (x0, y0) -> (x1, y1) -> (x2, y2), through an empty intermediate cell,
      leave the grid exactly as the single move (x0, y0) -> (x2, y2) would. */
  lemma MovedTwice<T>(g: seq<seq<Option<T>>>, x0: int, y0: int, x1: int, y1: int, x2: int, y2: int)
    requires 0 <= x0 < |g| && 0 <= y0 < |g[x0]|
    requires 0 <= x1 < |g| && 0 <= y1 < |g[x1]|
    requires 0 <= x2 < |g| && 0 <= y2 < |g[x2]|
    requires x0 != x1 || y0 != y1
    requires x1 != x2 || y1 != y2
    requires x0 != x2 || y0 != y2
    requires g[x1][y1].None?
    ensures Moved(Moved(g, x0, y0, x1, y1), x1, y1, x2, y2) == Moved(g, x0, y0, x2, y2)
  {
    var l := Moved(Moved(g, x0, y0, x1, y1), x1, y1, x2, y2);
    var r := Moved(g, x0, y0, x2, y2);
    forall i | 0 <= i < |g|
      ensures l[i] == r[i]
    {
      assert |l[i]| == |r[i]|;
      forall j | 0 <= j < |l[i]|
        ensures l[i][j] == r[i][j]
      {
      }
    }
  }

  function Occ<T>(c: Option<T>): nat
  {
    if c.Some? then 1 else 0
  }

  /** Number of occupied cells of one column. */
  function ColumnCount<T>(c: seq<Option<T>>): nat
  {
    if |c| == 0 then 0 else ColumnCount(c[..|c| - 1]) + Occ(c[|c| - 1])
  }

  /** Number of occupied cells of the grid: the particle count. */
  function Count<T>(g: seq<seq<Option<T>>>): nat
  {
    if |g| == 0 then 0 else Count(g[..|g| - 1]) + ColumnCount(g[|g| - 1])
  }

  lemma {:induction false} ColumnCountUpdate<T>(c: seq<Option<T>>, j: int, v: Option<T>)
    requires 0 <= j < |c|
    ensures ColumnCount(c[j := v]) + Occ(c[j]) == ColumnCount(c) + Occ(v)
  {
    var n := |c|;
    if j == n - 1 {
      assert c[j := v][..n - 1] == c[..n - 1];
    } else {
      assert c[j := v][..n - 1] == c[..n - 1][j := v];
      ColumnCountUpdate(c[..n - 1], j, v);
    }
  }

  lemma {:induction false} CountUpdate<T>(g: seq<seq<Option<T>>>, i: int, col: seq<Option<T>>)
    requires 0 <= i < |g|
    ensures Count(g[i := col]) + ColumnCount(g[i]) == Count(g) + ColumnCount(col)
  {
    var n := |g|;
    if i == n - 1 {
      assert g[i := col][..n - 1] == g[..n - 1];
    } else {
      assert g[i := col][..n - 1] == g[..n - 1][i := col];
      CountUpdate(g[..n - 1], i, col);
    }
  }

  /** Replacing one cell changes the count by what left and what arrived. */
  lemma CountSet<T>(g: seq<seq<Option<T>>>, x: int, y: int, v: Option<T>)
    requires 0 <= x < |g| && 0 <= y < |g[x]|
    ensures Count(Set(g, x, y, v)) + Occ(g[x][y]) == Count(g) + Occ(v)
  {
    ColumnCountUpdate(g[x], y, v);
    CountUpdate(g, x, g[x][y := v]);
  }

  /** A move from an occupied cell into an empty one keeps the particle count. */
  lemma CountMoved<T>(g: seq<seq<Option<T>>>, fx: int, fy: int, tx: int, ty: int)
    requires 0 <= fx < |g| && 0 <= fy < |g[fx]|
    requires 0 <= tx < |g| && 0 <= ty < |g[tx]|
    requires g[fx][fy].Some? && g[tx][ty].None?
    ensures Count(Moved(g, fx, fy, tx, ty)) == Count(g)
  {
    var g1 := Set(g, tx, ty, g[fx][fy]);
    CountSet(g, tx, ty, g[fx][fy]);
    CountSet(g1, fx, fy, None);
  }

  /** A column holds no particle exactly when every cell of it is empty. */
  lemma {:induction false} ColumnCountZero<T>(c: seq<Option<T>>)
    ensures ColumnCount(c) == 0 <==> forall y :: 0 <= y < |c| ==> c[y].None?
  {
    if |c| > 0 {
      ColumnCountZero(c[..|c| - 1]);
      if ColumnCount(c) == 0 {
        forall y | 0 <= y < |c|
          ensures c[y].None?
        {
          if y < |c| - 1 {
            assert c[..|c| - 1][y] == c[y];
          }
        }
      }
    }
  }

  /** A grid holds no particle exactly when every cell of it is empty. */
  lemma {:induction false} CountZero<T>(g: seq<seq<Option<T>>>)
    ensures Count(g) == 0 <==> forall x, y :: 0 <= x < |g| && 0 <= y < |g[x]| ==> g[x][y].None?
  {
    if |g| > 0 {
      var n := |g|;
      CountZero(g[..n - 1]);
      ColumnCountZero(g[n - 1]);
      if Count(g) == 0 {
        forall x, y | 0 <= x < n && 0 <= y < |g[x]|
          ensures g[x][y].None?
        {
          if x < n - 1 {
            assert g[..n - 1][x] == g[x];
          }
        }
      }
    }
  }

  /** A freshly created grid holds no particle. */
  lemma CountCreateGrid<T>(cols: nat, rows: nat)
    ensures Count(CreateGrid<T>(cols, rows)) == 0
  {
    CountZero(CreateGrid<T>(cols, rows));
  }
  /** The values held by the cells of one column. */
  function ColumnOccupants<T(==)>(c: seq<Option<T>>): set<T>
  {
    if |c| == 0 then {}
    else ColumnOccupants(c[..|c| - 1]) + (if c[|c| - 1].Some? then {c[|c| - 1].value} else {})
  }

  /** The values held by the cells of the grid. */
  function Occupants<T(==)>(g: seq<seq<Option<T>>>): set<T>
  {
    if |g| == 0 then {} else Occupants(g[..|g| - 1]) + ColumnOccupants(g[|g| - 1])
  }

  /** No value sits in two cells of the grid. */
  predicate Distinct<T(==)>(g: seq<seq<Option<T>>>)
  {
    forall i, j, i2, j2 ::
      0 <= i < |g| && 0 <= j < |g[i]| && 0 <= i2 < |g| && 0 <= j2 < |g[i2]| && g[i][j].Some? && g[i][j] == g[i2][j2] ==>
        i == i2 && j == j2
  }

  lemma {:induction false} ColumnOccupantsIn<T>(c: seq<Option<T>>, v: T)
    ensures v in ColumnOccupants(c) <==> exists k :: 0 <= k < |c| && c[k] == Some(v)
  {
    if |c| > 0 {
      var n := |c|;
      ColumnOccupantsIn(c[..n - 1], v);
      if v in ColumnOccupants(c[..n - 1]) {
        var k :| 0 <= k < n - 1 && c[..n - 1][k] == Some(v);
        assert c[k] == Some(v);
      }
      if exists k :: 0 <= k < n && c[k] == Some(v) {
        var k :| 0 <= k < n && c[k] == Some(v);
        if k < n - 1 {
          assert c[..n - 1][k] == Some(v);
        }
      }
    }
  }

  lemma {:induction false} OccupantsIn<T>(g: seq<seq<Option<T>>>, v: T)
    ensures v in Occupants(g) <==> exists i, j :: 0 <= i < |g| && 0 <= j < |g[i]| && g[i][j] == Some(v)
  {
    if |g| > 0 {
      var n := |g|;
      OccupantsIn(g[..n - 1], v);
      ColumnOccupantsIn(g[n - 1], v);
      if v in Occupants(g[..n - 1]) {
        var i, j :| 0 <= i < n - 1 && 0 <= j < |g[..n - 1][i]| && g[..n - 1][i][j] == Some(v);
        assert g[i][j] == Some(v);
      }
      if exists i, j :: 0 <= i < n && 0 <= j < |g[i]| && g[i][j] == Some(v) {
        var i, j :| 0 <= i < n && 0 <= j < |g[i]| && g[i][j] == Some(v);
        if i < n - 1 {
          assert g[..n - 1][i][j] == Some(v);
        }
      }
    }
  }

  /** A column whose values are all in different cells holds as many values as
      it has occupied cells. */
  lemma {:induction false} ColumnOccupantsCount<T>(c: seq<Option<T>>)
    requires forall k, k2 :: 0 <= k < |c| && 0 <= k2 < |c| && c[k].Some? && c[k] == c[k2] ==> k == k2
    ensures |ColumnOccupants(c)| == ColumnCount(c)
  {
    if |c| > 0 {
      var n := |c|;
      var pre: seq<Option<T>> := c[..n - 1];
      ColumnOccupantsCount(pre);
      if c[n - 1].Some? {
        var v := c[n - 1].value;
        ColumnOccupantsIn(pre, v);
      }
    }
  }

  /** A grid in which no value sits in two cells holds as many values as it has
      occupied cells. */
  lemma {:induction false} CountOccupants<T>(g: seq<seq<Option<T>>>)
    requires Distinct(g)
    ensures |Occupants(g)| == Count(g)
  {
    if |g| > 0 {
      var n := |g|;
      var pre: seq<seq<Option<T>>> := g[..n - 1];
      var last: seq<Option<T>> := g[n - 1];
      assert Distinct(pre) by {
        forall i, j, i2, j2 | 0 <= i < |pre| && 0 <= j < |pre[i]| && 0 <= i2 < |pre| && 0 <= j2 < |pre[i2]| &&
          pre[i][j].Some? && pre[i][j] == pre[i2][j2]
          ensures i == i2 && j == j2
        {
          assert g[i][j] == g[i2][j2];
        }
      }
      CountOccupants(pre);
      assert forall k, k2 :: 0 <= k < |last| && 0 <= k2 < |last| && last[k].Some? && last[k] == last[k2] ==> k == k2 by {
        forall k, k2 | 0 <= k < |last| && 0 <= k2 < |last| && last[k].Some? && last[k] == last[k2]
          ensures k == k2
        {
          assert g[n - 1][k] == g[n - 1][k2];
        }
      }
      ColumnOccupantsCount(last);
      forall v | v in Occupants(pre)
        ensures v !in ColumnOccupants(last)
      {
        OccupantsIn(pre, v);
        ColumnOccupantsIn(last, v);
        var i, j :| 0 <= i < |pre| && 0 <= j < |pre[i]| && pre[i][j] == Some(v);
        assert g[i][j] == Some(v);
      }
      assert Occupants(pre) * ColumnOccupants(last) == {};
    }
  }
}
