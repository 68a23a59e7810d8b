/**
 * The playing field: a grid of 20 rows of 10 cells, row 0 at the top. A cell
 * holds 0 when empty and the identifier (1..7) of the piece locked there
 * otherwise. This module holds the collision test, the locking of a piece
 * into a copy of the grid, the in-place line clear and the drop-to-rest
 * search.
 */
module Board {
  import opened Pieces

  const Height := 20
  const Width := 10

  type Row = seq<int>

  predicate IsRow(row: Row) {
    |row| == Width && forall x :: 0 <= x < |row| ==> 0 <= row[x] <= 7
  }

  /** A grid value of the fixed dimensions whose cells are all in 0..7. */
  predicate IsBoard(g: seq<Row>) {
    |g| == Height && forall y :: 0 <= y < |g| ==> IsRow(g[y])
  }

  predicate InGrid(y: int, x: int) {
    0 <= y < Height && 0 <= x < Width
  }

  // ---------------------------------------------------------------- collision

  /** Cell (i, j) of the matrix placed with its box corner at (r, c) is empty or lands on a free cell. */
  predicate CellFree(m: Matrix, g: seq<Row>, r: int, c: int, i: int, j: int)
    requires IsMatrix(m) && IsBoard(g) && 0 <= i < 4 && 0 <= j < 4
  {
    m[i][j] == 1 ==> InGrid(r + i, c + j) && g[r + i][c + j] == 0
  }

  /** Every occupied cell of the placed matrix lies inside the grid on a cell holding 0. */
  predicate Fits(m: Matrix, g: seq<Row>, r: int, c: int)
    requires IsMatrix(m) && IsBoard(g)
  {
    forall i, j :: 0 <= i < 4 && 0 <= j < 4 ==> CellFree(m, g, r, c, i, j)
  }

  /** Every occupied cell of the placed matrix lies inside the grid (free or not). */
  predicate InBox(m: Matrix, r: int, c: int)
    requires IsMatrix(m)
  {
    forall i, j :: 0 <= i < 4 && 0 <= j < 4 && m[i][j] == 1 ==> InGrid(r + i, c + j)
  }

  /** The matrix is a 4x4 matrix with an occupied cell, and lies inside the grid at (r, c). */
  predicate PieceOk(m: Matrix, r: int, c: int) {
    IsMatrix(m) && HasCell(m) && InBox(m, r, c)
  }

  lemma FitsInBox(m: Matrix, g: seq<Row>, r: int, c: int)
    requires IsMatrix(m) && IsBoard(g) && Fits(m, g, r, c)
    ensures InBox(m, r, c)
  {
    forall i, j | 0 <= i < 4 && 0 <= j < 4 && m[i][j] == 1 ensures InGrid(r + i, c + j) {
      assert CellFree(m, g, r, c, i, j);
    }
  }

  /**
   * The collision test: scans the 4x4 box row by row and answers false at
   * the first occupied cell that is off the grid or on a non-zero cell.
   */
  method IsValidPosition(m: Matrix, grid: array<Row>, r: int, c: int) returns (ok: bool)
    requires IsMatrix(m) && IsBoard(grid[..])
    ensures ok == Fits(m, grid[..], r, c)
  {
    for i := 0 to 4
      invariant forall i', j' :: 0 <= i' < i && 0 <= j' < 4 ==> CellFree(m, grid[..], r, c, i', j')
    {
      for j := 0 to 4
        invariant forall i', j' :: 0 <= i' < i && 0 <= j' < 4 ==> CellFree(m, grid[..], r, c, i', j')
        invariant forall j' :: 0 <= j' < j ==> CellFree(m, grid[..], r, c, i, j')
      {
        if m[i][j] == 1 {
          var x := c + j;
          var y := r + i;
          if x < 0 || x >= Width || y < 0 || y >= Height {
            assert !CellFree(m, grid[..], r, c, i, j);
            return false;
          }
          if y >= 0 && grid[y][x] != 0 {
            assert !CellFree(m, grid[..], r, c, i, j);
            return false;
          }
        }
      }
    }
    return true;
  }

  // ---------------------------------------------------------------- locking

  /** Grid cell (y, x) lies under an occupied cell of the matrix placed at (r, c). */
  predicate Covers(m: Matrix, r: int, c: int, y: int, x: int)
    requires IsMatrix(m)
  {
    0 <= y - r < 4 && 0 <= x - c < 4 && m[y - r][x - c] == 1
  }

  /** The grid with `id` written under every occupied cell of the placed matrix. */
  function Locked(g: seq<Row>, m: Matrix, id: int, r: int, c: int): (ng: seq<Row>)
    requires IsBoard(g) && IsMatrix(m) && 1 <= id <= 7
    ensures IsBoard(ng)
  {
    seq(Height, y requires 0 <= y < Height =>
      seq(Width, x requires 0 <= x < Width => if Covers(m, r, c, y, x) then id else g[y][x]))
  }

  /** Cells (i', j') of the box visited before (i, j), in row-major order, that cover (y, x). */
  predicate CoversBefore(m: Matrix, r: int, c: int, y: int, x: int, i: int, j: int)
    requires IsMatrix(m)
  {
    Covers(m, r, c, y, x) && (y - r < i || (y - r == i && x - c < j))
  }

  /**
   * Locking a piece: copies the grid, then writes the piece's identifier
   * under each occupied cell of its matrix. The input grid is not modified.
   */
  method AddToGrid(m: Matrix, key: Kind, grid: array<Row>, r: int, c: int) returns (ng: array<Row>)
    requires IsMatrix(m) && IsBoard(grid[..]) && InBox(m, r, c)
    ensures fresh(ng)
    ensures ng[..] == Locked(grid[..], m, Id(key), r, c)
  {
    ng := new Row[grid.Length];
    forall y | 0 <= y < grid.Length {
      ng[y] := grid[y];
    }
    ghost var g := grid[..];
    var id := Id(key);
    for i := 0 to 4
      invariant ng.Length == Height
      invariant forall y :: 0 <= y < Height ==> |ng[y]| == Width
      invariant forall y, x :: 0 <= y < Height && 0 <= x < Width ==>
        ng[y][x] == if CoversBefore(m, r, c, y, x, i, 0) then id else g[y][x]
    {
      for j := 0 to 4
        invariant forall y :: 0 <= y < Height ==> |ng[y]| == Width
        invariant forall y, x :: 0 <= y < Height && 0 <= x < Width ==>
          ng[y][x] == if CoversBefore(m, r, c, y, x, i, j) then id else g[y][x]
      {
        if m[i][j] == 1 {
          assert InGrid(r + i, c + j);
          ng[r + i] := ng[r + i][c + j := id];
        }
      }
    }
    forall y | 0 <= y < Height ensures ng[y] == Locked(g, m, id, r, c)[y] {
      assert forall x :: 0 <= x < Width ==> ng[y][x] == Locked(g, m, id, r, c)[y][x];
    }
  }

  // ---------------------------------------------------------------- line clear

  /** Every cell of the row is non-zero. */
  predicate Full(row: Row) {
    forall x :: 0 <= x < |row| ==> row[x] != 0
  }

  predicate NoFullRows(g: seq<Row>) {
    forall y :: 0 <= y < |g| ==> !Full(g[y])
  }

  /** A row of zeros, the row the line clear inserts at the top. */
  function EmptyRow(): (row: Row)
    ensures IsRow(row) && !Full(row)
  {
    var row := seq(Width, x => 0);
    assert row[0] == 0;
    row
  }

  /** Number of full rows. */
  function FullCount(s: seq<Row>): nat
  {
    if s == [] then 0
    else FullCount(s[..|s| - 1]) + (if Full(s[|s| - 1]) then 1 else 0)
  }

  /** The rows that are not full, in their original order. */
  function Kept(s: seq<Row>): seq<Row>
  {
    if s == [] then []
    else Kept(s[..|s| - 1]) + (if Full(s[|s| - 1]) then [] else [s[|s| - 1]])
  }

  function Zeros(n: nat): (z: seq<Row>)
    ensures |z| == n && forall k :: 0 <= k < n ==> z[k] == EmptyRow()
  {
    seq(n, k => EmptyRow())
  }

  /** The rows after a line clear: one empty row per full row, then the rows that were not full. */
  function Cleared(s: seq<Row>): seq<Row>
  {
    Zeros(FullCount(s)) + Kept(s)
  }

  lemma ClearedSnoc(s: seq<Row>, row: Row)
    ensures FullCount(s + [row]) == FullCount(s) + if Full(row) then 1 else 0
    ensures Cleared(s + [row]) == if Full(row) then [EmptyRow()] + Cleared(s) else Cleared(s) + [row]
  {
    assert (s + [row])[..|s|] == s;
    if Full(row) {
      assert Zeros(FullCount(s) + 1) == [EmptyRow()] + Zeros(FullCount(s));
    }
  }

  /**
   * Removes row i: every row above it moves down by one (bottom first) and
   * row 0 becomes empty; the rows below i are untouched.
   */
  method RemoveRow(grid: array<Row>, i: nat)
    requires i < grid.Length
    modifies grid
    ensures grid[..] == [EmptyRow()] + old(grid[..])[..i] + old(grid[..])[i + 1..]
  {
    ghost var before := grid[..];
    var j := i;
    while j > 0
      invariant 0 <= j <= i
      invariant forall k :: 0 <= k <= j ==> grid[k] == before[k]
      invariant forall k :: j < k <= i ==> grid[k] == before[k - 1]
      invariant forall k :: i < k < grid.Length ==> grid[k] == before[k]
    {
      grid[j] := grid[j - 1];
      j := j - 1;
    }
    grid[0] := EmptyRow();
  }

  /** The rows after row i of the scan: unchanged, or with row i removed when it is full. */
  function ScanStep(g: seq<Row>, i: nat): seq<Row>
    requires i < |g|
  {
    if Full(g[i]) then [EmptyRow()] + g[..i] + g[i + 1..] else g
  }

  /**
   * One step of the scan: once the first i rows are the cleared first i
   * rows of the original and the rest are untouched, handling row i extends
   * that to the first i + 1 rows.
   */
  lemma ClearStep(orig: seq<Row>, g: seq<Row>, i: nat)
    requires i < |orig| == |g|
    requires g[..i] == Cleared(orig[..i]) && g[i..] == orig[i..]
    ensures ScanStep(g, i)[..i + 1] == Cleared(orig[..i + 1])
    ensures ScanStep(g, i)[i + 1..] == orig[i + 1..]
    ensures |ScanStep(g, i)| == |g|
    ensures FullCount(orig[..i + 1]) == FullCount(orig[..i]) + if Full(g[i]) then 1 else 0
  {
    assert orig[..i + 1] == orig[..i] + [orig[i]];
    ClearedSnoc(orig[..i], orig[i]);
    assert g[i] == g[i..][0] == orig[i];
    assert g[i + 1..] == g[i..][1..];
    assert orig[i + 1..] == orig[i..][1..];
    if !Full(g[i]) {
      assert g[..i + 1] == g[..i] + [g[i]];
    }
  }

  /**
   * The line clear: scans the rows top to bottom; a full row is removed by
   * shifting every row above it down by one and emptying row 0. Returns the
   * number of full rows.
   */
  method ClearLines(grid: array<Row>) returns (count: nat)
    requires grid.Length == Height
    modifies grid
    ensures grid[..] == Cleared(old(grid[..]))
    ensures count == FullCount(old(grid[..]))
  {
    ghost var orig := grid[..];
    count := 0;
    for i := 0 to Height
      invariant grid[..i] == Cleared(orig[..i])
      invariant grid[i..] == orig[i..]
      invariant count == FullCount(orig[..i])
    {
      ghost var g := grid[..];
      ClearStep(orig, g, i);
      if Full(grid[i]) {
        count := count + 1;
        RemoveRow(grid, i);
      }
      assert grid[..] == ScanStep(g, i);
    }
    assert orig[..Height] == orig;
    assert grid[..Height] == grid[..];
  }

  /** Every kept row is a row of the input, and full rows plus kept rows account for all rows. */
  lemma {:induction false} KeptRows(s: seq<Row>)
    ensures |Kept(s)| + FullCount(s) == |s|
    ensures forall k :: 0 <= k < |Kept(s)| ==> Kept(s)[k] in s && !Full(Kept(s)[k])
  {
    if s != [] {
      var init := s[..|s| - 1];
      KeptRows(init);
      assert forall k :: 0 <= k < |Kept(init)| ==> Kept(init)[k] in s by {
        forall k | 0 <= k < |Kept(init)| ensures Kept(init)[k] in s {
          var w :| w in init && w == Kept(init)[k];
        }
      }
    }
  }

  /** The line clear keeps the number of rows, leaves no full row, and keeps a well-formed grid. */
  lemma ClearedIsBoard(s: seq<Row>)
    requires IsBoard(s)
    ensures IsBoard(Cleared(s)) && NoFullRows(Cleared(s)) && |Cleared(s)| == |s|
  {
    KeptRows(s);
    var cs := Cleared(s);
    var n := FullCount(s);
    forall y | 0 <= y < |cs| ensures IsRow(cs[y]) && !Full(cs[y]) {
      if y < n {
        assert cs[y] == EmptyRow();
      } else {
        assert cs[y] == Kept(s)[y - n];
      }
    }
  }

  /** The number of full rows, counted as the size of the set of their indices. */
  lemma {:induction false} FullCountIsFullRows(s: seq<Row>)
    ensures FullCount(s) == |set y | 0 <= y < |s| && Full(s[y])|
  {
    if s != [] {
      var n := |s| - 1;
      var init := s[..n];
      FullCountIsFullRows(init);
      var before := set y | 0 <= y < n && Full(init[y]);
      var after := set y | 0 <= y < |s| && Full(s[y]);
      if Full(s[n]) {
        assert after == before + {n};
      } else {
        assert after == before;
      }
    }
  }

  /** On a grid whose every row is full, all rows are cleared and every row becomes empty. */
  lemma {:induction false} ClearAllFull(s: seq<Row>)
    requires forall y :: 0 <= y < |s| ==> Full(s[y])
    ensures FullCount(s) == |s| && Kept(s) == [] && Cleared(s) == Zeros(|s|)
  {
    if s != [] {
      ClearAllFull(s[..|s| - 1]);
    }
  }

  /** On a grid of empty rows nothing is cleared and the grid is unchanged. */
  lemma {:induction false} ClearAllEmpty(s: seq<Row>)
    requires forall y :: 0 <= y < |s| ==> s[y] == EmptyRow()
    ensures FullCount(s) == 0 && Cleared(s) == s
  {
    if s != [] {
      var init := s[..|s| - 1];
      ClearAllEmpty(init);
      assert s == init + [s[|s| - 1]];
    }
  }

  /** Number of indices in [0, n) that also lie in the four rows [r, r + 4). */
  function Overlap(n: int, r: int): int
  {
    var lo := if r < 0 then 0 else r;
    var hi := if n < r + 4 then n else r + 4;
    if hi <= lo then 0 else hi - lo
  }

  lemma {:induction false} FullCountWithinWindow(s: seq<Row>, r: int)
    requires forall y :: 0 <= y < |s| && Full(s[y]) ==> r <= y < r + 4
    ensures FullCount(s) <= Overlap(|s|, r)
  {
    if s != [] {
      FullCountWithinWindow(s[..|s| - 1], r);
    }
  }

  /**
   * Locking a piece into a grid that has no full row produces at most four
   * full rows, so the clear after a lock is a single, double, triple or
   * quadruple, or clears nothing.
   */
  lemma LockClearsAtMostFour(g: seq<Row>, m: Matrix, id: int, r: int, c: int)
    requires IsBoard(g) && IsMatrix(m) && 1 <= id <= 7 && NoFullRows(g)
    ensures FullCount(Locked(g, m, id, r, c)) <= 4
  {
    var lg := Locked(g, m, id, r, c);
    forall y | 0 <= y < |lg| && !(r <= y < r + 4) ensures !Full(lg[y]) {
      assert lg[y] == g[y] by {
        assert forall x :: 0 <= x < Width ==> lg[y][x] == g[y][x];
      }
    }
    FullCountWithinWindow(lg, r);
  }

  // ---------------------------------------------------------------- drop to rest

  /**
   * Row `sr` is where a piece dropped straight down from row `r` in column
   * `c` comes to rest: the row only grows, every row passed on the way fits,
   * and the row below does not.
   */
  predicate RestsAt(m: Matrix, g: seq<Row>, r: int, c: int, sr: int)
    requires IsMatrix(m) && IsBoard(g)
  {
    && r <= sr
    && (forall r' :: r < r' <= sr ==> Fits(m, g, r', c))
    && !Fits(m, g, sr + 1, c)
  }

  /**
   * The resting position of a piece dropped straight down from (r, c): the
   * column is kept and the row is where the piece comes to rest; when the
   * piece fits where it starts, it fits where it rests.
   */
  method ShadowPosition(m: Matrix, grid: array<Row>, r: int, c: int) returns (sr: int, sc: int)
    requires IsMatrix(m) && IsBoard(grid[..]) && HasCell(m)
    ensures sc == c && RestsAt(m, grid[..], r, c, sr)
    ensures Fits(m, grid[..], r, c) ==> Fits(m, grid[..], sr, c)
  {
    ghost var i0, j0 :| 0 <= i0 < 4 && 0 <= j0 < 4 && m[i0][j0] == 1;
    sr, sc := r, c;
    var ok := IsValidPosition(m, grid, sr + 1, sc);
    while ok
      invariant r <= sr && sc == c
      invariant ok == Fits(m, grid[..], sr + 1, c)
      invariant forall r' :: r < r' <= sr ==> Fits(m, grid[..], r', c)
      decreases Height - sr
    {
      assert CellFree(m, grid[..], sr + 1, c, i0, j0);
      sr := sr + 1;
      ok := IsValidPosition(m, grid, sr + 1, sc);
    }
  }
}
