/**
 * The piece catalogue and the rotation of a piece's 4x4 occupancy matrix.
 *
 * A matrix is a sequence of four rows of four integers; a cell holding 1 is
 * occupied. Rotation is a pure transform: transpose, then reverse every row
 * (clockwise) or reverse the order of the rows (any other direction).
 */
module Pieces {

  /** The seven piece types. */
  datatype Kind = I | O | T | S | Z | J | L

  /** The rotation directions; everything that is not clockwise rotates counter-clockwise. */
  datatype Direction = Clockwise | CounterClockwise

  type Matrix = seq<seq<int>>

  /** A (row, column) pair. */
  type Cell = (int, int)

  predicate IsMatrix(m: Matrix) {
    |m| == 4 && forall i :: 0 <= i < 4 ==> |m[i]| == 4
  }

  /** The numeric identifier written into the grid when a piece of this kind locks. */
  function Id(k: Kind): (id: int)
    ensures 1 <= id <= 7
  {
    match k
    case I => 1
    case O => 2
    case T => 3
    case S => 4
    case Z => 5
    case J => 6
    case L => 7
  }

  /** Distinct kinds leave distinct identifiers, so a locked cell tells which kind it came from. */
  lemma IdInjective(k: Kind, k': Kind)
    ensures Id(k) == Id(k') <==> k == k'
  {
  }

  /** The base (spawn-orientation) matrices of the catalogue. */
  const Shapes: map<Kind, Matrix> := map[
    I := [[0, 0, 0, 0], [1, 1, 1, 1], [0, 0, 0, 0], [0, 0, 0, 0]],
    O := [[0, 0, 0, 0], [0, 1, 1, 0], [0, 1, 1, 0], [0, 0, 0, 0]],
    T := [[0, 0, 0, 0], [0, 1, 1, 1], [0, 0, 1, 0], [0, 0, 0, 0]],
    S := [[0, 0, 0, 0], [0, 0, 1, 1], [0, 1, 1, 0], [0, 0, 0, 0]],
    Z := [[0, 0, 0, 0], [0, 1, 1, 0], [0, 0, 1, 1], [0, 0, 0, 0]],
    J := [[0, 0, 0, 0], [0, 1, 1, 1], [0, 0, 0, 1], [0, 0, 0, 0]],
    L := [[0, 0, 0, 0], [0, 1, 1, 1], [0, 1, 0, 0], [0, 0, 0, 0]]]

  /** The base matrix of a kind. */
  function Shape(k: Kind): (m: Matrix)
    ensures IsMatrix(m)
  {
    ShapeIsMatrix(k);
    Shapes[k]
  }

  lemma ShapeIsMatrix(k: Kind)
    ensures k in Shapes && IsMatrix(Shapes[k])
  {
  }

  /** The occupied cells of a matrix, as (row, column) pairs inside the 4x4 box. */
  function Cells(m: Matrix): set<Cell>
    requires IsMatrix(m)
  {
    set i, j | 0 <= i < 4 && 0 <= j < 4 && m[i][j] == 1 :: (i, j)
  }

  function CellCount(m: Matrix): nat
    requires IsMatrix(m)
  {
    |Cells(m)|
  }

  /** Some cell of the matrix is occupied. */
  predicate HasCell(m: Matrix)
    requires IsMatrix(m)
  {
    exists i, j :: 0 <= i < 4 && 0 <= j < 4 && m[i][j] == 1
  }

  /** A row or column of four read backwards. */
  function Reverse<X>(s: seq<X>): (r: seq<X>)
    requires |s| == 4
    ensures |r| == 4
    ensures forall k :: 0 <= k < 4 ==> r[k] == s[3 - k]
  {
    [s[3], s[2], s[1], s[0]]
  }

  /** Column `j` of a matrix, read top to bottom. */
  function Column(m: Matrix, j: int): (col: seq<int>)
    requires IsMatrix(m) && 0 <= j < 4
    ensures |col| == 4
  {
    [m[0][j], m[1][j], m[2][j], m[3][j]]
  }

  /** The transposed matrix: row `i` of the result is column `i` of `m`. */
  function Transpose(m: Matrix): (t: Matrix)
    requires IsMatrix(m)
    ensures IsMatrix(t)
    ensures forall i, j :: 0 <= i < 4 && 0 <= j < 4 ==> t[i][j] == m[j][i]
  {
    [Column(m, 0), Column(m, 1), Column(m, 2), Column(m, 3)]
  }

  /**
   * Rotation of a matrix by a quarter turn. Clockwise, the cell at (i, j) of
   * the result comes from (3 - j, i); counter-clockwise from (j, 3 - i).
   */
  function Rotate(m: Matrix, dir: Direction): (r: Matrix)
    requires IsMatrix(m)
    ensures IsMatrix(r)
    ensures dir == Clockwise ==>
      forall i, j :: 0 <= i < 4 && 0 <= j < 4 ==> r[i][j] == m[3 - j][i]
    ensures dir == CounterClockwise ==>
      forall i, j :: 0 <= i < 4 && 0 <= j < 4 ==> r[i][j] == m[j][3 - i]
  {
    var t := Transpose(m);
    if dir == Clockwise then [Reverse(t[0]), Reverse(t[1]), Reverse(t[2]), Reverse(t[3])]
    else Reverse(t)
  }

  function CW(m: Matrix): (r: Matrix)
    requires IsMatrix(m)
    ensures IsMatrix(r)
  {
    Rotate(m, Clockwise)
  }

  function CCW(m: Matrix): (r: Matrix)
    requires IsMatrix(m)
    ensures IsMatrix(r)
  {
    Rotate(m, CounterClockwise)
  }

  /** Two matrices agree cell by cell; for 4x4 matrices this is equality. */
  lemma MatrixExt(a: Matrix, b: Matrix)
    requires IsMatrix(a) && IsMatrix(b)
    requires forall i, j :: 0 <= i < 4 && 0 <= j < 4 ==> a[i][j] == b[i][j]
    ensures a == b
  {
    forall i | 0 <= i < 4 ensures a[i] == b[i] {
    }
  }

  /** A counter-clockwise turn undoes a clockwise one. */
  lemma CCWAfterCW(m: Matrix)
    requires IsMatrix(m)
    ensures CCW(CW(m)) == m
  {
    MatrixExt(CCW(CW(m)), m);
  }

  /** A clockwise turn undoes a counter-clockwise one. */
  lemma CWAfterCCW(m: Matrix)
    requires IsMatrix(m)
    ensures CW(CCW(m)) == m
  {
    MatrixExt(CW(CCW(m)), m);
  }

  /** Four clockwise turns give back the original matrix. */
  lemma FourClockwise(m: Matrix)
    requires IsMatrix(m)
    ensures CW(CW(CW(CW(m)))) == m
  {
    MatrixExt(CW(CW(CW(CW(m)))), m);
  }

  /** Four counter-clockwise turns give back the original matrix. */
  lemma FourCounterClockwise(m: Matrix)
    requires IsMatrix(m)
    ensures CCW(CCW(CCW(CCW(m)))) == m
  {
    MatrixExt(CCW(CCW(CCW(CCW(m)))), m);
  }

  /** The image of a set under an injective map has the size of the set. */
  lemma {:induction false} InjectiveImageSize(s: set<Cell>, f: Cell -> Cell)
    requires forall p, q :: p in s && q in s && f(p) == f(q) ==> p == q
    ensures |set p | p in s :: f(p)| == |s|
    decreases |s|
  {
    if s != {} {
      var x :| x in s;
      var rest := s - {x};
      InjectiveImageSize(rest, f);
      assert (set p | p in s :: f(p)) == (set p | p in rest :: f(p)) + {f(x)};
      assert f(x) !in (set p | p in rest :: f(p));
    }
  }

  /** Rotation in either direction keeps the number of occupied cells. */
  lemma RotatePreservesCount(m: Matrix, dir: Direction)
    requires IsMatrix(m)
    ensures CellCount(Rotate(m, dir)) == CellCount(m)
  {
    var r := Rotate(m, dir);
    var f: Cell -> Cell := if dir == Clockwise then (p: Cell) => (p.1, 3 - p.0)
                           else (p: Cell) => (3 - p.1, p.0);
    assert Cells(r) == set p | p in Cells(m) :: f(p) by {
      forall q | q in Cells(r) ensures q in set p | p in Cells(m) :: f(p) {
        var p := if dir == Clockwise then (3 - q.1, q.0) else (q.1, 3 - q.0);
        assert p in Cells(m) && f(p) == q;
      }
    }
    InjectiveImageSize(Cells(m), f);
  }

  /** Four distinct cells make a set of four. */
  lemma FourDistinct(a: Cell, b: Cell, c: Cell, d: Cell)
    requires a != b && a != c && a != d && b != c && b != d && c != d
    ensures |{a, b, c, d}| == 4
  {
  }

  /** Every catalogue shape has four occupied cells. */
  lemma ShapeHasFourCells(k: Kind)
    ensures CellCount(Shape(k)) == 4
  {
    var m := Shape(k);
    var (a, b, c, d) := match k
      case I => ((1, 0), (1, 1), (1, 2), (1, 3))
      case O => ((1, 1), (1, 2), (2, 1), (2, 2))
      case T => ((1, 1), (1, 2), (1, 3), (2, 2))
      case S => ((1, 2), (1, 3), (2, 1), (2, 2))
      case Z => ((1, 1), (1, 2), (2, 2), (2, 3))
      case J => ((1, 1), (1, 2), (1, 3), (2, 3))
      case L => ((1, 1), (1, 2), (1, 3), (2, 1));
    assert Cells(m) == {a, b, c, d};
    FourDistinct(a, b, c, d);
  }

  /** Every base shape has an occupied cell (row 1, column 2 is occupied in all seven). */
  lemma ShapeHasCell(k: Kind)
    ensures HasCell(Shape(k))
  {
    assert Shape(k)[1][2] == 1;
  }

  /** Rotation keeps some cell occupied. */
  lemma RotateHasCell(m: Matrix, dir: Direction)
    requires IsMatrix(m) && HasCell(m)
    ensures HasCell(Rotate(m, dir))
  {
    var i, j :| 0 <= i < 4 && 0 <= j < 4 && m[i][j] == 1;
    if dir == Clockwise {
      assert Rotate(m, dir)[j][3 - i] == 1;
    } else {
      assert Rotate(m, dir)[3 - j][i] == 1;
    }
  }

  /** The matrix after `n` clockwise quarter turns. */
  function Turned(base: Matrix, n: nat): (m: Matrix)
    requires IsMatrix(base)
    ensures IsMatrix(m)
  {
    if n == 0 then base else CW(Turned(base, n - 1))
  }

  /** The four orientations of a kind: its base shape after zero to three clockwise quarter turns. */
  predicate InOrbit(m: Matrix, k: Kind) {
    exists n: nat :: n < 4 && m == Turned(Shape(k), n)
  }

  /** The base shape is an orientation of its kind. */
  lemma ShapeInOrbit(k: Kind)
    ensures InOrbit(Shape(k), k)
  {
    assert Shape(k) == Turned(Shape(k), 0);
  }

  /** Turning an orientation of a kind, either way, gives an orientation of the same kind. */
  lemma RotateStaysInOrbit(m: Matrix, k: Kind, dir: Direction)
    requires InOrbit(m, k)
    ensures IsMatrix(m) && InOrbit(Rotate(m, dir), k)
  {
    var b := Shape(k);
    var n: nat :| n < 4 && m == Turned(b, n);
    assert Turned(b, 3) == CW(CW(CW(b))) by {
      assert Turned(b, 1) == CW(b);
      assert Turned(b, 2) == CW(Turned(b, 1));
    }
    if dir == Clockwise {
      if n < 3 {
        assert Rotate(m, dir) == Turned(b, n + 1);
      } else {
        FourClockwise(b);
        assert Rotate(m, dir) == Turned(b, 0);
      }
    } else {
      if n > 0 {
        CCWAfterCW(Turned(b, n - 1));
        assert Rotate(m, dir) == Turned(b, n - 1);
      } else {
        FourClockwise(b);
        CCWAfterCW(Turned(b, 3));
        assert Rotate(m, dir) == Turned(b, 3);
      }
    }
  }

  /** Turning keeps the number of occupied cells. */
  lemma {:induction false} TurnedCount(base: Matrix, n: nat)
    requires IsMatrix(base)
    ensures CellCount(Turned(base, n)) == CellCount(base)
  {
    if n > 0 {
      TurnedCount(base, n - 1);
      RotatePreservesCount(Turned(base, n - 1), Clockwise);
    }
  }

  /** Every orientation of a catalogue shape has four occupied cells. */
  lemma OrbitHasFourCells(m: Matrix, k: Kind)
    requires InOrbit(m, k)
    ensures IsMatrix(m) && CellCount(m) == 4 && HasCell(m)
  {
    var n: nat :| n < 4 && m == Turned(Shape(k), n);
    ShapeHasFourCells(k);
    TurnedCount(Shape(k), n);
    assert |Cells(m)| == 4;
    var p :| p in Cells(m);
    assert m[p.0][p.1] == 1;
  }
}
