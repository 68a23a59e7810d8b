/**
 * Orientation states, the wall-kick offset tables, and the search for the
 * first offset at which a rotated piece fits.
 */
module Kicks {
  import opened Wrappers
  import opened Pieces
  import opened Board

  /** The orientation states "0", "R", "2" and "L". */
  datatype Orientation = State0 | StateR | State2 | StateL

  function Name(o: Orientation): char
  {
    match o
    case State0 => '0'
    case StateR => 'R'
    case State2 => '2'
    case StateL => 'L'
  }

  /**
   * The orientation after a rotation, exactly as the rotation handlers
   * compute it: clockwise maps 0 to R, L to 2, 2 to L and R to 0;
   * counter-clockwise maps 0 to L, R to 2, 2 to R and L to 0.
   */
  function Next(o: Orientation, dir: Direction): Orientation
  {
    if dir == CounterClockwise then
      if o == State0 then StateL else if o == StateR then State2 else if o == State2 then StateR else State0
    else
      if o == State0 then StateR else if o == StateL then State2 else if o == State2 then StateL else State0
  }

  /** The transition key "from->to" that indexes the kick tables. */
  function Key(from: Orientation, to: Orientation): string
  {
    [Name(from)] + "->" + [Name(to)]
  }

  /** A (row, column) offset. */
  type Offset = (int, int)

  const IKicks: map<string, seq<Offset>> := map[
    "0->R" := [(0, 0), (-2, 0), (1, 0), (-2, -1), (1, 2)],
    "R->0" := [(0, 0), (2, 0), (-1, 0), (2, 1), (-1, -2)],
    "R->2" := [(0, 0), (-1, 0), (2, 0), (-1, 2), (2, -1)],
    "2->R" := [(0, 0), (1, 0), (-2, 0), (1, -2), (-2, 1)],
    "2->L" := [(0, 0), (2, 0), (-1, 0), (2, 1), (-1, -2)],
    "L->2" := [(0, 0), (-2, 0), (1, 0), (-2, -1), (1, 2)],
    "L->0" := [(0, 0), (1, 0), (-2, 0), (1, -2), (-2, 1)],
    "0->L" := [(0, 0), (-1, 0), (2, 0), (-1, 2), (2, -1)]
  ]

  const OtherKicks: map<string, seq<Offset>> := map[
    "0->R" := [(0, 0), (-1, 0), (-1, 1), (0, -2), (-1, -2)],
    "R->0" := [(0, 0), (1, 0), (1, -1), (0, 2), (1, 2)],
    "R->2" := [(0, 0), (1, 0), (1, -1), (0, 2), (1, 2)],
    "2->R" := [(0, 0), (-1, 0), (-1, 1), (0, -2), (-1, -2)],
    "2->L" := [(0, 0), (-1, 0), (-1, 1), (0, -2), (-1, -2)],
    "L->2" := [(0, 0), (1, 0), (1, -1), (0, 2), (1, 2)],
    "L->0" := [(0, 0), (1, 0), (1, -1), (0, 2), (1, 2)],
    "0->L" := [(0, 0), (-1, 0), (-1, 1), (0, -2), (-1, -2)]
  ]

  /** The I piece has its own table; the six other kinds share one. */
  function KickTable(k: Kind): map<string, seq<Offset>>
  {
    if k == I then IKicks else OtherKicks
  }

  /**
   * Every key a rotation produces is in both tables, and its list holds five
   * offsets, the first being (0, 0).
   */
  lemma TransitionKeysInTables(o: Orientation, dir: Direction, k: Kind)
    ensures Key(o, Next(o, dir)) in KickTable(k)
    ensures |KickTable(k)[Key(o, Next(o, dir))]| == 5
    ensures KickTable(k)[Key(o, Next(o, dir))][0] == (0, 0)
  {
    var key := Key(o, Next(o, dir));
    match (o, dir)
    case (State0, Clockwise) => assert key == "0->R";
    case (StateR, Clockwise) => assert key == "R->0";
    case (State2, Clockwise) => assert key == "2->L";
    case (StateL, Clockwise) => assert key == "L->2";
    case (State0, CounterClockwise) => assert key == "0->L";
    case (StateR, CounterClockwise) => assert key == "R->2";
    case (State2, CounterClockwise) => assert key == "2->R";
    case (StateL, CounterClockwise) => assert key == "L->0";
  }

  /**
   * The orientation maps are not the cycle 0, R, 2, L: each direction pairs
   * the states up, so two rotations the same way give back the first state,
   * and the two directions never agree.
   */
  lemma TransitionsPairUp(o: Orientation, dir: Direction)
    ensures Next(Next(o, dir), dir) == o
    ensures Next(o, Clockwise) != Next(o, CounterClockwise)
  {
  }

  // ---------------------------------------------------------------- kick search

  /** The box corner moved by the offset lies inside the grid and the matrix fits there. */
  predicate KickFits(m: Matrix, g: seq<Row>, r: int, c: int, off: Offset)
    requires IsMatrix(m) && IsBoard(g)
  {
    InGrid(r + off.0, c + off.1) && Fits(m, g, r + off.0, c + off.1)
  }

  /** The position reached with the first offset, in list order, for which the kick fits. */
  function KickSearch(m: Matrix, g: seq<Row>, r: int, c: int, offs: seq<Offset>): Option<Cell>
    requires IsMatrix(m) && IsBoard(g)
  {
    if offs == [] then None
    else if KickFits(m, g, r, c, offs[0]) then Some((r + offs[0].0, c + offs[0].1))
    else KickSearch(m, g, r, c, offs[1..])
  }

  /** The search finds nothing exactly when no offset of the list fits. */
  lemma {:induction false} KickSearchNoneIffNoFit(m: Matrix, g: seq<Row>, r: int, c: int, offs: seq<Offset>)
    requires IsMatrix(m) && IsBoard(g)
    ensures KickSearch(m, g, r, c, offs).None? <==>
      forall k :: 0 <= k < |offs| ==> !KickFits(m, g, r, c, offs[k])
  {
    if offs != [] && !KickFits(m, g, r, c, offs[0]) {
      var rest := offs[1..];
      KickSearchNoneIffNoFit(m, g, r, c, rest);
      assert forall k :: 1 <= k < |offs| ==> offs[k] == rest[k - 1];
    }
  }

  /** A position the search finds is the position of the first offset that fits. */
  lemma {:induction false} KickSearchFirstFit(m: Matrix, g: seq<Row>, r: int, c: int, offs: seq<Offset>)
    requires IsMatrix(m) && IsBoard(g)
    ensures KickSearch(m, g, r, c, offs).Some? ==>
      exists k :: 0 <= k < |offs| && KickFits(m, g, r, c, offs[k]) &&
        (forall k' :: 0 <= k' < k ==> !KickFits(m, g, r, c, offs[k'])) &&
        KickSearch(m, g, r, c, offs).value == (r + offs[k].0, c + offs[k].1)
  {
    if offs != [] && !KickFits(m, g, r, c, offs[0]) {
      var rest := offs[1..];
      KickSearchFirstFit(m, g, r, c, rest);
      if KickSearch(m, g, r, c, rest).Some? {
        var k :| 0 <= k < |rest| && KickFits(m, g, r, c, rest[k]) &&
          (forall k' :: 0 <= k' < k ==> !KickFits(m, g, r, c, rest[k'])) &&
          KickSearch(m, g, r, c, rest).value == (r + rest[k].0, c + rest[k].1);
        assert offs[k + 1] == rest[k];
        forall k' | 0 <= k' < k + 1 ensures !KickFits(m, g, r, c, offs[k']) {
          if k' > 0 {
            assert offs[k'] == rest[k' - 1];
          }
        }
      }
    }
  }

  /** A position the search finds lies in the grid and the matrix fits there. */
  lemma {:induction false} KickSearchFits(m: Matrix, g: seq<Row>, r: int, c: int, offs: seq<Offset>)
    requires IsMatrix(m) && IsBoard(g)
    ensures var res := KickSearch(m, g, r, c, offs);
      res.Some? ==> InGrid(res.value.0, res.value.1) && Fits(m, g, res.value.0, res.value.1)
  {
    if offs != [] && !KickFits(m, g, r, c, offs[0]) {
      KickSearchFits(m, g, r, c, offs[1..]);
    }
  }

  /** Walks an offset list and returns the first position whose box corner is inside the grid and at which the matrix fits. */
  method SearchOffsets(m: Matrix, offsets: seq<Offset>, grid: array<Row>, r: int, c: int) returns (res: Option<Cell>)
    requires IsMatrix(m) && IsBoard(grid[..])
    ensures res == KickSearch(m, grid[..], r, c, offsets)
  {
    for n := 0 to |offsets|
      invariant KickSearch(m, grid[..], r, c, offsets) == KickSearch(m, grid[..], r, c, offsets[n..])
    {
      var offset := offsets[n];
      var newRow, newCol := r + offset.0, c + offset.1;
      assert offsets[n..][1..] == offsets[n + 1..];
      if 0 <= newRow < Height && 0 <= newCol < Width {
        var ok := IsValidPosition(m, grid, newRow, newCol);
        if ok {
          return Some((newRow, newCol));
        }
      }
    }
    return None;
  }

  /**
   * The wall kick: walks the offset list of the piece's table for the
   * transition key and returns the first position whose box corner is
   * inside the grid and at which the rotated matrix fits.
   */
  method ApplyWallKick(m: Matrix, key: Kind, rotationKey: string, grid: array<Row>, r: int, c: int)
    returns (res: Option<Cell>)
    requires IsMatrix(m) && IsBoard(grid[..]) && rotationKey in KickTable(key)
    ensures res == KickSearch(m, grid[..], r, c, KickTable(key)[rotationKey])
  {
    res := SearchOffsets(m, KickTable(key)[rotationKey], grid, r, c);
  }

  // ---------------------------------------------------------------- rotation commit

  /** Where a committed rotation leaves the piece. */
  datatype Placement = Placement(matrix: Matrix, state: Orientation, row: int, col: int)

  /**
   * The commit step for a rotated matrix and its next state: kept at the
   * current position if it fits there, and otherwise at the position the
   * kick search over `offs` finds; with no such position, rejected.
   */
  function Commit(rotated: Matrix, o': Orientation, g: seq<Row>, r: int, c: int, offs: seq<Offset>): Option<Placement>
    requires IsMatrix(rotated) && IsBoard(g)
  {
    if Fits(rotated, g, r, c) then Some(Placement(rotated, o', r, c))
    else match KickSearch(rotated, g, r, c, offs)
      case Some(p) => Some(Placement(rotated, o', p.0, p.1))
      case None => None
  }

  /**
   * A committed placement holds the rotated matrix and the next state, and
   * the matrix fits where it is put: at the current position when it fits
   * there, else at the first offset that fits. The commit is rejected
   * exactly when neither the current position nor any offset works.
   */
  lemma CommitSpec(rotated: Matrix, o': Orientation, g: seq<Row>, r: int, c: int, offs: seq<Offset>)
    requires IsMatrix(rotated) && IsBoard(g)
    ensures var res := Commit(rotated, o', g, r, c, offs);
      && (res.Some? ==> res.value.matrix == rotated && res.value.state == o'
                        && Fits(rotated, g, res.value.row, res.value.col))
      && (Fits(rotated, g, r, c) ==> res == Some(Placement(rotated, o', r, c)))
      && (!Fits(rotated, g, r, c) && res.Some? ==>
            exists n :: 0 <= n < |offs| && KickFits(rotated, g, r, c, offs[n])
              && (forall n' :: 0 <= n' < n ==> !KickFits(rotated, g, r, c, offs[n']))
              && (res.value.row, res.value.col) == (r + offs[n].0, c + offs[n].1))
      && (res.None? <==> !Fits(rotated, g, r, c) && forall n :: 0 <= n < |offs| ==> !KickFits(rotated, g, r, c, offs[n]))
  {
    if !Fits(rotated, g, r, c) {
      KickSearchNoneIffNoFit(rotated, g, r, c, offs);
      KickSearchFirstFit(rotated, g, r, c, offs);
    }
    if !Fits(rotated, g, r, c) && KickSearch(rotated, g, r, c, offs).Some? {
      var n :| 0 <= n < |offs| && KickFits(rotated, g, r, c, offs[n]) &&
        (forall n' :: 0 <= n' < n ==> !KickFits(rotated, g, r, c, offs[n'])) &&
        KickSearch(rotated, g, r, c, offs).value == (r + offs[n].0, c + offs[n].1);
      assert KickFits(rotated, g, r, c, offs[n]);
    }
  }

  /**
   * The decision of a rotation handler: the matrix rotated in direction
   * `dir` and the next state, committed with the offsets of the piece's
   * table for the transition key.
   */
  function RotationOutcome(k: Kind, m: Matrix, o: Orientation, dir: Direction, g: seq<Row>, r: int, c: int)
    : Option<Placement>
    requires IsMatrix(m) && IsBoard(g)
  {
    TransitionKeysInTables(o, dir, k);
    Commit(Rotate(m, dir), Next(o, dir), g, r, c, KickTable(k)[Key(o, Next(o, dir))])
  }

  /**
   * A committed rotation holds the rotated matrix and the next state, and
   * the matrix fits where it is put: at the current position when the
   * rotated matrix fits there, else at the first kick offset of the table
   * that fits. A rejected rotation is one for which neither the current
   * position nor any offset of the table works.
   */
  lemma RotationOutcomeSpec(k: Kind, m: Matrix, o: Orientation, dir: Direction, g: seq<Row>, r: int, c: int)
    requires IsMatrix(m) && IsBoard(g)
    ensures Key(o, Next(o, dir)) in KickTable(k)
    ensures var res := RotationOutcome(k, m, o, dir, g, r, c);
      var rotated := Rotate(m, dir);
      var offs := KickTable(k)[Key(o, Next(o, dir))];
      && (res.Some? ==> res.value.matrix == rotated && res.value.state == Next(o, dir)
                        && Fits(rotated, g, res.value.row, res.value.col))
      && (Fits(rotated, g, r, c) ==> res == Some(Placement(rotated, Next(o, dir), r, c)))
      && (!Fits(rotated, g, r, c) && res.Some? ==>
            exists n :: 0 <= n < |offs| && KickFits(rotated, g, r, c, offs[n])
              && (forall n' :: 0 <= n' < n ==> !KickFits(rotated, g, r, c, offs[n']))
              && (res.value.row, res.value.col) == (r + offs[n].0, c + offs[n].1))
      && (res.None? <==> !Fits(rotated, g, r, c) && forall n :: 0 <= n < |offs| ==> !KickFits(rotated, g, r, c, offs[n]))
  {
    TransitionKeysInTables(o, dir, k);
    CommitSpec(Rotate(m, dir), Next(o, dir), g, r, c, KickTable(k)[Key(o, Next(o, dir))]);
  }

  /**
   * A rotation request applied to a placement: the committed placement when
   * the rotation is accepted, and the unchanged placement when it is
   * rejected.
   */
  function Turn(k: Kind, p: Placement, dir: Direction, g: seq<Row>): Placement
    requires IsMatrix(p.matrix) && IsBoard(g)
  {
    match RotationOutcome(k, p.matrix, p.state, dir, g, p.row, p.col)
    case Some(q) => q
    case None => p
  }

  /**
   * A rotation handler: rotates the matrix, keeps it at the current
   * position when it fits there, else tries the wall kicks of the piece's
   * table for the transition key, and leaves the placement as it was when
   * nothing fits. The matrix stays a 4x4 matrix with an occupied cell,
   * and a committed placement keeps every occupied cell inside the grid.
   */
  method TurnPiece(k: Kind, p: Placement, dir: Direction, grid: array<Row>) returns (q: Placement)
    requires IsMatrix(p.matrix) && IsBoard(grid[..])
    ensures q == Turn(k, p, dir, grid[..])
    ensures IsMatrix(q.matrix)
    ensures PieceOk(p.matrix, p.row, p.col) ==> PieceOk(q.matrix, q.row, q.col)
  {
    var next := Next(p.state, dir);
    var rotated := Rotate(p.matrix, dir);
    TransitionKeysInTables(p.state, dir, k);
    if HasCell(p.matrix) {
      RotateHasCell(p.matrix, dir);
    }
    var ok := IsValidPosition(rotated, grid, p.row, p.col);
    if ok {
      FitsInBox(rotated, grid[..], p.row, p.col);
      return Placement(rotated, next, p.row, p.col);
    }
    var kicked := ApplyWallKick(rotated, k, Key(p.state, next), grid, p.row, p.col);
    KickSearchFits(rotated, grid[..], p.row, p.col, KickTable(k)[Key(p.state, next)]);
    if kicked.Some? {
      FitsInBox(rotated, grid[..], kicked.value.0, kicked.value.1);
      q := Placement(rotated, next, kicked.value.0, kicked.value.1);
    } else {
      q := p;
    }
  }

  /**
   * A rotation request keeps the piece well formed: the matrix stays a 4x4
   * matrix, keeps an occupied cell, stays an orientation of its kind, and
   * a committed rotation puts it where it fits.
   */
  lemma TurnKeepsPiece(k: Kind, p: Placement, dir: Direction, g: seq<Row>)
    requires IsMatrix(p.matrix) && IsBoard(g)
    ensures var q := Turn(k, p, dir, g);
      && IsMatrix(q.matrix)
      && (HasCell(p.matrix) ==> HasCell(q.matrix))
      && (InOrbit(p.matrix, k) ==> InOrbit(q.matrix, k))
      && (q != p ==> Fits(q.matrix, g, q.row, q.col))
  {
    RotationOutcomeSpec(k, p.matrix, p.state, dir, g, p.row, p.col);
    if HasCell(p.matrix) {
      RotateHasCell(p.matrix, dir);
    }
    if InOrbit(p.matrix, k) {
      RotateStaysInOrbit(p.matrix, k, dir);
    }
  }

  /**
   * The orientation state moves exactly when the rotation is committed, and
   * a rejected rotation leaves matrix, state and position as they were.
   */
  lemma TurnChangesStateIffCommitted(k: Kind, p: Placement, dir: Direction, g: seq<Row>)
    requires IsMatrix(p.matrix) && IsBoard(g)
    ensures Turn(k, p, dir, g).state != p.state <==> RotationOutcome(k, p.matrix, p.state, dir, g, p.row, p.col).Some?
    ensures RotationOutcome(k, p.matrix, p.state, dir, g, p.row, p.col).None? ==> Turn(k, p, dir, g) == p
  {
    TransitionsPairUp(p.state, dir);
    RotationOutcomeSpec(k, p.matrix, p.state, dir, g, p.row, p.col);
  }
}
