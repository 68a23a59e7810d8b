/**
 * The game session: the state the main loop keeps between frames (grid,
 * current, next and held piece, position, orientation state, hold flag,
 * score, bag, statistics, gravity clock and the three DAS timers) and one
 * method per event that changes it.
 *
 * Times are integer milliseconds passed in as `now`; the random choice of a
 * draw is passed in as `choice`.
 */
module Game {
  import opened Wrappers
  import opened Pieces
  import opened Stats
  import opened Board
  import opened Bag
  import opened Kicks
  import opened AutoRepeat

  const FallDelay := 500
  const SpawnRow := 0
  const SpawnCol := Width / 2 - 2

  /** A movement key; each has its own DAS timer. */
  datatype Shift = ShiftLeft | ShiftRight | ShiftDown

  /** The (row, column) step of a movement key. */
  function Delta(s: Shift): Cell
  {
    match s
    case ShiftLeft => (0, -1)
    case ShiftRight => (0, 1)
    case ShiftDown => (1, 0)
  }

  /** Any 4x4 matrix lies inside the grid when its box sits at the spawn position. */
  lemma SpawnInBox(m: Matrix)
    requires IsMatrix(m)
    ensures InBox(m, SpawnRow, SpawnCol)
  {
  }

  /** The DAS timers of the three movement keys. */
  datatype Timers = Timers(left: Timer, right: Timer, down: Timer) {
    function Get(s: Shift): Timer {
      match s
      case ShiftLeft => left
      case ShiftRight => right
      case ShiftDown => down
    }

    /** The timers with the one of key `s` replaced and the other two kept. */
    function Set(s: Shift, t: Timer): (r: Timers)
      ensures r.Get(s) == t
      ensures forall s' :: s' != s ==> r.Get(s') == Get(s')
    {
      match s
      case ShiftLeft => this.(left := t)
      case ShiftRight => this.(right := t)
      case ShiftDown => this.(down := t)
    }
  }

  /** A grid of the fixed size with no full row. */
  predicate BoardOk(g: seq<Row>) {
    IsBoard(g) && NoFullRows(g)
  }

  /** The part of a session that a lock and spawn starts from. */
  datatype Snapshot = Snapshot(
    board: seq<Row>, current: Matrix, currentKey: Kind, col: int, score: nat,
    nextKey: Kind, bag: seq<Kind>, stats: Statistics)

  class Session {
    var grid: array<Row>
    /** The contents of the grid. */
    ghost var board: seq<Row>
    var stats: Statistics
    var currentKey: Kind
    var current: Matrix
    var nextKey: Kind
    var holdKey: Option<Kind>
    var row: int
    var col: int
    var rotationState: Orientation
    var holdUsed: bool
    var score: nat
    var bag: seq<Kind>
    var lastFallTime: int
    var timers: Timers
    var gameOver: bool

    /** The grid has the fixed size, holds `board` and has no full row. */
    ghost predicate GridOk()
      reads this`grid, this`board, grid
    {
      grid.Length == Height && grid[..] == board && BoardOk(board)
    }

    /** The current matrix has an occupied cell and lies inside the grid where it is. */
    ghost predicate PieceValid()
      reads this`current, this`row, this`col
    {
      PieceOk(current, row, col)
    }

    /** The statistics are consistent and the bag holds each kind at most once. */
    ghost predicate CountersOk()
      reads this`stats, this`bag
    {
      stats.Valid() && AtMostOnce(bag)
    }

    /** The session invariant. */
    ghost predicate Valid()
      reads this`grid, this`board, grid, this`current, this`row, this`col, this`stats, this`bag
    {
      GridOk() && PieceValid() && CountersOk()
    }

    /**
     * A new session on an empty grid. The first current and next pieces are
     * parameters: they are not drawn from the bag and not counted.
     */
    constructor (first: Kind, second: Kind, now: int)
      ensures Valid() && fresh(grid)
      ensures forall y :: 0 <= y < Height ==> grid[y] == EmptyRow()
      ensures currentKey == first && current == Shape(first) && nextKey == second
      ensures holdKey == None && !holdUsed && score == 0 && bag == [] && !gameOver
      ensures row == SpawnRow && col == SpawnCol && rotationState == State0
      ensures lastFallTime == now && timers == Timers(Idle, Idle, Idle)
      ensures stats == Initial()
    {
      var g := new Row[Height](_ => EmptyRow());
      grid, board := g, g[..];
      stats := Initial();
      currentKey, current, nextKey := first, Shape(first), second;
      holdKey, holdUsed, score, bag, gameOver := None, false, 0, [], false;
      row, col, rotationState := SpawnRow, SpawnCol, State0;
      lastFallTime, timers := now, Timers(Idle, Idle, Idle);
      new;
      ShapeHasCell(currentKey);
      SpawnInBox(current);
    }

    /**
     * A draw from the bag: an empty bag is refilled with the seven kinds,
     * the chosen element is taken out, and the draw is counted.
     */
    method DrawNext(choice: nat) returns (k: Kind)
      requires CountersOk()
      modifies this`bag, this`stats
      ensures CountersOk()
      ensures Drawn(k, bag) == Draw(old(bag), choice) && stats == old(stats).RecordDraw(k)
    {
      DrawStaysWithinRefill(bag, choice);
      var drawn := Draw(bag, choice);
      k, bag, stats := drawn.kind, drawn.rest, stats.RecordDraw(drawn.kind);
    }

    /**
     * Locks the current piece where it is, clears the full rows and adds
     * their number to the score. The piece itself is not touched.
     */
    method Lock() returns (count: nat)
      requires Valid()
      modifies this`grid, this`board, this`score, this`stats
      ensures Valid()
      ensures var locked := Locked(old(board), current, Id(currentKey), row, col);
        && board == Cleared(locked)
        && count == FullCount(locked) && count <= 4
      ensures score == old(score) + count
      ensures stats == old(stats).(lineClears := Bumped(old(stats).lineClears, count))
    {
      LockClearsAtMostFour(board, current, Id(currentKey), row, col);
      var ng := AddToGrid(current, currentKey, grid, row, col);
      ClearedIsBoard(ng[..]);
      count := ClearLines(ng);
      grid := ng;
      board := ng[..];
      score := score + count;
      stats := stats.(lineClears := Bumped(stats.lineClears, count));
    }

    /** Makes `k` the current kind, with its base shape at the spawn position. */
    method BringIn(k: Kind)
      requires Valid()
      modifies this`currentKey, this`current, this`row, this`col
      ensures Valid()
      ensures currentKey == k && current == Shape(k) && row == SpawnRow && col == SpawnCol
    {
      currentKey := k;
      current := Shape(k);
      row, col := SpawnRow, SpawnCol;
      ShapeHasCell(k);
      SpawnInBox(current);
    }

    /**
     * Spawns the next piece: the next kind becomes current with its base
     * shape at the spawn position, a new next kind is drawn, the hold is
     * available again, and the game is over exactly when the new piece does
     * not fit where it spawned.
     */
    method Spawn(choice: nat)
      requires Valid()
      modifies this`currentKey, this`current, this`nextKey, this`bag
      modifies this`row, this`col, this`holdUsed, this`gameOver, this`stats
      ensures Valid()
      ensures currentKey == old(nextKey) && current == Shape(currentKey)
      ensures Drawn(nextKey, bag) == Draw(old(bag), choice) && stats == old(stats).RecordDraw(nextKey)
      ensures row == SpawnRow && col == SpawnCol && !holdUsed
      ensures gameOver <==> !Fits(current, board, SpawnRow, SpawnCol)
    {
      BringIn(nextKey);
      nextKey := DrawNext(choice);
      var ok := IsValidPosition(current, grid, row, col);
      gameOver, holdUsed := !ok, false;
    }

    /** The values a lock and spawn reads from the session before it starts. */
    ghost function Snap(): Snapshot
      reads this
    {
      Snapshot(board, current, currentKey, col, score, nextKey, bag, stats)
    }

    /**
     * The state after the piece of `before` locks with its box at row
     * `lockRow`, and then a spawn with the given draw: the grid is the
     * locked grid with its full rows cleared, the score and the line-clear
     * statistics count those rows, and the spawn is as `Spawn` states.
     */
    ghost predicate LockStep(before: Snapshot, lockRow: int, choice: nat)
      reads this`board, this`score, this`currentKey, this`current, this`nextKey, this`bag
      reads this`row, this`col, this`holdUsed, this`gameOver, this`stats
      requires IsBoard(before.board) && IsMatrix(before.current)
    {
      var locked := Locked(before.board, before.current, Id(before.currentKey), lockRow, before.col);
      var count := FullCount(locked);
      && board == Cleared(locked) && IsBoard(board)
      && count <= 4
      && score == before.score + count
      && currentKey == before.nextKey && current == Shape(currentKey)
      && Drawn(nextKey, bag) == Draw(before.bag, choice)
      && row == SpawnRow && col == SpawnCol && !holdUsed
      && (gameOver <==> !Fits(current, board, SpawnRow, SpawnCol))
      && stats == before.stats.(lineClears := Bumped(before.stats.lineClears, count)).RecordDraw(nextKey)
    }

    /** Moves the current piece down to row `lockRow`, locks it there and spawns the next one. */
    method LockAndSpawn(lockRow: int, choice: nat)
      requires Valid() && InBox(current, lockRow, col)
      modifies this`grid, this`board, this`score, this`currentKey, this`current, this`nextKey, this`bag
      modifies this`row, this`col, this`holdUsed, this`gameOver, this`stats
      ensures Valid()
      ensures LockStep(old(Snap()), lockRow, choice)
    {
      row := lockRow;
      var count := Lock();
      ClearedIsBoard(Locked(old(board), current, Id(currentKey), row, col));
      Spawn(choice);
    }

    /**
     * Hard drop: the piece falls straight down to rest and locks there, and
     * the next piece spawns.
     */
    method HardDrop(choice: nat) returns (restRow: int)
      requires Valid()
      modifies this`grid, this`board, this`score, this`currentKey, this`current, this`nextKey, this`bag
      modifies this`row, this`col, this`holdUsed, this`gameOver, this`stats
      ensures Valid()
      ensures old(gameOver) ==> unchanged(this)
      ensures !old(gameOver) ==>
        && RestsAt(old(current), old(board), old(row), old(col), restRow)
        && LockStep(old(Snap()), restRow, choice)
    {
      restRow := row;
      if gameOver {
        return;
      }
      var sc;
      restRow, sc := ShadowPosition(current, grid, row, col);
      if restRow > row {
        FitsInBox(current, board, restRow, sc);
      }
      LockAndSpawn(restRow, choice);
    }

    /**
     * Hold: once per piece, the current kind goes to the hold slot. With an
     * empty slot the next kind becomes current and a new next kind is drawn;
     * otherwise the held kind comes back. The new current piece is the base
     * shape of its kind at the spawn position; the orientation state is not
     * touched.
     */
    method Hold(choice: nat)
      requires Valid()
      modifies this`currentKey, this`current, this`nextKey, this`holdKey, this`bag
      modifies this`row, this`col, this`holdUsed, this`stats
      ensures Valid()
      ensures old(holdUsed) || old(gameOver) ==> unchanged(this)
      ensures !old(holdUsed) && !old(gameOver) ==>
        && holdKey == Some(old(currentKey))
        && current == Shape(currentKey)
        && row == SpawnRow && col == SpawnCol && holdUsed
        && match old(holdKey)
           case None =>
             && currentKey == old(nextKey) && Drawn(nextKey, bag) == Draw(old(bag), choice)
             && stats == old(stats).RecordDraw(nextKey)
           case Some(h) =>
             currentKey == h && nextKey == old(nextKey) && bag == old(bag) && stats == old(stats)
    {
      if holdUsed || gameOver {
        return;
      }
      var incoming;
      match holdKey {
        case None =>
          incoming := nextKey;
          nextKey := DrawNext(choice);
        case Some(h) =>
          incoming := h;
      }
      holdKey, holdUsed := Some(currentKey), true;
      BringIn(incoming);
    }

    /**
     * A rotation request: the rotated matrix is committed at the current
     * position when it fits there, else at the first wall-kick position that
     * works, and with the orientation state moved on; a rejected rotation
     * changes nothing.
     */
    method Rotate(dir: Direction)
      requires Valid()
      modifies this`current, this`rotationState, this`row, this`col
      ensures Valid()
      ensures old(gameOver) ==> unchanged(this)
      ensures !old(gameOver) ==>
        Placement(current, rotationState, row, col)
          == Turn(currentKey, Placement(old(current), old(rotationState), old(row), old(col)), dir, board)
    {
      if gameOver {
        return;
      }
      var q := TurnPiece(currentKey, Placement(current, rotationState, row, col), dir, grid);
      current, rotationState, row, col := q.matrix, q.state, q.row, q.col;
    }

    /**
     * One frame of a movement key: its DAS timer advances, and the piece
     * moves one cell in that direction exactly when the timer says so and
     * the piece fits there. The other timers are untouched.
     */
    method AutoShift(s: Shift, pressed: bool, now: int)
      requires Valid()
      modifies this`row, this`col, this`timers
      ensures Valid()
      ensures old(gameOver) ==> unchanged(this)
      ensures !old(gameOver) ==>
        var d := Delta(s);
        var step := Advance(old(timers).Get(s), pressed, now, Fits(old(current), old(board), old(row) + d.0, old(col) + d.1));
        && timers == old(timers).Set(s, step.timer)
        && (row, col) == if step.moved then (old(row) + d.0, old(col) + d.1) else (old(row), old(col))
    {
      if gameOver {
        return;
      }
      var timer := timers.Get(s);
      var d := Delta(s);
      var newRow, newCol := row + d.0, col + d.1;
      ghost var step := Advance(timer, pressed, now, Fits(current, board, newRow, newCol));
      var moved := false;
      if pressed {
        if !timer.active {
          moved := IsValidPosition(current, grid, newRow, newCol);
          if moved {
            timer := timer.(active := true, start := now);
          }
        } else if now - timer.start >= InitialDelay && now - timer.last >= AutoRepeatRate {
          moved := IsValidPosition(current, grid, newRow, newCol);
          if moved {
            timer := timer.(last := now);
          }
        }
      } else {
        timer := timer.(active := false);
      }
      assert step == Step(timer, moved);
      if moved {
        FitsInBox(current, board, newRow, newCol);
        row, col := newRow, newCol;
      }
      timers := timers.Set(s, timer);
    }

    /**
     * The gravity tick: once the fall delay has passed since the last fall,
     * the piece moves down one row if it fits there and otherwise locks and
     * the next piece spawns; either way the fall clock restarts.
     */
    method Gravity(now: int, choice: nat)
      requires Valid()
      modifies this`grid, this`board, this`score, this`currentKey, this`current, this`nextKey, this`bag
      modifies this`row, this`col, this`holdUsed, this`gameOver, this`lastFallTime, this`stats
      ensures Valid()
      ensures old(gameOver) || now - old(lastFallTime) < FallDelay ==> unchanged(this)
      ensures !old(gameOver) && now - old(lastFallTime) >= FallDelay ==>
        && lastFallTime == now
        && (Fits(old(current), old(board), old(row) + 1, old(col)) ==>
              row == old(row) + 1 && stats == old(stats) && unchanged(this`grid, this`score, this`currentKey)
              && current == old(current) && col == old(col) && nextKey == old(nextKey) && bag == old(bag)
              && holdUsed == old(holdUsed) && !gameOver)
        && (!Fits(old(current), old(board), old(row) + 1, old(col)) ==>
              LockStep(old(Snap()), old(row), choice))
    {
      if gameOver || now - lastFallTime < FallDelay {
        return;
      }
      var ok := IsValidPosition(current, grid, row + 1, col);
      if ok {
        FitsInBox(current, board, row + 1, col);
        row := row + 1;
      } else {
        LockAndSpawn(row, choice);
      }
      lastFallTime := now;
    }
  }
}
