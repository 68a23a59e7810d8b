/**
 * Three places where the game's code does something other than what it
 * evidently means. Each is modelled here as written, together with an input
 * that shows the difference; the rest of the model uses the corrected
 * behaviour (Kicks.Turn, Kicks.KickTable, Game.Session.Hold and
 * Game.Session.Spawn).
 */
module Findings {
  import opened Wrappers
  import opened Pieces
  import opened Board
  import opened Kicks

  // ---------------------------------------------------------------- clockwise state update

  /**
   * The clockwise handler as written: the matrix and position are committed
   * exactly as in the counter-clockwise handler, but the orientation state
   * is set to the next state whether or not the rotation was committed.
   * This member isolates that one defect: it commits with the table of the
   * piece's kind, as `Kicks.Turn` does, and leaves the shared-table
   * selection to `KickTableAsWritten` below. The example that follows is
   * rejected under either table (`ClockwiseRejectedUnderSharedTable`).
   */
  function ClockwiseAsWritten(k: Kind, p: Placement, g: seq<Row>): (q: Placement)
    requires IsMatrix(p.matrix) && IsBoard(g)
    ensures q.state == Next(p.state, Clockwise)
    ensures (q.matrix, q.row, q.col) == (Turn(k, p, Clockwise, g).matrix, Turn(k, p, Clockwise, g).row, Turn(k, p, Clockwise, g).col)
  {
    match RotationOutcome(k, p.matrix, p.state, Clockwise, g, p.row, p.col)
    case Some(q) => q
    case None => p.(state := Next(p.state, Clockwise))
  }

  /**
   * The as-written handler agrees with the corrected one exactly when the
   * rotation is committed; a rejected rotation leaves the unrotated matrix
   * with an orientation state that has moved on.
   */
  lemma ClockwiseAsWrittenDiffers(k: Kind, p: Placement, g: seq<Row>)
    requires IsMatrix(p.matrix) && IsBoard(g)
    ensures ClockwiseAsWritten(k, p, g) == Turn(k, p, Clockwise, g)
      <==> RotationOutcome(k, p.matrix, p.state, Clockwise, g, p.row, p.col).Some?
    ensures RotationOutcome(k, p.matrix, p.state, Clockwise, g, p.row, p.col).None? ==>
      ClockwiseAsWritten(k, p, g).matrix == p.matrix && ClockwiseAsWritten(k, p, g).state != p.state
  {
    RotationOutcomeSpec(k, p.matrix, p.state, Clockwise, g, p.row, p.col);
  }

  const Ledge: Row := [0, 0, 0, 0, 1, 1, 1, 1, 1, 1]
  const Bump: Row := [0, 0, 1, 0, 0, 0, 0, 0, 0, 0]

  /**
   * A grid with no full row: the bottom row is filled from column 4 on, and
   * the row above it has one block in column 2.
   */
  function LedgeBoard(): (g: seq<Row>)
    ensures IsBoard(g) && NoFullRows(g)
    ensures g[Height - 1] == Ledge && g[Height - 2] == Bump
  {
    var g := seq(Height, y requires 0 <= y < Height => if y == Height - 1 then Ledge else if y == Height - 2 then Bump else EmptyRow());
    assert !Full(Ledge) by { assert Ledge[0] == 0; }
    assert !Full(Bump) by { assert Bump[0] == 0; }
    assert !Full(EmptyRow()) by { assert EmptyRow()[0] == 0; }
    g
  }

  /**
   * A horizontal I piece resting on the ledge at box corner (18, 0): it fits
   * where it is, but its clockwise rotation fits neither there nor at any
   * offset of the I table, so the rotation is rejected. As written, the
   * state still becomes R while the matrix stays horizontal.
   */
  lemma ClockwiseRejectedExample()
    ensures var p := Placement(Shape(I), State0, 18, 0);
      && Fits(p.matrix, LedgeBoard(), 18, 0)
      && RotationOutcome(I, p.matrix, State0, Clockwise, LedgeBoard(), 18, 0).None?
      && ClockwiseAsWritten(I, p, LedgeBoard()) == Placement(Shape(I), StateR, 18, 0)
      && Turn(I, p, Clockwise, LedgeBoard()) == p
  {
    var g := LedgeBoard();
    var m := Shape(I);
    assert m == [[0, 0, 0, 0], [1, 1, 1, 1], [0, 0, 0, 0], [0, 0, 0, 0]];
    forall i, j | 0 <= i < 4 && 0 <= j < 4 ensures CellFree(m, g, 18, 0, i, j) {
      if i == 1 {
        assert g[19][j] == Ledge[j] == 0;
      }
    }
    var rotated := Rotate(m, Clockwise);
    assert rotated[1][2] == 1 && rotated[2][2] == 1;
    assert Key(State0, Next(State0, Clockwise)) == "0->R";
    var offs := IKicks["0->R"];
    assert offs == [(0, 0), (-2, 0), (1, 0), (-2, -1), (1, 2)];
    assert !CellFree(rotated, g, 18, 0, 2, 2);
    assert !CellFree(rotated, g, 16, 0, 2, 2) by { assert g[18][2] == Bump[2]; }
    assert !CellFree(rotated, g, 19, 0, 1, 2);
    assert !CellFree(rotated, g, 19, 2, 1, 2);
    assert forall n :: 0 <= n < |offs| ==> !KickFits(rotated, g, 18, 0, offs[n]);
    RotationOutcomeSpec(I, m, State0, Clockwise, g, 18, 0);
  }

  /**
   * The same rotation is rejected with the shared table that the code
   * actually selects for the I piece, so the example does not depend on the
   * corrected table selection.
   */
  lemma ClockwiseRejectedUnderSharedTable()
    ensures Commit(Rotate(Shape(I), Clockwise), StateR, LedgeBoard(), 18, 0, KickTableAsWritten(I)["0->R"]).None?
  {
    var g := LedgeBoard();
    var rotated := Rotate(Shape(I), Clockwise);
    assert Shape(I) == [[0, 0, 0, 0], [1, 1, 1, 1], [0, 0, 0, 0], [0, 0, 0, 0]];
    assert rotated[1][2] == 1 && rotated[2][2] == 1 && rotated[3][2] == 1;
    var shared := KickTableAsWritten(I)["0->R"];
    assert shared == [(0, 0), (-1, 0), (-1, 1), (0, -2), (-1, -2)];
    assert !CellFree(rotated, g, 18, 0, 2, 2);
    assert !CellFree(rotated, g, 17, 0, 3, 2);
    assert !CellFree(rotated, g, 17, 1, 3, 2);
    assert forall n :: 0 <= n < |shared| ==> !KickFits(rotated, g, 18, 0, shared[n]);
    CommitSpec(rotated, StateR, g, 18, 0, shared);
  }

  // ---------------------------------------------------------------- kick table selection

  /**
   * The table selection as written compares the matrix with the string "I",
   * which never holds, so every kind gets the shared table.
   */
  function KickTableAsWritten(k: Kind): (table: map<string, seq<Offset>>)
    ensures forall key :: key in table <==> key in KickTable(k)
  {
    OtherKicks
  }

  /**
   * As written, the I piece is kicked with the shared offsets: for "0->R"
   * its second offset is (-1, 0) instead of (-2, 0), and for every other
   * kind the two lookups agree.
   */
  lemma KickTableAsWrittenMissesI()
    ensures KickTableAsWritten(I)["0->R"][1] == (-1, 0)
    ensures KickTable(I)["0->R"][1] == (-2, 0)
    ensures forall k :: k != I ==> KickTableAsWritten(k) == KickTable(k)
  {
  }

  // ---------------------------------------------------------------- stale next shape

  /**
   * The piece slots as the main loop keeps them: each slot has a key, and
   * the current and next slots also keep a shape matrix of their own.
   */
  datatype Slots = Slots(currentKey: Kind, current: Matrix, nextKey: Kind, nextShape: Matrix, holdKey: Option<Kind>)

  /** Every shape kept in a slot is the base shape of that slot's key. */
  predicate Agrees(s: Slots) {
    s.current == Shape(s.currentKey) && s.nextShape == Shape(s.nextKey)
  }

  /**
   * Hold as written (with the hold not yet used): the first hold moves the
   * next key up and draws a new next key, but does not refresh the next
   * shape; later holds swap the current and held keys.
   */
  function HoldAsWritten(s: Slots, drawn: Kind): (t: Slots)
    ensures t.holdKey == Some(s.currentKey) && t.current == Shape(t.currentKey)
    ensures t.nextShape == s.nextShape
  {
    match s.holdKey
    case None => Slots(s.nextKey, Shape(s.nextKey), drawn, s.nextShape, Some(s.currentKey))
    case Some(h) => Slots(h, Shape(h), s.nextKey, s.nextShape, Some(s.currentKey))
  }

  /** Spawn as written: the current shape is taken from the next slot's shape. */
  function SpawnAsWritten(s: Slots, drawn: Kind): (t: Slots)
    ensures t.currentKey == s.nextKey && t.current == s.nextShape
    ensures t.nextKey == drawn && t.nextShape == Shape(drawn)
  {
    Slots(s.nextKey, s.nextShape, drawn, Shape(drawn), s.holdKey)
  }

  /** A spawn keeps the slots in agreement, and so does a hold that swaps with a held kind. */
  lemma SpawnKeepsAgreement(s: Slots, drawn: Kind)
    requires Agrees(s)
    ensures Agrees(SpawnAsWritten(s, drawn))
    ensures s.holdKey.Some? ==> Agrees(HoldAsWritten(s, drawn))
  {
  }

  /**
   * With current T, next I and an empty hold slot, a hold draws O as the
   * new next key but leaves the next shape the I matrix; the following
   * spawn then has current key O with the I matrix.
   */
  lemma StaleNextShapeExample()
    ensures var s := Slots(T, Shape(T), I, Shape(I), None);
      var held := HoldAsWritten(s, O);
      var spawned := SpawnAsWritten(held, Z);
      && Agrees(s) && !Agrees(held)
      && spawned.currentKey == O && spawned.current == Shape(I) && spawned.current != Shape(O)
  {
    assert Shape(I)[1][0] == 1 && Shape(O)[1][0] == 0;
  }
}
