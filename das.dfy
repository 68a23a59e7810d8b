/**
 * Delayed auto-shift (DAS) for one held movement key. A timer has an active
 * flag, the time the key started to act and the time of the last repeated
 * move, all in integer milliseconds. The first frame in which the key is
 * held and the move is possible moves the piece and starts the timer; after
 * that the piece moves again only once the initial delay has passed since the
 * start and the repeat rate has passed since the last repeated move.
 * Releasing the key stops the timer.
 */
module AutoRepeat {

  const InitialDelay := 100
  const AutoRepeatRate := 50

  datatype Timer = Timer(active: bool, start: int, last: int)

  /** The timer every movement key starts with. */
  const Idle := Timer(false, 0, 0)

  /** The timer after one frame and whether the piece moved in that frame. */
  datatype Step = Step(timer: Timer, moved: bool)

  /** Whether a held, active timer is due for a repeated move at `now`. */
  predicate Due(t: Timer, now: int) {
    now - t.start >= InitialDelay && now - t.last >= AutoRepeatRate
  }

  /**
   * One frame of the timer. `pressed` says whether the key is held and
   * `canMove` whether the piece fits one cell further in that direction.
   */
  function Advance(t: Timer, pressed: bool, now: int, canMove: bool): (s: Step)
    ensures s.moved ==> pressed && canMove
    ensures !pressed ==> !s.timer.active
    ensures pressed && !t.active ==> (s.moved <==> canMove) && (s.timer.active <==> canMove)
    ensures pressed && t.active ==> s.timer.active && (s.moved <==> canMove && Due(t, now))
    ensures s.moved && !t.active ==> s.timer.start == now
    ensures s.moved && t.active ==> s.timer.last == now && s.timer.start == t.start
  {
    if !pressed then Step(t.(active := false), false)
    else if !t.active then
      if canMove then Step(t.(active := true, start := now), true) else Step(t, false)
    else if Due(t, now) && canMove then Step(t.(last := now), true)
    else Step(t, false)
  }

  /** One frame while the key is held. */
  datatype Frame = Frame(now: int, canMove: bool)

  /** The timer and the times of the moves after a run of frames with the key held all along. */
  datatype Trace = Trace(timer: Timer, moves: seq<int>)

  function Held(t: Timer, frames: seq<Frame>): Trace
    decreases |frames|
  {
    if frames == [] then Trace(t, [])
    else
      var before := Held(t, frames[..|frames| - 1]);
      var f := frames[|frames| - 1];
      var s := Advance(before.timer, true, f.now, f.canMove);
      Trace(s.timer, before.moves + if s.moved then [f.now] else [])
  }

  /**
   * While a key is held from an inactive timer, the first move starts the
   * timer, the second comes no sooner than the initial delay after the first,
   * and every later move no sooner than the repeat rate after the one before.
   */
  lemma {:induction false} HeldSpacing(t: Timer, frames: seq<Frame>)
    requires !t.active
    ensures var tr := Held(t, frames);
      && (tr.moves == [] <==> !tr.timer.active)
      && (tr.moves != [] ==> tr.timer.start == tr.moves[0])
      && (|tr.moves| >= 2 ==> tr.timer.last == tr.moves[|tr.moves| - 1])
      && (|tr.moves| >= 2 ==> tr.moves[1] - tr.moves[0] >= InitialDelay)
      && (forall n :: 1 <= n < |tr.moves| - 1 ==> tr.moves[n + 1] - tr.moves[n] >= AutoRepeatRate)
    decreases |frames|
  {
    if frames != [] {
      var init := frames[..|frames| - 1];
      HeldSpacing(t, init);
      var before := Held(t, init);
      var f := frames[|frames| - 1];
      var s := Advance(before.timer, true, f.now, f.canMove);
      var moves := before.moves + if s.moved then [f.now] else [];
      assert Held(t, frames) == Trace(s.timer, moves);
      if s.moved {
        assert moves[..|before.moves|] == before.moves;
        assert forall n :: 0 <= n < |before.moves| ==> moves[n] == before.moves[n];
      }
    }
  }
}
