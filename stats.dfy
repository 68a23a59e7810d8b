/**
 * The game's statistics: how many pieces were drawn from the bag, in total
 * and per kind, and how many line clears of each size (one to four rows)
 * happened.
 */
module Stats {
  import opened Pieces

  /** The four line-clear buckets: single, double, triple and quadruple. */
  datatype LineClears = LineClears(single: nat, double: nat, triple: nat, quadruple: nat)

  /** The bucket for a clear of `n` rows. */
  function Bucket(lc: LineClears, n: nat): nat
    requires 1 <= n <= 4
  {
    if n == 1 then lc.single
    else if n == 2 then lc.double
    else if n == 3 then lc.triple
    else lc.quadruple
  }

  /**
   * The buckets after a clear of `count` rows: a clear of one to four rows
   * bumps its own bucket by one and leaves the other three; any other count
   * (in particular 0) changes nothing.
   */
  function Bumped(lc: LineClears, count: int): (r: LineClears)
    ensures 1 <= count <= 4 ==> Bucket(r, count) == Bucket(lc, count) + 1
    ensures forall n :: 1 <= n <= 4 && n != count ==> Bucket(r, n) == Bucket(lc, n)
  {
    if count == 1 then lc.(single := lc.single + 1)
    else if count == 2 then lc.(double := lc.double + 1)
    else if count == 3 then lc.(triple := lc.triple + 1)
    else if count == 4 then lc.(quadruple := lc.quadruple + 1)
    else lc
  }

  /** The per-kind piece counters, one for each of the seven kinds. */
  datatype PieceCounts = PieceCounts(i: nat, o: nat, t: nat, s: nat, z: nat, j: nat, l: nat) {
    function Get(k: Kind): nat {
      match k
      case I => i
      case O => o
      case T => t
      case S => s
      case Z => z
      case J => j
      case L => l
    }

    function Sum(): nat {
      i + o + t + s + z + j + l
    }

    /** The counters with the one of kind `k` bumped: it goes up by one, the six others stay, and so the sum goes up by one. */
    function Inc(k: Kind): (r: PieceCounts)
      ensures r.Get(k) == Get(k) + 1
      ensures forall k' :: k' != k ==> r.Get(k') == Get(k')
      ensures r.Sum() == Sum() + 1
    {
      match k
      case I => this.(i := i + 1)
      case O => this.(o := o + 1)
      case T => this.(t := t + 1)
      case S => this.(s := s + 1)
      case Z => this.(z := z + 1)
      case J => this.(j := j + 1)
      case L => this.(l := l + 1)
    }
  }

  /** The statistics record: pieces drawn in total and per kind, and the line-clear buckets. */
  datatype Statistics = Statistics(total: nat, pieces: PieceCounts, lineClears: LineClears) {
    /** The total is the sum of the per-kind counters. */
    predicate Valid() {
      total == pieces.Sum()
    }

    /**
     * Counts one drawn piece: the total and the drawn kind's counter go up by
     * one, the other counters and the line clears are kept, and so the total
     * stays the sum of the counters.
     */
    function RecordDraw(k: Kind): (s: Statistics)
      ensures Valid() ==> s.Valid()
      ensures s.total == total + 1 && s.lineClears == lineClears
      ensures s.pieces.Get(k) == pieces.Get(k) + 1
      ensures forall k' :: k' != k ==> s.pieces.Get(k') == pieces.Get(k')
    {
      this.(total := total + 1, pieces := pieces.Inc(k))
    }
  }

  /** The statistics at the start of a game: every counter and bucket is zero. */
  function Initial(): (s: Statistics)
    ensures s.Valid() && s.total == 0
    ensures forall k: Kind :: s.pieces.Get(k) == 0
    ensures s.lineClears == LineClears(0, 0, 0, 0)
  {
    Statistics(0, PieceCounts(0, 0, 0, 0, 0, 0, 0), LineClears(0, 0, 0, 0))
  }
}
