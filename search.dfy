/**
 * Move generation of the engine for the knights-and-kings variant (search.c).
 *
 * Each side has one king and up to K knights on an N-by-N board. A position says
 * whose turn it is and, when that side is in check, which square the checking
 * knight stands on. Moves are written into a caller's buffer: `GetMoves` takes an
 * array and a start index and returns the index one past the last move written,
 * which is how search.c's returned `Move *` is represented here.
 */
module Search {

  /** Side length of the board (search.c:8). */
  const N: int := 5
  /** Number of knight slots per side (search.c:9). */
  const K: int := 1

  datatype Coord = Coord(row: int, col: int)

  datatype Move = Move(start: Coord, end: Coord)

  /**
   * A position; side 0 is white and side 1 is black. `knights[s]` holds the K knight
   * slots of side s, of which the first `numberOfKnights[s]` are on the board.
   * `turn` and `inCheck` are C ints: `inCheck` is true when it is not 0.
   */
  datatype Position = Position(
    knights: seq<seq<Coord>>,
    kings: seq<Coord>,
    checks: seq<int>,
    numberOfKnights: seq<int>,
    turn: int,
    inCheck: int,
    checkingSquare: Coord)

  /** The shape of search.c's `Position` struct, plus what its loops need to stay inside it. */
  predicate WellFormed(p: Position)
  {
    |p.knights| == 2 && |p.knights[0]| == K && |p.knights[1]| == K &&
    |p.kings| == 2 && |p.checks| == 2 && |p.numberOfKnights| == 2 &&
    0 <= p.numberOfKnights[0] <= K && 0 <= p.numberOfKnights[1] <= K &&
    (p.turn == 0 || p.turn == 1)
  }

  /** The other side: C's `!pp->turn`. */
  function Opponent(turn: int): int
  {
    if turn == 0 then 1 else 0
  }

  /** The knights of side `s` that are still on the board. */
  function KnightsOf(p: Position, s: int): seq<Coord>
    requires WellFormed(p) && (s == 0 || s == 1)
  {
    p.knights[s][..p.numberOfKnights[s]]
  }

  /** The `abs` macro of search.c:7. */
  function Abs(x: int): nat
  {
    if x < 0 then -x else x
  }

  predicate OnBoard(c: Coord)
  {
    0 <= c.row < N && 0 <= c.col < N
  }

  // ---------------------------------------------------------------------------
  // Attack geometry (search.c:33-43)
  // ---------------------------------------------------------------------------

  predicate KnightAttacks(knight: Coord, c: Coord)
  {
    var dr, dc := Abs(knight.row - c.row), Abs(knight.col - c.col);
    (dr == 2 && dc == 1) || (dr == 1 && dc == 2)
  }

  predicate KingAttacks(king: Coord, c: Coord)
  {
    Abs(king.row - c.row) <= 1 && Abs(king.col - c.col) <= 1
  }

  lemma KnightAttacksSymmetric(a: Coord, b: Coord)
    ensures KnightAttacks(a, b) <==> KnightAttacks(b, a)
  {
  }

  lemma KnightAttacksIrreflexive(a: Coord)
    ensures !KnightAttacks(a, a)
  {
  }

  lemma KingAttacksSymmetric(a: Coord, b: Coord)
    ensures KingAttacks(a, b) <==> KingAttacks(b, a)
  {
  }

  lemma KingAttacksReflexive(a: Coord)
    ensures KingAttacks(a, a)
  {
  }

  /** The offset tables of search.c:63 and search.c:79; a target is `from - offset`. */
  const KnightOffsets: seq<Coord> :=
    [Coord(-2, -1), Coord(-2, 1), Coord(-1, -2), Coord(-1, 2),
     Coord(1, -2), Coord(1, 2), Coord(2, -1), Coord(2, 1)]

  const KingOffsets: seq<Coord> :=
    [Coord(-1, -1), Coord(-1, 0), Coord(-1, 1), Coord(0, -1),
     Coord(0, 1), Coord(1, -1), Coord(1, 0), Coord(1, 1)]

  function Jump(from: Coord, offset: Coord): Coord
  {
    Coord(from.row - offset.row, from.col - offset.col)
  }

  /** The knight offset table lists exactly the squares a knight attacks. */
  lemma KnightOffsetsExact(from: Coord, c: Coord)
    ensures KnightAttacks(from, c) <==> exists k :: 0 <= k < 8 && c == Jump(from, KnightOffsets[k])
  {
    var off := Coord(from.row - c.row, from.col - c.col);
    if KnightAttacks(from, c) {
      var k :=
        if off == Coord(-2, -1) then 0 else if off == Coord(-2, 1) then 1
        else if off == Coord(-1, -2) then 2 else if off == Coord(-1, 2) then 3
        else if off == Coord(1, -2) then 4 else if off == Coord(1, 2) then 5
        else if off == Coord(2, -1) then 6 else 7;
      assert c == Jump(from, KnightOffsets[k]);
    }
    if exists k :: 0 <= k < 8 && c == Jump(from, KnightOffsets[k]) {
      var k :| 0 <= k < 8 && c == Jump(from, KnightOffsets[k]);
      assert off == KnightOffsets[k];
    }
  }

  /** The king offset table lists exactly the squares a king attacks, other than its own. */
  lemma KingOffsetsExact(from: Coord, c: Coord)
    ensures KingAttacks(from, c) && c != from <==> exists k :: 0 <= k < 8 && c == Jump(from, KingOffsets[k])
  {
    var off := Coord(from.row - c.row, from.col - c.col);
    if KingAttacks(from, c) && c != from {
      var k :=
        if off == Coord(-1, -1) then 0 else if off == Coord(-1, 0) then 1
        else if off == Coord(-1, 1) then 2 else if off == Coord(0, -1) then 3
        else if off == Coord(0, 1) then 4 else if off == Coord(1, -1) then 5
        else if off == Coord(1, 0) then 6 else 7;
      assert c == Jump(from, KingOffsets[k]);
    }
    if exists k :: 0 <= k < 8 && c == Jump(from, KingOffsets[k]) {
      var k :| 0 <= k < 8 && c == Jump(from, KingOffsets[k]);
      assert off == KingOffsets[k];
    }
  }

  // ---------------------------------------------------------------------------
  // Occupancy and defence (search.c:45-59)
  // ---------------------------------------------------------------------------

  /** `c` holds the king or one of the knights of the side to move. */
  predicate Occupied(p: Position, c: Coord)
    requires WellFormed(p)
  {
    c == p.kings[p.turn] || c in KnightsOf(p, p.turn)
  }

  /** `c` is attacked by the opponent's king or by one of the opponent's knights. */
  predicate Protected(p: Position, c: Coord)
    requires WellFormed(p)
  {
    var opp := Opponent(p.turn);
    KingAttacks(p.kings[opp], c) ||
    exists i :: 0 <= i < p.numberOfKnights[opp] && KnightAttacks(p.knights[opp][i], c)
  }

  method IsOccupied(p: Position, c: Coord) returns (occupied: bool)
    requires WellFormed(p)
    ensures occupied <==> Occupied(p, c)
  {
    var king := p.kings[p.turn];
    if c.row == king.row && c.col == king.col {
      return true;
    }
    var i := 0;
    while i < p.numberOfKnights[p.turn]
      invariant 0 <= i <= p.numberOfKnights[p.turn]
      invariant c !in p.knights[p.turn][..i]
    {
      var knight := p.knights[p.turn][i];
      if c.row == knight.row && c.col == knight.col {
        return true;
      }
      i := i + 1;
    }
    return false;
  }

  method IsProtected(p: Position, c: Coord) returns (protected: bool)
    requires WellFormed(p)
    ensures protected <==> Protected(p, c)
  {
    var opp := Opponent(p.turn);
    if KingAttacks(p.kings[opp], c) {
      return true;
    }
    var i := 0;
    while i < p.numberOfKnights[opp]
      invariant 0 <= i <= p.numberOfKnights[opp]
      invariant forall k :: 0 <= k < i ==> !KnightAttacks(p.knights[opp][k], c)
    {
      if KnightAttacks(p.knights[opp][i], c) {
        return true;
      }
      i := i + 1;
    }
    return false;
  }

  // ---------------------------------------------------------------------------
  // Target squares of one piece (search.c:61-91)
  // ---------------------------------------------------------------------------

  /** A knight of the side to move may land on `t`. */
  predicate KnightLanding(p: Position, t: Coord)
    requires WellFormed(p)
  {
    OnBoard(t) && !Occupied(p, t)
  }

  /** The king of the side to move may step onto `t`. */
  predicate KingLanding(p: Position, t: Coord)
    requires WellFormed(p)
  {
    OnBoard(t) && !Occupied(p, t) && !Protected(p, t)
  }

  /** The targets a knight on `from` gets from the first `j` entries of the offset table, in table order. */
  function KnightTargetsUpTo(p: Position, from: Coord, j: nat): (ts: seq<Coord>)
    requires WellFormed(p) && j <= 8
    ensures |ts| <= j
  {
    if j == 0 then []
    else
      var t := Jump(from, KnightOffsets[j - 1]);
      KnightTargetsUpTo(p, from, j - 1) + (if KnightLanding(p, t) then [t] else [])
  }

  function KnightTargets(p: Position, from: Coord): seq<Coord>
    requires WellFormed(p)
  {
    KnightTargetsUpTo(p, from, 8)
  }

  /** The targets of the king of the side to move from the first `j` entries of its offset table. */
  function KingTargetsUpTo(p: Position, j: nat): (ts: seq<Coord>)
    requires WellFormed(p) && j <= 8
    ensures |ts| <= j
  {
    if j == 0 then []
    else
      var t := Jump(p.kings[p.turn], KingOffsets[j - 1]);
      KingTargetsUpTo(p, j - 1) + (if KingLanding(p, t) then [t] else [])
  }

  function KingTargets(p: Position): seq<Coord>
    requires WellFormed(p)
  {
    KingTargetsUpTo(p, 8)
  }

  lemma {:induction false} KnightTargetsUpToMembers(p: Position, from: Coord, j: nat)
    requires WellFormed(p) && j <= 8
    ensures forall t :: t in KnightTargetsUpTo(p, from, j) <==>
      KnightLanding(p, t) && exists k :: 0 <= k < j && t == Jump(from, KnightOffsets[k])
  {
    if j > 0 {
      KnightTargetsUpToMembers(p, from, j - 1);
    }
  }

  lemma {:induction false} KingTargetsUpToMembers(p: Position, j: nat)
    requires WellFormed(p) && j <= 8
    ensures forall t :: t in KingTargetsUpTo(p, j) <==>
      KingLanding(p, t) && exists k :: 0 <= k < j && t == Jump(p.kings[p.turn], KingOffsets[k])
  {
    if j > 0 {
      KingTargetsUpToMembers(p, j - 1);
    }
  }

  /** A knight's targets are exactly the on-board squares it attacks that the side to move does not hold. */
  lemma KnightTargetsExact(p: Position, from: Coord)
    requires WellFormed(p)
    ensures |KnightTargets(p, from)| <= 8
    ensures forall t :: t in KnightTargets(p, from) <==> OnBoard(t) && KnightAttacks(from, t) && !Occupied(p, t)
  {
    KnightTargetsUpToMembers(p, from, 8);
    forall t {
      KnightOffsetsExact(from, t);
    }
  }

  /**
   * The king's targets are exactly the on-board squares next to it, other than its own,
   * that the side to move does not hold and the opponent does not defend.
   */
  lemma KingTargetsExact(p: Position)
    requires WellFormed(p)
    ensures |KingTargets(p)| <= 8
    ensures forall t :: t in KingTargets(p) <==>
      OnBoard(t) && KingAttacks(p.kings[p.turn], t) && t != p.kings[p.turn] && !Occupied(p, t) && !Protected(p, t)
  {
    KingTargetsUpToMembers(p, 8);
    forall t {
      KingOffsetsExact(p.kings[p.turn], t);
    }
  }

  method GetKnightMoves(p: Position, from: Coord, targets: array<Coord>) returns (count: nat)
    requires WellFormed(p) && 8 <= targets.Length
    modifies targets
    ensures count <= 8
    ensures targets[..count] == KnightTargets(p, from)
    ensures targets[count..] == old(targets[count..])
  {
    count := 0;
    for j := 0 to 8
      invariant count <= j
      invariant targets[..count] == KnightTargetsUpTo(p, from, j)
      invariant forall k :: count <= k < targets.Length ==> targets[k] == old(targets[k])
    {
      var newRow := from.row - KnightOffsets[j].row;
      var newCol := from.col - KnightOffsets[j].col;
      var newCoord := Coord(newRow, newCol);
      var landing := false;
      if 0 <= newRow < N && 0 <= newCol < N {
        var occupied := IsOccupied(p, newCoord);
        landing := !occupied;
      }
      assert landing == KnightLanding(p, newCoord);
      assert newCoord == Jump(from, KnightOffsets[j]);
      assert KnightTargetsUpTo(p, from, j + 1) == KnightTargetsUpTo(p, from, j) + (if landing then [newCoord] else []);
      if landing {
        ghost var kept := targets[..count];
        targets[count] := newCoord;
        assert targets[..count + 1] == kept + [newCoord];
        count := count + 1;
      }
    }
  }

  method GetKingMoves(p: Position, targets: array<Coord>) returns (count: nat)
    requires WellFormed(p) && 8 <= targets.Length
    modifies targets
    ensures count <= 8
    ensures targets[..count] == KingTargets(p)
    ensures targets[count..] == old(targets[count..])
  {
    count := 0;
    var king := p.kings[p.turn];
    for j := 0 to 8
      invariant count <= j
      invariant targets[..count] == KingTargetsUpTo(p, j)
      invariant forall k :: count <= k < targets.Length ==> targets[k] == old(targets[k])
    {
      var newRow := king.row - KingOffsets[j].row;
      var newCol := king.col - KingOffsets[j].col;
      var newCoord := Coord(newRow, newCol);
      var landing := false;
      if 0 <= newRow < N && 0 <= newCol < N {
        var occupied := IsOccupied(p, newCoord);
        if !occupied {
          var protected := IsProtected(p, newCoord);
          landing := !protected;
        }
      }
      assert landing == KingLanding(p, newCoord);
      assert newCoord == Jump(king, KingOffsets[j]);
      assert KingTargetsUpTo(p, j + 1) == KingTargetsUpTo(p, j) + (if landing then [newCoord] else []);
      if landing {
        ghost var kept := targets[..count];
        targets[count] := newCoord;
        assert targets[..count + 1] == kept + [newCoord];
        count := count + 1;
      }
    }
  }

  // ---------------------------------------------------------------------------
  // All moves of the side to move (search.c:95-124)
  // ---------------------------------------------------------------------------

  /** One move from `from` to each of `targets`, in order. */
  function MovesFrom(from: Coord, targets: seq<Coord>): seq<Move>
  {
    seq(|targets|, k requires 0 <= k < |targets| => Move(from, targets[k]))
  }

  /** In check: the captures of the checking square by the first `i` knights of the side to move. */
  function CapturesUpTo(p: Position, i: nat): (ms: seq<Move>)
    requires WellFormed(p) && i <= p.numberOfKnights[p.turn]
    ensures |ms| <= i
  {
    if i == 0 then []
    else
      var knight := p.knights[p.turn][i - 1];
      CapturesUpTo(p, i - 1) +
      (if KnightAttacks(knight, p.checkingSquare) then [Move(knight, p.checkingSquare)] else [])
  }

  /** Not in check: the moves of the first `i` knights of the side to move, knight by knight. */
  function KnightMovesUpTo(p: Position, i: nat): (ms: seq<Move>)
    requires WellFormed(p) && i <= p.numberOfKnights[p.turn]
    ensures |ms| <= 8 * i
  {
    if i == 0 then []
    else
      var knight := p.knights[p.turn][i - 1];
      KnightMovesUpTo(p, i - 1) + MovesFrom(knight, KnightTargets(p, knight))
  }

  function KingMoves(p: Position): seq<Move>
    requires WellFormed(p)
  {
    MovesFrom(p.kings[p.turn], KingTargets(p))
  }

  /** What `get_moves` writes, in order. */
  function Moves(p: Position): seq<Move>
    requires WellFormed(p)
  {
    if p.inCheck != 0 then CapturesUpTo(p, p.numberOfKnights[p.turn])
    else KnightMovesUpTo(p, p.numberOfKnights[p.turn]) + KingMoves(p)
  }

  /** The room `get_moves` may need after the start of the caller's buffer. */
  function Capacity(p: Position): nat
    requires WellFormed(p)
  {
    if p.inCheck != 0 then p.numberOfKnights[p.turn] else 8 * p.numberOfKnights[p.turn] + 8
  }

  /** A move from a knight of the side to move. */
  predicate FromMoverKnight(p: Position, m: Move)
    requires WellFormed(p)
  {
    exists i :: 0 <= i < p.numberOfKnights[p.turn] && m.start == p.knights[p.turn][i]
  }

  lemma {:induction false} CapturesUpToMembers(p: Position, i: nat)
    requires WellFormed(p) && i <= p.numberOfKnights[p.turn]
    ensures forall m :: m in CapturesUpTo(p, i) <==>
      m.end == p.checkingSquare && KnightAttacks(m.start, m.end) &&
      exists k :: 0 <= k < i && m.start == p.knights[p.turn][k]
  {
    if i > 0 {
      CapturesUpToMembers(p, i - 1);
    }
  }

  lemma {:induction false} KnightMovesUpToMembers(p: Position, i: nat)
    requires WellFormed(p) && i <= p.numberOfKnights[p.turn]
    ensures forall m :: m in KnightMovesUpTo(p, i) <==>
      m.end in KnightTargets(p, m.start) &&
      exists k :: 0 <= k < i && m.start == p.knights[p.turn][k]
  {
    if i > 0 {
      KnightMovesUpToMembers(p, i - 1);
      var knight := p.knights[p.turn][i - 1];
      forall m | m in MovesFrom(knight, KnightTargets(p, knight))
        ensures m.start == knight && m.end in KnightTargets(p, knight)
      {
      }
      forall m: Move | m.start == knight && m.end in KnightTargets(p, knight)
        ensures m in MovesFrom(knight, KnightTargets(p, knight))
      {
        var k :| 0 <= k < |KnightTargets(p, knight)| && KnightTargets(p, knight)[k] == m.end;
        assert MovesFrom(knight, KnightTargets(p, knight))[k] == m;
      }
    }
  }

  lemma KingMovesMembers(p: Position)
    requires WellFormed(p)
    ensures forall m :: m in KingMoves(p) <==> m.start == p.kings[p.turn] && m.end in KingTargets(p)
  {
    var king := p.kings[p.turn];
    forall m: Move | m.start == king && m.end in KingTargets(p)
      ensures m in KingMoves(p)
    {
      var k :| 0 <= k < |KingTargets(p)| && KingTargets(p)[k] == m.end;
      assert KingMoves(p)[k] == m;
    }
  }

  /**
   * In check, the only moves are captures of the checking square by knights of the side
   * to move that attack it: one per such knight, and never a king move.
   */
  lemma InCheckMoves(p: Position)
    requires WellFormed(p) && p.inCheck != 0
    ensures |Moves(p)| <= p.numberOfKnights[p.turn]
    ensures forall m :: m in Moves(p) <==>
      m.end == p.checkingSquare && KnightAttacks(m.start, m.end) && FromMoverKnight(p, m)
  {
    CapturesUpToMembers(p, p.numberOfKnights[p.turn]);
  }

  /**
   * Out of check, the moves are exactly the knight jumps of the side to move onto free
   * on-board squares, and the king steps onto on-board squares that are neither held by
   * the side to move nor defended by the opponent; there are at most 8 per piece.
   */
  lemma QuietMoves(p: Position)
    requires WellFormed(p) && p.inCheck == 0
    ensures |Moves(p)| <= 8 * p.numberOfKnights[p.turn] + 8
    ensures forall m :: m in Moves(p) <==>
      (FromMoverKnight(p, m) && OnBoard(m.end) && KnightAttacks(m.start, m.end) && !Occupied(p, m.end)) ||
      (m.start == p.kings[p.turn] && OnBoard(m.end) && KingAttacks(m.start, m.end) && m.end != m.start &&
       !Occupied(p, m.end) && !Protected(p, m.end))
  {
    KnightMovesUpToMembers(p, p.numberOfKnights[p.turn]);
    KingMovesMembers(p);
    KingTargetsExact(p);
    forall m: Move {
      KnightTargetsExact(p, m.start);
    }
  }

  /** Every move starts on a square holding a piece of the side to move. */
  lemma MovesStartOnOwnPiece(p: Position)
    requires WellFormed(p)
    ensures forall m :: m in Moves(p) ==> Occupied(p, m.start)
  {
    if p.inCheck != 0 {
      CapturesUpToMembers(p, p.numberOfKnights[p.turn]);
    } else {
      KnightMovesUpToMembers(p, p.numberOfKnights[p.turn]);
      KingMovesMembers(p);
    }
    forall m | m in Moves(p)
      ensures Occupied(p, m.start)
    {
      if m.start != p.kings[p.turn] {
        var k :| 0 <= k < p.numberOfKnights[p.turn] && m.start == p.knights[p.turn][k];
        assert KnightsOf(p, p.turn)[k] == m.start;
      }
    }
  }

  /**
   * The copy loop of search.c:111-115 and search.c:118-122: writes one move from `from`
   * to each of the first `count` targets into `buf` from index `end` on.
   */
  method WriteMovesFrom(buf: array<Move>, end: nat, from: Coord, targets: array<Coord>, count: nat)
    returns (newEnd: nat)
    requires count <= targets.Length && end + count <= buf.Length
    modifies buf
    ensures newEnd == end + count
    ensures buf[end..newEnd] == MovesFrom(from, targets[..count])
    ensures forall k :: 0 <= k < end || newEnd <= k < buf.Length ==> buf[k] == old(buf[k])
  {
    newEnd := end;
    for j := 0 to count
      invariant newEnd == end + j
      invariant buf[end..newEnd] == MovesFrom(from, targets[..j])
      invariant forall k :: 0 <= k < end || newEnd <= k < buf.Length ==> buf[k] == old(buf[k])
    {
      ghost var written := buf[end..newEnd];
      buf[newEnd] := Move(from, targets[j]);
      assert buf[end..newEnd + 1] == written + [Move(from, targets[j])];
      assert MovesFrom(from, targets[..j + 1]) == MovesFrom(from, targets[..j]) + [Move(from, targets[j])];
      newEnd := newEnd + 1;
    }
  }

  /**
   * The in-check branch of `get_moves` (search.c:96-106): writes a capture of the checking
   * square for each knight of the side to move that attacks it.
   */
  method WriteCaptures(p: Position, buf: array<Move>, start: nat) returns (end: nat)
    requires WellFormed(p)
    requires start + p.numberOfKnights[p.turn] <= buf.Length
    modifies buf
    ensures start <= end <= start + p.numberOfKnights[p.turn]
    ensures buf[start..end] == CapturesUpTo(p, p.numberOfKnights[p.turn])
    ensures forall k :: 0 <= k < start || end <= k < buf.Length ==> buf[k] == old(buf[k])
  {
    end := start;
    for i := 0 to p.numberOfKnights[p.turn]
      invariant start <= end <= start + i
      invariant buf[start..end] == CapturesUpTo(p, i)
      invariant forall k :: 0 <= k < start || end <= k < buf.Length ==> buf[k] == old(buf[k])
    {
      var knight := p.knights[p.turn][i];
      if KnightAttacks(knight, p.checkingSquare) {
        ghost var written := buf[start..end];
        buf[end] := Move(knight, p.checkingSquare);
        assert buf[start..end + 1] == written + [Move(knight, p.checkingSquare)];
        end := end + 1;
      }
    }
  }

  /**
   * The knight loop of `get_moves` (search.c:108-116): for each knight of the side to move,
   * fills `targets` with its targets and writes one move per target into `buf`.
   */
  method WriteKnightMoves(p: Position, buf: array<Move>, start: nat, targets: array<Coord>) returns (end: nat)
    requires WellFormed(p) && 8 <= targets.Length
    requires start + 8 * p.numberOfKnights[p.turn] <= buf.Length
    modifies buf, targets
    ensures start <= end <= start + 8 * p.numberOfKnights[p.turn]
    ensures buf[start..end] == KnightMovesUpTo(p, p.numberOfKnights[p.turn])
    ensures forall k :: 0 <= k < start || end <= k < buf.Length ==> buf[k] == old(buf[k])
  {
    end := start;
    for i := 0 to p.numberOfKnights[p.turn]
      invariant start <= end <= start + 8 * i
      invariant buf[start..end] == KnightMovesUpTo(p, i)
      invariant forall k :: 0 <= k < start || end <= k < buf.Length ==> buf[k] == old(buf[k])
    {
      var knight := p.knights[p.turn][i];
      var count := GetKnightMoves(p, knight, targets);
      ghost var written := buf[start..end];
      end := WriteMovesFrom(buf, end, knight, targets, count);
      assert buf[start..end] == written + buf[end - count..end];
    }
  }

  /**
   * Writes the moves of the side to move into `buf` from index `start` on and returns the
   * index one past the last one written; no other slot of `buf` changes.
   */
  method GetMoves(p: Position, buf: array<Move>, start: nat) returns (end: nat)
    requires WellFormed(p)
    requires start + Capacity(p) <= buf.Length
    modifies buf
    ensures start <= end <= buf.Length
    ensures buf[start..end] == Moves(p)
    ensures forall k :: 0 <= k < start || end <= k < buf.Length ==> buf[k] == old(buf[k])
  {
    if p.inCheck != 0 {
      end := WriteCaptures(p, buf, start);
      return;
    }
    var targets := new Coord[8];
    end := WriteKnightMoves(p, buf, start, targets);
    var count := GetKingMoves(p, targets);
    ghost var written := buf[start..end];
    end := WriteMovesFrom(buf, end, p.kings[p.turn], targets, count);
    assert buf[start..end] == written + buf[end - count..end];
  }
}
