/**
 * The browser client's board and its click handler (js/board.js).
 *
 * The board is a list of rows, each a list of cells holding a piece name. The page keeps
 * two highlight slots; clicking squares fills them and, once two different squares are
 * chosen, the move is applied to the local board and sent to the server. Drawing on the
 * canvas is left out, and a click arrives as the (row, col) of the square it hit.
 *
 * Drawing is left out except where it decides what happens next: `move` draws the piece it
 * moves with `pieces.get(name)`, and the `pieces` map holds an image only for the four piece
 * names. For any other start cell the drawing call throws, which ends `move`, and the
 * handler that called it, half-way.
 */
module Board {
  import opened Wrappers

  datatype Square = Square(row: int, col: int)

  /** The `{start, end}` object the client sends and receives. */
  datatype Move = Move(start: Square, end: Square)

  /**
   * What a board cell holds: `Unset` is the empty array that `initialize_board` pushes as a
   * placeholder, `Piece(name)` a piece name such as "white_knight" (`move` leaves `Piece("")`).
   */
  datatype Cell = Unset | Piece(name: string)

  type Grid = seq<seq<Cell>>

  /** A grid with `n` rows of `n` cells. */
  predicate IsSquareGrid(g: Grid, n: nat)
  {
    |g| == n && forall r :: 0 <= r < |g| ==> |g[r]| == n
  }

  predicate OnGrid(g: Grid, s: Square)
  {
    0 <= s.row < |g| && 0 <= s.col < |g[s.row]|
  }

  /** Every square of `ss` lies on `g`. */
  predicate AllOnGrid(g: Grid, ss: seq<Square>)
  {
    forall i :: 0 <= i < |ss| ==> OnGrid(g, ss[i])
  }

  /** `h` has the rows of `g`, each of the same length. */
  predicate SameShape(g: Grid, h: Grid)
  {
    |h| == |g| && forall r :: 0 <= r < |g| ==> |h[r]| == |g[r]|
  }

  /** The names `load_pieces` loads an image for; `pieces.get` is undefined for any other cell. */
  predicate IsPieceName(c: Cell)
  {
    c == Piece("white_knight") || c == Piece("white_king") ||
    c == Piece("black_knight") || c == Piece("black_king")
  }

  /** `g` with `c` written at (row, col): `board[row][col] = c`. */
  function Put(g: Grid, row: int, col: int, c: Cell): (h: Grid)
    requires 0 <= row < |g| && 0 <= col < |g[row]|
    ensures SameShape(g, h)
    ensures forall r, k :: 0 <= r < |g| && 0 <= k < |g[r]| ==>
      h[r][k] == if r == row && k == col then c else g[r][k]
  {
    g[row := g[row][col := c]]
  }

  /**
   * The board after a `move(start, end)` that runs to its end: the piece on `start` is copied
   * to `end`, then `start` is blanked (so a move onto its own square leaves a blank).
   */
  function Moved(g: Grid, start: Square, end: Square): Grid
    requires OnGrid(g, start) && OnGrid(g, end)
  {
    Put(Put(g, end.row, end.col, g[start.row][start.col]), start.row, start.col, Piece(""))
  }

  /** The board after `move(start, end)`, and whether it got past the drawing call. */
  datatype MoveResult = MoveResult(board: Grid, completed: bool)

  /**
   * `move(start, end)` as written: the end cell is overwritten first; the drawing call then
   * throws unless the start cell holds a piece name, and only a move that gets past it
   * blanks the start cell.
   */
  function RunMove(g: Grid, start: Square, end: Square): MoveResult
    requires OnGrid(g, start) && OnGrid(g, end)
  {
    if IsPieceName(g[start.row][start.col]) then MoveResult(Moved(g, start, end), true)
    else MoveResult(Put(g, end.row, end.col, g[start.row][start.col]), false)
  }

  /**
   * A move keeps the grid's shape and completes exactly when the start cell holds a piece
   * name. The end square gets the start cell, the start square is blanked only if the move
   * completed, and every other cell is unchanged.
   */
  lemma RunMoveCells(g: Grid, start: Square, end: Square)
    requires OnGrid(g, start) && OnGrid(g, end)
    ensures SameShape(g, RunMove(g, start, end).board)
    ensures RunMove(g, start, end).completed <==> IsPieceName(g[start.row][start.col])
    ensures RunMove(g, start, end).board[start.row][start.col] ==
      if RunMove(g, start, end).completed then Piece("") else g[start.row][start.col]
    ensures start != end ==> RunMove(g, start, end).board[end.row][end.col] == g[start.row][start.col]
    ensures forall r, k :: 0 <= r < |g| && 0 <= k < |g[r]| && Square(r, k) != start && Square(r, k) != end ==>
      RunMove(g, start, end).board[r][k] == g[r][k]
  {
  }

  /** What `initialize_board(n)` leaves on (r, c): later writes win over earlier ones. */
  function InitialCell(n: int, r: int, c: int): Cell
  {
    if r == n - 1 && c == 0 then Piece("white_king")
    else if r == 0 && c == n - 1 then Piece("black_king")
    else if r == n - 1 && 2 <= c <= n - 1 then Piece("white_knight")
    else if r == 0 && 0 <= c <= n - 3 then Piece("black_knight")
    else Unset
  }

  function InitialGrid(n: nat): Grid
  {
    seq(n, r => seq(n, c => InitialCell(n, r, c)))
  }

  /**
   * The starting position on an n-by-n board (n >= 2): black knights on row 0 from
   * column 0 to n-3, white knights on row n-1 from column 2 to n-1, the black king on
   * (0, n-1), the white king on (n-1, 0), and every other cell untouched.
   */
  lemma InitialPlacement(n: nat)
    requires n >= 2
    ensures IsSquareGrid(InitialGrid(n), n)
    ensures forall r, c :: 0 <= r < n && 0 <= c < n ==>
      (InitialGrid(n)[r][c] == Piece("black_knight") <==> r == 0 && c <= n - 3)
    ensures forall r, c :: 0 <= r < n && 0 <= c < n ==>
      (InitialGrid(n)[r][c] == Piece("white_knight") <==> r == n - 1 && 2 <= c)
    ensures forall r, c :: 0 <= r < n && 0 <= c < n ==>
      (InitialGrid(n)[r][c] == Piece("black_king") <==> r == 0 && c == n - 1)
    ensures forall r, c :: 0 <= r < n && 0 <= c < n ==>
      (InitialGrid(n)[r][c] == Piece("white_king") <==> r == n - 1 && c == 0)
    ensures forall r, c :: 0 <= r < n && 0 <= c < n ==>
      (InitialGrid(n)[r][c] == Unset <==> (r != 0 && r != n - 1) || (r == 0 && c == n - 2) || (r == n - 1 && c == 1))
  {
  }

  // ---------------------------------------------------------------------------
  // The click handler (js/board.js:47-66)
  // ---------------------------------------------------------------------------

  /** The two slots of `highlighted_squares`; `None` is `null`. */
  datatype Highlights = Highlights(first: Option<Square>, second: Option<Square>)

  /** The selected squares lie on the board. */
  predicate Fits(h: Highlights, g: Grid)
  {
    (h.first.Some? ==> OnGrid(g, h.first.value)) && (h.second.Some? ==> OnGrid(g, h.second.value))
  }

  /** The new slots and board after a click, and the move it sends, if any. */
  datatype ClickResult = ClickResult(next: Highlights, board: Grid, emitted: Option<Move>)

  /**
   * The handler as written, on a click at `s`. When the second square is clicked, slot 1 is
   * set before `move` runs, and a `move` that throws ends the handler before the move is sent
   * and before the slots are cleared.
   */
  function Click(h: Highlights, g: Grid, s: Square): (r: ClickResult)
    requires Fits(h, g) && OnGrid(g, s)
    ensures SameShape(g, r.board) && Fits(r.next, r.board)
  {
    if h.first.None? then ClickResult(Highlights(Some(s), h.second), g, None)
    else if h.first.value == s then ClickResult(Highlights(None, h.second), g, None)
    else if h.second.None? then
      RunMoveCells(g, h.first.value, s);
      var run := RunMove(g, h.first.value, s);
      if run.completed then ClickResult(Highlights(None, None), run.board, Some(Move(h.first.value, s)))
      else ClickResult(Highlights(h.first, Some(s)), run.board, None)
    else ClickResult(h, g, None)
  }

  /**
   * The handler as evidently intended: `move` always runs to its end, so a click on a second
   * square always sends the move and clears both slots.
   */
  function IntendedClick(h: Highlights, g: Grid, s: Square): (r: ClickResult)
    requires Fits(h, g) && OnGrid(g, s)
    ensures SameShape(g, r.board) && Fits(r.next, r.board)
  {
    if h.first.None? then ClickResult(Highlights(Some(s), h.second), g, None)
    else if h.first.value == s then ClickResult(Highlights(None, h.second), g, None)
    else if h.second.None? then
      ClickResult(Highlights(None, None), Moved(g, h.first.value, s), Some(Move(h.first.value, s)))
    else ClickResult(h, g, None)
  }

  /** A click on an empty selection selects the square, keeps slot 1 and the board, and sends nothing. */
  lemma ClickSelects(h: Highlights, g: Grid, s: Square)
    requires Fits(h, g) && OnGrid(g, s) && h.first.None?
    ensures Click(h, g, s) == ClickResult(Highlights(Some(s), h.second), g, None)
  {
  }

  /** A click on the selected square deselects it, keeps slot 1 and the board, and sends nothing. */
  lemma ClickDeselects(h: Highlights, g: Grid, s: Square)
    requires Fits(h, g) && OnGrid(g, s) && h.first == Some(s)
    ensures Click(h, g, s) == ClickResult(Highlights(None, h.second), g, None)
  {
  }

  /**
   * A click on another square, while slot 1 is null and the selected square holds a piece,
   * sends exactly the move from the selected square to the click, applies it to the board
   * and clears both slots.
   */
  lemma ClickEmitsMove(h: Highlights, g: Grid, s: Square)
    requires Fits(h, g) && OnGrid(g, s)
    requires h.first.Some? && h.first.value != s && h.second.None?
    requires IsPieceName(g[h.first.value.row][h.first.value.col])
    ensures Click(h, g, s) == ClickResult(Highlights(None, None), Moved(g, h.first.value, s), Some(Move(h.first.value, s)))
  {
  }

  /**
   * A click on another square, while slot 1 is null and the selected square holds no piece,
   * sends nothing: the end square has been overwritten with the start cell, the start cell is
   * kept, and both slots stay set.
   */
  lemma ClickAborts(h: Highlights, g: Grid, s: Square)
    requires Fits(h, g) && OnGrid(g, s)
    requires h.first.Some? && h.first.value != s && h.second.None?
    requires !IsPieceName(g[h.first.value.row][h.first.value.col])
    ensures Click(h, g, s) ==
      ClickResult(Highlights(h.first, Some(s)), Put(g, s.row, s.col, g[h.first.value.row][h.first.value.col]), None)
  {
  }

  /**
   * While slot 1 is null and a selected square holds a piece, a click leaves slot 1 null; a
   * move it sends ends on the clicked square and never starts there.
   */
  lemma ClickInvariant(h: Highlights, g: Grid, s: Square)
    requires Fits(h, g) && OnGrid(g, s) && h.second.None?
    requires h.first.Some? ==> IsPieceName(g[h.first.value.row][h.first.value.col])
    ensures Click(h, g, s).next.second.None?
    ensures Click(h, g, s).emitted.Some? ==>
      Click(h, g, s).emitted.value.start != Click(h, g, s).emitted.value.end && Click(h, g, s).emitted.value.end == s
  {
  }

  /** The handler as written agrees with the intended one unless a move would start from a square without a piece. */
  lemma ClickAgreesWithIntended(h: Highlights, g: Grid, s: Square)
    requires Fits(h, g) && OnGrid(g, s)
    requires h.first.Some? && h.first.value != s && h.second.None? ==> IsPieceName(g[h.first.value.row][h.first.value.col])
    ensures Click(h, g, s) == IntendedClick(h, g, s)
  {
  }

  /** The slots, the board and the moves sent after a sequence of clicks. */
  datatype ClicksResult = ClicksResult(next: Highlights, board: Grid, emitted: seq<Move>)

  function Clicks(h: Highlights, g: Grid, ss: seq<Square>): (r: ClicksResult)
    requires Fits(h, g) && AllOnGrid(g, ss)
    ensures SameShape(g, r.board) && Fits(r.next, r.board)
    decreases |ss|
  {
    if ss == [] then ClicksResult(h, g, [])
    else
      var r := Click(h, g, ss[0]);
      var tail := Clicks(r.next, r.board, ss[1..]);
      ClicksResult(tail.next, tail.board, (if r.emitted.Some? then [r.emitted.value] else []) + tail.emitted)
  }

  function IntendedClicks(h: Highlights, g: Grid, ss: seq<Square>): (r: ClicksResult)
    requires Fits(h, g) && AllOnGrid(g, ss)
    ensures SameShape(g, r.board) && Fits(r.next, r.board)
    decreases |ss|
  {
    if ss == [] then ClicksResult(h, g, [])
    else
      var r := IntendedClick(h, g, ss[0]);
      var tail := IntendedClicks(r.next, r.board, ss[1..]);
      ClicksResult(tail.next, tail.board, (if r.emitted.Some? then [r.emitted.value] else []) + tail.emitted)
  }

  /** No click of `ss` reaches `move` while the selected square holds no piece. */
  predicate StartsOnPieces(h: Highlights, g: Grid, ss: seq<Square>)
    requires Fits(h, g) && AllOnGrid(g, ss)
    decreases |ss|
  {
    ss == [] ||
    ((h.first.Some? && h.first.value != ss[0] && h.second.None? ==> IsPieceName(g[h.first.value.row][h.first.value.col])) &&
     var r := Click(h, g, ss[0]);
     StartsOnPieces(r.next, r.board, ss[1..]))
  }

  /**
   * Over any sequence of clicks, at most one move is sent per click, never from a square to
   * itself, and always ending on a clicked square.
   */
  lemma {:induction false} ClicksInvariant(h: Highlights, g: Grid, ss: seq<Square>)
    requires Fits(h, g) && AllOnGrid(g, ss)
    ensures |Clicks(h, g, ss).emitted| <= |ss|
    ensures forall m :: m in Clicks(h, g, ss).emitted ==> m.start != m.end && m.end in ss
    decreases |ss|
  {
    if ss != [] {
      var r := Click(h, g, ss[0]);
      ClicksInvariant(r.next, r.board, ss[1..]);
      assert forall s :: s in ss[1..] ==> s in ss;
    }
  }

  /** As long as every move starts from a square holding a piece, the handler as written is the intended one. */
  lemma {:induction false} ClicksAgreeWithIntended(h: Highlights, g: Grid, ss: seq<Square>)
    requires Fits(h, g) && AllOnGrid(g, ss) && StartsOnPieces(h, g, ss)
    ensures Clicks(h, g, ss) == IntendedClicks(h, g, ss)
    decreases |ss|
  {
    if ss != [] {
      ClickAgreesWithIntended(h, g, ss[0]);
      var r := Click(h, g, ss[0]);
      ClicksAgreeWithIntended(r.next, r.board, ss[1..]);
    }
  }

  /**
   * The intended handler keeps slot 1 null over any sequence of clicks from a state where it
   * is null; at most one move is sent per click, never from a square to itself, and always
   * ending on a clicked square.
   */
  lemma {:induction false} IntendedClicksInvariant(h: Highlights, g: Grid, ss: seq<Square>)
    requires Fits(h, g) && AllOnGrid(g, ss) && h.second.None?
    ensures IntendedClicks(h, g, ss).next.second.None?
    ensures |IntendedClicks(h, g, ss).emitted| <= |ss|
    ensures forall m :: m in IntendedClicks(h, g, ss).emitted ==> m.start != m.end && m.end in ss
    decreases |ss|
  {
    if ss != [] {
      var r := IntendedClick(h, g, ss[0]);
      IntendedClicksInvariant(r.next, r.board, ss[1..]);
      assert forall s :: s in ss[1..] ==> s in ss;
    }
  }

  /**
   * Once slot 1 is set, no later click sends a move or changes the board, and slot 1 keeps
   * its square: only the reset after a sent move clears it.
   */
  lemma {:induction false} StuckForever(h: Highlights, g: Grid, ss: seq<Square>)
    requires Fits(h, g) && AllOnGrid(g, ss) && h.second.Some?
    ensures Clicks(h, g, ss).next.second == h.second
    ensures Clicks(h, g, ss).board == g
    ensures Clicks(h, g, ss).emitted == []
    decreases |ss|
  {
    if ss != [] {
      var r := Click(h, g, ss[0]);
      StuckForever(r.next, r.board, ss[1..]);
    }
  }

  /**
   * On the 6-by-6 starting board, selecting the empty square (2, 2) and then the white knight
   * on (5, 3) erases the knight, sends nothing, and leaves slot 1 set; after that no click
   * ever sends a move or changes the board.
   */
  lemma EmptyStartBlocks(ss: seq<Square>)
    requires AllOnGrid(InitialGrid(6), ss)
    ensures InitialGrid(6)[5][3] == Piece("white_knight")
    ensures var after := Clicks(Highlights(None, None), InitialGrid(6), [Square(2, 2), Square(5, 3)] + ss);
      after.emitted == [] && after.next.second == Some(Square(5, 3)) &&
      after.board == Put(InitialGrid(6), 5, 3, Unset)
  {
    var g := InitialGrid(6);
    var all := [Square(2, 2), Square(5, 3)] + ss;
    assert all[0] == Square(2, 2) && all[1..] == [Square(5, 3)] + ss;
    assert ([Square(5, 3)] + ss)[0] == Square(5, 3) && ([Square(5, 3)] + ss)[1..] == ss;
    var r1 := Click(Highlights(None, None), g, Square(2, 2));
    assert r1 == ClickResult(Highlights(Some(Square(2, 2)), None), g, None);
    assert g[2][2] == Unset;
    var r2 := Click(r1.next, r1.board, Square(5, 3));
    assert r2 == ClickResult(Highlights(Some(Square(2, 2)), Some(Square(5, 3))), Put(g, 5, 3, Unset), None);
    StuckForever(r2.next, r2.board, ss);
  }

  lemma ClicksSingle(h: Highlights, g: Grid, s: Square)
    requires Fits(h, g) && OnGrid(g, s)
    ensures Clicks(h, g, [s]) ==
      ClicksResult(Click(h, g, s).next, Click(h, g, s).board,
              if Click(h, g, s).emitted.Some? then [Click(h, g, s).emitted.value] else [])
  {
    assert [s][0] == s && [s][1..] == [];
    var r := Click(h, g, s);
    var tail := Clicks(r.next, r.board, []);
    var e: seq<Move> := if r.emitted.Some? then [r.emitted.value] else [];
    assert Clicks(h, g, [s]) == ClicksResult(tail.next, tail.board, e + tail.emitted);
    assert e + tail.emitted == e;
  }

  /** From an empty selection, clicking A twice sends nothing and leaves no selection and the board as it was. */
  lemma SameSquareTwice(g: Grid, a: Square)
    requires OnGrid(g, a)
    ensures Clicks(Highlights(None, None), g, [a, a]) == ClicksResult(Highlights(None, None), g, [])
  {
    assert [a, a][0] == a && [a, a][1..] == [a];
    ClicksSingle(Highlights(Some(a), None), g, a);
  }

  /** From an empty selection, clicking a square holding a piece and then a different one sends and applies that single move. */
  lemma TwoSquares(g: Grid, a: Square, b: Square)
    requires OnGrid(g, a) && OnGrid(g, b) && a != b && IsPieceName(g[a.row][a.col])
    ensures Clicks(Highlights(None, None), g, [a, b]) == ClicksResult(Highlights(None, None), Moved(g, a, b), [Move(a, b)])
  {
    assert [a, b][0] == a && [a, b][1..] == [b];
    ClicksSingle(Highlights(Some(a), None), g, b);
    var tail := Clicks(Highlights(Some(a), None), g, [b]);
    assert Clicks(Highlights(None, None), g, [a, b]) == ClicksResult(tail.next, tail.board, [] + tail.emitted);
    assert [] + tail.emitted == [Move(a, b)];
  }

  // ---------------------------------------------------------------------------
  // The page state (js/board.js:9, 12, 19-22, 47-98)
  // ---------------------------------------------------------------------------

  class Client {
    /** The module-level `board`. */
    var board: Grid
    /** `highlighted_squares[0]` and `highlighted_squares[1]`. */
    var first: Option<Square>
    var second: Option<Square>

    /** The board is square and the selected squares lie on it. */
    ghost predicate Valid()
      reads this
    {
      IsSquareGrid(board, |board|) && Fits(Highlights(first, second), board)
    }

    /** The page's start: `board = []` and `highlighted_squares = [null, null]`. */
    constructor ()
      ensures Valid()
      ensures board == [] && first.None? && second.None?
    {
      board := [];
      first := None;
      second := None;
    }

    /**
     * `add_piece`: writes the cell. Its drawing call throws for a cell that is not a piece
     * name, but only after the write, and nothing follows it in its callers.
     */
    method AddPiece(piece: Cell, row: int, col: int)
      requires 0 <= row < |board| && 0 <= col < |board[row]|
      modifies this
      ensures board == Put(old(board), row, col, piece)
      ensures first == old(first) && second == old(second)
    {
      board := board[row := board[row][col := piece]];
    }

    /**
     * `move`: the start cell is copied to `end`; the drawing call throws unless that cell is
     * a piece name (`completed` is false then), and otherwise `start` becomes "".
     */
    method ApplyMove(start: Square, end: Square) returns (completed: bool)
      requires OnGrid(board, start) && OnGrid(board, end)
      modifies this
      ensures MoveResult(board, completed) == RunMove(old(board), start, end)
      ensures first == old(first) && second == old(second)
    {
      var piece := board[start.row][start.col];
      board := board[end.row := board[end.row][end.col := piece]];
      completed := IsPieceName(board[start.row][start.col]);
      if completed {
        board := board[start.row := board[start.row][start.col := Piece("")]];
      }
    }

    /**
     * `initialize_board(n)`: pushes n rows of n placeholders, then places the knights
     * pair by pair and finally the two kings.
     */
    method InitializeBoard(n: nat)
      requires board == [] && n >= 1
      requires first.None? && second.None?
      modifies this
      ensures Valid()
      ensures board == InitialGrid(n)
      ensures first == old(first) && second == old(second)
    {
      for i := 0 to n
        invariant |board| == i
        invariant forall r :: 0 <= r < i ==> board[r] == seq(n, _ => Unset)
        invariant first == old(first) && second == old(second)
      {
        board := board + [[]];
        for j := 0 to n
          invariant |board| == i + 1
          invariant forall r :: 0 <= r < i ==> board[r] == seq(n, _ => Unset)
          invariant board[i] == seq(j, _ => Unset)
          invariant first == old(first) && second == old(second)
        {
          board := board[i := board[i] + [Unset]];
        }
      }
      var i := 0;
      while i < n - 2
        invariant 0 <= i <= if n < 2 then 0 else n - 2
        invariant IsSquareGrid(board, n)
        invariant forall r, c :: 0 <= r < n && 0 <= c < n ==>
          board[r][c] == (if r == 0 && c < i then Piece("black_knight")
                          else if r == n - 1 && n - i <= c then Piece("white_knight")
                          else Unset)
        invariant first == old(first) && second == old(second)
      {
        AddPiece(Piece("black_knight"), 0, i);
        AddPiece(Piece("white_knight"), n - 1, n - i - 1);
        i := i + 1;
      }
      AddPiece(Piece("black_king"), 0, n - 1);
      AddPiece(Piece("white_king"), n - 1, 0);
      forall r | 0 <= r < n
        ensures board[r] == InitialGrid(n)[r]
      {
        assert forall c :: 0 <= c < n ==> board[r][c] == InitialCell(n, r, c);
      }
    }

    /**
     * The `onmousedown` handler for a click on `s`; the move it sends with `socket.emit`
     * is returned. A `move` that throws ends the handler before the send and the reset.
     */
    method OnMouseDown(s: Square) returns (emitted: Option<Move>)
      requires Valid() && OnGrid(board, s)
      modifies this
      ensures Valid()
      ensures Click(old(Highlights(first, second)), old(board), s) == ClickResult(Highlights(first, second), board, emitted)
    {
      emitted := None;
      if first.None? {
        first := Some(s);
      } else if first.value.row == s.row && first.value.col == s.col {
        first := None;
        AddPiece(board[s.row][s.col], s.row, s.col);
        assert board[s.row] == old(board)[s.row];
        assert board == old(board);
      } else if second.None? {
        second := Some(s);
        RunMoveCells(board, first.value, s);
        var completed := ApplyMove(first.value, second.value);
        if completed {
          emitted := Some(Move(first.value, second.value));
          first, second := None, None;
        }
      }
    }

    /**
     * The handler for a `response` from the server: applies the engine's move to the board.
     * A `move` that throws ends the handler; nothing follows it.
     */
    method OnResponse(m: Move)
      requires Valid() && OnGrid(board, m.start) && OnGrid(board, m.end)
      modifies this
      ensures Valid()
      ensures board == RunMove(old(board), m.start, m.end).board
      ensures first == old(first) && second == old(second)
    {
      RunMoveCells(board, m.start, m.end);
      var _ := ApplyMove(m.start, m.end);
    }
  }
}
