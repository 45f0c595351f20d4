# Knights-and-kings chess: a verified model

This project models the three pieces of logic in the repository that can be stated exactly:

- **Move generation of the engine** (`search.c`, module `Search` in `search.dfy`). A position has a king and up to `K = 1` knight per side on a `N = 5` board. The attack tests for a knight and a king are modelled. So are the occupancy test ("a piece of the side to move stands here") and the defence test ("the opponent's king or a knight attacks this square"). The per-piece target generators fill a caller's `Coord` buffer. `get_moves` writes every move of the side to move into a `Move` buffer and returns the end pointer. The buffers are Dafny arrays, and a `Move *` is an index into its array. `Moves(p)` is a function that gives what `get_moves` writes, in order. The method is proved to write exactly that and to touch no other slot. Lemmas then state what the list contains: the legal captures of the checking knight when in check, and otherwise the knight jumps and king steps.
- **The browser client's board and click handler** (`js/board.js`, module `Board` in `board.dfy`). The page's `board` grid and its two `highlighted_squares` slots are fields of the class `Board.Client`. Its methods mirror `add_piece`, `move`, `initialize_board`, the `onmousedown` handler and the `response` handler. `move` draws the moved piece with `pieces.get(name)`, and the `pieces` map holds images for the four piece names only. For any other start cell, such as an empty square, the drawing call throws. `move` then stops after overwriting the end square, and the handler that called it stops too. `RunMove` and `Client.ApplyMove` model this. The handler's decision as written is the pure function `Click`, and `IntendedClick` is the handler as evidently intended, with a `move` that always completes. Lemmas over both and over sequences of clicks (`Clicks`, `IntendedClicks`) state the selection rules, the invariants, when the two agree, and how the code as written gets stuck (see "## Findings").
- **The server's move codec** (`js/server.js`, module `Server` in `server.dfy`). `Encode` is the line written to the engine's standard input. `Decode` is the response built from a chunk of its output. The lemmas cover the shape of the line, which characters the decoder reads, when decoding yields a move, and the round trip for single-digit coordinates.

`wrappers.dfy` holds the `Option` type that the other modules share.

Notes on what the code does:

- The server does not tell kinds of engine output apart. It reads characters 0 to 3 of every chunk as a move (js/server.js:11-16).
- The click handler does not wait for the engine's answer. It clears both slots as soon as it sends a move, and it applies the move to the local board at once (js/board.js:59-64).
- The handler has no bounds check. Here a click is the (row, col) of a board square. The click canvas is exactly the size of the board, so a real click always lands on one.
- The server always starts `./a.out` without arguments (js/server.js:10).
- The engine uses `N = 5` (search.c:8), and the client uses 6 (js/board.js:1, 16). In the client model the board size is a parameter.

## Model

| member | source | states |
|---|---|---|
| `Search.KnightAttacks` | search.c:33-37 | `knight_attacks`: true exactly when the absolute row and column differences are (2, 1) or (1, 2) (its properties are stated by `Search.KnightAttacksSymmetric`, `Search.KnightAttacksIrreflexive` and `Search.KnightOffsetsExact`) |
| `Search.KingAttacks` | search.c:39-43 | `king_attacks`: true exactly when both absolute differences are at most 1 (its properties are stated by `Search.KingAttacksSymmetric`, `Search.KingAttacksReflexive` and `Search.KingOffsetsExact`) |
| `Search.KnightAttacksSymmetric` | search.c:33-37 | a knight on a attacks b exactly when a knight on b attacks a |
| `Search.KnightAttacksIrreflexive` | search.c:33-37 | a knight never attacks its own square |
| `Search.KingAttacksSymmetric` | search.c:39-43 | the king attack test is symmetric |
| `Search.KingAttacksReflexive` | search.c:39-43 | the king attack test holds for a king's own square |
| `Search.KnightOffsetsExact` | search.c:63-66 | the eight squares `coord - offset` of the knight table are exactly the squares `knight_attacks` accepts (absolute differences (2,1) or (1,2)) |
| `Search.KingOffsetsExact` | search.c:79-82 | the eight squares of the king table are exactly the squares `king_attacks` accepts, other than the king's own |
| `Search.IsOccupied` | search.c:53-59 | true exactly when the square holds the king or one of the first `number_of_knights[turn]` knights of the side to move |
| `Search.IsProtected` | search.c:45-51 | true exactly when the opponent's king attacks the square, or one of the opponent's remaining knights does |
| `Search.KnightTargetsUpTo` | search.c:64-73 | after j table entries, at most j targets have been kept |
| `Search.KnightTargetsUpToMembers` | search.c:64-73 | after j table entries, the kept targets are exactly the on-board squares not held by the side to move that one of those j offsets reaches |
| `Search.KnightTargetsExact` | search.c:61-75 | a knight has at most 8 targets, and a square is one exactly when it is on the board, attacked by the knight, and not held by the side to move |
| `Search.GetKnightMoves` | search.c:61-75 | returns a count of at most 8; the first `count` buffer entries are the knight's targets in offset-table order; the rest of the buffer is unchanged |
| `Search.KingTargetsUpTo` | search.c:80-89 | after j table entries, at most j king targets have been kept |
| `Search.KingTargetsUpToMembers` | search.c:80-89 | after j table entries, the kept targets are exactly the on-board squares, free of the side's own pieces and not defended by the opponent, that one of those j offsets reaches from the king |
| `Search.KingTargetsExact` | search.c:77-91 | the king has at most 8 targets, and a square is one exactly when it is on the board, next to the king but not its square, not held by the side to move, and not protected |
| `Search.GetKingMoves` | search.c:77-91 | returns a count of at most 8; the first `count` buffer entries are the king's targets in offset-table order; the rest of the buffer is unchanged |
| `Search.CapturesUpTo` | search.c:98-104 | the first i knights give at most i captures of the checking square |
| `Search.CapturesUpToMembers` | search.c:98-104 | the captures of the first i knights are exactly the moves from one of them onto the checking square that it attacks |
| `Search.KnightMovesUpTo` | search.c:109-116 | the first i knights give at most 8·i moves |
| `Search.KnightMovesUpToMembers` | search.c:109-116 | the moves of the first i knights are exactly the moves from one of them to one of its targets |
| `Search.KingMovesMembers` | search.c:117-122 | the king moves are exactly the moves from the king to one of its targets |
| `Search.InCheckMoves` | search.c:96-106 | in check, at most `number_of_knights[turn]` moves; a move is produced exactly when it goes from a remaining knight of the side to move onto the checking square and that knight attacks the square; so there is no king move |
| `Search.QuietMoves` | search.c:108-123 | out of check, at most 8·`number_of_knights[turn]` + 8 moves. A move is produced exactly when it is one of two kinds. The first is a knight jump of the side to move onto an on-board square that the side does not hold. The second is a king step onto an adjacent on-board square that the side does not hold and that is not protected |
| `Search.MovesStartOnOwnPiece` | search.c:95-124 | every move produced starts on a square holding a piece of the side to move |
| `Search.Moves` | search.c:95-124 | the moves `get_moves` writes, in order (its properties are stated by `Search.InCheckMoves`, `Search.QuietMoves` and `Search.MovesStartOnOwnPiece`) |
| `Search.WriteCaptures` | search.c:96-106 | writes, from the start index on, one capture of the checking square for each remaining knight of the side to move that attacks it, in knight order; returns the index after the last; leaves every other slot unchanged |
| `Search.WriteKnightMoves` | search.c:108-116 | writes, from the start index on, the moves of each remaining knight of the side to move to its targets, knight by knight; at most 8 per knight; leaves every other slot unchanged |
| `Search.WriteMovesFrom` | search.c:111-115 | writes one move from the piece to each of the first `count` targets, in order, from the given index on; returns that index plus `count`; leaves every other slot unchanged |
| `Search.GetMoves` | search.c:95-124 | the slots from the start index up to the returned index hold exactly `Moves(p)`. In check these are the captures. Otherwise they are all knight moves, knight by knight, then the king moves. No slot outside that range changes, and the position is a value that is never modified |
| `Board.Put` | js/board.js:87-90 | writing a cell keeps the grid's shape and changes only that cell |
| `Board.RunMove` | js/board.js:92-98 | `move(start, end)` as written: the new board, and whether the move got past the drawing call at line 96 (its properties are stated by `Board.RunMoveCells`) |
| `Board.RunMoveCells` | js/board.js:92-98 | `move(start, end)` keeps the grid's shape and completes exactly when the start cell is one of the four piece names. When start and end differ, the end cell holds the former start cell. The start cell becomes `""` if the move completed and is kept otherwise. Every other cell is unchanged |
| `Board.InitialGrid` | js/board.js:69-85 | the n-by-n grid `initialize_board(n)` builds, cell by cell, with later writes winning (its layout is stated by `Board.InitialPlacement`, and `Board.Client.InitializeBoard` is proved to build it) |
| `Board.InitialPlacement` | js/board.js:69-85 | `initialize_board(n)` gives an n-by-n grid: black knights exactly on row 0, columns 0..n-3; white knights exactly on row n-1, columns 2..n-1; the black king exactly on (0, n-1); the white king exactly on (n-1, 0); every other cell still the placeholder |
| `Board.Click` | js/board.js:50-65 | the handler as written on one click: select, deselect, run `move` and send only if it completed, or ignore the click. The new board has the old board's shape and the new slots lie on it |
| `Board.IntendedClick` | js/board.js:50-65 | the handler as evidently intended, with a `move` that always completes. The new board has the old board's shape and the new slots lie on it |
| `Board.ClickSelects` | js/board.js:50-53 | a click while slot 0 is null puts the square in slot 0, keeps slot 1 and the board, and sends nothing |
| `Board.ClickDeselects` | js/board.js:54-58 | a click on the square in slot 0 clears slot 0, keeps slot 1 and the board, and sends nothing |
| `Board.ClickEmitsMove` | js/board.js:59-64 | a click on another square while slot 1 is null and the selected square holds a piece name sends exactly the move from the selected square to the click, applies it to the board and clears both slots |
| `Board.ClickAborts` | js/board.js:59-64 | a click on another square while slot 1 is null and the selected square holds no piece name sends nothing: both slots stay set, the clicked square is overwritten with the selected cell, and the selected cell is kept |
| `Board.ClickInvariant` | js/board.js:50-65 | if slot 1 is null and a selected square holds a piece name, slot 1 is null after the click; a move it sends ends on the clicked square and never starts there |
| `Board.ClickAgreesWithIntended` | js/board.js:50-65 | the handler as written takes the intended step (slots, board and sent move) on every click except a second click whose selected square holds no piece name |
| `Board.Clicks` | js/board.js:50-65 | the handler as written over a sequence of clicks: the final slots, the final board and the moves sent in order. The final board has the first board's shape and the final slots lie on it |
| `Board.IntendedClicks` | js/board.js:50-65 | the intended handler over a sequence of clicks. The final board has the first board's shape and the final slots lie on it |
| `Board.ClicksInvariant` | js/board.js:47-66 | over any sequence of clicks from any state, at most one move is sent per click, no sent move has start equal to end, and each ends on a clicked square |
| `Board.ClicksAgreeWithIntended` | js/board.js:47-66 | as long as no click reaches `move` while the selected square holds no piece name, a sequence of clicks gives the same slots, board and sent moves as the intended handler |
| `Board.IntendedClicksInvariant` | js/board.js:47-66 | with a `move` that always completes, slot 1 stays null over any sequence of clicks from a state where it is null; at most one move is sent per click, never from a square to itself, and each ends on a clicked square |
| `Board.StuckForever` | js/board.js:59-64 | once slot 1 is set, no later click sends a move or changes the board, and slot 1 keeps its square: only the reset at line 64 clears it, and it runs only after a send |
| `Board.EmptyStartBlocks` | js/board.js:47-66 | on the 6-by-6 starting board, clicking the empty (2, 2) and then the white knight on (5, 3) erases the knight, sends nothing and leaves slot 1 set; after that no click ever sends a move or changes the board |
| `Board.SameSquareTwice` | js/board.js:50-57 | from no selection, clicking A twice sends nothing, ends with no selection and leaves the board as it was |
| `Board.TwoSquares` | js/board.js:50-64 | from no selection, clicking a square holding a piece name and then a different square B sends exactly the one move A to B, applies it, and ends with no selection |
| `Board.Client.constructor` | js/board.js:9-12 | the page starts with an empty board and both slots null |
| `Board.Client.AddPiece` | js/board.js:87-90 | the board gets the cell written at (row, col); the slots are unchanged |
| `Board.Client.ApplyMove` | js/board.js:92-98 | the new board and the completion flag are `RunMove(old board, start, end)`: the move completes exactly when the start cell is a piece name; the slots are unchanged |
| `Board.Client.InitializeBoard` | js/board.js:69-85 | from the empty board, builds the n-by-n starting grid `InitialGrid(n)` |
| `Board.Client.OnMouseDown` | js/board.js:47-66 | the new slots, the new board and the sent move are exactly what `Click` gives for the old slots, the old board and the square, including the stop when `move` throws. The board stays square and the selected squares stay on it |
| `Board.Client.OnResponse` | js/board.js:19-22 | a response runs `move` on the board (`RunMove`), keeps the slots, and keeps the board square with the selected squares on it |
| `Server.NatToString` | js/server.js:19 | the decimal form of a number is non-empty and made of digits only |
| `Server.IntToString` | js/server.js:19 | `toString()` of an integer coordinate: a minus sign for a negative value, then its decimal digits (its properties are stated by `Server.IntToStringLength`) |
| `Server.IntToStringLength` | js/server.js:19 | a coordinate is written as one character exactly when it is 0..9, and then as its digit |
| `Server.Encode` | js/server.js:19 | the line written to the engine for a move (its properties are stated by `Server.EncodeSingleDigits` and `Server.RoundTrip`) |
| `Server.EncodeSingleDigits` | js/server.js:19 | the line always ends with `'\n'`. It is 5 characters long exactly when all four coordinates are 0..9. It is then the four digits followed by `'\n'` |
| `Server.ParseCharAt` | js/server.js:13-14 | `parseInt` of one character is a number exactly when the character exists and is a digit, and then it is that digit's value |
| `Server.Decode` | js/server.js:12-15 | the response built from a chunk (its properties are stated by `Server.DecodeReadsFirstFour` and `Server.DecodeSucceeds`) |
| `Server.DecodeReadsFirstFour` | js/server.js:12-14 | the response depends only on characters 0 to 3 of the chunk |
| `Server.DecodeSucceeds` | js/server.js:11-16 | the response of a chunk carries a move exactly when the chunk starts with four digits; then each coordinate is 0..9 |
| `Server.RoundTrip` | js/server.js:13-19 | decoding the line for a move whose coordinates are all 0..9 gives the move back |
| `Server.EncodeDecoded` | js/server.js:12-19 | for a chunk that starts with four digits, encoding the move its response carries gives back those four characters and a newline |
| `Server.TwoDigitsDoNotRoundTrip` | js/server.js:13-19 | with a two-digit coordinate the round trip fails: the move (10,0)→(1,0) is read back as (1,0)→(0,1) |
| `Server.ClientMovesRoundTrip` | js/server.js:17-19 | any move between squares of a board of at most 10 by 10 (the page uses 6) goes to the engine as a 5-character line that decodes back to the same move |

## Left out

- `main` in search.c (a fixed test position and `printf` output) is not modelled. Nor are the unused `pthread`/`unistd` includes and the unused global `possible_moves`.
- `Search.GetMoves` and its helpers use unbounded integers for the C `int` coordinates. Overflow cannot occur for coordinates near the board. The model does not cover positions whose coordinates are near the 32-bit limits.
- `Search.WellFormed` requires `turn` to be 0 or 1 and `number_of_knights[s]` to be within 0..K. A `turn` outside 0..1 or a count above K makes search.c index outside its fixed-size arrays. A negative count does not: the knight loops at search.c lines 47, 55, 98 and 109 then run zero times, as for a count of 0. The model does not admit a negative count. The `checks` counters are carried but never read by the modelled code.
- `Search.GetMoves` requires room for the largest possible output after the start index (`number_of_knights[turn]` in check, 8·`number_of_knights[turn]` + 8 otherwise). The C code assumes the caller's buffer is large enough.
- The canvas and DOM work in js/board.js is not modelled: `set_element`, `strokeRect`, `clearRect`, the images `drawImage` draws, colours and pixel geometry. Only the throw of `drawImage` for a cell without an image is modelled, because it ends `move` and the click handler. The floating-point `Math.floor` that turns a page position into (row, col) is left out too. A click is given as a square of the board.
- `load_pieces` and the `pieces loaded` event are not modelled (asynchronous image loading).
- `Board.Client.InitializeBoard` requires the empty board. The page calls it once, on the empty global `board`. A second call would append rows to the old board.
- `Board.Client.InitializeBoard` also requires n >= 1. For n = 0 the source builds no rows, and `add_piece("black_king", 0, -1)` at js/board.js:83 throws because `board[0]` is undefined. The page always passes 6.
- `Board.Client.OnResponse` requires both squares of the response to be on the board, and the model does not cover any other response. A NaN field reaches the client as `null`. In the browser, a null row in either square makes js/board.js:95 throw before any cell is written. A null start column writes `undefined` to the end cell, and line 96 then throws. A null end column alone (from a chunk such as `"123x"`) makes line 95 store the start cell under the row array's `"null"` property, off the grid; when that cell holds a piece name, line 96 raises no error and line 97 blanks the start, so the piece disappears from the board; otherwise line 96 throws. A digit from 6 to 9 also decodes but lies off the 6-by-6 board. Such a row in either square makes line 95 throw before any cell is written. Such a start column writes `undefined` to the end cell, and line 96 then throws. Such an end column (from a chunk such as `"0006"`) writes a cell past the end of the row, so the row grows and the grid is no longer square; line 97 then blanks the start if it held a piece name, and line 96 throws otherwise.
- socket.io, express static serving, `http.listen` and `child_process.spawn` are not modelled (network and process I/O). `socket.emit` and `stdin.write` are represented by returned values (`OnMouseDown`'s result, `Encode`, `Decode`).
- `Server.Encode` and `Server.IntToString` take the coordinates as mathematical integers. In JavaScript they are whatever `JSON.parse` yields at js/server.js:18. For a number of magnitude 10^21 or more, `toString()` gives exponent form (`"1e+21"`), and for a non-integer it gives a fraction (`"0.5"`); the model writes neither. Other JSON values (strings, `null`, a missing field, for which `toString` throws inside the callback) are not modelled. The page only sends coordinates 0 to 5, for which the model and JavaScript agree (`Server.ClientMovesRoundTrip`).
- The UTF-8 decoding of the engine's output buffer is not modelled; a chunk is given as a string. How stdout is cut into chunks is not modelled either: the code treats each chunk as one reply.
- `Server.ParseCharAt` and `Server.Decode` index the chunk by character (Unicode scalar value), while `data_str[i]` in JavaScript indexes UTF-16 code units. A character outside the Basic Multilingual Plane among the first four therefore shifts the fields the server reads. Whether a response carries a move is not affected, because neither half of a surrogate pair is a digit.
- The commented-out block at the end of js/server.js is not modelled.

## Findings

| source | as written | input that shows it | evidently intended | confidence | as-written member | corrected member |
|---|---|---|---|---|---|---|
| js/board.js:59-64 | Line 60 sets slot 1 before `move` runs. When the selected square holds no piece name, the drawing call in `move` (js/board.js:96) throws: the clicked square has already been overwritten, no move is sent, and the reset at line 64 is skipped. Only that reset clears slot 1, so from then on no click sends a move (`Board.StuckForever`) | on the 6-by-6 starting board, click the empty square (2, 2), then the white knight on (5, 3) | a click on a second square sends the move and clears both slots, so slot 1 stays null | high; not executed | `Board.EmptyStartBlocks` | `Board.IntendedClicksInvariant` |

`Board.Client` models the page as written, so its `OnMouseDown` follows `Click`. `Board.ClicksAgreeWithIntended` shows the two handlers agree on every sequence of clicks in which no move starts from a square without a piece.
