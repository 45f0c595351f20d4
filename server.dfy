/**
 * The move codec of the web server (js/server.js).
 *
 * A move from the browser is written to the engine's standard input as the decimal
 * strings of its four coordinates, concatenated, followed by a newline. A chunk read from
 * the engine's standard output is turned into a response by reading its characters 0 to 3,
 * one `parseInt` each, as start row, start column, end row and end column; a character that
 * is not a digit (or is missing) reads as NaN, modelled here as `None`.
 */
module Server {
  import opened Wrappers
  import Board

  predicate IsDigit(ch: char)
  {
    '0' <= ch <= '9'
  }

  function DigitChar(d: int): char
    requires 0 <= d <= 9
  {
    (d + '0' as int) as char
  }

  /** The decimal digits of `n`, most significant first, without leading zeros. */
  function NatToString(n: nat): (s: string)
    ensures 1 <= |s|
    ensures forall i :: 0 <= i < |s| ==> IsDigit(s[i])
  {
    if n < 10 then [DigitChar(n)] else NatToString(n / 10) + [DigitChar(n % 10)]
  }

  /**
   * `x.toString()` for a coordinate `x` taken as a mathematical integer. JavaScript agrees for
   * integers of magnitude below 10^21; from there on it writes exponent form, and it writes
   * a fraction for a non-integer number. Neither is modelled.
   */
  function IntToString(x: int): string
  {
    if x < 0 then "-" + NatToString(-x) else NatToString(x)
  }

  /** The line js/server.js:19 writes to the engine for a move. */
  function Encode(m: Board.Move): string
  {
    IntToString(m.start.row) + IntToString(m.start.col) +
    IntToString(m.end.row) + IntToString(m.end.col) + "\n"
  }

  /** `parseInt(chunk[i])`: one character read as a number, `None` for NaN (also past the end). */
  function ParseCharAt(chunk: string, i: nat): (v: Option<int>)
    ensures v.Some? <==> i < |chunk| && IsDigit(chunk[i])
    ensures v.Some? ==> 0 <= v.value <= 9 && DigitChar(v.value) == chunk[i]
  {
    if i < |chunk| && IsDigit(chunk[i]) then Some(chunk[i] as int - '0' as int) else None
  }

  /** A square as the server builds it from a chunk: each coordinate a number or NaN. */
  datatype RawSquare = RawSquare(row: Option<int>, col: Option<int>)

  /** The `{start, end}` object emitted as a `response`. */
  datatype Reply = Reply(start: RawSquare, end: RawSquare)

  /** The response js/server.js:12-15 builds from one chunk of the engine's output. */
  function Decode(chunk: string): Reply
  {
    Reply(RawSquare(ParseCharAt(chunk, 0), ParseCharAt(chunk, 1)),
          RawSquare(ParseCharAt(chunk, 2), ParseCharAt(chunk, 3)))
  }

  /** The move a response carries, when none of its four fields is NaN. */
  function ReplyMove(r: Reply): Option<Board.Move>
  {
    if r.start.row.Some? && r.start.col.Some? && r.end.row.Some? && r.end.col.Some?
    then Some(Board.Move(Board.Square(r.start.row.value, r.start.col.value),
                         Board.Square(r.end.row.value, r.end.col.value)))
    else None
  }

  predicate SingleDigits(m: Board.Move)
  {
    0 <= m.start.row <= 9 && 0 <= m.start.col <= 9 && 0 <= m.end.row <= 9 && 0 <= m.end.col <= 9
  }

  /** A coordinate is written as one character exactly when it is a single decimal digit. */
  lemma {:induction false} IntToStringLength(x: int)
    ensures |IntToString(x)| == 1 <==> 0 <= x <= 9
    ensures 0 <= x <= 9 ==> IntToString(x) == [DigitChar(x)]
  {
    if x >= 10 {
      assert |NatToString(x)| == |NatToString(x / 10)| + 1;
    }
  }

  /**
   * For single-digit coordinates the line is the four digits and a newline; the line is
   * five characters long only then.
   */
  lemma EncodeSingleDigits(m: Board.Move)
    ensures SingleDigits(m) ==>
      Encode(m) == [DigitChar(m.start.row), DigitChar(m.start.col), DigitChar(m.end.row), DigitChar(m.end.col), '\n']
    ensures |Encode(m)| == 5 <==> SingleDigits(m)
    ensures Encode(m)[|Encode(m)| - 1] == '\n'
  {
    IntToStringLength(m.start.row);
    IntToStringLength(m.start.col);
    IntToStringLength(m.end.row);
    IntToStringLength(m.end.col);
    assert 1 <= |IntToString(m.start.row)| && 1 <= |IntToString(m.start.col)|;
    assert 1 <= |IntToString(m.end.row)| && 1 <= |IntToString(m.end.col)|;
  }

  /** The decoder looks at characters 0 to 3 only. */
  lemma DecodeReadsFirstFour(chunk: string, rest: string)
    requires 4 <= |chunk|
    ensures Decode(chunk + rest) == Decode(chunk)
    ensures Decode(chunk) == Decode(chunk[..4])
  {
  }

  /** A response carries a move exactly when the chunk starts with four digits, and then each is 0 to 9. */
  lemma DecodeSucceeds(chunk: string)
    ensures ReplyMove(Decode(chunk)).Some? <==> 4 <= |chunk| && forall i :: 0 <= i < 4 ==> IsDigit(chunk[i])
    ensures ReplyMove(Decode(chunk)).Some? ==> SingleDigits(ReplyMove(Decode(chunk)).value)
  {
    if 4 <= |chunk| && forall i :: 0 <= i < 4 ==> IsDigit(chunk[i]) {
      assert ParseCharAt(chunk, 0).Some? && ParseCharAt(chunk, 1).Some?;
      assert ParseCharAt(chunk, 2).Some? && ParseCharAt(chunk, 3).Some?;
    }
  }

  /** Decoding the line written for a move with single-digit coordinates gives the move back. */
  lemma RoundTrip(m: Board.Move)
    requires SingleDigits(m)
    ensures ReplyMove(Decode(Encode(m))) == Some(m)
  {
    EncodeSingleDigits(m);
    var line := Encode(m);
    assert ParseCharAt(line, 0) == Some(m.start.row);
    assert ParseCharAt(line, 1) == Some(m.start.col);
    assert ParseCharAt(line, 2) == Some(m.end.row);
    assert ParseCharAt(line, 3) == Some(m.end.col);
  }

  /** Encoding the move a chunk starting with four digits carries gives back those digits and a newline. */
  lemma EncodeDecoded(chunk: string)
    requires 4 <= |chunk| && forall i :: 0 <= i < 4 ==> IsDigit(chunk[i])
    ensures ReplyMove(Decode(chunk)).Some?
    ensures Encode(ReplyMove(Decode(chunk)).value) == chunk[..4] + "\n"
  {
    DecodeSucceeds(chunk);
    EncodeSingleDigits(ReplyMove(Decode(chunk)).value);
  }

  /** With a two-digit coordinate the round trip fails: 10,0 to 1,0 is read back as 1,0 to 0,1. */
  lemma TwoDigitsDoNotRoundTrip()
    ensures var m := Board.Move(Board.Square(10, 0), Board.Square(1, 0));
      ReplyMove(Decode(Encode(m))) == Some(Board.Move(Board.Square(1, 0), Board.Square(0, 1)))
  {
    assert IntToString(10) == "10" by {
      assert NatToString(10) == NatToString(1) + [DigitChar(0)];
    }
  }

  /**
   * Every move the client can send on a board of at most ten rows and columns (the page
   * uses six) reaches the engine as a five-character line that decodes back to it.
   */
  lemma ClientMovesRoundTrip(g: Board.Grid, n: nat, m: Board.Move)
    requires n <= 10 && Board.IsSquareGrid(g, n)
    requires Board.OnGrid(g, m.start) && Board.OnGrid(g, m.end)
    ensures |Encode(m)| == 5
    ensures ReplyMove(Decode(Encode(m))) == Some(m)
  {
    EncodeSingleDigits(m);
    RoundTrip(m);
  }
}
