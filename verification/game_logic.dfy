/** The game state of 5x5 tic-tac-toe, four in a row to win.

    The module-level variables of the game (board, occupied-square count,
    game-over flag, winner, winning row and the board history of the
    current game) are the fields of one Game object. Placing a token
    updates the board, records a snapshot of it, and from the seventh token
    on scans for four in a row or a full board. A finished game is written
    out as one line of text: the winner, then every recorded board as a
    string of 25 digits, separated by commas.
 */
module GameLogic {
  import opened GameStates

  datatype Option<T> = None | Some(value: T)

  predicate InRange(x: int, y: int) {
    0 <= x <= 4 && 0 <= y <= 4
  }

  // ---------------------------------------------------------------------
  // Four in a row
  // ---------------------------------------------------------------------

  /** The k-th cell from (x, y) in direction (i, j) is on the board and holds t. */
  predicate Matches(b: Board, x: int, y: int, i: int, j: int, k: int, t: int)
    requires IsBoard(b)
  {
    InRange(x + k * i, y + k * j) && b[x + k * i][y + k * j] == t
  }

  /** A candidate line: start cell (x, y) and direction (i, j). */
  datatype Line = Line(x: int, y: int, i: int, j: int)

  /** Four in a row: a nonzero token at (x, y), a neighbour direction other
      than (0, 0), and the next three cells that way on the board holding
      the same token. */
  predicate IsWinningLine(b: Board, l: Line)
    requires IsBoard(b)
  {
    InRange(l.x, l.y) && -1 <= l.i <= 1 && -1 <= l.j <= 1 && !(l.i == 0 && l.j == 0)
    && b[l.x][l.y] != 0
    && forall k :: 1 <= k <= 3 ==> Matches(b, l.x, l.y, l.i, l.j, k, b[l.x][l.y])
  }

  /** The four coordinates of a line, from its start cell outwards. */
  function LineCells(l: Line): (cells: seq<(int, int)>)
    ensures |cells| == 4
    ensures cells[0] == (l.x, l.y)
  {
    seq(4, k => (l.x + k * l.i, l.y + k * l.j))
  }

  /** Every cell of a winning line is on the board and holds its token. */
  lemma WinningLineCells(b: Board, l: Line)
    requires IsBoard(b) && IsWinningLine(b, l)
    ensures forall k :: 0 <= k < 4 ==>
              InRange(LineCells(l)[k].0, LineCells(l)[k].1) && b[LineCells(l)[k].0][LineCells(l)[k].1] == b[l.x][l.y]
  {
    forall k | 0 <= k < 4
      ensures InRange(LineCells(l)[k].0, LineCells(l)[k].1)
      ensures b[LineCells(l)[k].0][LineCells(l)[k].1] == b[l.x][l.y]
    {
      if k > 0 {
        assert Matches(b, l.x, l.y, l.i, l.j, k, b[l.x][l.y]);
      }
    }
  }

  /** The position of a line in the scan order: cells in row-major order,
      and for each cell the directions with i outer and j inner, each
      running -1, 0, 1. */
  function Rank(l: Line): (r: int) {
    9 * (5 * l.x + l.y) + 3 * (l.i + 1) + (l.j + 1)
  }

  /** The candidate at cell number c (row-major) and direction number d. */
  function Candidate(c: int, d: int): (l: Line) {
    Line(c / 5, c % 5, d / 3 - 1, d % 3 - 1)
  }

  /** A candidate with a valid cell and direction sits at its own rank. */
  lemma CandidateAtRank(m: Line, c: int, d: int)
    requires InRange(m.x, m.y) && -1 <= m.i <= 1 && -1 <= m.j <= 1
    requires 0 <= d < 9 && Rank(m) == 9 * c + d
    ensures m == Candidate(c, d)
  {
    var cell, dir := 5 * m.x + m.y, 3 * (m.i + 1) + (m.j + 1);
    assert 9 * cell + dir == 9 * c + d;
    assert cell == c && dir == d;
  }

  lemma CellNumber(x: int, y: int)
    requires InRange(x, y)
    ensures (5 * x + y) / 5 == x && (5 * x + y) % 5 == y
  {
  }

  /** The first winning line at or after cell c, direction d, in scan order. */
  function FirstLineFrom(b: Board, c: nat, d: nat): (r: Option<Line>)
    requires IsBoard(b) && d <= 9
    ensures r.Some? ==> IsWinningLine(b, r.value)
    decreases 25 - c, 9 - d
  {
    if c >= 25 then None
    else if d == 9 then FirstLineFrom(b, c + 1, 0)
    else if IsWinningLine(b, Candidate(c, d)) then Some(Candidate(c, d))
    else FirstLineFrom(b, c, d + 1)
  }

  /** The first winning line of the whole scan. */
  function FirstLine(b: Board): (r: Option<Line>)
    requires IsBoard(b)
    ensures r.Some? ==> IsWinningLine(b, r.value)
  {
    FirstLineFrom(b, 0, 0)
  }

  lemma {:induction false} FirstLineFromSpec(b: Board, c: nat, d: nat)
    requires IsBoard(b) && d <= 9
    ensures match FirstLineFrom(b, c, d)
      case Some(l) =>
        IsWinningLine(b, l) && 9 * c + d <= Rank(l)
        && forall m :: IsWinningLine(b, m) && 9 * c + d <= Rank(m) ==> Rank(l) <= Rank(m)
      case None =>
        forall m :: IsWinningLine(b, m) ==> Rank(m) < 9 * c + d
    decreases 25 - c, 9 - d
  {
    if c >= 25 {
    } else if d == 9 {
      FirstLineFromSpec(b, c + 1, 0);
    } else {
      var l := Candidate(c, d);
      assert Rank(l) == 9 * c + d;
      if !IsWinningLine(b, l) {
        FirstLineFromSpec(b, c, d + 1);
        forall m | IsWinningLine(b, m) && Rank(m) == 9 * c + d
          ensures false
        {
          CandidateAtRank(m, c, d);
        }
      }
    }
  }

  /** The scan finds a winning line exactly when there is one, and then the
      first in scan order; its start cell holds a nonzero token. */
  lemma FirstLineSpec(b: Board)
    requires IsBoard(b)
    ensures match FirstLine(b)
      case Some(l) =>
        IsWinningLine(b, l) && b[l.x][l.y] != 0
        && forall m :: IsWinningLine(b, m) ==> Rank(l) <= Rank(m)
      case None =>
        forall m :: !IsWinningLine(b, m)
  {
    FirstLineFromSpec(b, 0, 0);
  }

  /** No winning line comes before position r of the scan order. */
  ghost predicate NoLineBefore(b: Board, r: int)
    requires IsBoard(b)
  {
    forall m :: IsWinningLine(b, m) ==> r <= Rank(m)
  }

  /** A winning line with none before it is the one the scan finds. */
  lemma FirstLineIs(b: Board, l: Line)
    requires IsBoard(b) && IsWinningLine(b, l) && NoLineBefore(b, Rank(l))
    ensures FirstLine(b) == Some(l)
  {
    FirstLineSpec(b);
    var l' := FirstLine(b).value;
    CandidateAtRank(l, Rank(l) / 9, Rank(l) % 9);
    CandidateAtRank(l', Rank(l) / 9, Rank(l) % 9);
  }

  /** With no winning line before the end of the order the scan finds none. */
  lemma NoLineAtAll(b: Board)
    requires IsBoard(b) && NoLineBefore(b, 225)
    ensures FirstLine(b) == None
  {
    FirstLineSpec(b);
  }

  /** Passing over a candidate that is not a winning line. */
  lemma NoLineStep(b: Board, l: Line)
    requires IsBoard(b) && InRange(l.x, l.y) && -1 <= l.i <= 1 && -1 <= l.j <= 1
    requires NoLineBefore(b, Rank(l)) && !IsWinningLine(b, l)
    ensures NoLineBefore(b, Rank(l) + 1)
  {
    forall m | IsWinningLine(b, m) && Rank(m) == Rank(l)
      ensures false
    {
      CandidateAtRank(l, Rank(l) / 9, Rank(l) % 9);
      CandidateAtRank(m, Rank(l) / 9, Rank(l) % 9);
    }
  }

  /** An empty cell starts no line, so the scan passes over all nine of its
      directions. */
  lemma EmptyCellSkipped(b: Board, x: int, y: int)
    requires IsBoard(b) && InRange(x, y) && b[x][y] == 0
    requires NoLineBefore(b, 9 * (5 * x + y))
    ensures NoLineBefore(b, 9 * (5 * x + y) + 9)
  {
    var c := 5 * x + y;
    forall m | IsWinningLine(b, m) && 9 * c <= Rank(m) < 9 * c + 9
      ensures false
    {
      CandidateAtRank(m, c, Rank(m) - 9 * c);
      CellNumber(x, y);
    }
  }

  // ---------------------------------------------------------------------
  // The game record
  // ---------------------------------------------------------------------

  function DigitChar(d: int): (c: char)
    requires 0 <= d <= 9
  {
    "0123456789"[d]
  }

  function NatToString(n: nat): (s: string)
    decreases n
  {
    if n < 10 then [DigitChar(n)] else NatToString(n / 10) + [DigitChar(n % 10)]
  }

  /** Python's str() of an integer: decimal digits, a minus sign if negative. */
  function IntToString(n: int): (s: string) {
    if n < 0 then "-" + NatToString(-n) else NatToString(n)
  }

  /** One recorded board as text: the text of every value, in order. */
  function StateString(state: seq<int>): (s: string) {
    if state == [] then "" else StateString(state[..|state| - 1]) + IntToString(state[|state| - 1])
  }

  lemma StateStringStep(state: seq<int>, s: int)
    requires 0 <= s < |state|
    ensures StateString(state[..s + 1]) == StateString(state[..s]) + IntToString(state[s])
  {
    assert state[..s + 1][..s] == state[..s];
  }

  function HistoryStrings(history: seq<seq<int>>): (strs: seq<string>)
    ensures |strs| == |history|
  {
    seq(|history|, k requires 0 <= k < |history| => StateString(history[k]))
  }

  lemma HistoryStringsStep(history: seq<seq<int>>, i: int)
    requires 0 <= i < |history|
    ensures HistoryStrings(history[..i + 1]) == HistoryStrings(history[..i]) + [StateString(history[i])]
  {
    assert HistoryStrings(history[..i + 1])[..i] == HistoryStrings(history[..i]);
  }

  /** Python's sep.join(strs). */
  function Join(strs: seq<string>, sep: string): (s: string) {
    if |strs| == 0 then ""
    else if |strs| == 1 then strs[0]
    else strs[0] + sep + Join(strs[1..], sep)
  }

  /** The line a finished game appends to the log. */
  function RecordLine(winner: int, history: seq<seq<int>>): (line: string) {
    IntToString(winner) + "," + Join(HistoryStrings(history), ",") + "\n"
  }

  /** A list of trits is written one digit per value. */
  lemma {:induction false} StateStringOfTrits(state: seq<int>)
    requires forall k :: 0 <= k < |state| ==> 0 <= state[k] <= 2
    ensures |StateString(state)| == |state|
    ensures forall k :: 0 <= k < |state| ==> StateString(state)[k] == DigitChar(state[k])
    decreases |state|
  {
    if state != [] {
      var init := state[..|state| - 1];
      StateStringOfTrits(init);
    }
  }

  /** Joining strings of 25 characters with commas puts string k at offset
      26 * k and a comma right after every string but the last. */
  lemma {:induction false} JoinLayout(strs: seq<string>)
    requires |strs| > 0
    requires forall k :: 0 <= k < |strs| ==> |strs[k]| == 25
    ensures |Join(strs, ",")| == 26 * |strs| - 1
    ensures forall k, c :: 0 <= k < |strs| && 0 <= c < 25 ==> Join(strs, ",")[26 * k + c] == strs[k][c]
    ensures forall k :: 0 <= k < |strs| - 1 ==> Join(strs, ",")[26 * k + 25] == ','
    decreases |strs|
  {
    if |strs| > 1 {
      var rest := strs[1..];
      JoinLayout(rest);
      var j := Join(strs, ",");
      assert j == strs[0] + "," + Join(rest, ",");
      forall k, c | 0 <= k < |strs| && 0 <= c < 25
        ensures j[26 * k + c] == strs[k][c]
      {
        if k > 0 {
          assert strs[k] == rest[k - 1];
          assert j[26 * k + c] == Join(rest, ",")[26 * (k - 1) + c];
        }
      }
      forall k | 0 <= k < |strs| - 1
        ensures j[26 * k + 25] == ','
      {
        if k > 0 {
          assert j[26 * k + 25] == Join(rest, ",")[26 * (k - 1) + 25];
        }
      }
    }
  }

  /** Every recorded board of trits is written as 25 digits. */
  lemma HistoryStringsOfTrits(history: seq<seq<int>>)
    requires forall k :: 0 <= k < |history| ==> |history[k]| == 25
    requires forall k, c :: 0 <= k < |history| && 0 <= c < 25 ==> 0 <= history[k][c] <= 2
    ensures forall k :: 0 <= k < |history| ==> |HistoryStrings(history)[k]| == 25
    ensures forall k, c :: 0 <= k < |history| && 0 <= c < 25 ==>
              HistoryStrings(history)[k][c] == DigitChar(history[k][c])
  {
    var strs := HistoryStrings(history);
    forall k | 0 <= k < |history|
      ensures |strs[k]| == 25
      ensures forall c :: 0 <= c < 25 ==> strs[k][c] == DigitChar(history[k][c])
    {
      StateStringOfTrits(history[k]);
    }
  }

  /** A record line is the winner's digit, a comma, the joined boards and a
      line break. */
  lemma RecordLineShape(winner: int, history: seq<seq<int>>)
    requires 0 <= winner <= 2
    ensures RecordLine(winner, history) == [DigitChar(winner)] + "," + Join(HistoryStrings(history), ",") + "\n"
  {
    assert IntToString(winner) == [DigitChar(winner)];
  }

  /** The layout of a game record: the winner's digit and a comma, then one
      25-digit string per recorded board in recording order, separated by
      commas, then a line break. */
  lemma RecordLayout(winner: int, history: seq<seq<int>>)
    requires 0 <= winner <= 2
    requires forall k :: 0 <= k < |history| ==> |history[k]| == 25
    requires forall k, c :: 0 <= k < |history| && 0 <= c < 25 ==> 0 <= history[k][c] <= 2
    ensures var line := RecordLine(winner, history);
            |line| == (if history == [] then 3 else 26 * |history| + 2)
            && line[0] == DigitChar(winner) && line[1] == ','
            && line[|line| - 1] == '\n'
            && (forall k, c :: 0 <= k < |history| && 0 <= c < 25 ==> line[2 + 26 * k + c] == DigitChar(history[k][c]))
            && (forall k :: 0 <= k < |history| - 1 ==> line[2 + 26 * k + 25] == ',')
  {
    var strs := HistoryStrings(history);
    var joined := Join(strs, ",");
    var line := RecordLine(winner, history);
    RecordLineShape(winner, history);
    assert forall i :: 0 <= i < |joined| ==> line[2 + i] == joined[i];
    if history != [] {
      HistoryStringsOfTrits(history);
      JoinLayout(strs);
    }
  }

  // ---------------------------------------------------------------------
  // The game
  // ---------------------------------------------------------------------

  class Game {
    var board: Board
    var usedSquares: int
    var gameOver: bool
    var winner: int
    var winningRow: seq<(int, int)>
    var boardHistory: seq<seq<int>>

    /** The board is 5x5; one snapshot of 25 cells is recorded per
        placement, free square or not, and usedSquares counts placements;
        a winner is set exactly when a winning row of on-board coordinates
        (four per win) is recorded. */
    ghost predicate Valid()
      reads this
    {
      IsBoard(board)
      && usedSquares == |boardHistory|
      && (forall k :: 0 <= k < |boardHistory| ==> |boardHistory[k]| == 25)
      && (winner != 0 <==> winningRow != [])
      && |winningRow| % 4 == 0
      && (forall k :: 0 <= k < |winningRow| ==> InRange(winningRow[k].0, winningRow[k].1))
    }

    /** The state at program start and after reset. */
    ghost predicate Initial()
      reads this
    {
      board == EmptyBoard() && usedSquares == 0 && !gameOver && winner == 0
      && winningRow == [] && boardHistory == []
    }

    /** What the endgame scan leaves behind, given the fields before it: on
        a win, the game is over, the winner is the line's token, the line's
        four cells are appended to the winning row and the record line is
        produced; otherwise only a full board ends the game. */
    ghost predicate ScanDone(over0: bool, winner0: int, row0: seq<(int, int)>, logged: Option<string>)
      reads this
      requires IsBoard(board)
    {
      match FirstLine(board)
      case Some(l) =>
        gameOver && winner == board[l.x][l.y] && winningRow == row0 + LineCells(l)
        && logged == Some(RecordLine(winner, boardHistory))
      case None =>
        gameOver == (over0 || usedSquares >= 25) && winner == winner0 && winningRow == row0
        && logged == None
    }

    constructor ()
      ensures Valid() && Initial()
    {
      board := EmptyBoard();
      usedSquares := 0;
      gameOver := false;
      winner := 0;
      winningRow := [];
      boardHistory := [];
    }

    /** reset: back to the initial state. */
    method Reset()
      modifies this
      ensures Valid() && Initial()
    {
      board := EmptyBoard();
      usedSquares := 0;
      winner := 0;
      winningRow := [];
      gameOver := false;
      boardHistory := [];
    }

    /** record_board: append the row-major flattening of the board. */
    method RecordBoard()
      requires IsBoard(board)
      modifies this`boardHistory
      ensures boardHistory == old(boardHistory) + [Flatten(board)]
      ensures |Flatten(board)| == 25
      ensures forall i, j :: 0 <= i < 5 && 0 <= j < 5 ==> Flatten(board)[5 * i + j] == board[i][j]
    {
      FlattenRowMajor(board);
      boardHistory := boardHistory + [Flatten(board)];
    }

    /** record_game: the line written to the game log (the file append
        itself is not modelled). Each snapshot is turned into a string value
        by value, then the strings are joined with commas. */
    method RecordGame() returns (line: string)
      ensures line == RecordLine(winner, boardHistory)
    {
      var history := boardHistory;
      var condensed: seq<string> := [];
      for i := 0 to |history|
        invariant condensed == HistoryStrings(history[..i])
      {
        var state := history[i];
        ghost var done := condensed;
        condensed := condensed + [""];
        for s := 0 to |state|
          invariant condensed == done + [StateString(state[..s])]
        {
          StateStringStep(state, s);
          ghost var next := StateString(state[..s + 1]);
          assert (done + [StateString(state[..s])])[i := next] == done + [next];
          condensed := condensed[i := condensed[i] + IntToString(state[s])];
        }
        assert state[..|state|] == state;
        HistoryStringsStep(history, i);
      }
      assert history[..|history|] == history;
      line := IntToString(winner) + "," + Join(condensed, ",") + "\n";
    }

    /** The test update_game_state makes for one occupied cell (x, y) and one
        direction (i, j): skip (0, 0); the neighbour must be on the board and
        hold the same token; then the cells two and three steps away are
        checked the same way. */
    method CheckDirection(x: int, y: int, i: int, j: int) returns (fourInARow: bool)
      requires IsBoard(board) && InRange(x, y) && board[x][y] != 0
      requires -1 <= i <= 1 && -1 <= j <= 1
      ensures fourInARow <==> IsWinningLine(board, Line(x, y, i, j))
    {
      var token := board[x][y];
      fourInARow := false;
      if i == 0 && j == 0 {
        return;
      }
      if x + i > 4 || x + i < 0 || y + j > 4 || y + j < 0 || board[x + i][y + j] != token {
        assert !Matches(board, x, y, i, j, 1, token);
        return;
      }
      assert Matches(board, x, y, i, j, 1, token);
      fourInARow := true;
      for k := 2 to 4
        invariant fourInARow <==> forall m :: 2 <= m < k ==> Matches(board, x, y, i, j, m, token)
      {
        if x + k * i > 4 || x + k * i < 0 {
          assert !Matches(board, x, y, i, j, k, token);
          fourInARow := false;
        } else if y + k * j > 4 || y + k * j < 0 {
          assert !Matches(board, x, y, i, j, k, token);
          fourInARow := false;
        } else if board[x + k * i][y + k * j] != token {
          assert !Matches(board, x, y, i, j, k, token);
          fourInARow := false;
        } else {
          assert Matches(board, x, y, i, j, k, token);
        }
      }
    }

    /** What update_game_state does on finding four in a row: end the game,
        set the winner to the line's token, append the line's four
        coordinates to the winning row and produce the game record. */
    method DeclareWinner(l: Line) returns (logged: Option<string>)
      requires Valid() && IsWinningLine(board, l)
      modifies this`gameOver, this`winner, this`winningRow
      ensures Valid()
      ensures gameOver && winner == board[l.x][l.y] && winner != 0
      ensures winningRow == old(winningRow) + LineCells(l)
      ensures logged == Some(RecordLine(winner, boardHistory))
    {
      WinningLineCells(board, l);
      gameOver := true;
      winner := board[l.x][l.y];
      for k := 0 to 4
        invariant gameOver && winner == board[l.x][l.y]
        invariant winningRow == old(winningRow) + LineCells(l)[..k]
      {
        assert LineCells(l)[..k + 1] == LineCells(l)[..k] + [(l.x + k * l.i, l.y + k * l.j)];
        winningRow := winningRow + [(l.x + k * l.i, l.y + k * l.j)];
      }
      assert LineCells(l)[..4] == LineCells(l);
      forall k | 0 <= k < |winningRow|
        ensures InRange(winningRow[k].0, winningRow[k].1)
      {
        if k >= |old(winningRow)| {
          assert winningRow[k] == LineCells(l)[k - |old(winningRow)|];
        }
      }
      var line := RecordGame();
      logged := Some(line);
    }

    /** update_game_state: scan every occupied cell and every neighbour
        direction for four in a row; stop at the first one found, otherwise
        end the game if the board is full. */
    method UpdateGameState() returns (logged: Option<string>)
      requires Valid()
      modifies this`gameOver, this`winner, this`winningRow
      ensures Valid()
      ensures ScanDone(old(gameOver), old(winner), old(winningRow), logged)
      ensures winner == old(winner) || winner != 0
    {
      ghost var b := board;
      for x := 0 to 5
        invariant gameOver == old(gameOver) && winner == old(winner) && winningRow == old(winningRow)
        invariant NoLineBefore(b, 45 * x)
      {
        for y := 0 to 5
          invariant gameOver == old(gameOver) && winner == old(winner) && winningRow == old(winningRow)
          invariant NoLineBefore(b, 9 * (5 * x + y))
        {
          var token := board[x][y];
          if token != 0 {
            for i := -1 to 2
              invariant gameOver == old(gameOver) && winner == old(winner) && winningRow == old(winningRow)
              invariant NoLineBefore(b, 9 * (5 * x + y) + 3 * (i + 1))
            {
              for j := -1 to 2
                invariant gameOver == old(gameOver) && winner == old(winner) && winningRow == old(winningRow)
                invariant NoLineBefore(b, 9 * (5 * x + y) + 3 * (i + 1) + (j + 1))
              {
                var l := Line(x, y, i, j);
                var fourInARow := CheckDirection(x, y, i, j);
                if fourInARow {
                  FirstLineIs(b, l);
                  logged := DeclareWinner(l);
                  return;
                }
                NoLineStep(b, l);
              }
            }
          } else {
            EmptyCellSkipped(b, x, y);
          }
        }
      }
      NoLineAtAll(b);
      if usedSquares >= 25 {
        gameOver := true;
      }
      logged := None;
    }

    /** place_token: put the token on the board, count the square, record
        the board and, from the seventh token on, run the endgame scan. */
    method PlaceToken(placedToken: int, tokenX: int, tokenY: int) returns (logged: Option<string>)
      requires Valid() && InRange(tokenX, tokenY)
      modifies this
      ensures Valid()
      ensures forall i, j :: 0 <= i < 5 && 0 <= j < 5 ==>
                board[i][j] == if i == tokenX && j == tokenY then placedToken else old(board)[i][j]
      ensures usedSquares == old(usedSquares) + 1
      ensures boardHistory == old(boardHistory) + [Flatten(board)]
      ensures forall i, j :: 0 <= i < 5 && 0 <= j < 5 ==> boardHistory[|boardHistory| - 1][5 * i + j] == board[i][j]
      ensures usedSquares > 6 ==> ScanDone(old(gameOver), old(winner), old(winningRow), logged)
      ensures usedSquares <= 6 ==>
                gameOver == old(gameOver) && winner == old(winner) && winningRow == old(winningRow) && logged == None
    {
      board := board[tokenX := board[tokenX][tokenY := placedToken]];
      usedSquares := usedSquares + 1;
      RecordBoard();
      if usedSquares > 6 {
        logged := UpdateGameState();
      } else {
        logged := None;
      }
    }
  }
}
