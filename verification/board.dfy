/**
  The 3x3 tic-tac-toe board and its rules.

  Cells are numbered row by row:
      0 | 1 | 2
      3 | 4 | 5
      6 | 7 | 8
  A board is an immutable sequence of nine cells; an operation that
  `TicTacToe` performs on its `self.board` list returns the new board instead.
 */
module Board {
  import opened Wrappers

  datatype Mark = X | O

  datatype Cell = Empty | Filled(mark: Mark)

  /** The result of `check_winner`: `None`, a winning mark, or 'Draw'. */
  datatype Outcome = Ongoing | Win(winner: Mark) | Draw

  /** The three `ValueError`s of `make_move`, in the order they are checked. */
  datatype MoveError = PositionOutOfRange | UnknownPlayer | Occupied

  type Board = b: seq<Cell> | |b| == 9
    witness [Empty, Empty, Empty, Empty, Empty, Empty, Empty, Empty, Empty]

  /** The mark that is not `m`. */
  function Other(m: Mark): Mark {
    if m == X then O else X
  }

  /** The one-letter string `TicTacToe` stores for a mark. */
  function MarkName(m: Mark): string {
    if m == X then "X" else "O"
  }

  /** Reads a player symbol; only "X" and "O" are marks. */
  function ParseMark(s: string): (r: Option<Mark>)
    ensures r.Some? ==> MarkName(r.value) == s
    ensures r.None? <==> s != "X" && s != "O"
  {
    if s == "X" then Some(X) else if s == "O" then Some(O) else None
  }

  /** Every cell is empty. */
  predicate Blank(b: Board) {
    forall i :: 0 <= i < 9 ==> b[i] == Empty
  }

  /** A fresh board, and the board after `reset`: nine empty cells. */
  function Reset(): (b: Board)
    ensures Blank(b)
  {
    [Empty, Empty, Empty, Empty, Empty, Empty, Empty, Empty, Empty]
  }

  /** `TicTacToe()`: a new game starts on the reset board. */
  method NewGame() returns (b: Board)
    ensures Blank(b)
  {
    b := Reset();
  }

  /** `get_state`: a snapshot of the nine cells, equal to the board cell by
      cell. Boards are immutable here, so later moves cannot reach it. */
  function GetState(b: Board): (s: seq<Cell>)
    ensures |s| == 9
    ensures forall i :: 0 <= i < 9 ==> s[i] == b[i]
  {
    b[..]
  }

  /** There is only one blank board. */
  lemma BlankIsReset(b: Board)
    requires Blank(b)
    ensures b == Reset()
  {
    assert forall i :: 0 <= i < 9 ==> b[i] == Reset()[i];
  }

  /** On a blank board every cell is available: the moves are exactly 0, 1, ..., 8. */
  lemma FreshBoardMoves(b: Board)
    requires Blank(b)
    ensures |AvailableMoves(b)| == 9
    ensures forall j :: 0 <= j < 9 ==> AvailableMoves(b)[j] == j
  {
    AllEmptyFrom(b, 0);
  }

  /** On a board with no marks every index from `i` on is available, in order. */
  lemma {:induction false} AllEmptyFrom(b: Board, i: nat)
    requires i <= 9
    requires forall k :: 0 <= k < 9 ==> b[k] == Empty
    ensures |AvailableFrom(b, i)| == 9 - i
    ensures forall j :: 0 <= j < 9 - i ==> AvailableFrom(b, i)[j] == i + j
    decreases 9 - i
  {
    if i < 9 {
      AllEmptyFrom(b, i + 1);
    }
  }

  /** True when no cell is empty. */
  predicate Full(b: Board) {
    forall i :: 0 <= i < 9 ==> b[i] != Empty
  }

  /** The loop of `get_available_moves` from index `i` on: exactly the
      empty cells at index `i` or later. */
  function AvailableFrom(b: Board, i: nat): (r: seq<int>)
    requires i <= 9
    ensures forall k :: k in r <==> i <= k < 9 && b[k] == Empty
    ensures forall j :: 0 <= j < |r| ==> i <= r[j] < 9
    decreases 9 - i
  {
    if i == 9 then []
    else if b[i] == Empty then [i] + AvailableFrom(b, i + 1)
    else AvailableFrom(b, i + 1)
  }

  /** The loop from `i` on lists its cells in ascending order. */
  lemma {:induction false} AscendingFrom(b: Board, i: nat)
    requires i <= 9
    ensures forall j, k :: 0 <= j < k < |AvailableFrom(b, i)| ==> AvailableFrom(b, i)[j] < AvailableFrom(b, i)[k]
    decreases 9 - i
  {
    if i < 9 {
      AscendingFrom(b, i + 1);
    }
  }

  /** `get_available_moves`: exactly the indices of the empty cells; none
      when the board is full. */
  function AvailableMoves(b: Board): (r: seq<int>)
    ensures forall k :: k in r <==> 0 <= k < 9 && b[k] == Empty
    ensures r == [] <==> Full(b)
  {
    AvailableFrom(b, 0)
  }

  /** `get_available_moves` lists the empty cells in ascending order, each
      once. */
  lemma MovesAscending(b: Board)
    ensures forall j, k :: 0 <= j < k < |AvailableMoves(b)| ==> AvailableMoves(b)[j] < AvailableMoves(b)[k]
  {
    AscendingFrom(b, 0);
  }

  /** The number of empty cells. */
  function EmptyCount(b: Board): nat {
    |AvailableMoves(b)|
  }

  /** Writes `m` into cell `pos`, whatever it held. */
  function Place(b: Board, pos: int, m: Mark): Board
    requires 0 <= pos < 9
  {
    b[pos := Filled(m)]
  }

  /** Clears cell `pos`: the search's `board.board[move] = None`. */
  function Undo(b: Board, pos: int): Board
    requires 0 <= pos < 9
  {
    b[pos := Empty]
  }

  /** `make_move`: the three legality checks in their order, then the write. */
  function MakeMove(b: Board, position: int, player: string): (r: Result<Board, MoveError>)
    ensures (position < 0 || position > 8) ==> r == Failure(PositionOutOfRange)
    ensures 0 <= position <= 8 && player != "X" && player != "O" ==> r == Failure(UnknownPlayer)
    ensures 0 <= position <= 8 && (player == "X" || player == "O") && b[position] != Empty
            ==> r == Failure(Occupied)
    ensures r.Success? <==> 0 <= position < 9 && ParseMark(player).Some? && b[position] == Empty
    ensures r.Success? ==> r.value[position] == Filled(ParseMark(player).value)
    ensures r.Success? ==> forall i :: 0 <= i < 9 && i != position ==> r.value[i] == b[i]
    ensures r.Success? ==> EmptyCount(r.value) == EmptyCount(b) - 1
    ensures r.Success? ==> forall k :: k in AvailableMoves(r.value) <==> k in AvailableMoves(b) && k != position
  {
    if position < 0 || position > 8 then Failure(PositionOutOfRange)
    else if ParseMark(player).None? then Failure(UnknownPlayer)
    else if b[position] != Empty then Failure(Occupied)
    else
      PlaceRemovesMove(b, position, ParseMark(player).value);
      Success(Place(b, position, ParseMark(player).value))
  }

  /** A move on an available cell with a mark's own name always succeeds, and
      it is exactly `Place`. */
  lemma MoveSucceeds(b: Board, pos: int, m: Mark)
    requires pos in AvailableMoves(b)
    ensures MakeMove(b, pos, MarkName(m)) == Success(Place(b, pos, m))
  {
    assert ParseMark(MarkName(m)) == Some(m);
  }

  /** Cells from `i` on agree, so the empty cells from `i` on agree. */
  lemma {:induction false} AvailableFromAgree(b: Board, c: Board, i: nat)
    requires i <= 9
    requires forall k :: i <= k < 9 ==> b[k] == c[k]
    ensures AvailableFrom(b, i) == AvailableFrom(c, i)
    decreases 9 - i
  {
    if i < 9 {
      AvailableFromAgree(b, c, i + 1);
    }
  }

  /** Filling the empty cell `pos` shortens the move list from `i` by one. */
  lemma {:induction false} PlaceShortensFrom(b: Board, pos: int, m: Mark, i: nat)
    requires 0 <= pos < 9 && b[pos] == Empty && i <= pos
    ensures |AvailableFrom(Place(b, pos, m), i)| == |AvailableFrom(b, i)| - 1
    decreases 9 - i
  {
    var c := Place(b, pos, m);
    if i == pos {
      AvailableFromAgree(b, c, i + 1);
    } else {
      PlaceShortensFrom(b, pos, m, i + 1);
    }
  }

  /** A successful move takes one entry out of the available moves. */
  lemma PlaceRemovesMove(b: Board, pos: int, m: Mark)
    requires 0 <= pos < 9 && b[pos] == Empty
    ensures EmptyCount(Place(b, pos, m)) == EmptyCount(b) - 1
    ensures forall k :: k in AvailableMoves(Place(b, pos, m)) <==> k in AvailableMoves(b) && k != pos
  {
    PlaceShortensFrom(b, pos, m, 0);
  }

  /** Undoing a move on a cell that was empty gives back the board as it was. */
  lemma UndoRestores(b: Board, pos: int, m: Mark)
    requires 0 <= pos < 9 && b[pos] == Empty
    ensures Undo(Place(b, pos, m), pos) == b
  {
  }

  /** The eight winning lines, in the order `check_winner` scans them:
      rows, then columns, then diagonals. */
  function Line(k: nat): (l: (nat, nat, nat))
    requires k < 8
    ensures l.0 < 9 && l.1 < 9 && l.2 < 9
  {
    if k == 0 then (0, 1, 2)
    else if k == 1 then (3, 4, 5)
    else if k == 2 then (6, 7, 8)
    else if k == 3 then (0, 3, 6)
    else if k == 4 then (1, 4, 7)
    else if k == 5 then (2, 5, 8)
    else if k == 6 then (0, 4, 8)
    else (2, 4, 6)
  }

  /** Line `k` holds three equal marks. */
  predicate LineWon(b: Board, k: nat)
    requires k < 8
  {
    var (i, j, l) := Line(k);
    b[i] != Empty && b[i] == b[j] && b[j] == b[l]
  }

  /** Some line holds three equal marks. */
  predicate AnyLineWon(b: Board) {
    exists k :: 0 <= k < 8 && LineWon(b, k)
  }

  /** Line `k` is won and no earlier line in scan order is. */
  predicate FirstWonLine(b: Board, k: nat)
    requires k < 8
  {
    LineWon(b, k) && forall j :: 0 <= j < k ==> !LineWon(b, j)
  }

  /** The first won line in scan order holds `m`. */
  predicate WonBy(b: Board, m: Mark) {
    exists k :: 0 <= k < 8 && FirstWonLine(b, k) && b[Line(k).0] == Filled(m)
  }

  /** At most one line is the first won one. */
  lemma FirstWonLineUnique(b: Board, k: nat, k': nat)
    requires k < 8 && k' < 8 && FirstWonLine(b, k) && FirstWonLine(b, k')
    ensures k == k'
  {
  }

  /** The first won line at index `k` or later. */
  function ScanLines(b: Board, k: nat): (r: Option<nat>)
    requires k <= 8
    ensures r.Some? ==> k <= r.value < 8 && LineWon(b, r.value)
                        && forall j :: k <= j < r.value ==> !LineWon(b, j)
    ensures r.None? ==> forall j :: k <= j < 8 ==> !LineWon(b, j)
    decreases 8 - k
  {
    if k == 8 then None
    else if LineWon(b, k) then Some(k)
    else ScanLines(b, k + 1)
  }

  /** `check_winner`: the mark of the first won line; otherwise 'Draw' on a
      full board; otherwise the game is still on. */
  function CheckWinner(b: Board): (r: Outcome)
    ensures r.Win? <==> AnyLineWon(b)
    ensures r.Win? ==> exists k :: 0 <= k < 8 && FirstWonLine(b, k) && b[Line(k).0] == Filled(r.winner)
    ensures r == Draw <==> !AnyLineWon(b) && Full(b)
    ensures r == Ongoing <==> !AnyLineWon(b) && !Full(b)
  {
    match ScanLines(b, 0)
    case Some(k) => Win(b[Line(k).0].mark)
    case None => if Full(b) then Draw else Ongoing
  }

  /** `check_winner` names `m` exactly when the first won line in scan order
      holds `m`, even on a board where both marks have a line. */
  lemma WinnerIsFirstLine(b: Board, m: Mark)
    ensures CheckWinner(b) == Win(m) <==> WonBy(b, m)
  {
    if WonBy(b, m) {
      var k :| 0 <= k < 8 && FirstWonLine(b, k) && b[Line(k).0] == Filled(m);
      assert CheckWinner(b).Win?;
      var k' :| 0 <= k' < 8 && FirstWonLine(b, k') && b[Line(k').0] == Filled(CheckWinner(b).winner);
      FirstWonLineUnique(b, k, k');
    }
  }

  /** A game is on, drawn, won by `m` or won by the other mark. */
  lemma OutcomeCases(r: Outcome, m: Mark)
    ensures r == Ongoing || r == Draw || r == Win(m) || r == Win(Other(m))
  {
  }

  /** A move by `m` on a board where no line is won cannot make the other mark win:
      every line it completes is a line of `m`. */
  lemma MoveCannotWinForOther(b: Board, pos: int, m: Mark)
    requires !AnyLineWon(b) && 0 <= pos < 9
    ensures CheckWinner(Place(b, pos, m)) != Win(Other(m))
  {
    var c := Place(b, pos, m);
    if CheckWinner(c).Win? {
      var k :| 0 <= k < 8 && FirstWonLine(c, k) && c[Line(k).0] == Filled(CheckWinner(c).winner);
      var (i, j, l) := Line(k);
      if i != pos && j != pos && l != pos {
        assert LineWon(b, k);
        assert false;
      }
    }
  }
}
