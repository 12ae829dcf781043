/**
  What the two loops against minimax (`TrainingManager._train_vs_minimax` and
  `main.train_vs_minimax`) share. A round is the agent's move followed, if
  the game goes on, by the minimax player's best reply in the other mark;
  the game is checked for an end after each of the two moves.
 */
module MinimaxRounds {
  import opened Wrappers
  import opened Board
  import opened Minimax
  import opened QLearning
  import opened Training

  /** The reply of the minimax player (`ai`, `human`) on the board the
      agent's move of `t` left: `find_best_move`'s choice. */
  function Reply(t: Transition, me: Mark, ai: Mark, human: Mark): Option<int>
    requires Legal(t)
  {
    BestMove(AfterAgent(t, me), ai, human)
  }

  /** A round against minimax that did not end the game: the agent's move left
      the game on, the minimax player answered with its best move in the other
      mark, the game is still on, and the update got reward 0.0 together with
      the board after the reply and that board's moves. */
  predicate MinimaxRound(t: Transition, me: Mark, ai: Mark, human: Mark) {
    Legal(t) && t.reward == 0.0
    && CheckWinner(AfterAgent(t, me)) == Ongoing
    && Reply(t, me, ai, human).Some?
    && t.next == Place(AfterAgent(t, me), Reply(t, me, ai, human).value, Other(me))
    && CheckWinner(t.next) == Ongoing
    && t.nextMoves == AvailableMoves(t.next)
  }

  /** Every update of `log` is a round against minimax that did not end the game. */
  predicate AllMinimaxRounds(log: seq<Transition>, me: Mark, ai: Mark, human: Mark) {
    forall i :: 0 <= i < |log| ==> MinimaxRound(log[i], me, ai, human)
  }

  /** The update closing a game against minimax: the given reward, no next
      moves, and as next state the board on which the game ended with
      `outcome`, either right after the agent's move or right after the
      minimax reply to it. */
  predicate MinimaxClosing(t: Transition, me: Mark, ai: Mark, human: Mark, outcome: Outcome, reward: real) {
    Closing(t, reward) && outcome != Ongoing && CheckWinner(t.next) == outcome
    && (t.next == AfterAgent(t, me)
        || (CheckWinner(AfterAgent(t, me)) == Ongoing
            && Reply(t, me, ai, human).Some?
            && t.next == Place(AfterAgent(t, me), Reply(t, me, ai, human).value, Other(me))))
  }

  /** A game that ended on the agent's move is closed by a terminal update
      with the board after that move. */
  lemma ClosedByAgent(t: Transition, me: Mark, ai: Mark, human: Mark, outcome: Outcome, reward: real)
    requires Legal(t) && t.reward == reward && t.nextMoves == [] && t.next == AfterAgent(t, me)
    requires outcome == CheckWinner(t.next) && outcome != Ongoing
    ensures MinimaxClosing(t, me, ai, human, outcome, reward)
  {
  }

  /** A game that ended on the minimax reply is closed by a terminal update
      with the board after the reply. */
  lemma ClosedByReply(t: Transition, me: Mark, ai: Mark, human: Mark, outcome: Outcome, reward: real)
    requires Legal(t) && t.reward == reward && t.nextMoves == []
    requires CheckWinner(AfterAgent(t, me)) == Ongoing && Reply(t, me, ai, human).Some?
    requires t.next == Place(AfterAgent(t, me), Reply(t, me, ai, human).value, Other(me))
    requires outcome == CheckWinner(t.next) && outcome != Ongoing
    ensures MinimaxClosing(t, me, ai, human, outcome, reward)
  {
  }

  /** Appending a non-final round keeps every round a non-final one. */
  lemma ExtendMinimaxRounds(log: seq<Transition>, t: Transition, me: Mark, ai: Mark, human: Mark)
    requires AllMinimaxRounds(log, me, ai, human) && MinimaxRound(t, me, ai, human)
    ensures AllMinimaxRounds(log + [t], me, ai, human)
  {
    forall i | 0 <= i < |log| + 1
      ensures MinimaxRound((log + [t])[i], me, ai, human)
    {
      if i < |log| {
        assert (log + [t])[i] == log[i];
      }
    }
  }

  /** On the agent's turn the game is on; the agent's legal move can then
      only win for the agent or draw, and when the game goes on a minimax
      player with two distinct marks has a reply, which is an empty cell. */
  lemma AgentTurn(b: Board, action: int, me: Mark, ai: Mark, human: Mark)
    requires CheckWinner(b) == Ongoing && action in AvailableMoves(b)
    ensures CheckWinner(Place(b, action, me)) != Win(Other(me))
    ensures ai != human && CheckWinner(Place(b, action, me)) == Ongoing
            ==> BestMove(Place(b, action, me), ai, human).Some?
  {
    MoveCannotWinForOther(b, action, me);
  }

  /** After the minimax reply (in the other mark) to a move that left the game
      on, the game cannot be won by the agent. */
  lemma ReplyTurn(b: Board, reply: int, me: Mark)
    requires CheckWinner(b) == Ongoing && 0 <= reply < 9
    ensures CheckWinner(Place(b, reply, Other(me))) != Win(me)
  {
    MoveCannotWinForOther(b, reply, Other(me));
  }

  /** The agent's turn against minimax: the game is on, `log` holds the
      rounds played so far, none of which ended the game, and `board` is where
      the last one left it (the empty board before the first). */
  predicate Turn(board: Board, log: seq<Transition>, me: Mark, ai: Mark, human: Mark) {
    CheckWinner(board) == Ongoing
    && EmptyCount(board) == 9 - 2 * |log| && |log| <= 4
    && (if |log| == 0 then Blank(board) else log[|log| - 1].next == board)
    && Chained(log) && AllMinimaxRounds(log, me, ai, human)
  }

  /** A log whose last update closed the game with `outcome` and `reward`,
      every earlier round having gone on. */
  predicate Closed(log: seq<Transition>, me: Mark, ai: Mark, human: Mark, outcome: Outcome, reward: real) {
    1 <= |log| <= 5 && Chained(log) && AllMinimaxRounds(log[..|log| - 1], me, ai, human)
    && MinimaxClosing(log[|log| - 1], me, ai, human, outcome, reward)
  }

  /** The first turn: a blank board, no rounds, and no winner yet. */
  lemma TurnAtStart(board: Board, me: Mark, ai: Mark, human: Mark)
    requires Blank(board)
    ensures Turn(board, [], me, ai, human)
  {
    FreshBoardMoves(board);
    assert EmptyCount(board) == 9;
    assert board[0] == Empty;
    assert forall k :: 0 <= k < 8 ==> !LineWon(board, k);
    assert Chained([]) && AllMinimaxRounds([], me, ai, human);
  }

  /** A round that went on leads to the next turn, two cells fuller. */
  lemma ContinueTurn(board0: Board, log0: seq<Transition>, t: Transition, me: Mark, ai: Mark, human: Mark)
    requires Turn(board0, log0, me, ai, human)
    requires t.state == board0 && MinimaxRound(t, me, ai, human)
    ensures Turn(t.next, log0 + [t], me, ai, human)
    ensures EmptyCount(t.next) == EmptyCount(board0) - 2
  {
    PlaceRemovesMove(board0, t.action, me);
    PlaceRemovesMove(AfterAgent(t, me), Reply(t, me, ai, human).value, Other(me));
    ExtendLog(log0, t, me);
    ExtendMinimaxRounds(log0, t, me, ai, human);
  }

  /** A round whose update closed the game closes the log. */
  lemma CloseTurn(board0: Board, log0: seq<Transition>, t: Transition, me: Mark, ai: Mark, human: Mark,
                  outcome: Outcome, reward: real)
    requires Turn(board0, log0, me, ai, human)
    requires t.state == board0 && MinimaxClosing(t, me, ai, human, outcome, reward)
    ensures Closed(log0 + [t], me, ai, human, outcome, reward)
  {
    ExtendLog(log0, t, me);
  }

  /** The minimax player's half of a round: `find_best_move` on the game (which
      it hands back unchanged), then `make_move` with the opponent's symbol.
      On a game that is still on the reply is a move, and an available one, so
      neither `make_move` nor the manager's `opp_move not in available2`
      check can raise. */
  method MinimaxReply(board: Board, me: Mark, ai: Mark, human: Mark) returns (reply: int, after: Board)
    requires CheckWinner(board) == Ongoing && ai != human
    ensures BestMove(board, ai, human) == Some(reply)
    ensures reply in AvailableMoves(board)
    ensures after == Place(board, reply, Other(me))
  {
    var best, restored := FindBestMove(board, ai, human);
    var available2 := AvailableMoves(restored);
    assert best.Some? && best.value in available2;
    reply := best.value;
    OpponentMoveSucceeds(restored, reply, me);
    after := MakeMove(restored, reply, OpponentSymbol(MarkName(me))).value;
  }
}
