/**
  `TrainingManager` with the minimax opponent: `__init__`'s choice of symbols
  and `_train_vs_minimax`. The minimax player plays the opponent's symbol as
  its `ai_player` and treats the agent as `human_player`. The manager scores
  a game with `_get_reward` and `_get_stats_key`, and treats a game the agent
  wins as an anomaly: no update and no tally.
 */
module ManagerTraining {
  import opened Wrappers
  import opened Board
  import opened Minimax
  import opened QLearning
  import opened Training
  import opened MinimaxRounds

  /** `self.opponent_symbol`, as a mark: the minimax player's `ai_player`. */
  function Opponent(agentSymbol: Mark): (r: Mark)
    ensures MarkName(r) == OpponentSymbol(MarkName(agentSymbol))
    ensures r != agentSymbol
  {
    Other(agentSymbol)
  }

  /** How an episode against minimax ended: scored with the result of
      `check_winner`, or broken off as an anomaly because the agent won. */
  datatype Ending = Scored(outcome: Outcome) | Anomaly

  /** The statistics of a run of episodes, counted from scratch: anomalies
      count nowhere, and the agent never wins a scored game. */
  function ManagerTally(endings: seq<Ending>, me: Mark): Stats {
    Stats(0, Count(endings, Scored(Draw)), Count(endings, Scored(Win(Other(me)))))
  }

  /** Recording one more episode the way `_train_vs_minimax` does (one key
      for a scored game, nothing for an anomaly) keeps the statistics equal to
      the tally. */
  lemma RecordEnding(stats: Stats, endings: seq<Ending>, e: Ending, me: Mark)
    requires stats == ManagerTally(endings, me)
    requires e == Anomaly || e == Scored(Draw) || e == Scored(Win(Other(me)))
    ensures e.Scored? ==> Bump(stats, GetStatsKey(e.outcome, me)) == ManagerTally(endings + [e], me)
    ensures e == Anomaly ==> stats == ManagerTally(endings + [e], me)
  {
    if e == Anomaly {
      RecordAnomaly(stats, endings, me);
    } else if e == Scored(Draw) {
      RecordDraw(stats, endings, me);
    } else {
      RecordLoss(stats, endings, me);
    }
  }

  /** An anomaly is counted nowhere. */
  lemma RecordAnomaly(stats: Stats, endings: seq<Ending>, me: Mark)
    requires stats == ManagerTally(endings, me)
    ensures stats == ManagerTally(endings + [Anomaly], me)
  {
    var draw, loss := Scored(Draw), Scored(Win(Other(me)));
    CountSnoc(endings, Anomaly, draw);
    CountSnoc(endings, Anomaly, loss);
    assert Count(endings + [Anomaly], draw) == stats.draws;
    assert Count(endings + [Anomaly], loss) == stats.losses;
  }

  /** A scored draw is counted under 'draws'. */
  lemma RecordDraw(stats: Stats, endings: seq<Ending>, me: Mark)
    requires stats == ManagerTally(endings, me)
    ensures GetStatsKey(Draw, me) == Draws
    ensures Bump(stats, Draws) == ManagerTally(endings + [Scored(Draw)], me)
  {
    var draw, loss := Scored(Draw), Scored(Win(Other(me)));
    assert draw != loss;
    CountSnoc(endings, draw, draw);
    CountSnoc(endings, draw, loss);
    assert Count(endings + [draw], draw) == stats.draws + 1;
    assert Count(endings + [draw], loss) == stats.losses;
  }

  /** A scored minimax win is counted under 'losses'. */
  lemma RecordLoss(stats: Stats, endings: seq<Ending>, me: Mark)
    requires stats == ManagerTally(endings, me)
    ensures GetStatsKey(Win(Other(me)), me) == Losses
    ensures Bump(stats, Losses) == ManagerTally(endings + [Scored(Win(Other(me)))], me)
  {
    var draw, loss := Scored(Draw), Scored(Win(Other(me)));
    assert Other(me) != me && draw != loss;
    CountSnoc(endings, loss, draw);
    CountSnoc(endings, loss, loss);
    assert Count(endings + [loss], draw) == stats.draws;
    assert Count(endings + [loss], loss) == stats.losses + 1;
  }

  /** The board the rounds in `log` left the game on: the empty board of a
      fresh game before the first round. */
  function LastBoard(log: seq<Transition>): Board {
    if |log| == 0 then Reset() else log[|log| - 1].next
  }

  /** `after` is `board` with one more mark `me`, on a cell that was empty. */
  predicate MovedOnce(board: Board, after: Board, me: Mark) {
    exists a :: a in AvailableMoves(board) && after == Place(board, a, me)
  }

  /** A finished episode against minimax. An anomaly leaves only rounds that
      went on, and ends on the board where they left the game plus one agent
      move that won it. A scored game ends with a draw or a minimax win (the
      agent's move never loses, the reply never lets the agent win), and its
      last update carries `_get_reward` of that result and the board where it
      ended. */
  predicate Done(log: seq<Transition>, final: Board, e: Ending, me: Mark) {
    (e == Anomaly ==>
       Turn(LastBoard(log), log, me, Opponent(me), me)
       && MovedOnce(LastBoard(log), final, me)
       && CheckWinner(final) == Win(me))
    && (e.Scored? ==>
          (e.outcome == Draw || e.outcome == Win(Other(me)))
          && Closed(log, me, Opponent(me), me, e.outcome, GetReward(e.outcome, me))
          && log[|log| - 1].next == final)
  }

  /** The agent's move `action` on the current board won: the episode ends
      as an anomaly with the rounds so far and the board after that move. */
  lemma AnomalyDone(board0: Board, log0: seq<Transition>, action: int, final: Board, me: Mark)
    requires Turn(board0, log0, me, Opponent(me), me)
    requires action in AvailableMoves(board0) && final == Place(board0, action, me)
    requires CheckWinner(final) == Win(me)
    ensures Done(log0, final, Anomaly, me)
  {
    if |log0| == 0 {
      BlankIsReset(board0);
    }
    assert LastBoard(log0) == board0;
  }

  /** An anomaly is a game really played: its final board holds the two
      moves of each round in the log plus the agent's winning move, so it is
      never the empty board. */
  lemma AnomalyFinal(log: seq<Transition>, final: Board, me: Mark)
    requires Done(log, final, Anomaly, me)
    ensures EmptyCount(final) == 8 - 2 * |log|
    ensures final != Reset()
  {
    var last := LastBoard(log);
    var a :| a in AvailableMoves(last) && final == Place(last, a, me);
    PlaceRemovesMove(last, a, me);
    assert final[a] != Reset()[a];
  }

  /** A round closed with `_get_reward` of a result other than an agent win
      ends the episode as scored: a draw or a minimax win. */
  lemma ScoredDone(board0: Board, log0: seq<Transition>, t: Transition, me: Mark, outcome: Outcome)
    requires Turn(board0, log0, me, Opponent(me), me) && t.state == board0
    requires outcome != Win(me)
    requires MinimaxClosing(t, me, Opponent(me), me, outcome, GetReward(outcome, me))
    ensures Done(log0 + [t], t.next, Scored(outcome), me)
  {
    CloseTurn(board0, log0, t, me, Opponent(me), me, outcome, GetReward(outcome, me));
    OutcomeCases(outcome, me);
  }

  /** The second half of a round whose agent move left the game on:
      `find_best_move`, `make_move` with the opponent's symbol, then either a
      terminal update with `_get_reward` and the final board or an update
      with reward 0.0 and the new board's moves. Returns that update, the
      board afterwards and, when the game ended, how. */
  method MinimaxHalf(board0: Board, log0: seq<Transition>, action: int, afterAgent: Board, me: Mark)
    returns (t: Transition, board: Board, ending: Option<Ending>)
    requires Turn(board0, log0, me, Opponent(me), me)
    requires action in AvailableMoves(board0) && afterAgent == Place(board0, action, me)
    requires CheckWinner(afterAgent) == Ongoing
    ensures t.state == board0 && t.action == action && t.next == board
    ensures ending.None? ==> Turn(board, log0 + [t], me, Opponent(me), me)
    ensures ending.Some? ==> ending.value.Scored? && Done(log0 + [t], board, ending.value, me)
    ensures EmptyCount(board) == EmptyCount(board0) - 2
  {
    var reply;
    reply, board := MinimaxReply(afterAgent, me, Opponent(me), me);
    ReplyTurn(afterAgent, reply, me);
    PlaceRemovesMove(board0, action, me);
    PlaceRemovesMove(afterAgent, reply, Other(me));
    var winner2 := CheckWinner(board);
    if winner2 != Ongoing {
      t := Transition(board0, action, GetReward(winner2, me), board, []);
      assert AfterAgent(t, me) == afterAgent;
      assert Reply(t, me, Opponent(me), me) == Some(reply);
      ClosedByReply(t, me, Opponent(me), me, winner2, GetReward(winner2, me));
      ScoredDone(board0, log0, t, me, winner2);
      ending := Some(Scored(winner2));
    } else {
      t := Transition(board0, action, 0.0, board, AvailableMoves(board));
      assert AfterAgent(t, me) == afterAgent;
      assert Reply(t, me, Opponent(me), me) == Some(reply);
      ContinueTurn(board0, log0, t, me, Opponent(me), me);
      ending := None;
    }
  }

  /** A round whose agent move filled the board without a winner: a
      terminal update with `_get_reward` of the draw and the board after the
      move. (An agent move never makes the opponent win, and an agent win is
      the anomaly, so a draw is the only way the game ends here.) */
  method AgentHalf(board0: Board, log0: seq<Transition>, action: int, afterAgent: Board, me: Mark)
    returns (t: Transition)
    requires Turn(board0, log0, me, Opponent(me), me)
    requires action in AvailableMoves(board0) && afterAgent == Place(board0, action, me)
    requires CheckWinner(afterAgent) == Draw
    ensures t.state == board0 && t.action == action && t.next == afterAgent
    ensures Done(log0 + [t], afterAgent, Scored(Draw), me)
  {
    t := Transition(board0, action, GetReward(Draw, me), afterAgent, []);
    assert AfterAgent(t, me) == afterAgent;
    ClosedByAgent(t, me, Opponent(me), me, Draw, GetReward(Draw, me));
    ScoredDone(board0, log0, t, me, Draw);
  }

  /** The rest of a round once the agent has moved without winning: a draw
      closes the game at once, and otherwise the minimax player answers.
      Returns the update the round ends with, the board afterwards and, when
      the game ended, how. */
  method AfterAgentMove(board0: Board, log0: seq<Transition>, action: int, afterAgent: Board, me: Mark)
    returns (t: Transition, board: Board, ending: Option<Ending>)
    requires Turn(board0, log0, me, Opponent(me), me)
    requires action in AvailableMoves(board0) && afterAgent == Place(board0, action, me)
    requires CheckWinner(afterAgent) != Win(me)
    ensures t.state == board0 && t.action == action && t.next == board
    ensures ending.None? ==> Turn(board, log0 + [t], me, Opponent(me), me)
    ensures ending.Some? ==> ending.value.Scored? && Done(log0 + [t], board, ending.value, me)
    ensures EmptyCount(board0) - 2 <= EmptyCount(board) < EmptyCount(board0)
    ensures ending.None? ==> EmptyCount(board) == EmptyCount(board0) - 2
  {
    AgentTurn(board0, action, me, Opponent(me), me);
    if CheckWinner(afterAgent) != Ongoing {
      OutcomeCases(CheckWinner(afterAgent), me);
      t := AgentHalf(board0, log0, action, afterAgent, me);
      PlaceRemovesMove(board0, action, me);
      board, ending := afterAgent, Some(Scored(Draw));
    } else {
      t, board, ending := MinimaxHalf(board0, log0, action, afterAgent, me);
    }
  }

  /** The moves of one pass of the `while True` loop of `_train_vs_minimax`:
      the agent moves; a win for it is the anomaly, a draw is scored, and
      otherwise the minimax player answers. Returns the update the round
      would end with (its `action` is the agent's move, its `next` the board
      afterwards), the board afterwards and, when the loop breaks, why. */
  method ManagerPlay(table0: QTable, epsilon: real, me: Mark, board0: Board, log0: seq<Transition>)
    returns (q1: QTable, t: Transition, ending: Option<Ending>)
    requires Turn(board0, log0, me, Opponent(me), me)
    ensures SameValues(q1, table0)
    ensures t.state == board0
    ensures ending == Some(Anomaly) ==>
              t.action in AvailableMoves(board0) && t.next == Place(board0, t.action, me)
              && Done(log0, t.next, Anomaly, me)
    ensures ending.None? ==> Turn(t.next, log0 + [t], me, Opponent(me), me)
    ensures ending.Some? && ending != Some(Anomaly) ==> Done(log0 + [t], t.next, ending.value, me)
    ensures EmptyCount(board0) - 2 <= EmptyCount(t.next) < EmptyCount(board0)
    ensures ending.None? ==> EmptyCount(t.next) == EmptyCount(board0) - 2
  {
    var action, afterAgent;
    action, q1, afterAgent := AgentMove(table0, epsilon, board0, me);
    if CheckWinner(afterAgent) == Win(me) {
      t, ending := Transition(board0, action, 0.0, afterAgent, []), Some(Anomaly);
      AnomalyDone(board0, log0, action, afterAgent, me);
    } else {
      var board;
      t, board, ending := AfterAgentMove(board0, log0, action, afterAgent, me);
    }
  }

  /** One pass of the `while True` loop of `_train_vs_minimax`: the moves of
      `ManagerPlay`, then, unless the agent won (break, nothing recorded),
      the one `update_q` call they lead to. */
  method ManagerRound(q: QTable, table0: QTable, epsilon: real, alpha: real, gamma: real, me: Mark,
                      board0: Board, log0: seq<Transition>)
    returns (table: QTable, board: Board, log: seq<Transition>, ending: Option<Ending>)
    requires Turn(board0, log0, me, Opponent(me), me)
    requires SameValues(table0, Replay(q, alpha, gamma, log0))
    ensures ending == Some(Anomaly) ==>
              log == log0 && exists a :: a in AvailableMoves(board0) && board == Place(board0, a, me)
    ensures ending != Some(Anomaly) ==>
              |log| == |log0| + 1 && log[..|log0|] == log0
              && log[|log0|].state == board0 && log[|log0|].next == board
    ensures ending.None? ==> Turn(board, log, me, Opponent(me), me)
    ensures ending.Some? ==> Done(log, board, ending.value, me)
    ensures SameValues(table, Replay(q, alpha, gamma, log))
    ensures EmptyCount(board0) - 2 <= EmptyCount(board) < EmptyCount(board0)
    ensures ending.None? ==> EmptyCount(board) == EmptyCount(board0) - 2
  {
    var q1, t;
    q1, t, ending := ManagerPlay(table0, epsilon, me, board0, log0);
    SameValuesTrans(q1, table0, Replay(q, alpha, gamma, log0));
    board := t.next;
    if ending.Some? && ending.value.Anomaly? {
      table, log := q1, log0;
      assert t.action in AvailableMoves(board0) && board == Place(board0, t.action, me);
      return;
    }
    table, log := Learn(q, q1, alpha, gamma, log0, t);
    assert log[..|log0|] == log0 && log[|log0|] == t;
  }

  /** One episode of `_train_vs_minimax`, from a fresh game until the loop
      breaks. Returns the table afterwards, how the game ended, the board it
      ended on and the `update_q` calls made, in order. */
  method ManagerEpisode(q: QTable, epsilon: real, alpha: real, gamma: real, me: Mark)
    returns (table: QTable, ending: Ending, final: Board, log: seq<Transition>)
    ensures Done(log, final, ending, me)
    ensures SameValues(table, Replay(q, alpha, gamma, log))
  {
    var board := NewGame();
    TurnAtStart(board, me, Opponent(me), me);
    table := q;
    log := [];
    var result: Option<Ending> := None;
    while result.None?
      invariant result.None? ==> Turn(board, log, me, Opponent(me), me)
      invariant result.Some? ==> Done(log, board, result.value, me)
      invariant SameValues(table, Replay(q, alpha, gamma, log))
      decreases EmptyCount(board) + (if result.None? then 1 else 0)
    {
      table, board, log, result := ManagerRound(q, table, epsilon, alpha, gamma, me, board, log);
    }
    ending := result.value;
    final := board;
  }

  /** `Done` for the agent's mark `me`, as a predicate on one episode. */
  function DoneBy(me: Mark): (seq<Transition>, Board, Ending) -> bool {
    (log: seq<Transition>, final: Board, e: Ending) => Done(log, final, e, me)
  }

  /** A run of episodes: episode `i` made the updates `episodes[i]`, ended
      as `endings[i]` on the board `finals[i]`, as `Done` says. */
  predicate AllDone(episodes: seq<seq<Transition>>, finals: seq<Board>, endings: seq<Ending>, me: Mark) {
    AllOf(episodes, finals, endings, DoneBy(me))
  }

  /** A run extended by one more finished episode. */
  lemma RecordDone(episodes: seq<seq<Transition>>, finals: seq<Board>, endings: seq<Ending>,
                   ep: seq<Transition>, final: Board, e: Ending, me: Mark)
    requires AllDone(episodes, finals, endings, me) && Done(ep, final, e, me)
    ensures AllDone(episodes + [ep], finals + [final], endings + [e], me)
  {
    assert DoneBy(me)(ep, final, e);
    AllOfSnoc(episodes, finals, endings, ep, final, e, DoneBy(me));
  }

  /** Every episode ends as an anomaly, a draw or a minimax win. */
  lemma DoneEnding(log: seq<Transition>, final: Board, e: Ending, me: Mark)
    requires Done(log, final, e, me)
    ensures e == Anomaly || e == Scored(Draw) || e == Scored(Win(Other(me)))
  { }

  /** What the training loop keeps about how the episodes in `endings`
      ended: the statistics tally them and epsilon was decayed once for
      each. */
  predicate Tallied(agent: Agent, me: Mark, stats: Stats, epsilon: real, endings: seq<Ending>) {
    stats == ManagerTally(endings, me)
    && epsilon == DecayedEpsilon(agent.epsilon, agent.minEpsilon, agent.epsilonDecay, |endings|)
  }

  /** One more episode, counted under `_get_stats_key` when scored and not
      at all when an anomaly, and followed by a decay, keeps `Tallied`. */
  lemma TalliedStep(agent: Agent, me: Mark, stats: Stats, epsilon: real, endings: seq<Ending>, e: Ending)
    requires Tallied(agent, me, stats, epsilon, endings)
    requires e == Anomaly || e == Scored(Draw) || e == Scored(Win(Other(me)))
    ensures Tallied(agent, me, if e.Scored? then Bump(stats, GetStatsKey(e.outcome, me)) else stats,
                    DecayEpsilon(epsilon, agent.minEpsilon, agent.epsilonDecay), endings + [e])
  {
    RecordEnding(stats, endings, e, me);
  }

  /** What the training loop keeps about the updates of the episodes in
      `episodes`: each episode is done with its ending and final board, the
      log is the episodes' logs in turn, and the table reads like its
      replay. */
  ghost predicate Logged(agent: Agent, me: Mark, table: QTable, endings: seq<Ending>, finals: seq<Board>,
                         episodes: seq<seq<Transition>>, log: seq<Transition>)
  {
    AllDone(episodes, finals, endings, me) && log == Concat(episodes)
    && SameValues(table, Replay(agent.table, agent.alpha, agent.gamma, log))
    && |log| <= 5 * |endings|
  }

  /** One more finished episode, appended to the log, keeps `Logged`. */
  lemma LoggedStep(agent: Agent, me: Mark, table: QTable, endings: seq<Ending>, finals: seq<Board>,
                   episodes: seq<seq<Transition>>, log: seq<Transition>,
                   table': QTable, ending: Ending, final: Board, ep: seq<Transition>)
    requires Logged(agent, me, table, endings, finals, episodes, log)
    requires Done(ep, final, ending, me)
    requires SameValues(table', Replay(table, agent.alpha, agent.gamma, ep))
    ensures Logged(agent, me, table', endings + [ending], finals + [final], episodes + [ep], log + ep)
  {
    ReplayExtends(agent.table, table, table', agent.alpha, agent.gamma, log, ep);
    RecordDone(episodes, finals, endings, ep, final, ending, me);
    ConcatSnoc(episodes, ep);
  }

  /** `_train_vs_minimax`: the episodes in turn, each scored at most once and
      followed by one epsilon decay. Returns the statistics, the final
      epsilon, the trained table, how each episode ended and on which board,
      the `update_q` calls of each episode and all of them, in order. */
  method TrainVsMinimax(agent: Agent, numEpisodes: int, me: Mark)
    returns (stats: Stats, epsilon: real, table: QTable, endings: seq<Ending>, finals: seq<Board>,
             episodes: seq<seq<Transition>>, log: seq<Transition>)
    ensures |endings| == EpisodeCount(numEpisodes)
    ensures stats == ManagerTally(endings, me)
    ensures AllDone(episodes, finals, endings, me) && log == Concat(episodes)
    ensures stats.wins == 0 && Total(stats) <= EpisodeCount(numEpisodes)
    ensures epsilon == DecayedEpsilon(agent.epsilon, agent.minEpsilon, agent.epsilonDecay, EpisodeCount(numEpisodes))
    ensures SameValues(table, Replay(agent.table, agent.alpha, agent.gamma, log))
    ensures |log| <= 5 * EpisodeCount(numEpisodes)
  {
    stats := Stats(0, 0, 0);
    epsilon := agent.epsilon;
    table := agent.table;
    endings := [];
    finals := [];
    episodes := [];
    log := [];
    var count := EpisodeCount(numEpisodes);
    while |endings| < count
      invariant |endings| <= count
      invariant Tallied(agent, me, stats, epsilon, endings)
      invariant Logged(agent, me, table, endings, finals, episodes, log)
    {
      var table', ending, final, episodeLog := ManagerEpisode(table, epsilon, agent.alpha, agent.gamma, me);
      DoneEnding(episodeLog, final, ending, me);
      TalliedStep(agent, me, stats, epsilon, endings, ending);
      if ending.Scored? {
        stats := Bump(stats, GetStatsKey(ending.outcome, me));
      }
      LoggedStep(agent, me, table, endings, finals, episodes, log, table', ending, final, episodeLog);
      log := log + episodeLog;
      table := table';
      epsilon := DecayEpsilon(epsilon, agent.minEpsilon, agent.epsilonDecay);
      endings := endings + [ending];
      finals := finals + [final];
      episodes := episodes + [episodeLog];
    }
    CountPair(endings, Scored(Draw), Scored(Win(Other(me))));
  }
}
