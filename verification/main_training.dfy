/**
  `train_vs_minimax` of the command-line entry point: the agent against a
  minimax player given by its two marks `ai` and `human`, which must differ
  (the entry point builds it with the opponent's mark as `ai_player` and
  the agent's as `human_player`). Unlike the manager's loop, every finished
  game is tallied and updated, an agent win included, with the inline
  reward and key tests; nothing checks the minimax reply before it is
  played.
 */
module MainTraining {
  import opened Wrappers
  import opened Board
  import opened Minimax
  import opened QLearning
  import opened Training
  import opened MinimaxRounds

  /** The agent's move ended the game: a terminal update with the inline
      reward of the result and the board after the move. */
  method AgentCloses(board0: Board, log0: seq<Transition>, action: int, afterAgent: Board,
                     me: Mark, ai: Mark, human: Mark)
    returns (t: Transition)
    requires Turn(board0, log0, me, ai, human)
    requires action in AvailableMoves(board0) && afterAgent == Place(board0, action, me)
    requires CheckWinner(afterAgent) != Ongoing
    ensures t.state == board0 && t.action == action && t.next == afterAgent
    ensures Closed(log0 + [t], me, ai, human, CheckWinner(afterAgent), InlineReward(CheckWinner(afterAgent), me))
  {
    var winner := CheckWinner(afterAgent);
    t := Transition(board0, action, InlineReward(winner, me), afterAgent, []);
    assert AfterAgent(t, me) == afterAgent;
    ClosedByAgent(t, me, ai, human, winner, InlineReward(winner, me));
    CloseTurn(board0, log0, t, me, ai, human, winner, InlineReward(winner, me));
  }

  /** The minimax half of a round: `find_best_move`, `make_move` with the
      opponent's symbol, then either a terminal update with the inline reward
      of the result and the final board, or an update with reward 0.0 and
      the new board's moves. Returns that update, the board afterwards and
      the result of `check_winner` on it. */
  method ReplyHalf(board0: Board, log0: seq<Transition>, action: int, afterAgent: Board,
                   me: Mark, ai: Mark, human: Mark)
    returns (t: Transition, board: Board, outcome: Outcome)
    requires ai != human && Turn(board0, log0, me, ai, human)
    requires action in AvailableMoves(board0) && afterAgent == Place(board0, action, me)
    requires CheckWinner(afterAgent) == Ongoing
    ensures t.state == board0 && t.action == action && t.next == board
    ensures outcome == CheckWinner(board)
    ensures outcome == Ongoing ==> Turn(board, log0 + [t], me, ai, human)
    ensures outcome != Ongoing ==> Closed(log0 + [t], me, ai, human, outcome, InlineReward(outcome, me))
    ensures EmptyCount(board) == EmptyCount(board0) - 2
  {
    var reply;
    reply, board := MinimaxReply(afterAgent, me, ai, human);
    PlaceRemovesMove(board0, action, me);
    PlaceRemovesMove(afterAgent, reply, Other(me));
    outcome := CheckWinner(board);
    if outcome != Ongoing {
      t := Transition(board0, action, InlineReward(outcome, me), board, []);
      assert AfterAgent(t, me) == afterAgent;
      assert Reply(t, me, ai, human) == Some(reply);
      ClosedByReply(t, me, ai, human, outcome, InlineReward(outcome, me));
      CloseTurn(board0, log0, t, me, ai, human, outcome, InlineReward(outcome, me));
    } else {
      t := Transition(board0, action, 0.0, board, AvailableMoves(board));
      assert AfterAgent(t, me) == afterAgent;
      assert Reply(t, me, ai, human) == Some(reply);
      ContinueTurn(board0, log0, t, me, ai, human);
    }
  }

  /** The moves of one pass of the `while not done` loop: the agent moves;
      if that ends the game the round is closed, otherwise the minimax
      player answers. Returns the update the round ends with and the result
      of `check_winner` on the board it leaves. */
  method MainPlay(table0: QTable, epsilon: real, me: Mark, ai: Mark, human: Mark,
                  board0: Board, log0: seq<Transition>)
    returns (q1: QTable, t: Transition, outcome: Outcome)
    requires ai != human && Turn(board0, log0, me, ai, human)
    ensures SameValues(q1, table0)
    ensures t.state == board0 && outcome == CheckWinner(t.next)
    ensures outcome == Ongoing ==> Turn(t.next, log0 + [t], me, ai, human)
    ensures outcome != Ongoing ==> Closed(log0 + [t], me, ai, human, outcome, InlineReward(outcome, me))
    ensures EmptyCount(board0) - 2 <= EmptyCount(t.next) < EmptyCount(board0)
    ensures outcome == Ongoing ==> EmptyCount(t.next) == EmptyCount(board0) - 2
  {
    var action, afterAgent;
    action, q1, afterAgent := AgentMove(table0, epsilon, board0, me);
    AgentTurn(board0, action, me, ai, human);
    if CheckWinner(afterAgent) != Ongoing {
      t := AgentCloses(board0, log0, action, afterAgent, me, ai, human);
      outcome := CheckWinner(afterAgent);
    } else {
      var board;
      t, board, outcome := ReplyHalf(board0, log0, action, afterAgent, me, ai, human);
    }
  }

  /** One pass of the `while not done` loop: the moves of `MainPlay`, then
      the one `update_q` call they lead to. */
  method MainRound(q: QTable, table0: QTable, epsilon: real, alpha: real, gamma: real,
                   me: Mark, ai: Mark, human: Mark, board0: Board, log0: seq<Transition>)
    returns (table: QTable, board: Board, log: seq<Transition>, outcome: Outcome)
    requires ai != human && Turn(board0, log0, me, ai, human)
    requires SameValues(table0, Replay(q, alpha, gamma, log0))
    ensures |log| == |log0| + 1 && log[..|log0|] == log0
    ensures log[|log0|].state == board0 && log[|log0|].next == board
    ensures outcome == CheckWinner(board)
    ensures outcome == Ongoing ==> Turn(board, log, me, ai, human)
    ensures outcome != Ongoing ==> Closed(log, me, ai, human, outcome, InlineReward(outcome, me))
    ensures SameValues(table, Replay(q, alpha, gamma, log))
    ensures EmptyCount(board0) - 2 <= EmptyCount(board) < EmptyCount(board0)
    ensures outcome == Ongoing ==> EmptyCount(board) == EmptyCount(board0) - 2
  {
    var q1, t;
    q1, t, outcome := MainPlay(table0, epsilon, me, ai, human, board0, log0);
    SameValuesTrans(q1, table0, Replay(q, alpha, gamma, log0));
    board := t.next;
    table, log := Learn(q, q1, alpha, gamma, log0, t);
    assert log[..|log0|] == log0 && log[|log0|] == t;
  }

  /** One episode, from a fresh game to the closing update. Returns the
      table afterwards, the result that ended the game and the `update_q`
      calls made, in order. */
  method MainEpisode(q: QTable, epsilon: real, alpha: real, gamma: real, me: Mark, ai: Mark, human: Mark)
    returns (table: QTable, outcome: Outcome, log: seq<Transition>)
    requires ai != human
    ensures Closed(log, me, ai, human, outcome, InlineReward(outcome, me))
    ensures SameValues(table, Replay(q, alpha, gamma, log))
  {
    var board := NewGame();
    TurnAtStart(board, me, ai, human);
    table := q;
    log := [];
    outcome := Ongoing;
    while outcome == Ongoing
      invariant outcome == Ongoing ==> Turn(board, log, me, ai, human)
      invariant outcome != Ongoing ==> Closed(log, me, ai, human, outcome, InlineReward(outcome, me))
      invariant SameValues(table, Replay(q, alpha, gamma, log))
      decreases EmptyCount(board) + (if outcome == Ongoing then 1 else 0)
    {
      table, board, log, outcome := MainRound(q, table, epsilon, alpha, gamma, me, ai, human, board, log);
    }
  }

  /** A run of episodes: episode `i` made the updates `episodes[i]`, each
      closed after at most five agent moves with `outcomes[i]` and its inline
      reward, as `Closed` says. Built up one episode at a time: the last
      episode is closed and the ones before it form a run. */
  predicate AllClosed(episodes: seq<seq<Transition>>, outcomes: seq<Outcome>, me: Mark, ai: Mark, human: Mark)
    decreases |episodes|
  {
    |episodes| == |outcomes|
    && (|episodes| == 0
        || (AllClosed(episodes[..|episodes| - 1], outcomes[..|outcomes| - 1], me, ai, human)
            && var o := outcomes[|outcomes| - 1];
               Closed(episodes[|episodes| - 1], me, ai, human, o, InlineReward(o, me))))
  }

  /** A run extended by one more closed episode. */
  lemma RecordClosed(episodes: seq<seq<Transition>>, outcomes: seq<Outcome>,
                     ep: seq<Transition>, o: Outcome, me: Mark, ai: Mark, human: Mark)
    requires AllClosed(episodes, outcomes, me, ai, human)
    requires Closed(ep, me, ai, human, o, InlineReward(o, me))
    ensures AllClosed(episodes + [ep], outcomes + [o], me, ai, human)
  {
    assert (episodes + [ep])[..|episodes|] == episodes;
    assert (outcomes + [o])[..|outcomes|] == outcomes;
  }

  /** An episode as the training loop sees it: it has a result, and it made
      between one and five updates, the table reading like their replay. */
  method ClosedEpisode(q: QTable, epsilon: real, alpha: real, gamma: real, me: Mark, ai: Mark, human: Mark)
    returns (table: QTable, outcome: Outcome, log: seq<Transition>)
    requires ai != human
    ensures outcome != Ongoing && 1 <= |log| <= 5
    ensures Closed(log, me, ai, human, outcome, InlineReward(outcome, me))
    ensures SameValues(table, Replay(q, alpha, gamma, log))
  {
    table, outcome, log := MainEpisode(q, epsilon, alpha, gamma, me, ai, human);
  }

  /** What the training loop keeps about the updates of the episodes in
      `episodes`: each episode is closed with its result, the log is the
      episodes' logs in turn, and the table reads like its replay. */
  ghost predicate Logged(agent: Agent, ai: Mark, human: Mark, me: Mark, table: QTable, outcomes: seq<Outcome>,
                         episodes: seq<seq<Transition>>, log: seq<Transition>)
  {
    AllClosed(episodes, outcomes, me, ai, human) && log == Concat(episodes)
    && SameValues(table, Replay(agent.table, agent.alpha, agent.gamma, log))
    && |outcomes| <= |log| <= 5 * |outcomes|
  }

  /** One more closed episode, appended to the log, keeps `Logged`. */
  lemma LoggedStep(agent: Agent, ai: Mark, human: Mark, me: Mark, table: QTable, outcomes: seq<Outcome>,
                   episodes: seq<seq<Transition>>, log: seq<Transition>,
                   table': QTable, outcome: Outcome, ep: seq<Transition>)
    requires Logged(agent, ai, human, me, table, outcomes, episodes, log)
    requires 1 <= |ep| <= 5 && Closed(ep, me, ai, human, outcome, InlineReward(outcome, me))
    requires SameValues(table', Replay(table, agent.alpha, agent.gamma, ep))
    ensures Logged(agent, ai, human, me, table', outcomes + [outcome], episodes + [ep], log + ep)
  {
    ReplayExtends(agent.table, table, table', agent.alpha, agent.gamma, log, ep);
    RecordClosed(episodes, outcomes, ep, outcome, me, ai, human);
    ConcatSnoc(episodes, ep);
  }

  /** `train_vs_minimax(agent, minimax, num_episodes, agent_symbol)`: the
      episodes in turn, each tallied once with the inline bookkeeping and
      followed by one epsilon decay. Returns the statistics, the final
      epsilon, the trained table, the result of each episode, the `update_q`
      calls of each episode and all of them, in order. */
  method TrainVsMinimax(agent: Agent, ai: Mark, human: Mark, numEpisodes: int, me: Mark)
    returns (stats: Stats, epsilon: real, table: QTable, outcomes: seq<Outcome>,
             episodes: seq<seq<Transition>>, log: seq<Transition>)
    requires ai != human
    ensures |outcomes| == EpisodeCount(numEpisodes) && Total(stats) == |outcomes|
    ensures stats == Tally(outcomes, me)
    ensures AllClosed(episodes, outcomes, me, ai, human) && log == Concat(episodes)
    ensures forall i :: 0 <= i < |outcomes| ==> outcomes[i] != Ongoing
    ensures epsilon == DecayedEpsilon(agent.epsilon, agent.minEpsilon, agent.epsilonDecay, EpisodeCount(numEpisodes))
    ensures SameValues(table, Replay(agent.table, agent.alpha, agent.gamma, log))
    ensures EpisodeCount(numEpisodes) <= |log| <= 5 * EpisodeCount(numEpisodes)
  {
    stats := Stats(0, 0, 0);
    epsilon := agent.epsilon;
    table := agent.table;
    outcomes := [];
    episodes := [];
    log := [];
    var count := EpisodeCount(numEpisodes);
    while |outcomes| < count
      invariant |outcomes| <= count
      invariant Tallied(agent, me, stats, epsilon, outcomes)
      invariant Logged(agent, ai, human, me, table, outcomes, episodes, log)
    {
      var table', outcome, episodeLog := ClosedEpisode(table, epsilon, agent.alpha, agent.gamma, me, ai, human);
      TalliedStep(agent, me, stats, epsilon, outcomes, outcome);
      LoggedStep(agent, ai, human, me, table, outcomes, episodes, log, table', outcome, episodeLog);
      stats := Bump(stats, InlineKey(outcome, me));
      log := log + episodeLog;
      table := table';
      epsilon := DecayEpsilon(epsilon, agent.minEpsilon, agent.epsilonDecay);
      outcomes := outcomes + [outcome];
      episodes := episodes + [episodeLog];
    }
    TallyTotal(outcomes, me);
  }
}
