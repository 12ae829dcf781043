/**
  `train_q_learning`: the agent against an opponent that plays uniformly at
  random. The agent always moves first, whatever its mark, and the game is
  only checked for an end after the agent's move: a winning reply of the
  opponent is followed by an ordinary reward-0.0 update, and the game is
  scored only after the agent's next move.

  The random draws are free choices: any `random.random()` in [0, 1) and any
  pick among the offered moves.
 */
module RandomTraining {
  import opened Board
  import opened QLearning
  import opened Training

  /** The agent's turn: `log` holds the rounds played so far, none of which
      ended the game, and `board` is where the last one left the game (the
      empty board before the first). Each round fills two cells. */
  predicate Ready(board: Board, log: seq<Transition>, me: Mark) {
    EmptyCount(board) == 9 - 2 * |log| && |log| <= 4
    && (if |log| == 0 then Blank(board) else log[|log| - 1].next == board)
    && Chained(log) && AllIntermediate(log, me)
  }

  /** A finished episode: every round but the last let the opponent answer;
      the last one ended the game with `outcome` right after the agent's move
      and was scored with the inline reward, bootstrapping nothing. */
  predicate Finished(log: seq<Transition>, outcome: Outcome, me: Mark) {
    1 <= |log| <= 5 && Chained(log) && AllIntermediate(log[..|log| - 1], me)
    && Closing(log[|log| - 1], InlineReward(outcome, me))
    && log[|log| - 1].next == AfterAgent(log[|log| - 1], me)
    && outcome == CheckWinner(log[|log| - 1].next) && outcome != Ongoing
  }

  /** A run of episodes: episode `i` made the updates `episodes[i]` and
      ended with `outcomes[i]`, as `Finished` says. Built up one episode at a
      time, the way the training loop records them: the last episode is
      finished and the ones before it form a run. */
  predicate AllFinished(episodes: seq<seq<Transition>>, outcomes: seq<Outcome>, me: Mark)
    decreases |episodes|
  {
    |episodes| == |outcomes|
    && (|episodes| == 0
        || (AllFinished(episodes[..|episodes| - 1], outcomes[..|outcomes| - 1], me)
            && Finished(episodes[|episodes| - 1], outcomes[|outcomes| - 1], me)))
  }

  /** A run extended by one more finished episode. */
  lemma RecordEpisode(episodes: seq<seq<Transition>>, outcomes: seq<Outcome>,
                      ep: seq<Transition>, o: Outcome, me: Mark)
    requires AllFinished(episodes, outcomes, me) && Finished(ep, o, me)
    ensures AllFinished(episodes + [ep], outcomes + [o], me)
  {
    assert (episodes + [ep])[..|episodes|] == episodes;
    assert (outcomes + [o])[..|outcomes|] == outcomes;
  }

  /** The first agent's turn: a blank board and no rounds yet. */
  lemma ReadyAtStart(board: Board, me: Mark)
    requires Blank(board)
    ensures Ready(board, [], me)
  {
    FreshBoardMoves(board);
    assert EmptyCount(board) == 9;
    assert Chained([]) && AllIntermediate([], me);
  }

  /** A round whose agent move ended the game closes the episode. */
  lemma FinishRound(board0: Board, log0: seq<Transition>, t: Transition, me: Mark, outcome: Outcome)
    requires Ready(board0, log0, me)
    requires t.state == board0 && Legal(t)
    requires t.reward == InlineReward(outcome, me) && t.nextMoves == []
    requires t.next == AfterAgent(t, me) && outcome == CheckWinner(t.next) && outcome != Ongoing
    ensures Finished(log0 + [t], outcome, me)
    ensures EmptyCount(t.next) == EmptyCount(board0) - 1
  {
    PlaceRemovesMove(board0, t.action, me);
    ExtendLog(log0, t, me);
  }

  /** A round whose agent move left the game on and which the opponent
      answered on the empty cell `opp` leads to the next agent's turn, two
      cells fuller. */
  lemma ContinueRound(board0: Board, log0: seq<Transition>, t: Transition, me: Mark, opp: int)
    requires Ready(board0, log0, me)
    requires t.state == board0 && Legal(t) && t.reward == 0.0
    requires CheckWinner(AfterAgent(t, me)) == Ongoing
    requires opp in AvailableMoves(AfterAgent(t, me))
    requires t.next == Place(AfterAgent(t, me), opp, Other(me))
    requires t.nextMoves == AvailableMoves(t.next)
    ensures Ready(t.next, log0 + [t], me)
    ensures EmptyCount(t.next) == EmptyCount(board0) - 2
  {
    PlaceRemovesMove(board0, t.action, me);
    PlaceRemovesMove(AfterAgent(t, me), opp, Other(me));
    IntermediateIntro(t, me, opp);
    ExtendLog(log0, t, me);
  }

  /** The random opponent's move: `random.choice` among the available moves,
      played with the other symbol. The source guards it with
      `if opp_moves:`; it is only reached on a board that is not full, so the
      guard always holds. */
  method RandomReply(board: Board, me: Mark) returns (opp: int, after: Board)
    requires !Full(board)
    ensures opp in AvailableMoves(board)
    ensures after == Place(board, opp, Other(me))
  {
    var oppMoves := AvailableMoves(board);
    var p: nat :| p < |oppMoves|;
    opp := oppMoves[p];
    OpponentMoveSucceeds(board, opp, me);
    after := MakeMove(board, opp, OpponentSymbol(MarkName(me))).value;
  }

  /** The moves of one pass of the `while not done` loop: the agent moves;
      if that ends the game the update is the terminal one, scored with the
      inline reward and the final board, otherwise the opponent answers and
      the update has reward 0.0 and the new board's moves. `state` is always
      the current board. */
  method RandomPlay(table0: QTable, epsilon: real, me: Mark, board0: Board, log0: seq<Transition>)
    returns (q1: QTable, t: Transition, outcome: Outcome)
    requires Ready(board0, log0, me)
    ensures SameValues(q1, table0)
    ensures t.state == board0
    ensures outcome == Ongoing ==> Ready(t.next, log0 + [t], me) && EmptyCount(t.next) == EmptyCount(board0) - 2
    ensures outcome != Ongoing ==> Finished(log0 + [t], outcome, me) && EmptyCount(t.next) == EmptyCount(board0) - 1
  {
    var action, afterAgent;
    action, q1, afterAgent := AgentMove(table0, epsilon, board0, me);
    var winner := CheckWinner(afterAgent);
    if winner != Ongoing {
      outcome := winner;
      t := Transition(board0, action, InlineReward(winner, me), afterAgent, []);
      FinishRound(board0, log0, t, me, outcome);
    } else {
      outcome := Ongoing;
      var opp, board := RandomReply(afterAgent, me);
      t := Transition(board0, action, 0.0, board, AvailableMoves(board));
      ContinueRound(board0, log0, t, me, opp);
    }
  }

  /** One pass of the `while not done` loop: the moves of `RandomPlay`,
      then the one `update_q` call they lead to. */
  method RandomRound(q: QTable, table0: QTable, epsilon: real, alpha: real, gamma: real, me: Mark,
                     board0: Board, log0: seq<Transition>)
    returns (table: QTable, board: Board, log: seq<Transition>, outcome: Outcome)
    requires Ready(board0, log0, me)
    requires SameValues(table0, Replay(q, alpha, gamma, log0))
    ensures |log| == |log0| + 1 && log[..|log0|] == log0
    ensures log[|log0|].state == board0 && log[|log0|].next == board
    ensures outcome == Ongoing ==> Ready(board, log, me)
    ensures outcome != Ongoing ==> Finished(log, outcome, me)
    ensures SameValues(table, Replay(q, alpha, gamma, log))
    ensures EmptyCount(board0) - 2 <= EmptyCount(board) < EmptyCount(board0)
    ensures outcome == Ongoing ==> EmptyCount(board) == EmptyCount(board0) - 2
  {
    var q1, t;
    q1, t, outcome := RandomPlay(table0, epsilon, me, board0, log0);
    SameValuesTrans(q1, table0, Replay(q, alpha, gamma, log0));
    board := t.next;
    table, log := Learn(q, q1, alpha, gamma, log0, t);
    assert log[..|log0|] == log0 && log[|log0|] == t;
  }

  /** One episode (the body of the episode loop, from a fresh game to the
      closing update). Returns the table afterwards, the result that ended
      the game and the `update_q` calls made, in order. */
  method RandomEpisode(q: QTable, epsilon: real, alpha: real, gamma: real, me: Mark)
    returns (table: QTable, outcome: Outcome, log: seq<Transition>)
    ensures Finished(log, outcome, me)
    ensures SameValues(table, Replay(q, alpha, gamma, log))
  {
    var board := NewGame();
    ReadyAtStart(board, me);
    table := q;
    log := [];
    outcome := Ongoing;
    while outcome == Ongoing
      invariant outcome == Ongoing ==> Ready(board, log, me)
      invariant outcome != Ongoing ==> Finished(log, outcome, me)
      invariant SameValues(table, Replay(q, alpha, gamma, log))
      decreases EmptyCount(board) + (if outcome == Ongoing then 1 else 0)
    {
      table, board, log, outcome := RandomRound(q, table, epsilon, alpha, gamma, me, board, log);
    }
  }

  /** An episode as the training loop sees it: it has a result, and it made
      between one and five updates, the table reading like their replay. */
  method ScoredEpisode(q: QTable, epsilon: real, alpha: real, gamma: real, me: Mark)
    returns (table: QTable, outcome: Outcome, log: seq<Transition>)
    ensures outcome != Ongoing && 1 <= |log| <= 5
    ensures Finished(log, outcome, me)
    ensures SameValues(table, Replay(q, alpha, gamma, log))
  {
    table, outcome, log := RandomEpisode(q, epsilon, alpha, gamma, me);
  }

  /** What the training loop keeps about the updates of the episodes in
      `episodes`: each episode is finished with its result, the log is the
      episodes' logs in turn, and the table reads like its replay. */
  ghost predicate Logged(agent: Agent, me: Mark, table: QTable, outcomes: seq<Outcome>,
                         episodes: seq<seq<Transition>>, log: seq<Transition>)
  {
    AllFinished(episodes, outcomes, me) && log == Concat(episodes)
    && SameValues(table, Replay(agent.table, agent.alpha, agent.gamma, log))
    && |outcomes| <= |log| <= 5 * |outcomes|
  }

  /** One more finished episode, appended to the log, keeps `Logged`. */
  lemma LoggedStep(agent: Agent, me: Mark, table: QTable, outcomes: seq<Outcome>,
                   episodes: seq<seq<Transition>>, log: seq<Transition>,
                   table': QTable, outcome: Outcome, ep: seq<Transition>)
    requires Logged(agent, me, table, outcomes, episodes, log)
    requires 1 <= |ep| <= 5 && Finished(ep, outcome, me)
    requires SameValues(table', Replay(table, agent.alpha, agent.gamma, ep))
    ensures Logged(agent, me, table', outcomes + [outcome], episodes + [ep], log + ep)
  {
    ReplayExtends(agent.table, table, table', agent.alpha, agent.gamma, log, ep);
    RecordEpisode(episodes, outcomes, ep, outcome, me);
    ConcatSnoc(episodes, ep);
  }

  /** `train_q_learning(agent, num_episodes, agent_symbol)`: the episodes in
      turn, each tallied once with the inline bookkeeping and followed by one
      epsilon decay. Returns the statistics, the final epsilon, the trained
      table, the result of each episode, the `update_q` calls of each episode
      and all of them, in order. Episode `i` is a finished game that made the
      updates `episodes[i]` and ended with `outcomes[i]`. */
  method TrainQLearning(agent: Agent, numEpisodes: int, me: Mark)
    returns (stats: Stats, epsilon: real, table: QTable, outcomes: seq<Outcome>,
             episodes: seq<seq<Transition>>, log: seq<Transition>)
    ensures |outcomes| == EpisodeCount(numEpisodes) && Total(stats) == |outcomes|
    ensures stats == Tally(outcomes, me)
    ensures AllFinished(episodes, outcomes, me)
    ensures log == Concat(episodes)
    ensures forall i :: 0 <= i < |outcomes| ==> outcomes[i] != Ongoing
    ensures epsilon == DecayedEpsilon(agent.epsilon, agent.minEpsilon, agent.epsilonDecay, EpisodeCount(numEpisodes))
    ensures SameValues(table, Replay(agent.table, agent.alpha, agent.gamma, log))
    ensures EpisodeCount(numEpisodes) <= |log| <= 5 * EpisodeCount(numEpisodes)
  {
    stats := Stats(0, 0, 0);
    epsilon := agent.epsilon;
    table := agent.table;
    outcomes := [];
    episodes := [];
    log := [];
    var count := EpisodeCount(numEpisodes);
    while |outcomes| < count
      invariant |outcomes| <= count
      invariant Tallied(agent, me, stats, epsilon, outcomes)
      invariant Logged(agent, me, table, outcomes, episodes, log)
    {
      var table', outcome, episodeLog := ScoredEpisode(table, epsilon, agent.alpha, agent.gamma, me);
      TalliedStep(agent, me, stats, epsilon, outcomes, outcome);
      LoggedStep(agent, me, table, outcomes, episodes, log, table', outcome, episodeLog);
      stats := Bump(stats, InlineKey(outcome, me));
      log := log + episodeLog;
      table := table';
      epsilon := DecayEpsilon(epsilon, agent.minEpsilon, agent.epsilonDecay);
      outcomes := outcomes + [outcome];
      episodes := episodes + [episodeLog];
    }
    TallyTotal(outcomes, me);
  }
}
