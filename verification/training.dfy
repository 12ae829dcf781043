/**
  What the three training loops share: the opponent's symbol, the reward and
  tally of a finished game, the statistics, and the log of `update_q` calls an
  episode makes together with the table that replaying that log produces.
 */
module Training {
  import opened Wrappers
  import opened Board
  import opened QLearning

  // ---------------------------------------------------------------- symbols

  /** `'O' if agent_symbol == 'X' else 'X'`. */
  function OpponentSymbol(agentSymbol: string): (r: string)
    ensures r == "X" || r == "O"
    ensures r == "O" <==> agentSymbol == "X"
    ensures ParseMark(agentSymbol).Some? ==> r == MarkName(Other(ParseMark(agentSymbol).value))
  {
    if agentSymbol == "X" then "O" else "X"
  }

  /** For either mark the opponent's symbol names the other mark, never the
      agent's own. */
  lemma OpponentIsOther(me: Mark)
    ensures ParseMark(OpponentSymbol(MarkName(me))) == Some(Other(me))
    ensures OpponentSymbol(MarkName(me)) != MarkName(me)
  {
  }

  /** A mark's name reads back as that mark. */
  lemma MarkNameParses(m: Mark)
    ensures ParseMark(MarkName(m)) == Some(m)
  {
  }

  /** `make_move(pos, opponent_symbol)` on an available cell always succeeds
      and writes the other mark. */
  lemma OpponentMoveSucceeds(b: Board, pos: int, me: Mark)
    requires pos in AvailableMoves(b)
    ensures MakeMove(b, pos, OpponentSymbol(MarkName(me))) == Success(Place(b, pos, Other(me)))
  {
    MarkNameParses(me);
    MoveSucceeds(b, pos, Other(me));
  }

  // ---------------------------------------------------------------- rewards and tallies

  /** The statistics keys 'wins', 'draws' and 'losses'. */
  datatype StatsKey = Wins | Draws | Losses

  /** The `stats` dictionary of a training run. */
  datatype Stats = Stats(wins: nat, draws: nat, losses: nat)

  /** The number of games the statistics record. */
  function Total(s: Stats): nat {
    s.wins + s.draws + s.losses
  }

  /** `stats[key] += 1`. */
  function Bump(s: Stats, key: StatsKey): (r: Stats)
    ensures Total(r) == Total(s) + 1
    ensures r.wins == s.wins + (if key == Wins then 1 else 0)
    ensures r.draws == s.draws + (if key == Draws then 1 else 0)
    ensures r.losses == s.losses + (if key == Losses then 1 else 0)
  {
    match key
    case Wins => s.(wins := s.wins + 1)
    case Draws => s.(draws := s.draws + 1)
    case Losses => s.(losses := s.losses + 1)
  }

  /** The reward that goes with each statistics key. */
  function KeyReward(key: StatsKey): real {
    match key
    case Wins => 1.0
    case Draws => 0.5
    case Losses => -1.0
  }

  /** `_get_reward`: 0.5 for 'Draw', 1.0 for the agent's mark, -1.0 for
      anything else (the other mark, and also `None`). */
  function GetReward(winner: Outcome, me: Mark): real {
    if winner == Draw then 0.5 else if winner == Win(me) then 1.0 else -1.0
  }

  /** `_get_stats_key`: the same three cases, as statistics keys. */
  function GetStatsKey(winner: Outcome, me: Mark): StatsKey {
    if winner == Draw then Draws else if winner == Win(me) then Wins else Losses
  }

  /** The reward and the key always agree, and the reward alone tells the key. */
  lemma RewardMatchesKey(winner: Outcome, me: Mark)
    ensures GetReward(winner, me) == KeyReward(GetStatsKey(winner, me))
    ensures GetStatsKey(winner, me) == Wins <==> winner == Win(me)
    ensures GetStatsKey(winner, me) == Draws <==> winner == Draw
    ensures GetStatsKey(winner, me) == Losses <==> winner == Ongoing || winner == Win(Other(me))
  {
  }

  /** The inline reward of `train_q_learning` and `main.train_vs_minimax`:
      the agent's mark is tested first, then 'Draw', then anything else. */
  function InlineReward(winner: Outcome, me: Mark): real {
    if winner == Win(me) then 1.0 else if winner == Draw then 0.5 else -1.0
  }

  /** The inline tally of the same two loops, in the same order of tests. */
  function InlineKey(winner: Outcome, me: Mark): StatsKey {
    if winner == Win(me) then Wins else if winner == Draw then Draws else Losses
  }

  /** Testing the agent's mark before 'Draw' changes nothing: the inline
      bookkeeping is `_get_reward` and `_get_stats_key`. */
  lemma InlineAgrees(winner: Outcome, me: Mark)
    ensures InlineReward(winner, me) == GetReward(winner, me)
    ensures InlineKey(winner, me) == GetStatsKey(winner, me)
  {
  }

  /** How many times `x` occurs in `xs`. */
  function Count<T(==)>(xs: seq<T>, x: T): (n: nat)
    ensures n <= |xs|
  {
    if |xs| == 0 then 0 else Count(xs[..|xs| - 1], x) + (if xs[|xs| - 1] == x then 1 else 0)
  }

  /** Appending `y` adds one occurrence of `x` when `y` is `x`, and none
      otherwise. */
  lemma CountSnoc<T>(xs: seq<T>, y: T, x: T)
    ensures Count(xs + [y], x) == Count(xs, x) + (if y == x then 1 else 0)
  {
    assert (xs + [y])[..|xs|] == xs;
  }

  /** Two different values together occur at most as often as there are
      elements. */
  lemma {:induction false} CountPair<T>(xs: seq<T>, a: T, b: T)
    requires a != b
    ensures Count(xs, a) + Count(xs, b) <= |xs|
    decreases |xs|
  {
    if |xs| > 0 {
      CountPair(xs[..|xs| - 1], a, b);
    }
  }

  /** The statistics of a run of finished games, counted from scratch: a win
      for every game the agent's mark won, a draw for every draw and a loss
      for every game the other mark won. */
  function Tally(outcomes: seq<Outcome>, me: Mark): Stats {
    Stats(Count(outcomes, Win(me)), Count(outcomes, Draw), Count(outcomes, Win(Other(me))))
  }

  /** Adding one to the key `_get_stats_key` names for a finished game keeps
      the statistics equal to the tally of the games so far. */
  lemma TallyStep(outcomes: seq<Outcome>, o: Outcome, me: Mark)
    requires o != Ongoing
    ensures Tally(outcomes + [o], me) == Bump(Tally(outcomes, me), GetStatsKey(o, me))
  {
    CountSnoc(outcomes, o, Win(me));
    CountSnoc(outcomes, o, Draw);
    CountSnoc(outcomes, o, Win(Other(me)));
    OutcomeCases(o, me);
    var before := Tally(outcomes, me);
    var w, d, l := before.wins, before.draws, before.losses;
    if o == Draw {
      assert GetStatsKey(o, me) == Draws;
      assert Tally(outcomes + [o], me) == Stats(w, d + 1, l);
    } else if o == Win(me) {
      assert GetStatsKey(o, me) == Wins && o != Win(Other(me));
      assert Tally(outcomes + [o], me) == Stats(w + 1, d, l);
    } else {
      assert GetStatsKey(o, me) == Losses && o == Win(Other(me)) && o != Win(me);
      assert Tally(outcomes + [o], me) == Stats(w, d, l + 1);
    }
  }

  /** Recording one more finished game keeps the statistics equal to the
      tally and the recorded results finished. */
  lemma RecordOutcome(stats: Stats, outcomes: seq<Outcome>, o: Outcome, me: Mark)
    requires stats == Tally(outcomes, me) && o != Ongoing
    requires forall i :: 0 <= i < |outcomes| ==> outcomes[i] != Ongoing
    ensures Bump(stats, GetStatsKey(o, me)) == Tally(outcomes + [o], me)
    ensures forall i :: 0 <= i < |outcomes| + 1 ==> (outcomes + [o])[i] != Ongoing
  {
    TallyStep(outcomes, o, me);
    var os := outcomes + [o];
    forall i | 0 <= i < |os|
      ensures os[i] != Ongoing
    {
      if i < |outcomes| {
        assert os[i] == outcomes[i];
      }
    }
  }

  /** Every finished game is counted exactly once. */
  lemma {:induction false} TallyTotal(outcomes: seq<Outcome>, me: Mark)
    requires forall i :: 0 <= i < |outcomes| ==> outcomes[i] != Ongoing
    ensures Total(Tally(outcomes, me)) == |outcomes|
    decreases |outcomes|
  {
    if |outcomes| > 0 {
      var init := outcomes[..|outcomes| - 1];
      TallyTotal(init, me);
      var o := outcomes[|outcomes| - 1];
      assert o == Win(me) || o == Draw || o == Win(Other(me));
    }
  }

  // ---------------------------------------------------------------- the update log

  /** One `update_q(state, action, reward, next_state, next_moves)` call. */
  datatype Transition = Transition(state: Board, action: int, reward: real,
                                   next: Board, nextMoves: seq<int>)

  /** Applies the logged updates in order, as `update_q` would. */
  function Replay(q: QTable, alpha: real, gamma: real, log: seq<Transition>): QTable
    decreases |log|
  {
    if |log| == 0 then q
    else
      var t := log[|log| - 1];
      UpdateQ(Replay(q, alpha, gamma, log[..|log| - 1]), alpha, gamma,
              t.state, t.action, t.reward, t.next, t.nextMoves)
  }

  /** The update logs of a run of episodes, one after another. */
  function Concat(episodes: seq<seq<Transition>>): seq<Transition>
    decreases |episodes|
  {
    if |episodes| == 0 then []
    else Concat(episodes[..|episodes| - 1]) + episodes[|episodes| - 1]
  }

  /** One more episode appends its log. */
  lemma ConcatSnoc(episodes: seq<seq<Transition>>, ep: seq<Transition>)
    ensures Concat(episodes + [ep]) == Concat(episodes) + ep
  {
    assert (episodes + [ep])[..|episodes|] == episodes;
  }

  /** `p` holds of the i-th elements of three equally long sequences, for
      every i. Built up one element at a time: `p` holds of the last three
      and the ones before them form a run. */
  predicate AllOf<A, B, C>(xs: seq<A>, ys: seq<B>, zs: seq<C>, p: (A, B, C) -> bool)
    decreases |xs|
  {
    |xs| == |ys| == |zs|
    && (|xs| == 0
        || (AllOf(xs[..|xs| - 1], ys[..|ys| - 1], zs[..|zs| - 1], p)
            && p(xs[|xs| - 1], ys[|ys| - 1], zs[|zs| - 1])))
  }

  /** A run extended by three more elements that satisfy `p`. */
  lemma AllOfSnoc<A, B, C>(xs: seq<A>, ys: seq<B>, zs: seq<C>, x: A, y: B, z: C, p: (A, B, C) -> bool)
    requires AllOf(xs, ys, zs, p) && p(x, y, z)
    ensures AllOf(xs + [x], ys + [y], zs + [z], p)
  {
    var n := |xs|;
    assert (xs + [x])[..n] == xs && (ys + [y])[..n] == ys && (zs + [z])[..n] == zs;
  }

  /** Replaying one more update is that update on the replayed table. */
  lemma ReplayStep(q: QTable, alpha: real, gamma: real, log: seq<Transition>, t: Transition)
    ensures Replay(q, alpha, gamma, log + [t])
            == UpdateQ(Replay(q, alpha, gamma, log), alpha, gamma, t.state, t.action, t.reward, t.next, t.nextMoves)
  {
    assert (log + [t])[..|log|] == log;
  }

  /** Replaying two logs one after the other is replaying their concatenation. */
  lemma {:induction false} ReplayConcat(q: QTable, alpha: real, gamma: real, a: seq<Transition>, b: seq<Transition>)
    ensures Replay(q, alpha, gamma, a + b) == Replay(Replay(q, alpha, gamma, a), alpha, gamma, b)
    decreases |b|
  {
    if |b| > 0 {
      var b' := b[..|b| - 1];
      ReplayConcat(q, alpha, gamma, a, b');
      assert (a + b)[..|a + b| - 1] == a + b';
      assert (a + b)[|a + b| - 1] == b[|b| - 1];
    } else {
      assert a + b == a;
    }
  }

  /** Updating a table that reads like the replay of `log` gives one that
      reads like the replay of the longer log. */
  lemma UpdateExtendsReplay(q: QTable, q1: QTable, alpha: real, gamma: real, log: seq<Transition>, t: Transition)
    requires SameValues(q1, Replay(q, alpha, gamma, log))
    ensures SameValues(UpdateQ(q1, alpha, gamma, t.state, t.action, t.reward, t.next, t.nextMoves),
                       Replay(q, alpha, gamma, log + [t]))
  {
    UpdateSameValues(q1, Replay(q, alpha, gamma, log), alpha, gamma, t.state, t.action, t.reward, t.next, t.nextMoves);
    ReplayStep(q, alpha, gamma, log, t);
  }

  /** The `update_q` call that closes a round: the table trained on one more
      update still reads like the replay of the log with that update appended. */
  method Learn(q: QTable, q1: QTable, alpha: real, gamma: real, log0: seq<Transition>, t: Transition)
    returns (table: QTable, log: seq<Transition>)
    requires SameValues(q1, Replay(q, alpha, gamma, log0))
    ensures log == log0 + [t]
    ensures SameValues(table, Replay(q, alpha, gamma, log))
  {
    table := UpdateQ(q1, alpha, gamma, t.state, t.action, t.reward, t.next, t.nextMoves);
    UpdateExtendsReplay(q, q1, alpha, gamma, log0, t);
    log := log0 + [t];
  }

  /** A table that reads like the replay of `log` and is then trained on
      `more` reads like the replay of `log + more`. */
  lemma ReplayExtends(q: QTable, table: QTable, table': QTable, alpha: real, gamma: real,
                      log: seq<Transition>, more: seq<Transition>)
    requires SameValues(table, Replay(q, alpha, gamma, log))
    requires SameValues(table', Replay(table, alpha, gamma, more))
    ensures SameValues(table', Replay(q, alpha, gamma, log + more))
  {
    ReplaySameValues(table, Replay(q, alpha, gamma, log), alpha, gamma, more);
    ReplayConcat(q, alpha, gamma, log, more);
    SameValuesTrans(table', Replay(table, alpha, gamma, more), Replay(q, alpha, gamma, log + more));
  }

  /** `SameValues` is transitive. */
  lemma SameValuesTrans(q1: QTable, q2: QTable, q3: QTable)
    requires SameValues(q1, q2) && SameValues(q2, q3)
    ensures SameValues(q1, q3)
  {
    forall key, action
      ensures Read(q1, key, action) == Read(q3, key, action)
    {
      assert Read(q1, key, action) == Read(q2, key, action);
    }
  }

  /** Replay only looks at values: tables that read alike stay alike. */
  lemma {:induction false} ReplaySameValues(q1: QTable, q2: QTable, alpha: real, gamma: real, log: seq<Transition>)
    requires SameValues(q1, q2)
    ensures SameValues(Replay(q1, alpha, gamma, log), Replay(q2, alpha, gamma, log))
    decreases |log|
  {
    if |log| > 0 {
      var t := log[|log| - 1];
      ReplaySameValues(q1, q2, alpha, gamma, log[..|log| - 1]);
      UpdateSameValues(Replay(q1, alpha, gamma, log[..|log| - 1]), Replay(q2, alpha, gamma, log[..|log| - 1]),
                       alpha, gamma, t.state, t.action, t.reward, t.next, t.nextMoves);
    }
  }

  /** Some logged update targets the entry (`key`, `action`). */
  predicate Touches(log: seq<Transition>, key: string, action: int) {
    exists i :: 0 <= i < |log| && StateKey(log[i].state) == key && log[i].action == action
  }

  /** A replayed log changes no value other than the entries it updates. */
  lemma {:induction false} ReplayFrame(q: QTable, alpha: real, gamma: real, log: seq<Transition>,
                                       key: string, action: int)
    requires !Touches(log, key, action)
    ensures Read(Replay(q, alpha, gamma, log), key, action) == Read(q, key, action)
    decreases |log|
  {
    if |log| > 0 {
      var init := log[..|log| - 1];
      ReplayFrame(q, alpha, gamma, init, key, action);
      assert !(StateKey(log[|log| - 1].state) == key && log[|log| - 1].action == action);
    }
  }

  // ---------------------------------------------------------------- shapes of logged updates

  /** The agent's action in `t` was an empty cell of the state it saw. */
  predicate Legal(t: Transition) {
    t.action in AvailableMoves(t.state)
  }

  /** The board after the agent's move of `t`. */
  function AfterAgent(t: Transition, me: Mark): Board
    requires Legal(t)
  {
    Place(t.state, t.action, me)
  }

  /** The first update starts from the empty board and each later one from
      the state the previous one led to. */
  predicate Chained(log: seq<Transition>)
    decreases |log|
  {
    if |log| == 0 then true
    else if |log| == 1 then Blank(log[0].state)
    else Chained(log[..|log| - 1]) && log[|log| - 1].state == log[|log| - 2].next
  }

  /** A round whose agent move did not end the game: reward 0.0, and the next
      state is the board after the opponent (`Other(me)`) answered the agent's
      move, with its available moves. */
  predicate Intermediate(t: Transition, me: Mark) {
    Legal(t) && t.reward == 0.0 && t.nextMoves == AvailableMoves(t.next)
    && CheckWinner(AfterAgent(t, me)) == Ongoing
    && exists opp :: 0 <= opp < 9 && AfterAgent(t, me)[opp] == Empty
                     && t.next == Place(AfterAgent(t, me), opp, Other(me))
  }

  /** Every update of `log` is an intermediate one. */
  predicate AllIntermediate(log: seq<Transition>, me: Mark) {
    forall i :: 0 <= i < |log| ==> Intermediate(log[i], me)
  }

  /** The round's update is intermediate when the agent's move left the game
      on and the opponent's reply `opp` was an empty cell after it. */
  lemma IntermediateIntro(t: Transition, me: Mark, opp: int)
    requires Legal(t) && t.reward == 0.0 && t.nextMoves == AvailableMoves(t.next)
    requires CheckWinner(AfterAgent(t, me)) == Ongoing
    requires opp in AvailableMoves(AfterAgent(t, me))
    requires t.next == Place(AfterAgent(t, me), opp, Other(me))
    ensures Intermediate(t, me)
  {
  }

  /** Appending a round keeps the log chained and intermediate. */
  lemma ExtendLog(log: seq<Transition>, t: Transition, me: Mark)
    requires Chained(log)
    requires if |log| == 0 then Blank(t.state) else log[|log| - 1].next == t.state
    ensures Chained(log + [t])
    ensures (log + [t])[..|log|] == log
    ensures AllIntermediate(log, me) && Intermediate(t, me) ==> AllIntermediate(log + [t], me)
  {
    assert (log + [t])[..|log|] == log;
  }

  /** A closing update: the given reward and no next moves, so nothing is
      bootstrapped. */
  predicate Closing(t: Transition, reward: real) {
    Legal(t) && t.reward == reward && t.nextMoves == []
  }

  // ---------------------------------------------------------------- the agent's move

  /** The agent's half of a round, the same in all three loops:
      `choose_action` on the current moves (with any draw in [0, 1) and any
      pick), then `make_move` with the agent's symbol. The chosen move is
      always available, so `make_move` never raises, and neither does the
      manager's `action not in available` check. */
  method AgentMove(table: QTable, epsilon: real, board: Board, me: Mark)
    returns (action: int, q1: QTable, after: Board)
    requires !Full(board)
    ensures action in AvailableMoves(board)
    ensures SameValues(q1, table)
    ensures after == Place(board, action, me)
    ensures EmptyCount(after) == EmptyCount(board) - 1
  {
    var available := AvailableMoves(board);
    var draw: real :| 0.0 <= draw < 1.0;
    var pick: nat :| true;
    var choice := ChooseAction(table, epsilon, board, available, draw, pick);
    action, q1 := choice.0, choice.1;
    MoveSucceeds(board, action, me);
    PlaceRemovesMove(board, action, me);
    after := MakeMove(board, action, MarkName(me)).value;
  }

  // ---------------------------------------------------------------- episodes

  /** `range(1, num_episodes + 1)` has this many episodes. */
  function EpisodeCount(numEpisodes: int): nat {
    if numEpisodes < 0 then 0 else numEpisodes
  }

  /** What a loop that tallies every game keeps about the results of the episodes in
      `outcomes`: all finished, tallied by the statistics, and epsilon
      decayed once for each. */
  predicate Tallied(agent: Agent, me: Mark, stats: Stats, epsilon: real, outcomes: seq<Outcome>) {
    stats == Tally(outcomes, me)
    && (forall i :: 0 <= i < |outcomes| ==> outcomes[i] != Ongoing)
    && epsilon == DecayedEpsilon(agent.epsilon, agent.minEpsilon, agent.epsilonDecay, |outcomes|)
  }

  /** One more finished episode, tallied once and followed by a decay,
      keeps `Tallied`. */
  lemma TalliedStep(agent: Agent, me: Mark, stats: Stats, epsilon: real, outcomes: seq<Outcome>, outcome: Outcome)
    requires Tallied(agent, me, stats, epsilon, outcomes) && outcome != Ongoing
    ensures Tallied(agent, me, Bump(stats, InlineKey(outcome, me)),
                    DecayEpsilon(epsilon, agent.minEpsilon, agent.epsilonDecay), outcomes + [outcome])
  {
    InlineAgrees(outcome, me);
    RecordOutcome(stats, outcomes, outcome, me);
  }
}
