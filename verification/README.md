# Tic-tac-toe with a minimax player and a Q-learning agent, in Dafny

This project models the core of a small tic-tac-toe training system:

- **Board.** A 3x3 board stored as nine cells, each `'X'`, `'O'` or empty. It supports `reset`, `get_available_moves`, `make_move` with its three `ValueError` checks, `check_winner` (scanning the eight lines in a fixed order, then testing for a draw) and `get_state`.
- **Minimax player.** An exhaustive minimax player given by two marks: `ai_player` maximizes and `human_player` minimizes. It scores finished games +10 / -10 / 0 and picks the first move, in board order, whose value is strictly the best.
- **Q-learning agent.** A tabular agent whose table maps the nine-character state key (`'X'`, `'O'`, `'-'`) to action values. `get_q` reads a value, defaulting to 0.0. `choose_action` is epsilon-greedy with a random choice among ties. `update_q` is the one-step temporal-difference rule, and each episode ends with one epsilon decay.
- **Three training loops.**
  - `train_q_learning`: the agent against a uniformly random opponent.
  - `TrainingManager._train_vs_minimax`: the agent against minimax, with its move checks, anomaly break, `_get_reward` and `_get_stats_key`.
  - `train_vs_minimax` of the command-line entry point: the agent against a minimax player it is handed.

Everything is modelled as pure values:

- A move returns a new board, and the minimax search's make/undo pairs are shown to restore the board.
- The Q-table is a `map<string, map<int, real>>`. An absent entry reads as 0.0. Two tables are compared with `SameValues`, which says they read the same everywhere.
- Every random draw (`random.random()`, `random.choice`) is a free choice. In the functions it is a parameter, and in the loops it is a `:|` choice, so every property holds for every outcome of the draws.
- Each training loop also returns the log of `update_q` calls it made, in order. Its contract says the final table reads exactly like replaying that log on the initial table. The log is the concatenation of per-episode logs, and every episode's log has the shape of a game played to its end: `RandomTraining.AllFinished`, `ManagerTraining.AllDone` and `MainTraining.AllClosed` state this shape, one episode after another.

Modules, in dependency order:

| file | module | models |
|---|---|---|
| `wrappers.dfy` | `Wrappers` | `Option`, `Result` |
| `board.dfy` | `Board` | `game/tic_tac_toe.py` |
| `minimax.dfy` | `Minimax` | `agents/minimax_agent.py` |
| `qlearning.dfy` | `QLearning` | `QLearningAgent` in `agents/qlearning_agent.py` |
| `training.dfy` | `Training` | what the three loops share: opponent symbol, rewards, statistics, the update log and its replay, the agent's half of a round |
| `random_training.dfy` | `RandomTraining` | `train_q_learning` |
| `minimax_rounds.dfy` | `MinimaxRounds` | a round against minimax, shared by the two minimax loops |
| `manager_training.dfy` | `ManagerTraining` | `TrainingManager._train_vs_minimax` and its helpers |
| `main_training.dfy` | `MainTraining` | `train_vs_minimax` in `main.py` |

The model follows the code, including where the loops differ from one another:

- **Random-opponent loop.** `train_q_learning` calls `check_winner` only after the agent's move (agents/qlearning_agent.py:102). A winning reply by the random opponent is followed by an ordinary reward-0.0 update. The game is scored only after the agent's next move, and then by whichever line `check_winner` scans first. `Training.Intermediate` says each such update follows an agent move that left the game on, and `RandomTraining.Finished` says the episode's last update follows the agent move that ended it. By contrast, the docstring of `train_vs_minimax` promises a check after every move (main.py:22), and both minimax loops call `check_winner` after the agent's move and again after the reply (training_manager.py:61 and 83, main.py:40 and 61).
- **Epsilon decay.** The decayed epsilon after k episodes is `max(min_epsilon, epsilon0 * decay^k)` only for k >= 1. With no episode, the starting epsilon is returned unchanged, even when it is below the floor.
- **Invalid moves.** `make_move` signals them with `ValueError`, here the three `MoveError` values. They are not a separate error type.

## Model

| member | source | states |
|---|---|---|
| Board.ParseMark | game/tic_tac_toe.py:34-35 | the only player symbols are "X" and "O": a string is accepted exactly when it is one of them, and it is read back as the mark with that name |
| Board.Reset | game/tic_tac_toe.py:11-19 | a fresh or reset board has all nine cells empty |
| Board.NewGame | game/tic_tac_toe.py:11-12 | constructing a game yields a board with all nine cells empty |
| Board.BlankIsReset | game/tic_tac_toe.py:14-19 | there is only one empty board: any board with nine empty cells is the reset board |
| Board.GetState | game/tic_tac_toe.py:63-68 | the state is a nine-element snapshot equal to the board cell by cell |
| Board.FreshBoardMoves | game/tic_tac_toe.py:21-25 | on an empty board the available moves are exactly 0, 1, ..., 8, in that order |
| Board.AvailableMoves | game/tic_tac_toe.py:21-25 | an index is listed exactly when it is in 0..8 and its cell is empty; the list is empty exactly when the board is full |
| Board.MovesAscending | game/tic_tac_toe.py:25 | the available moves are listed in strictly ascending index order |
| Board.MakeMove | game/tic_tac_toe.py:27-38 | the checks fire in the source's order (range, then player symbol, then occupied cell); a move succeeds exactly when all three pass; it then fills that one cell with the player's mark, leaves the other eight unchanged, and removes exactly that index from the available moves |
| Board.MoveSucceeds | game/tic_tac_toe.py:32-38 | any available move with either mark's symbol passes every check, so `make_move` never raises on it |
| Board.PlaceRemovesMove | game/tic_tac_toe.py:21-38 | filling an empty cell shortens the move list by one and removes exactly that index from it |
| Board.UndoRestores | agents/minimax_agent.py:45-47 | resetting a just-filled cell to empty gives back the board as it was before the move |
| Board.ScanLines | game/tic_tac_toe.py:49-56 | the scan returns the first won line at or after its start in scan order, or reports that no line there is won |
| Board.CheckWinner | game/tic_tac_toe.py:40-61 | a winner is reported exactly when some line is won, and the winner is the mark on the first won line in scan order; 'Draw' exactly when no line is won and the board is full; None exactly when no line is won and a cell is empty |
| Board.MoveCannotWinForOther | game/tic_tac_toe.py:38-56 | on a board with no won line, one move by a mark cannot make the other mark the winner |
| Minimax.Evaluate | agents/minimax_agent.py:15-30 | the value is +10, -10 or 0 when present; it is 0 exactly on a draw; +10 exactly when the first won line in scan order carries the maximizer's mark; with two distinct marks, -10 exactly when it carries the minimizer's, and no value exactly while the game goes on |
| Minimax.Minimax | agents/minimax_agent.py:32-57 | with two distinct marks the search always returns one of +10, 0, -10, never an infinity; a finished board is scored by `evaluate`; the recursion terminates because each level fills a cell |
| Minimax.ChildValues | agents/minimax_agent.py:42-57 | with two distinct marks every child of a position scores +10, 0 or -10, never an infinity, one value per available move |
| Minimax.MinimaxIsBestChild | agents/minimax_agent.py:42-57 | an unfinished position's value is the maximum (maximizer's turn) or the minimum (minimizer's turn) of its children's values, and is attained by one of them |
| Minimax.FoldGameScore | agents/minimax_agent.py:42-57 | folding `max` from -inf, or `min` from +inf, over a non-empty list of game scores gives a game score |
| Minimax.DepthIrrelevant | agents/minimax_agent.py:32-57 | the depth argument never affects the value |
| Minimax.MoveValues | agents/minimax_agent.py:65-68 | with two distinct marks every move `find_best_move` tries scores +10, 0 or -10, one value per available move |
| Minimax.BestFromSpec | agents/minimax_agent.py:63-72 | the strict `>` scan ends with a best value no smaller than any score seen; if it improved on its start value, the move it keeps is the first one reaching that best, every earlier move scoring strictly less |
| Minimax.BestMove | agents/minimax_agent.py:59-74 | any returned move is available; with two distinct marks, None is returned exactly when the board is full |
| Minimax.BestMoveIsFirstBest | agents/minimax_agent.py:63-74 | the returned move has the highest value and no lower-index available move has that value; None is returned exactly when every available move scores -inf |
| Minimax.MoveValueIsChild | agents/minimax_agent.py:66-68 | the score `find_best_move` gives a move is that move's child value in the search with the maximizer to move |
| Minimax.BestMoveAchievesValue | agents/minimax_agent.py:59-74 | on an unfinished board with two distinct marks a move is returned, and its score is the minimax value of the board with the maximizer to move: the move is optimal for the maximizer |
| Minimax.TryMove | agents/minimax_agent.py:66-68 | one trial move (make, search, undo) yields that move's value and leaves the board as it found it |
| Minimax.FindBestMove | agents/minimax_agent.py:59-74 | the loop with in-place trial moves returns the first best move and leaves the board unchanged |
| QLearning.StateKey | agents/qlearning_agent.py:31-32 | the key has nine characters, character i standing for cell i: the mark's letter, or '-' for an empty cell |
| QLearning.KeyRoundTrip | agents/qlearning_agent.py:31-32 | decoding the key of a board gives back the board |
| QLearning.ParseKeyRoundTrip | agents/qlearning_agent.py:31-32 | every well-formed nine-character key is the key of the board it decodes to |
| QLearning.KeyInjective | agents/qlearning_agent.py:31-32 | two boards with the same key are the same board, so no two states share a table row |
| QLearning.EnsureRow | agents/qlearning_agent.py:34-38 | giving a state a row adds only that key, with an empty row if it was missing, and changes no stored value |
| QLearning.GetQ | agents/qlearning_agent.py:34-38 | the result is the stored value, or 0.0 when the state or action is absent; the table gains at most an empty row for the state, and every existing row is unchanged |
| QLearning.MaxQ | agents/qlearning_agent.py:43-45 | the maximum over a non-empty move list bounds every move's value and is the value of one of them |
| QLearning.FutureUsesGetQ | agents/qlearning_agent.py:60-62 | the bootstrap term of an update with next moves is the largest `get_q` value of the next state over those moves, and every such `get_q` call only gives the next state an empty row |
| QLearning.UpdateQ | agents/qlearning_agent.py:48-64 | the new Q(state, action) is `old + alpha * (reward + gamma * future - old)`, with `future` 0.0 when there are no next moves and otherwise the largest next-state value; every other (state, action) reads as before |
| QLearning.UpdateQRows | agents/qlearning_agent.py:56-64 | an update adds at most the state's row and, when there are next moves, an empty next-state row; other rows are unchanged, and the state's row gains exactly the action |
| QLearning.FreshTerminalUpdate | agents/qlearning_agent.py:59-64 | updating an absent entry with no next moves stores exactly `alpha * reward` |
| QLearning.UpdateSameValues | agents/qlearning_agent.py:48-64 | the update depends only on the values the table reads, not on which empty rows it holds |
| QLearning.Ties | agents/qlearning_agent.py:45 | the tie list holds exactly the offered moves whose value equals the maximum |
| QLearning.ChooseAction | agents/qlearning_agent.py:40-46 | the chosen move is always one of the offered moves; when the draw is not below epsilon it has the largest value among them; exploring leaves the table as it was, and the greedy branch only adds an empty row for the state, so no stored value changes |
| QLearning.ChooseActionUsesGetQ | agents/qlearning_agent.py:40-46 | the greedy choice has the largest `get_q` value among the offered moves, and the table it returns is the one every such `get_q` call leaves |
| QLearning.ChooseActionReaches | agents/qlearning_agent.py:40-46 | conversely, every offered move can be chosen when exploring, and every maximal move can be chosen when greedy, for some random pick |
| QLearning.DecayEpsilon | agents/qlearning_agent.py:125 | one decay gives `epsilon * decay` floored at `min_epsilon`: at least both, and equal to one of them |
| QLearning.DecayClosedForm | agents/qlearning_agent.py:125 | after k >= 1 episodes epsilon is `max(min_epsilon, epsilon0 * decay^k)` |
| QLearning.DefaultEpsilonStays | agents/qlearning_agent.py:13-27 | the constructor's default epsilon equals its default floor, so an agent built with the defaults keeps epsilon 0.01 through any number of decays |
| Training.OpponentSymbol | agents/qlearning_agent.py:87 | the opponent's symbol is 'O' exactly when the agent's is 'X' and 'X' otherwise; for a valid agent mark it is the other mark |
| Training.OpponentIsOther | training_manager.py:17 | for either agent mark the opponent symbol parses to the other mark, so the two players never share a symbol |
| Training.OpponentMoveSucceeds | training_manager.py:76-80 | a move with the opponent symbol on an available cell passes every `make_move` check and fills that cell with the other mark |
| Training.Bump | training_manager.py:71 | incrementing one statistics key raises exactly that count by one and the total by one |
| Training.RewardMatchesKey | training_manager.py:113-127 | `_get_reward` and `_get_stats_key` agree (1.0 with 'wins', 0.5 with 'draws', -1.0 with 'losses'); 'wins' exactly for the agent's win, 'draws' exactly for a draw, 'losses' for the opponent's win and for None |
| Training.InlineAgrees | agents/qlearning_agent.py:104-114 | the inline reward and tally of the other two loops, which test the agent's mark before 'Draw', equal `_get_reward` and `_get_stats_key` |
| Training.TallyStep | agents/qlearning_agent.py:104-114 | incrementing the key for a finished game keeps the statistics equal to the count of wins, draws and losses among the games so far |
| Training.TallyTotal | agents/qlearning_agent.py:104-114 | when every game finished, wins + draws + losses equals the number of games |
| Training.ReplayFrame | agents/qlearning_agent.py:63-64 | a sequence of updates changes no value at a (state, action) pair it never updates |
| Training.Learn | agents/qlearning_agent.py:115-122 | one more `update_q` on a table that reads like the replay of a log reads like the replay of the log extended by that update |
| Training.AgentMove | training_manager.py:54-58 | the agent's choice is always an available move, so the "invalid move by the agent" check never fires and `make_move` never raises; exactly one cell is filled with the agent's mark and the table's values are unchanged |
| RandomTraining.RandomReply | agents/qlearning_agent.py:117-120 | on a board that is not full the random reply is an available move and is played with the other mark |
| RandomTraining.RandomPlay | agents/qlearning_agent.py:97-120 | the moves of one loop pass leave the table's values unchanged; an agent move that ends the game gives a terminal inline-reward update on the board after it, one cell fuller; otherwise the opponent answers and the update has reward 0.0, two cells fuller, with the agent to move again |
| RandomTraining.RandomRound | agents/qlearning_agent.py:97-123 | one loop pass appends exactly one update to the log, leaving the earlier updates as they were; its state is the board the pass started on and its next state the board the pass leaves; that board is one cell fuller when the agent's move ended the game (the episode is then finished) and two cells fuller when the opponent answered (the agent is to move again); the table reads like the replay of the log |
| RandomTraining.RandomEpisode | agents/qlearning_agent.py:93-123 | an episode makes between one and five updates, chained from the empty board; every earlier update follows an agent move that left the game on, and the last is the scored terminal update on the board where the agent's move ended it, so the episode ends at the first agent move that ends the game |
| RandomTraining.TrainQLearning | agents/qlearning_agent.py:78-136 | exactly `num_episodes` games are played (none when it is not positive); the statistics are the count of each result and sum to that number; epsilon is decayed once per episode; the log is the concatenation of the episodes' logs, and episode i's log is a game finished with result i, as `RandomEpisode` describes; the table reads like the replay of the log |
| MinimaxRounds.AgentTurn | training_manager.py:58-62 | on an unfinished board the agent's move never makes the opponent the winner; if the game goes on, minimax (with distinct marks) has a move to offer |
| MinimaxRounds.ReplyTurn | training_manager.py:80-84 | on an unfinished board the opponent's reply never makes the agent the winner |
| MinimaxRounds.MinimaxReply | training_manager.py:76-80 | on an unfinished board the minimax reply is `find_best_move`'s move, is available (so the "invalid move by Minimax" check never fires), and is played with the opponent's mark |
| ManagerTraining.Opponent | training_manager.py:17-23 | the minimax player's mark is the opponent symbol and differs from the agent's mark |
| ManagerTraining.RecordEnding | training_manager.py:61-88 | a scored game increments the key `_get_stats_key` names, and an anomaly increments nothing; either way the statistics stay equal to the count of scored draws and losses |
| ManagerTraining.AnomalyDone | training_manager.py:61-68 | an agent move that wins on the current board ends the episode without a terminal update: the rounds so far (at most four, each gone on) are the log, and the final board is the current board plus that move |
| ManagerTraining.AnomalyFinal | training_manager.py:52-68 | an anomaly is a game really played: its final board has `8 - 2 * rounds` empty cells (two per logged round and the agent's winning move), so it is never the empty board |
| ManagerTraining.ScoredDone | training_manager.py:69-88 | a game that ended otherwise is a draw or a minimax win, closed by one terminal update with `_get_reward`'s reward |
| ManagerTraining.AgentHalf | training_manager.py:69-73 | a game drawn by the agent's move is closed with reward 0.5 and the board after that move |
| ManagerTraining.MinimaxHalf | training_manager.py:75-94 | after the minimax reply the game is either closed with `_get_reward` of the result and the final board, or goes on with a reward-0.0 update whose next moves are the new board's |
| ManagerTraining.AfterAgentMove | training_manager.py:60-94 | a game the agent did not win either ends as a draw on the agent's move or continues with the minimax reply; fewer cells are empty afterwards |
| ManagerTraining.ManagerPlay | training_manager.py:52-94 | the moves of one loop pass leave the table's values unchanged and never raise; an agent win is the anomaly on the board plus that move; a draw or a minimax win closes the game with the update on the final board; otherwise the update is the one a continuing round makes, two cells fuller |
| ManagerTraining.ManagerRound | training_manager.py:52-94 | one pass of the loop never raises; an anomaly makes no update, so the log is unchanged, and the board is the one the pass started on plus one agent move; otherwise the pass appends exactly one update, whose state is the board it started on and whose next state is the board it leaves, and the game ends scored or continues with two more cells filled; the table reads like the replay of the log |
| ManagerTraining.ManagerEpisode | training_manager.py:49-94 | every episode ends after at most five agent moves: as an anomaly on the board the last round left plus one winning agent move, or scored with `_get_reward` of a draw or a minimax win |
| ManagerTraining.TrainVsMinimax | training_manager.py:40-111 | exactly `num_episodes` episodes; 'wins' stays 0 because anomalies are not counted; draws and losses count the scored episodes, so wins + draws + losses <= num_episodes; epsilon is decayed once per episode; the log is the concatenation of the episodes' logs, and episode i's log is a game that ended as ending i on final board i, as `ManagerEpisode` describes, anomalies included; the table reads like the replay of the log |
| MainTraining.AgentCloses | main.py:42-55 | a game ended by the agent's move is closed by one terminal update with the inline reward and the board after that move |
| MainTraining.ReplyHalf | main.py:57-81 | the minimax reply is played with the opponent symbol; the game is then closed with the inline reward of the result, or goes on with a reward-0.0 update |
| MainTraining.MainPlay | main.py:34-81 | the moves of one loop pass leave the table's values unchanged; the update they lead to starts on the current board, and either closes the game with the inline reward or continues it two cells fuller; `check_winner` of the board left is the result |
| MainTraining.MainRound | main.py:34-81 | one loop pass appends exactly one update to the log, leaving the earlier updates as they were; its state is the board the pass started on and its next state the board the pass leaves; the game is then closed by that update (one or two cells filled) or continues with two more cells filled; the table reads like the replay of the log |
| MainTraining.MainEpisode | main.py:30-81 | every episode ends with one terminal update after at most five agent moves, every earlier update being a reward-0.0 round that continued |
| MainTraining.TrainVsMinimax | main.py:15-95 | exactly `num_episodes` games, each tallied once, agent wins included, so wins + draws + losses equals the number of games; epsilon is decayed once per episode; the log is the concatenation of the episodes' logs, and episode i's log is a game closed with result i and its inline reward, as `MainEpisode` describes; the table reads like the replay of the log |

## Left out

- Persistence: `_load_q_table` and `save_q_table` read and write JSON files. The initial table is a parameter and the final table is a result.
- Progress reporting: the `tqdm` bars, the progress interval and its messages, the anomaly message and the final `print`. They are output only.
- `main()` and its argument parsing, `train_random_opponent` and `TrainingManager.train`. They are only dispatch to the modelled loops. `MainTraining.TrainVsMinimax` takes the minimax player's two marks, which `main()` sets to the opponent's and the agent's.
- The Tk and live-plot user interfaces. They are outside the training core.
- Floating point: Q-values, rewards, epsilon, alpha and gamma are exact reals, so there is no rounding.
- The string form `str(action)` of the table's inner keys is an integer key. The conversion is injective on 0..8, so nothing observable changes.
- Random numbers are free choices. `random.random()` is any real in [0, 1). `random.choice(xs)` is `xs[pick % |xs|]` for an arbitrary natural `pick`, or any index in the loops. Nothing is said about their distribution.
- In `choose_action`, building a dict over `available_moves` drops duplicates. The move lists it is given never contain any, so ties are computed on the list itself.
- `get_state` copies the list into a tuple so that later moves cannot change it. Boards here are immutable values, so the copy is the board itself.
- `agent_symbol` is a `Mark` in the loops. The three loops never validate it, and with any other string `make_move` raises on the first move. `Board.ParseMark` and `Training.OpponentSymbol` still model arbitrary strings.
- MainTraining.TrainVsMinimax: requires the minimax player's two marks to differ. `main()` always passes distinct marks: the opponent's symbol as `ai_player` and the agent's as `human_player`, with `--symbol` limited to X and O (main.py:104-116). The round lemmas (every search value is a finite game score, the reply never lets the agent win) are stated for distinct marks, so a minimax player given one mark twice is not modelled.
- QLearning.DecayClosedForm: holds only for k >= 1, `0 <= decay <= 1` and a non-negative floor. For k = 0 the starting epsilon is kept even below the floor. With a decay above 1 the floor can be passed on the way up.
- Training.AgentMove: its contract passes on only that the move is available, that it fills one cell with the agent's mark and that the table's values are unchanged. It does not restate that the move is epsilon-greedy; `QLearning.ChooseAction` states that, and no loop property depends on which available move is chosen.
- The constructor's table load is part of persistence: `QLearning.NewAgent` takes the loaded table as a parameter.
- RandomTraining.TrainQLearning, ManagerTraining.TrainVsMinimax, MainTraining.TrainVsMinimax: the final table is stated up to `SameValues` (reads the same everywhere), not as map equality. `choose_action` also gives the current state an empty row, and the log of updates does not record that.
- That the minimax player never loses, and that two minimax players always draw, are not proved. Both need an exhaustive evaluation of the game tree, which the verifier cannot be asked to unfold. As a consequence, the manager's anomaly branch is modelled as reachable.
- Minimax.Minimax: `depth` is incremented and never read; `Minimax.DepthIrrelevant` states this.
