/**
  The tabular Q-learning agent: the state key, the Q-table with its lazily
  defaulted reads, epsilon-greedy action choice, the one-step
  temporal-difference update, and the per-episode epsilon decay.

  Q-values and epsilon are `real`s. The table's action keys are the integer
  moves themselves (the Python Q-table stores them as their decimal strings).
  Random draws are parameters: `draw` stands for `random.random()` and
  `random.choice(xs)` picks `xs[pick % |xs|]`.
 */
module QLearning {
  import opened Wrappers
  import opened Board

  /** state key -> move -> Q-value */
  type QTable = map<string, map<int, real>>

  /** The agent's parameters and table. */
  datatype Agent = Agent(alpha: real, gamma: real, epsilon: real,
                         epsilonDecay: real, minEpsilon: real, table: QTable)

  /** An agent built with the constructor's defaults around a loaded table. */
  function NewAgent(loaded: QTable): Agent {
    Agent(0.5, 0.9, 0.01, 0.995, 0.01, loaded)
  }

  // ---------------------------------------------------------------- state key

  /** The key character of a cell: the mark itself, '-' for an empty cell. */
  function CellChar(c: Cell): char {
    match c
    case Empty => '-'
    case Filled(X) => 'X'
    case Filled(O) => 'O'
  }

  /** The cell a key character stands for, if any. */
  function CharCell(ch: char): Option<Cell> {
    if ch == '-' then Some(Empty)
    else if ch == 'X' then Some(Filled(X))
    else if ch == 'O' then Some(Filled(O))
    else None
  }

  /** `_state_key`: the nine cells as a string over 'X', 'O' and '-'. */
  function StateKey(s: Board): (k: string)
    ensures |k| == 9
    ensures forall i :: 0 <= i < 9 ==> CharCell(k[i]) == Some(s[i])
  {
    seq(9, i requires 0 <= i < 9 => CellChar(s[i]))
  }

  /** The cell of a key character, reading anything unknown as empty. */
  function CharCellOrEmpty(ch: char): Cell {
    match CharCell(ch)
    case Some(c) => c
    case None => Empty
  }

  /** The cells a string of key characters stands for, one per character. */
  function DecodeCells(k: string): (r: seq<Cell>)
    ensures |r| == |k|
    ensures forall i :: 0 <= i < |k| ==> r[i] == CharCellOrEmpty(k[i])
  {
    if |k| == 0 then [] else [CharCellOrEmpty(k[0])] + DecodeCells(k[1..])
  }

  /** Reads a key back into a board; `None` unless it is nine key characters. */
  function ParseKey(k: string): Option<Board> {
    if |k| == 9 && forall i :: 0 <= i < 9 ==> CharCell(k[i]).Some? then
      Some(DecodeCells(k))
    else None
  }

  /** Decoding a state key gives back the board. */
  lemma KeyRoundTrip(s: Board)
    ensures ParseKey(StateKey(s)) == Some(s)
  {
    var k := StateKey(s);
    var t := DecodeCells(k);
    forall i | 0 <= i < 9
      ensures t[i] == s[i]
    {
      assert CharCell(k[i]) == Some(s[i]);
    }
    assert t == s;
  }

  /** Encoding a well-formed key's board gives back the key. */
  lemma ParseKeyRoundTrip(k: string)
    requires ParseKey(k).Some?
    ensures StateKey(ParseKey(k).value) == k
  {
    var s := ParseKey(k).value;
    forall i | 0 <= i < 9
      ensures StateKey(s)[i] == k[i]
    {
      assert s[i] == CharCellOrEmpty(k[i]);
      assert CharCell(StateKey(s)[i]) == Some(s[i]) == CharCell(k[i]);
    }
  }

  /** Different boards have different keys, so no two states share a table row. */
  lemma KeyInjective(a: Board, b: Board)
    ensures StateKey(a) == StateKey(b) ==> a == b
  {
    KeyRoundTrip(a);
    KeyRoundTrip(b);
  }

  // ---------------------------------------------------------------- table reads

  /** The stored value of (`key`, `action`), or 0.0 if the table has none. */
  function Read(q: QTable, key: string, action: int): real {
    if key in q && action in q[key] then q[key][action] else 0.0
  }

  /** Two tables store the same numbers once absent entries read as 0.0. */
  ghost predicate SameValues(q1: QTable, q2: QTable) {
    forall key, action :: Read(q1, key, action) == Read(q2, key, action)
  }

  /** Gives `key` an empty row if it has none. */
  function EnsureRow(q: QTable, key: string): (r: QTable)
    ensures r.Keys == q.Keys + {key}
    ensures forall k :: k in q ==> r[k] == q[k]
    ensures key !in q ==> r[key] == map[]
    ensures SameValues(q, r)
  {
    if key in q then q else q[key := map[]]
  }

  /** `get_q`: the stored value or 0.0; an unseen state gets an empty row,
      which is the call's only effect on the table. */
  function GetQ(q: QTable, s: Board, action: int): (r: (real, QTable))
    ensures StateKey(s) in q && action in q[StateKey(s)] ==> r.0 == q[StateKey(s)][action]
    ensures !(StateKey(s) in q && action in q[StateKey(s)]) ==> r.0 == 0.0
    ensures r.1.Keys == q.Keys + {StateKey(s)}
    ensures forall k :: k in q ==> r.1[k] == q[k]
    ensures StateKey(s) !in q ==> r.1[StateKey(s)] == map[]
    ensures SameValues(q, r.1)
  {
    var key := StateKey(s);
    var q1 := EnsureRow(q, key);
    (Read(q1, key, action), q1)
  }

  /** The real maximum of two values (Python's `max(a, b)`). */
  function RMax(a: real, b: real): real {
    if a >= b then a else b
  }

  /** The largest Q-value of row `key` over `moves`. */
  function MaxQ(q: QTable, key: string, moves: seq<int>): (r: real)
    requires |moves| > 0
    ensures forall i :: 0 <= i < |moves| ==> Read(q, key, moves[i]) <= r
    ensures exists i :: 0 <= i < |moves| && r == Read(q, key, moves[i])
  {
    if |moves| == 1 then Read(q, key, moves[0])
    else
      var rest := MaxQ(q, key, moves[1..]);
      assert forall i :: 1 <= i < |moves| ==> moves[i] == moves[1..][i - 1];
      RMax(Read(q, key, moves[0]), rest)
  }

  /** Tables with the same values have the same maxima. */
  lemma {:induction false} MaxQSameValues(q1: QTable, q2: QTable, key: string, moves: seq<int>)
    requires |moves| > 0 && SameValues(q1, q2)
    ensures MaxQ(q1, key, moves) == MaxQ(q2, key, moves)
  {
    if |moves| > 1 {
      MaxQSameValues(q1, q2, key, moves[1..]);
    }
  }

  /** Tables with the same values bootstrap alike. */
  lemma FutureSameValues(q1: QTable, q2: QTable, nextState: Board, nextMoves: seq<int>)
    requires SameValues(q1, q2)
    ensures Future(q1, nextState, nextMoves) == Future(q2, nextState, nextMoves)
  {
    if |nextMoves| > 0 {
      MaxQSameValues(q1, q2, StateKey(nextState), nextMoves);
    }
  }

  /** The bootstrap term of an update: the best next value, or 0.0 after a
      terminal move (no next moves). */
  function Future(q: QTable, nextState: Board, nextMoves: seq<int>): real {
    if |nextMoves| == 0 then 0.0 else MaxQ(q, StateKey(nextState), nextMoves)
  }

  /** The bootstrap term is the largest `get_q` value of the next state over
      the next moves, and each of those `get_q` calls leaves the table as
      ensuring the next state's row does. */
  lemma FutureUsesGetQ(q: QTable, nextState: Board, nextMoves: seq<int>)
    requires |nextMoves| > 0
    ensures forall a :: a in nextMoves ==> GetQ(q, nextState, a).0 <= Future(q, nextState, nextMoves)
    ensures exists a :: a in nextMoves && GetQ(q, nextState, a).0 == Future(q, nextState, nextMoves)
    ensures forall a :: a in nextMoves ==> GetQ(q, nextState, a).1 == EnsureRow(q, StateKey(nextState))
  {
    var key := StateKey(nextState);
    forall a | a in nextMoves
      ensures GetQ(q, nextState, a).0 <= Future(q, nextState, nextMoves)
    {
      var i :| 0 <= i < |nextMoves| && nextMoves[i] == a;
      assert Read(EnsureRow(q, key), key, a) == Read(q, key, a);
    }
    var i :| 0 <= i < |nextMoves| && Future(q, nextState, nextMoves) == Read(q, key, nextMoves[i]);
    assert Read(EnsureRow(q, key), key, nextMoves[i]) == Read(q, key, nextMoves[i]);
    assert nextMoves[i] in nextMoves && GetQ(q, nextState, nextMoves[i]).0 == Future(q, nextState, nextMoves);
  }

  // ---------------------------------------------------------------- update

  /** The temporal-difference rule of `update_q`: `prior` moved a fraction
      `alpha` of the way towards `reward + gamma * future`. */
  function Learned(prior: real, alpha: real, gamma: real, reward: real, future: real): real {
    prior + alpha * (reward + gamma * future - prior)
  }

  /** `update_q`: moves Q(state, action) a fraction `alpha` of the way towards
      `reward + gamma * future`. Reading the next state through `get_q` gives
      it an empty row when there are next moves. */
  function UpdateQ(q: QTable, alpha: real, gamma: real, state: Board, action: int,
                   reward: real, nextState: Board, nextMoves: seq<int>): (r: QTable)
    ensures var key := StateKey(state);
            var prior := Read(q, key, action);
            Read(r, key, action) == Learned(prior, alpha, gamma, reward, Future(q, nextState, nextMoves))
    ensures forall key, b :: key != StateKey(state) || b != action ==> Read(r, key, b) == Read(q, key, b)
    ensures StateKey(state) in r && action in r[StateKey(state)]
  {
    var key := StateKey(state);
    var q1 := EnsureRow(q, key);
    var prior := Read(q1, key, action);
    var future := Future(q1, nextState, nextMoves);
    var q2 := if |nextMoves| == 0 then q1 else EnsureRow(q1, StateKey(nextState));
    FutureSameValues(q, q1, nextState, nextMoves);
    var newQ := Learned(prior, alpha, gamma, reward, future);
    q2[key := q2[key][action := newQ]]
  }

  /** The rows an update leaves behind: the state's row gains the action,
      the next state gets an empty row if it had none and the move was not
      terminal, and every other row is untouched. */
  lemma UpdateQRows(q: QTable, alpha: real, gamma: real, state: Board, action: int,
                    reward: real, nextState: Board, nextMoves: seq<int>)
    ensures var r := UpdateQ(q, alpha, gamma, state, action, reward, nextState, nextMoves);
            r.Keys == q.Keys + {StateKey(state)} + (if |nextMoves| == 0 then {} else {StateKey(nextState)})
    ensures var r := UpdateQ(q, alpha, gamma, state, action, reward, nextState, nextMoves);
            forall k :: k in q && k != StateKey(state) ==> r[k] == q[k]
    ensures var r := UpdateQ(q, alpha, gamma, state, action, reward, nextState, nextMoves);
            forall k :: k in r && k !in q && k != StateKey(state) ==> r[k] == map[]
    ensures var r := UpdateQ(q, alpha, gamma, state, action, reward, nextState, nextMoves);
            r[StateKey(state)].Keys == (if StateKey(state) in q then q[StateKey(state)].Keys else {}) + {action}
  {
  }

  /** The first update of an unseen (state, action) after a terminal move
      stores exactly `alpha * reward`. */
  lemma FreshTerminalUpdate(q: QTable, alpha: real, gamma: real, state: Board, action: int,
                            reward: real, nextState: Board)
    requires !(StateKey(state) in q && action in q[StateKey(state)])
    ensures Read(UpdateQ(q, alpha, gamma, state, action, reward, nextState, []), StateKey(state), action)
            == alpha * reward
  {
  }

  /** The update only looks at values: tables that read alike stay alike. */
  lemma UpdateSameValues(q1: QTable, q2: QTable, alpha: real, gamma: real, state: Board, action: int,
                         reward: real, nextState: Board, nextMoves: seq<int>)
    requires SameValues(q1, q2)
    ensures SameValues(UpdateQ(q1, alpha, gamma, state, action, reward, nextState, nextMoves),
                       UpdateQ(q2, alpha, gamma, state, action, reward, nextState, nextMoves))
  {
    var r1 := UpdateQ(q1, alpha, gamma, state, action, reward, nextState, nextMoves);
    var r2 := UpdateQ(q2, alpha, gamma, state, action, reward, nextState, nextMoves);
    FutureSameValues(q1, q2, nextState, nextMoves);
    forall key, b
      ensures Read(r1, key, b) == Read(r2, key, b)
    {
      if key == StateKey(state) && b == action {
        assert Read(q1, key, b) == Read(q2, key, b);
      } else {
        assert Read(r1, key, b) == Read(q1, key, b) == Read(q2, key, b) == Read(r2, key, b);
      }
    }
  }

  // ---------------------------------------------------------------- choice

  /** The moves of `moves` whose value in row `key` equals `target`, in order. */
  function Ties(q: QTable, key: string, moves: seq<int>, target: real): (r: seq<int>)
    ensures forall m :: m in r <==> m in moves && Read(q, key, m) == target
  {
    if |moves| == 0 then []
    else if Read(q, key, moves[0]) == target then [moves[0]] + Ties(q, key, moves[1..], target)
    else Ties(q, key, moves[1..], target)
  }

  /** `choose_action`: with `draw < epsilon` a random available move;
      otherwise a random move among those of largest Q-value. The greedy
      branch reads the table through `get_q`, giving the state a row. */
  function ChooseAction(q: QTable, epsilon: real, state: Board, moves: seq<int>,
                        draw: real, pick: nat): (r: (int, QTable))
    requires |moves| > 0
    ensures r.0 in moves
    ensures draw >= epsilon ==>
              forall m :: m in moves ==> Read(q, StateKey(state), m) <= Read(q, StateKey(state), r.0)
    ensures draw < epsilon ==> r.1 == q
    ensures draw >= epsilon ==> r.1.Keys == q.Keys + {StateKey(state)}
    ensures forall k :: k in q ==> r.1[k] == q[k]
    ensures SameValues(q, r.1)
  {
    if draw < epsilon then (moves[pick % |moves|], q)
    else
      var key := StateKey(state);
      var q1 := EnsureRow(q, key);
      var top := MaxQ(q1, key, moves);
      var best := Ties(q1, key, moves, top);
      assert exists i :: 0 <= i < |moves| && top == Read(q1, key, moves[i]) && moves[i] in best;
      var choice := best[pick % |best|];
      assert choice in best;
      (choice, q1)
  }

  /** The greedy branch compares the values `get_q` returns for the offered
      moves, and leaves the table as `get_q` leaves it. */
  lemma ChooseActionUsesGetQ(q: QTable, epsilon: real, state: Board, moves: seq<int>, draw: real, pick: nat)
    requires |moves| > 0 && draw >= epsilon
    ensures var r := ChooseAction(q, epsilon, state, moves, draw, pick);
            forall m :: m in moves ==> GetQ(q, state, m).0 <= GetQ(q, state, r.0).0 && GetQ(q, state, m).1 == r.1
  {
  }

  /** Every choice `choose_action` may make is reachable: with `draw < epsilon`
      any available move, otherwise any move of largest Q-value. */
  lemma ChooseActionReaches(q: QTable, epsilon: real, state: Board, moves: seq<int>, draw: real, m: int)
    requires m in moves
    requires draw >= epsilon ==>
               forall m' :: m' in moves ==> Read(q, StateKey(state), m') <= Read(q, StateKey(state), m)
    ensures exists pick: nat :: ChooseAction(q, epsilon, state, moves, draw, pick).0 == m
  {
    var p: nat;
    if draw < epsilon {
      var i :| 0 <= i < |moves| && moves[i] == m;
      p := i;
      ModSmall(p, |moves|);
    } else {
      p := GreedyPick(q, state, moves, m);
      var key := StateKey(state);
      var best := Ties(EnsureRow(q, key), key, moves, MaxQ(EnsureRow(q, key), key, moves));
      ModSmall(p, |best|);
    }
    assert ChooseAction(q, epsilon, state, moves, draw, p).0 == m;
  }

  /** A pick below the list length selects that very entry. */
  lemma ModSmall(p: nat, n: nat)
    requires p < n
    ensures p % n == p
  {
  }

  /** The draw that makes the greedy branch pick the best move `m`. */
  lemma GreedyPick(q: QTable, state: Board, moves: seq<int>, m: int) returns (p: nat)
    requires m in moves
    requires forall m' :: m' in moves ==> Read(q, StateKey(state), m') <= Read(q, StateKey(state), m)
    ensures var key := StateKey(state);
            var q1 := EnsureRow(q, key);
            var best := Ties(q1, key, moves, MaxQ(q1, key, moves));
            p < |best| && best[p] == m
  {
    var key := StateKey(state);
    var q1 := EnsureRow(q, key);
    var top := MaxQ(q1, key, moves);
    var best := Ties(q1, key, moves, top);
    assert Read(q1, key, m) == Read(q, key, m);
    var i :| 0 <= i < |moves| && top == Read(q1, key, moves[i]);
    assert Read(q1, key, moves[i]) == Read(q, key, moves[i]);
    assert Read(q1, key, m) == top;
    assert m in best;
    p :| 0 <= p < |best| && best[p] == m;
  }

  // ---------------------------------------------------------------- epsilon

  /** The per-episode decay `max(min_epsilon, epsilon * epsilon_decay)`. */
  function DecayEpsilon(epsilon: real, minEpsilon: real, decay: real): (r: real)
    ensures r >= minEpsilon && r >= epsilon * decay
    ensures r == minEpsilon || r == epsilon * decay
  {
    if minEpsilon >= epsilon * decay then minEpsilon else epsilon * decay
  }

  /** Epsilon after `k` decays. */
  function DecayedEpsilon(epsilon0: real, minEpsilon: real, decay: real, k: nat): real {
    if k == 0 then epsilon0 else DecayEpsilon(DecayedEpsilon(epsilon0, minEpsilon, decay, k - 1), minEpsilon, decay)
  }

  /** `epsilon0 * decay^k`, multiplied out one factor at a time as the
      episodes do. */
  function Geometric(epsilon0: real, decay: real, k: nat): real {
    if k == 0 then epsilon0 else Geometric(epsilon0, decay, k - 1) * decay
  }

  /** One decay step keeps the closed form: the floor absorbs whatever it
      absorbed before, since `decay <= 1`. */
  lemma DecayStep(prev: real, minEpsilon: real, decay: real, e: real)
    requires 0.0 <= decay <= 1.0 && minEpsilon >= 0.0 && prev == RMax(minEpsilon, e)
    ensures DecayEpsilon(prev, minEpsilon, decay) == RMax(minEpsilon, e * decay)
  {
    if minEpsilon >= e {
      assert prev == minEpsilon;
      assert minEpsilon * decay <= minEpsilon;
      assert e * decay <= minEpsilon * decay;
      assert DecayEpsilon(prev, minEpsilon, decay) == minEpsilon;
      assert RMax(minEpsilon, e * decay) == minEpsilon;
    } else {
      assert prev == e;
    }
  }

  /** With a decay factor in [0, 1] and a non-negative floor, `k >= 1` decays
      give `max(min_epsilon, epsilon0 * decay^k)`. */
  lemma {:induction false} DecayClosedForm(epsilon0: real, minEpsilon: real, decay: real, k: nat)
    requires 0.0 <= decay <= 1.0 && minEpsilon >= 0.0 && k >= 1
    ensures DecayedEpsilon(epsilon0, minEpsilon, decay, k) == RMax(minEpsilon, Geometric(epsilon0, decay, k))
  {
    if k > 1 {
      DecayClosedForm(epsilon0, minEpsilon, decay, k - 1);
      DecayStep(DecayedEpsilon(epsilon0, minEpsilon, decay, k - 1), minEpsilon, decay,
                Geometric(epsilon0, decay, k - 1));
    }
  }

  /** The constructor's default epsilon already sits on its floor, so an
      agent built with the defaults explores with probability 0.01 in every
      episode, however many decays it goes through. */
  lemma {:induction false} DefaultEpsilonStays(loaded: QTable, k: nat)
    ensures var a := NewAgent(loaded);
            DecayedEpsilon(a.epsilon, a.minEpsilon, a.epsilonDecay, k) == 0.01
  {
    if k > 0 {
      DefaultEpsilonStays(loaded, k - 1);
    }
  }
}
