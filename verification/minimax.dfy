/**
  The exhaustive minimax opponent. `ai` is the maximizing mark and `human`
  the minimizing one. The search is written over immutable boards; the
  in-place make-move / undo discipline of `MinimaxAgent` is modelled by
  `FindBestMove`, which threads a working board through the loop.
 */
module Minimax {
  import opened Wrappers
  import opened Board

  /** A search value: a finite score or one of the infinities that seed the
      running maximum and minimum. */
  datatype Score = NegInf | Fin(v: int) | PosInf

  predicate Le(a: Score, b: Score) {
    a.NegInf? || b.PosInf? || (a.Fin? && b.Fin? && a.v <= b.v)
  }

  predicate Lt(a: Score, b: Score) {
    Le(a, b) && a != b
  }

  /** Python's `max(a, b)`: `a` unless `b` is strictly larger. */
  function Max(a: Score, b: Score): Score {
    if Lt(a, b) then b else a
  }

  /** Python's `min(a, b)`: `a` unless `b` is strictly smaller. */
  function Min(a: Score, b: Score): Score {
    if Lt(b, a) then b else a
  }

  /** The only values a finished game is scored with. */
  predicate IsGameScore(s: Score) {
    s == Fin(-10) || s == Fin(0) || s == Fin(10)
  }

  /** `evaluate`: +10 if `ai` won, -10 if `human` won, 0 on a draw, and no
      value while the game goes on. */
  function Evaluate(b: Board, ai: Mark, human: Mark): (r: Option<int>)
    ensures r.Some? ==> r.value == -10 || r.value == 0 || r.value == 10
    ensures r == Some(0) <==> Full(b) && !AnyLineWon(b)
    ensures r == Some(10) <==> WonBy(b, ai)
    ensures ai != human ==> (r == Some(-10) <==> WonBy(b, human))
    ensures ai != human ==> (r.None? <==> !AnyLineWon(b) && !Full(b))
  {
    WinnerIsFirstLine(b, ai);
    WinnerIsFirstLine(b, human);
    match CheckWinner(b)
    case Win(m) =>
      if m == ai then Some(10)
      else if m == human then Some(-10)
      else assert ai == human; None
    case Draw => Some(0)
    case Ongoing => None
  }

  /** The mark that moves at a maximizing or a minimizing level. */
  function Mover(isMax: bool, ai: Mark, human: Mark): Mark {
    if isMax then ai else human
  }

  /** `minimax`: the value of `b` with `ai` maximizing and `human` minimizing.
      A finished game is scored by `Evaluate`; otherwise the value is folded
      over the children. `depth` is carried along, incremented, and never read. */
  function Minimax(b: Board, depth: int, isMax: bool, ai: Mark, human: Mark): (r: Score)
    ensures ai != human ==> IsGameScore(r)
    ensures Evaluate(b, ai, human).Some? ==> r == Fin(Evaluate(b, ai, human).value)
    decreases EmptyCount(b), 2
  {
    match Evaluate(b, ai, human)
    case Some(s) => Fin(s)
    case None =>
      var vals := ChildValues(b, depth, isMax, ai, human);
      var seed := if isMax then NegInf else PosInf;
      FoldGameScore(isMax, vals, seed);
      Fold(isMax, vals, 0, seed)
  }

  /** The values of the children, one per available move, in move order. */
  function ChildValues(b: Board, depth: int, isMax: bool, ai: Mark, human: Mark): (vs: seq<Score>)
    ensures |vs| == |AvailableMoves(b)|
    ensures forall j :: 0 <= j < |vs| ==> vs[j] == Child(b, depth, isMax, ai, human, AvailableMoves(b)[j])
    ensures ai != human ==> forall j :: 0 <= j < |vs| ==> IsGameScore(vs[j])
    decreases EmptyCount(b), 1
  {
    var moves := AvailableMoves(b);
    seq(|moves|, j requires 0 <= j < |moves| => Child(b, depth, isMax, ai, human, moves[j]))
  }

  /** The value of the child reached by playing the mover's mark at `m`: the
      turn passes to the other side one level deeper. */
  function Child(b: Board, depth: int, isMax: bool, ai: Mark, human: Mark, m: int): (r: Score)
    requires 0 <= m < 9 && b[m] == Empty
    ensures ai != human ==> IsGameScore(r)
    decreases EmptyCount(b), 0
  {
    PlaceRemovesMove(b, m, Mover(isMax, ai, human));
    Minimax(Place(b, m, Mover(isMax, ai, human)), depth + 1, !isMax, ai, human)
  }

  /** The loop of one search level: `best = max(best, val)` (or `min`) over
      `vals[i..]`. */
  function Fold(isMax: bool, vals: seq<Score>, i: nat, best: Score): Score
    requires i <= |vals|
    decreases |vals| - i
  {
    if i == |vals| then best
    else Fold(isMax, vals, i + 1, if isMax then Max(best, vals[i]) else Min(best, vals[i]))
  }

  /** The fold stays on the right side of its seed and of every value, and
      ends on the seed or on one of the values. */
  lemma {:induction false} FoldBounds(isMax: bool, vals: seq<Score>, i: nat, best: Score)
    requires i <= |vals|
    ensures var r := Fold(isMax, vals, i, best);
            && (if isMax then Le(best, r) else Le(r, best))
            && (forall j :: i <= j < |vals| ==> if isMax then Le(vals[j], r) else Le(r, vals[j]))
            && (r == best || exists j :: i <= j < |vals| && r == vals[j])
    decreases |vals| - i
  {
    if i < |vals| {
      FoldBounds(isMax, vals, i + 1, if isMax then Max(best, vals[i]) else Min(best, vals[i]));
    }
  }

  /** Folding game scores from an infinite seed gives a game score, provided
      there is at least one value: the seed never survives. */
  lemma FoldGameScore(isMax: bool, vals: seq<Score>, seed: Score)
    requires seed == (if isMax then NegInf else PosInf)
    ensures |vals| > 0 && (forall j :: 0 <= j < |vals| ==> IsGameScore(vals[j]))
            ==> IsGameScore(Fold(isMax, vals, 0, seed))
  {
    FoldBounds(isMax, vals, 0, seed);
  }

  /** The value `find_best_move` gives move `m`: `ai` plays it, then the
      minimizing side is to move at depth 0. */
  function MoveValue(b: Board, ai: Mark, human: Mark, m: int): Score
    requires 0 <= m < 9 && b[m] == Empty
  {
    Minimax(Place(b, m, ai), 0, false, ai, human)
  }

  /** `m` has the largest value among the available moves, and every
      available move with a smaller index has a strictly smaller value. */
  predicate FirstBest(b: Board, ai: Mark, human: Mark, m: int)
    requires 0 <= m < 9 && b[m] == Empty
  {
    forall m' :: m' in AvailableMoves(b) ==>
      Le(MoveValue(b, ai, human, m'), MoveValue(b, ai, human, m))
      && (m' < m ==> Lt(MoveValue(b, ai, human, m'), MoveValue(b, ai, human, m)))
  }

  /** The value of every available move, in move order. */
  function MoveValues(b: Board, ai: Mark, human: Mark): (vs: seq<Score>)
    ensures |vs| == |AvailableMoves(b)|
    ensures forall j :: 0 <= j < |vs| ==> vs[j] == MoveValue(b, ai, human, AvailableMoves(b)[j])
    ensures ai != human ==> forall j :: 0 <= j < |vs| ==> IsGameScore(vs[j])
  {
    var moves := AvailableMoves(b);
    seq(|moves|, j requires 0 <= j < |moves| => MoveValue(b, ai, human, moves[j]))
  }

  /** The loop of `find_best_move` from `moves[i]` on, with running best
      value `bestVal` and move `best`: a move replaces the running best only
      when its value `vals[i]` is strictly larger. */
  function BestFrom(vals: seq<Score>, moves: seq<int>, i: nat,
                    bestVal: Score, best: Option<int>): (Score, Option<int>)
    requires |vals| == |moves| && i <= |moves|
    decreases |moves| - i
  {
    if i == |moves| then (bestVal, best)
    else if Lt(bestVal, vals[i]) then BestFrom(vals, moves, i + 1, vals[i], Some(moves[i]))
    else BestFrom(vals, moves, i + 1, bestVal, best)
  }

  /** The fold of `find_best_move` ends on a value at least its seed and at
      least every remaining value; it keeps the seed move unless some value
      beats the seed, and then it holds the first remaining move of the final
      value, every earlier remaining move being strictly worse. */
  lemma {:induction false} BestFromSpec(vals: seq<Score>, moves: seq<int>, i: nat,
                                        bestVal: Score, best: Option<int>)
    requires |vals| == |moves| && i <= |moves|
    ensures var r := BestFrom(vals, moves, i, bestVal, best);
            && Le(bestVal, r.0)
            && (forall j :: i <= j < |moves| ==> Le(vals[j], r.0))
            && (r.0 == bestVal ==> r.1 == best)
            && (Lt(bestVal, r.0) ==>
                  exists j :: i <= j < |moves| && r.1 == Some(moves[j]) && vals[j] == r.0
                              && forall j' :: i <= j' < j ==> Lt(vals[j'], r.0))
    decreases |moves| - i
  {
    if i < |moves| {
      var r := BestFrom(vals, moves, i, bestVal, best);
      if Lt(bestVal, vals[i]) {
        BestFromSpec(vals, moves, i + 1, vals[i], Some(moves[i]));
        if r.0 != vals[i] {
          var j :| i + 1 <= j < |moves| && r.1 == Some(moves[j]) && vals[j] == r.0
                   && forall j' :: i + 1 <= j' < j ==> Lt(vals[j'], r.0);
          assert forall j' :: i <= j' < j ==> Lt(vals[j'], r.0);
        }
      } else {
        BestFromSpec(vals, moves, i + 1, bestVal, best);
        if Lt(bestVal, r.0) {
          var j :| i + 1 <= j < |moves| && r.1 == Some(moves[j]) && vals[j] == r.0
                   && forall j' :: i + 1 <= j' < j ==> Lt(vals[j'], r.0);
          assert forall j' :: i <= j' < j ==> Lt(vals[j'], r.0);
        }
      }
    }
  }

  /** `find_best_move` as a value: the first available move of largest value
      (see `BestMoveIsFirstBest`), or `None` when no move beats minus
      infinity. It is always an available move, and with two distinct
      players it is `None` exactly on a full board. */
  function BestMove(b: Board, ai: Mark, human: Mark): (r: Option<int>)
    ensures r.Some? ==> r.value in AvailableMoves(b)
    ensures ai != human ==> (r.None? <==> Full(b))
  {
    var r := BestFrom(MoveValues(b, ai, human), AvailableMoves(b), 0, NegInf, None);
    BestMoveFacts(b, ai, human, r);
    r.1
  }

  /** The move `find_best_move` returns has the largest minimax value among
      the available moves, and every available move with a smaller index is
      strictly worse (ties go to the lowest index); it returns `None` exactly
      when every move is worth minus infinity. */
  lemma BestMoveIsFirstBest(b: Board, ai: Mark, human: Mark)
    ensures BestMove(b, ai, human).Some? ==> FirstBest(b, ai, human, BestMove(b, ai, human).value)
    ensures BestMove(b, ai, human).None? <==>
              forall m :: m in AvailableMoves(b) ==> MoveValue(b, ai, human, m) == NegInf
  {
    BestMoveFacts(b, ai, human, BestFrom(MoveValues(b, ai, human), AvailableMoves(b), 0, NegInf, None));
  }

  lemma BestMoveFacts(b: Board, ai: Mark, human: Mark, r: (Score, Option<int>))
    requires r == BestFrom(MoveValues(b, ai, human), AvailableMoves(b), 0, NegInf, None)
    ensures r.1.Some? ==> r.1.value in AvailableMoves(b) && FirstBest(b, ai, human, r.1.value)
    ensures r.1.None? <==> forall m :: m in AvailableMoves(b) ==> MoveValue(b, ai, human, m) == NegInf
    ensures ai != human ==> (r.1.None? <==> Full(b))
  {
    var moves := AvailableMoves(b);
    var vals := MoveValues(b, ai, human);
    BestFromSpec(vals, moves, 0, NegInf, None);
    if Lt(NegInf, r.0) {
      var j :| 0 <= j < |moves| && r.1 == Some(moves[j]) && vals[j] == r.0
               && forall j' :: 0 <= j' < j ==> Lt(vals[j'], r.0);
      FirstBestAt(b, ai, human, vals, moves, j);
      var m :| m in moves && MoveValue(b, ai, human, m) != NegInf;
    } else {
      AllNegInf(b, ai, human, vals, moves);
    }
  }

  /** Index `j` of the value list is a first maximum, so `moves[j]` is a first best move. */
  lemma FirstBestAt(b: Board, ai: Mark, human: Mark, vals: seq<Score>, moves: seq<int>, j: nat)
    requires vals == MoveValues(b, ai, human) && moves == AvailableMoves(b) && j < |moves|
    requires forall j' :: 0 <= j' < |moves| ==> Le(vals[j'], vals[j])
    requires forall j' :: 0 <= j' < j ==> Lt(vals[j'], vals[j])
    ensures FirstBest(b, ai, human, moves[j])
  {
    MovesAscending(b);
    forall m' | m' in moves
      ensures Le(MoveValue(b, ai, human, m'), MoveValue(b, ai, human, moves[j]))
      ensures m' < moves[j] ==> Lt(MoveValue(b, ai, human, m'), MoveValue(b, ai, human, moves[j]))
    {
      var j' :| 0 <= j' < |moves| && moves[j'] == m';
      assert vals[j'] == MoveValue(b, ai, human, m');
      if m' < moves[j] {
        assert j' != j && !(j < j' < |moves|);
      }
    }
  }

  /** When the running best never leaves minus infinity, every move is worth minus infinity. */
  lemma AllNegInf(b: Board, ai: Mark, human: Mark, vals: seq<Score>, moves: seq<int>)
    requires vals == MoveValues(b, ai, human) && moves == AvailableMoves(b)
    requires forall j :: 0 <= j < |moves| ==> Le(vals[j], NegInf)
    ensures forall m :: m in moves ==> MoveValue(b, ai, human, m) == NegInf
    ensures ai != human ==> Full(b)
  {
    forall m | m in moves
      ensures MoveValue(b, ai, human, m) == NegInf
    {
      var j :| 0 <= j < |moves| && moves[j] == m;
      assert vals[j] == MoveValue(b, ai, human, m);
    }
    if ai != human && !Full(b) {
      assert false;
    }
  }

  /** One candidate of `find_best_move`: `ai` plays `move` on the working
      board, the position is searched at depth 0 with the minimizing side
      to move, and the move is undone. The board comes back as it was. */
  method TryMove(b: Board, ai: Mark, human: Mark, move: int) returns (v: Score, after: Board)
    requires move in AvailableMoves(b)
    ensures after == b
    ensures v == MoveValue(b, ai, human, move)
  {
    MoveSucceeds(b, move, ai);
    var board := MakeMove(b, move, MarkName(ai)).value;
    v := Minimax(board, 0, false, ai, human);
    after := Undo(board, move);
    UndoRestores(b, move, ai);
  }

  /** `find_best_move` as `MinimaxAgent` runs it: each candidate is tried on
      the working board, and a candidate replaces the running best only when
      its value is strictly larger. The board comes back exactly as it was
      and the move chosen is `BestMove`'s. */
  method FindBestMove(b: Board, ai: Mark, human: Mark) returns (best: Option<int>, after: Board)
    ensures after == b
    ensures best == BestMove(b, ai, human)
  {
    var board := b;
    var moves := AvailableMoves(board);
    ghost var vals := MoveValues(b, ai, human);
    ghost var chosen := BestFrom(vals, moves, 0, NegInf, None).1;
    var bestVal := NegInf;
    best := None;
    var i := 0;
    while i < |moves|
      invariant 0 <= i <= |moves|
      invariant board == b
      invariant BestFrom(vals, moves, i, bestVal, best).1 == chosen
    {
      var move := moves[i];
      var v;
      v, board := TryMove(board, ai, human, move);
      assert v == vals[i];
      if Lt(bestVal, v) {
        bestVal := v;
        best := Some(move);
      }
      i := i + 1;
    }
    after := board;
  }

  /** At a level where the game goes on, the value is the largest (maximizing)
      or smallest (minimizing) child value, and some child attains it. */
  lemma MinimaxIsBestChild(b: Board, depth: int, isMax: bool, ai: Mark, human: Mark)
    requires Evaluate(b, ai, human).None? && !Full(b)
    ensures forall m :: m in AvailableMoves(b) ==>
              if isMax then Le(Child(b, depth, isMax, ai, human, m), Minimax(b, depth, isMax, ai, human))
              else Le(Minimax(b, depth, isMax, ai, human), Child(b, depth, isMax, ai, human, m))
    ensures exists m :: m in AvailableMoves(b) && Minimax(b, depth, isMax, ai, human) == Child(b, depth, isMax, ai, human, m)
  {
    var moves := AvailableMoves(b);
    var vals := ChildValues(b, depth, isMax, ai, human);
    var seed := if isMax then NegInf else PosInf;
    var r := Fold(isMax, vals, 0, seed);
    FoldBounds(isMax, vals, 0, seed);
    forall m | m in moves
      ensures if isMax then Le(Child(b, depth, isMax, ai, human, m), r)
              else Le(r, Child(b, depth, isMax, ai, human, m))
    {
      var j :| 0 <= j < |moves| && moves[j] == m;
      assert vals[j] == Child(b, depth, isMax, ai, human, m);
    }
    if r == seed {
      // Every child value lies between the seed and `r == seed`, so the
      // first child attains it.
      assert vals[0] == r;
      assert moves[0] in moves;
    } else {
      var j :| 0 <= j < |vals| && r == vals[j];
      assert moves[j] in moves;
    }
  }

  /** The `depth` argument never influences the value. */
  lemma {:induction false} DepthIrrelevant(b: Board, d1: int, d2: int, isMax: bool, ai: Mark, human: Mark)
    ensures Minimax(b, d1, isMax, ai, human) == Minimax(b, d2, isMax, ai, human)
    decreases EmptyCount(b)
  {
    if Evaluate(b, ai, human).None? {
      var moves := AvailableMoves(b);
      var mover := Mover(isMax, ai, human);
      forall j | 0 <= j < |moves|
        ensures Child(b, d1, isMax, ai, human, moves[j]) == Child(b, d2, isMax, ai, human, moves[j])
      {
        PlaceRemovesMove(b, moves[j], mover);
        DepthIrrelevant(Place(b, moves[j], mover), d1 + 1, d2 + 1, !isMax, ai, human);
      }
      assert ChildValues(b, d1, isMax, ai, human) == ChildValues(b, d2, isMax, ai, human);
    }
  }

  /** What `find_best_move` scores a move with is the value of that child
      in the maximizer's own search of the board: the extra level of depth
      makes no difference. */
  lemma MoveValueIsChild(b: Board, ai: Mark, human: Mark, m: int)
    requires 0 <= m < 9 && b[m] == Empty
    ensures MoveValue(b, ai, human, m) == Child(b, 0, true, ai, human, m)
  {
    DepthIrrelevant(Place(b, m, ai), 0, 1, false, ai, human);
  }

  /** On an unfinished board, the move `find_best_move` returns is worth
      exactly the minimax value of the board with the maximizer to move:
      it is an optimal move for `ai`. */
  lemma BestMoveAchievesValue(b: Board, ai: Mark, human: Mark)
    requires ai != human && CheckWinner(b) == Ongoing
    ensures BestMove(b, ai, human).Some?
    ensures MoveValue(b, ai, human, BestMove(b, ai, human).value) == Minimax(b, 0, true, ai, human)
  {
    assert !Full(b) && Evaluate(b, ai, human).None?;
    var best := BestMove(b, ai, human).value;
    var v := Minimax(b, 0, true, ai, human);
    MinimaxIsBestChild(b, 0, true, ai, human);
    var m :| m in AvailableMoves(b) && v == Child(b, 0, true, ai, human, m);
    MoveValueIsChild(b, ai, human, m);
    MoveValueIsChild(b, ai, human, best);
    assert Le(MoveValue(b, ai, human, best), v);
    BestMoveIsFirstBest(b, ai, human);
    assert Le(MoveValue(b, ai, human, m), MoveValue(b, ai, human, best));
  }
}
