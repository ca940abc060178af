/** The depth-limited alpha-beta search. The board is threaded through
    every branch exactly as the engine's single mutable board is: each step
    is played, searched below and undone, and the next step is tried on the
    board the undo left behind. A reference search without pruning states
    what value the pruned search computes. */
module Search {
  import opened Grid
  import opened BoardModel
  import opened Moves
  import opened Executor
  import opened Evaluators
  import opened Ordering

  /** The heuristic a search scores its leaves with. */
  datatype Evaluator = ByMaterial | ByEndGame | ByPosition

  function Evaluate(ev: Evaluator, b: Board, maximizer: int): int
    requires Wf(b) && IsSide(maximizer)
  {
    match ev
    case ByMaterial => Evaluate1(b, maximizer)
    case ByEndGame => EndGame(b, maximizer)
    case ByPosition => Evaluate2(b, maximizer)
  }

  /** The value of a search and the board it leaves behind. */
  datatype Searched = Searched(value: int, board: Board)

  /** The entries to search: the given continuation of a capture chain, or
      else the full move set of player. */
  function Candidates(b: Board, player: int, moves: Option<seq<Move>>): (r: seq<Move>)
    requires Square(b)
    requires moves.Some? ==> MovesOk(b, player, moves.value)
    ensures MovesOk(b, player, r)
  {
    NextMovesOk(b, player);
    if moves.None? then NextMoves(b, player) else moves.value
  }

  /** The search stops where player cannot move or the depth limit is
      reached. */
  predicate IsLeaf(b: Board, player: int, depth: int, maxDepth: int, moves: Option<seq<Move>>)
    requires Square(b)
    requires moves.Some? ==> MovesOk(b, player, moves.value)
  {
    |Candidates(b, player, moves)| == 0 || depth == maxDepth
  }

  /** A leaf's score: the evaluation, plus the depth when it is negative so
      that a lost position is lost as late as possible. */
  function Leaf(b: Board, ev: Evaluator, maximizer: int, depth: int): (r: int)
    requires Wf(b) && IsSide(maximizer) && depth >= 0
    ensures Evaluate(ev, b, maximizer) < 0 ==> r == Evaluate(ev, b, maximizer) + depth
    ensures Evaluate(ev, b, maximizer) >= 0 ==> r == Evaluate(ev, b, maximizer)
    ensures depth == 0 ==> r == Evaluate(ev, b, maximizer)
  {
    var score := Evaluate(ev, b, maximizer);
    if score < 0 then score + depth else score
  }

  /** A lost position found deeper scores higher than the same position
      found sooner, and a position that is not lost scores the same at every
      depth. */
  lemma LeafDeeper(b: Board, ev: Evaluator, maximizer: int, d1: int, d2: int)
    requires Wf(b) && IsSide(maximizer) && 0 <= d1 < d2
    ensures Evaluate(ev, b, maximizer) < 0 <==> Leaf(b, ev, maximizer, d1) < Leaf(b, ev, maximizer, d2)
    ensures Evaluate(ev, b, maximizer) >= 0 <==> Leaf(b, ev, maximizer, d1) == Leaf(b, ev, maximizer, d2)
  {
  }

  /** The steps searched below a node, in the order they are tried: entries
      with fewer destinations first. */
  function Order(ms: seq<Move>): (r: seq<Step>)
    ensures forall s :: s in r <==> exists m :: m in ms && s.from == m.from && s.to in m.dests
  {
    var sorted := SortByDests(ms);
    assert forall m :: m in sorted <==> m in ms by {
      forall m
        ensures m in sorted <==> m in ms
      {
        assert m in sorted <==> m in multiset(sorted);
        assert m in ms <==> m in multiset(ms);
      }
    }
    Flatten(sorted)
  }

  /** Every step of player's legal entries, in search order, is legal. */
  lemma OrderLegal(b: Board, player: int, ms: seq<Move>)
    requires Square(b) && MovesOk(b, player, ms)
    ensures forall s :: s in Order(ms) ==> LegalStep(b, player, s.from, s.to)
  {
    forall s | s in Order(ms)
      ensures LegalStep(b, player, s.from, s.to)
    {
      var m :| m in ms && s.from == m.from && s.to in m.dests;
    }
  }

  /** The entry a capture chain continues with after a capturing step
      landed on to, or none when the chain ends there. */
  function Continuation(p: Played, player: int, to: Pos): (r: Option<seq<Move>>)
    requires Square(p.board) && Owns(p.board, player, to)
    ensures r.Some? ==> MovesOk(p.board, player, r.value) && |r.value| == 1 && |r.value[0].dests| > 0
    ensures r.Some? ==> r.value[0].from == to && forall d :: d in r.value[0].dests ==> CaptureStep(p.board, to, d)
    ensures r.Some? <==> p.canCapture && CaptureAvailableAt(p.board, to)
  {
    CapturesOk(p.board, player, to);
    if p.canCapture then
      var caps := NextPositions(p.board, to).1;
      if |caps| != 0 then assert caps[0] in caps; Some([Move(to, caps)]) else None
    else None
  }

  /** The piece on p has a capture. */
  ghost predicate CaptureAvailableAt(b: Board, p: Pos)
    requires Square(b) && OnBoard(b, p) && At(b, p) != 0
  {
    exists d :: CaptureStep(b, p, d) && Allowed(At(b, p), d.x - p.x)
  }

  /** Whether every step of steps is legal for player on b. */
  predicate StepsLegal(b: Board, player: int, steps: seq<Step>)
    requires Square(b)
  {
    forall s :: s in steps ==> LegalStep(b, player, s.from, s.to)
  }

  // ----------------------------------------------------------- alpha-beta

  /** The alpha-beta search of the position b with player to move, scored
      for maximizer. It returns the value and the board, which is b again:
      every step it tries is undone. */
  function Minimax(b: Board, player: int, maximizer: int, depth: int, alpha: int, beta: int,
                   maxDepth: int, ev: Evaluator, moves: Option<seq<Move>>): (r: Searched)
    requires Wf(b) && IsSide(player) && IsSide(maximizer) && 0 <= depth <= maxDepth
    requires moves.Some? ==> MovesOk(b, player, moves.value)
    ensures r.board == b
    decreases maxDepth - depth, 1
  {
    var ms := Candidates(b, player, moves);
    if |ms| == 0 || depth == maxDepth then Searched(Leaf(b, ev, maximizer, depth), b)
    else
      OrderLegal(b, player, ms);
      Explore(b, player, maximizer, depth, alpha, beta, maxDepth, ev, Order(ms), 0,
              if player != maximizer then OO else -OO)
  }

  /** Where a step leads the search: what playing it reported, the side
      to move next (the same player while its capture chain goes on, the
      opponent otherwise) and the entry the chain continues with. */
  datatype Next = Next(played: Played, player: int, moves: Option<seq<Move>>)

  function After(b: Board, player: int, s: Step): (r: Next)
    requires Wf(b) && IsSide(player) && LegalStep(b, player, s.from, s.to)
    ensures r.played == PlayMove(b, s.from.x, s.from.y, s.to.x, s.to.y)
    ensures Wf(r.played.board) && IsSide(r.player)
    ensures r.player == (if r.moves.Some? then player else 1 - player)
    ensures r.moves.Some? ==> MovesOk(r.played.board, r.player, r.moves.value)
    ensures Steppable(r.played.board, s.from.x, s.from.y, s.to.x, s.to.y)
    ensures UndoMove(r.played.board, s.from.x, s.from.y, s.to.x, s.to.y, r.played.removed, r.played.promoted) == b
  {
    PlayLegal(b, player, s.from, s.to);
    PlayMoveWf(b, s.from.x, s.from.y, s.to.x, s.to.y);
    UndoPlayMove(b, s.from.x, s.from.y, s.to.x, s.to.y);
    var p := PlayMove(b, s.from.x, s.from.y, s.to.x, s.to.y);
    var next := Continuation(p, player, s.to);
    Next(p, if next.Some? then player else 1 - player, next)
  }

  /** Play step s on b, search the position it leads to with the same
      window, and undo the step on the board the search left behind. */
  function Child(b: Board, player: int, maximizer: int, depth: int, alpha: int, beta: int,
                 maxDepth: int, ev: Evaluator, s: Step): (r: Searched)
    requires Wf(b) && IsSide(player) && IsSide(maximizer) && 0 <= depth < maxDepth
    requires LegalStep(b, player, s.from, s.to)
    ensures r.board == b
    decreases maxDepth - depth, 0, 0
  {
    var n := After(b, player, s);
    var below := Minimax(n.played.board, n.player, maximizer, depth + 1, alpha, beta, maxDepth, ev, n.moves);
    Searched(below.value, UndoMove(below.board, s.from.x, s.from.y, s.to.x, s.to.y, n.played.removed, n.played.promoted))
  }

  /** Where player cannot move or the depth limit is reached, the search
      scores the position itself. */
  lemma MinimaxLeaf(b: Board, player: int, maximizer: int, depth: int, alpha: int, beta: int,
                    maxDepth: int, ev: Evaluator, moves: Option<seq<Move>>)
    requires Wf(b) && IsSide(player) && IsSide(maximizer) && 0 <= depth <= maxDepth
    requires moves.Some? ==> MovesOk(b, player, moves.value)
    requires IsLeaf(b, player, depth, maxDepth, moves)
    ensures Minimax(b, player, maximizer, depth, alpha, beta, maxDepth, ev, moves).value == Leaf(b, ev, maximizer, depth)
  {
  }

  /** Elsewhere a node's value starts from the worst for its side (minus
      infinity for maximizer, infinity for the opponent), so it is never
      worse than that. */
  lemma MinimaxBounds(b: Board, player: int, maximizer: int, depth: int, alpha: int, beta: int,
                      maxDepth: int, ev: Evaluator, moves: Option<seq<Move>>)
    requires Wf(b) && IsSide(player) && IsSide(maximizer) && 0 <= depth <= maxDepth
    requires moves.Some? ==> MovesOk(b, player, moves.value)
    requires !IsLeaf(b, player, depth, maxDepth, moves)
    ensures player == maximizer ==> Minimax(b, player, maximizer, depth, alpha, beta, maxDepth, ev, moves).value >= -OO
    ensures player != maximizer ==> Minimax(b, player, maximizer, depth, alpha, beta, maxDepth, ev, moves).value <= OO
  {
  }

  /** Try steps[i..] in turn with the running best value and window,
      stopping as soon as the window closes. The result is never worse for
      player's side than best, and the board comes back unchanged. */
  function Explore(b: Board, player: int, maximizer: int, depth: int, alpha: int, beta: int,
                   maxDepth: int, ev: Evaluator, steps: seq<Step>, i: nat, best: int): (r: Searched)
    requires Wf(b) && IsSide(player) && IsSide(maximizer) && 0 <= depth < maxDepth
    requires i <= |steps| && StepsLegal(b, player, steps)
    ensures r.board == b
    ensures player == maximizer ==> r.value >= best
    ensures player != maximizer ==> r.value <= best
    decreases maxDepth - depth, 0, |steps| - i
  {
    if i == |steps| then Searched(best, b)
    else
      assert steps[i] in steps;
      var child := Child(b, player, maximizer, depth, alpha, beta, maxDepth, ev, steps[i]);
      var best' := if player == maximizer then Max(best, child.value) else Min(best, child.value);
      var alpha' := if player == maximizer then Max(alpha, best') else alpha;
      var beta' := if player == maximizer then beta else Min(beta, best');
      if beta' <= alpha' then Searched(best', child.board)
      else Explore(child.board, player, maximizer, depth, alpha', beta', maxDepth, ev, steps, i + 1, best')
  }

  // ------------------------------------------------------------ reference

  /** The same search without pruning: every step is tried, and the board
      is not threaded since nothing is written. */
  function Value(b: Board, player: int, maximizer: int, depth: int,
                 maxDepth: int, ev: Evaluator, moves: Option<seq<Move>>): (r: int)
    requires Wf(b) && IsSide(player) && IsSide(maximizer) && 0 <= depth <= maxDepth
    requires moves.Some? ==> MovesOk(b, player, moves.value)
    decreases maxDepth - depth, 1
  {
    var ms := Candidates(b, player, moves);
    if |ms| == 0 || depth == maxDepth then Leaf(b, ev, maximizer, depth)
    else
      OrderLegal(b, player, ms);
      Best(player == maximizer, Children(b, player, maximizer, depth, maxDepth, ev, Order(ms), 0),
           if player != maximizer then OO else -OO)
  }

  /** The value of a child of b in the unpruned search: the position after
      step s, with the chain continued or the turn passed. */
  function ChildValue(b: Board, player: int, maximizer: int, depth: int,
                      maxDepth: int, ev: Evaluator, s: Step): int
    requires Wf(b) && IsSide(player) && IsSide(maximizer) && 0 <= depth < maxDepth
    requires LegalStep(b, player, s.from, s.to)
    decreases maxDepth - depth, 0, 0
  {
    var n := After(b, player, s);
    Value(n.played.board, n.player, maximizer, depth + 1, maxDepth, ev, n.moves)
  }

  /** The unpruned values of the children reached by steps[i..], in
      order. */
  function Children(b: Board, player: int, maximizer: int, depth: int,
                    maxDepth: int, ev: Evaluator, steps: seq<Step>, i: nat): (r: seq<int>)
    requires Wf(b) && IsSide(player) && IsSide(maximizer) && 0 <= depth < maxDepth
    requires i <= |steps| && StepsLegal(b, player, steps)
    ensures |r| == |steps| - i
    decreases maxDepth - depth, 0, |steps| - i
  {
    if i == |steps| then []
    else
      assert steps[i] in steps;
      [ChildValue(b, player, maximizer, depth, maxDepth, ev, steps[i])]
        + Children(b, player, maximizer, depth, maxDepth, ev, steps, i + 1)
  }

  /** The best of best and the values cs for the side to move: the largest
      when maxing, the smallest otherwise. */
  function Best(maxing: bool, cs: seq<int>, best: int): (r: int)
    ensures maxing ==> r >= best && forall k :: 0 <= k < |cs| ==> r >= cs[k]
    ensures !maxing ==> r <= best && forall k :: 0 <= k < |cs| ==> r <= cs[k]
    ensures r == best || exists k :: 0 <= k < |cs| && r == cs[k]
  {
    if cs == [] then best
    else
      var r := Best(maxing, cs[1..], if maxing then Max(best, cs[0]) else Min(best, cs[0]));
      assert forall k :: 1 <= k < |cs| ==> cs[k] == cs[1..][k - 1];
      r
  }

  /** Raising (when maxing) or lowering (otherwise) the starting value
      passes straight through the fold. */
  lemma {:induction false} BestShift(maxing: bool, cs: seq<int>, x: int, y: int)
    ensures maxing ==> Best(maxing, cs, Max(x, y)) == Max(x, Best(maxing, cs, y))
    ensures !maxing ==> Best(maxing, cs, Min(x, y)) == Min(x, Best(maxing, cs, y))
  {
    if cs != [] {
      if maxing {
        BestShift(maxing, cs[1..], x, Max(y, cs[0]));
        assert Max(Max(x, y), cs[0]) == Max(x, Max(y, cs[0]));
      } else {
        BestShift(maxing, cs[1..], x, Min(y, cs[0]));
        assert Min(Min(x, y), cs[0]) == Min(x, Min(y, cs[0]));
      }
    }
  }

  // --------------------------------------------------------- soundness

  /** v clipped to the window [lo, hi]. */
  function Clamp(v: int, lo: int, hi: int): int {
    Max(lo, Min(hi, v))
  }

  /** Alpha-beta pruning is sound: inside an open window (alpha < beta) the
      pruned search returns the unpruned value exactly when that lies
      strictly inside the window, a value at most alpha when the true value
      is at most alpha, and at least beta when it is at least beta. */
  lemma {:induction false} MinimaxSound(b: Board, player: int, maximizer: int, depth: int, alpha: int, beta: int,
                                        maxDepth: int, ev: Evaluator, moves: Option<seq<Move>>)
    requires Wf(b) && IsSide(player) && IsSide(maximizer) && 0 <= depth <= maxDepth
    requires moves.Some? ==> MovesOk(b, player, moves.value)
    requires alpha < beta
    ensures Clamp(Minimax(b, player, maximizer, depth, alpha, beta, maxDepth, ev, moves).value, alpha, beta)
         == Clamp(Value(b, player, maximizer, depth, maxDepth, ev, moves), alpha, beta)
    decreases maxDepth - depth, 1
  {
    var ms := Candidates(b, player, moves);
    if |ms| != 0 && depth != maxDepth {
      OrderLegal(b, player, ms);
      ExploreSound(b, player, maximizer, depth, alpha, beta, maxDepth, ev, Order(ms), 0,
                   if player != maximizer then OO else -OO);
    }
  }

  /** A child searched with an open window clamps to its unpruned value. */
  lemma {:induction false} ChildSound(b: Board, player: int, maximizer: int, depth: int, alpha: int, beta: int,
                                      maxDepth: int, ev: Evaluator, s: Step)
    requires Wf(b) && IsSide(player) && IsSide(maximizer) && 0 <= depth < maxDepth
    requires LegalStep(b, player, s.from, s.to)
    requires alpha < beta
    ensures Clamp(Child(b, player, maximizer, depth, alpha, beta, maxDepth, ev, s).value, alpha, beta)
         == Clamp(ChildValue(b, player, maximizer, depth, maxDepth, ev, s), alpha, beta)
    decreases maxDepth - depth, 0, 0
  {
    var n := After(b, player, s);
    MinimaxSound(n.played.board, n.player, maximizer, depth + 1, alpha, beta, maxDepth, ev, n.moves);
    assert Child(b, player, maximizer, depth, alpha, beta, maxDepth, ev, s).value
        == Minimax(n.played.board, n.player, maximizer, depth + 1, alpha, beta, maxDepth, ev, n.moves).value;
    assert ChildValue(b, player, maximizer, depth, maxDepth, ev, s)
        == Value(n.played.board, n.player, maximizer, depth + 1, maxDepth, ev, n.moves);
  }

  /** One step of the pruned fold against the unpruned one, for the
      maximizer: if the child's value v clamps like its true value c, and
      the rest of the search (ab) clamps like the rest of the fold inside
      the narrowed window whenever that stays open, the whole clamps alike. */
  lemma MaxWindowStep(alpha: int, beta: int, best: int, v: int, c: int, rest: seq<int>, ab: int)
    requires alpha < beta && Clamp(v, alpha, beta) == Clamp(c, alpha, beta)
    requires Max(alpha, Max(best, v)) < beta ==>
      ab >= Max(best, v)
      && Clamp(ab, Max(alpha, Max(best, v)), beta) == Clamp(Best(true, rest, Max(best, v)), Max(alpha, Max(best, v)), beta)
    ensures Clamp(if Max(alpha, Max(best, v)) < beta then ab else Max(best, v), alpha, beta)
         == Clamp(Best(true, rest, Max(best, c)), alpha, beta)
  {
    BestShift(true, rest, v, best);
    BestShift(true, rest, c, best);
    assert Max(best, v) == Max(v, best) && Max(best, c) == Max(c, best);
  }

  /** The same for the opponent, with the window narrowed from above. */
  lemma MinWindowStep(alpha: int, beta: int, best: int, v: int, c: int, rest: seq<int>, ab: int)
    requires alpha < beta && Clamp(v, alpha, beta) == Clamp(c, alpha, beta)
    requires alpha < Min(beta, Min(best, v)) ==>
      ab <= Min(best, v)
      && Clamp(ab, alpha, Min(beta, Min(best, v))) == Clamp(Best(false, rest, Min(best, v)), alpha, Min(beta, Min(best, v)))
    ensures Clamp(if alpha < Min(beta, Min(best, v)) then ab else Min(best, v), alpha, beta)
         == Clamp(Best(false, rest, Min(best, c)), alpha, beta)
  {
    BestShift(false, rest, v, best);
    BestShift(false, rest, c, best);
    assert Min(best, v) == Min(v, best) && Min(best, c) == Min(c, best);
  }

  /** One step of the pruned loop: the child's value updates the running
      best and the window, and the loop stops once the window closes. */
  lemma ExploreUnfold(b: Board, player: int, maximizer: int, depth: int, alpha: int, beta: int,
                      maxDepth: int, ev: Evaluator, steps: seq<Step>, i: nat, best: int)
    requires Wf(b) && IsSide(player) && IsSide(maximizer) && 0 <= depth < maxDepth
    requires i < |steps| && StepsLegal(b, player, steps)
    ensures steps[i] in steps
    ensures var v := Child(b, player, maximizer, depth, alpha, beta, maxDepth, ev, steps[i]).value;
      var best' := if player == maximizer then Max(best, v) else Min(best, v);
      var alpha' := if player == maximizer then Max(alpha, best') else alpha;
      var beta' := if player == maximizer then beta else Min(beta, best');
      Explore(b, player, maximizer, depth, alpha, beta, maxDepth, ev, steps, i, best).value
        == if beta' <= alpha' then best'
           else Explore(b, player, maximizer, depth, alpha', beta', maxDepth, ev, steps, i + 1, best').value
  {
    assert steps[i] in steps;
  }

  /** One step of the unpruned fold. */
  lemma ChildrenUnfold(b: Board, player: int, maximizer: int, depth: int,
                       maxDepth: int, ev: Evaluator, steps: seq<Step>, i: nat, best: int)
    requires Wf(b) && IsSide(player) && IsSide(maximizer) && 0 <= depth < maxDepth
    requires i < |steps| && StepsLegal(b, player, steps)
    ensures steps[i] in steps
    ensures var c := ChildValue(b, player, maximizer, depth, maxDepth, ev, steps[i]);
      Best(player == maximizer, Children(b, player, maximizer, depth, maxDepth, ev, steps, i), best)
        == Best(player == maximizer, Children(b, player, maximizer, depth, maxDepth, ev, steps, i + 1),
                if player == maximizer then Max(best, c) else Min(best, c))
  {
    assert steps[i] in steps;
    var c := ChildValue(b, player, maximizer, depth, maxDepth, ev, steps[i]);
    var rest := Children(b, player, maximizer, depth, maxDepth, ev, steps, i + 1);
    assert Children(b, player, maximizer, depth, maxDepth, ev, steps, i) == [c] + rest;
    assert ([c] + rest)[1..] == rest;
  }

  lemma {:induction false} ExploreSound(b: Board, player: int, maximizer: int, depth: int, alpha: int, beta: int,
                                        maxDepth: int, ev: Evaluator, steps: seq<Step>, i: nat, best: int)
    requires Wf(b) && IsSide(player) && IsSide(maximizer) && 0 <= depth < maxDepth
    requires i <= |steps| && StepsLegal(b, player, steps)
    requires alpha < beta
    ensures Clamp(Explore(b, player, maximizer, depth, alpha, beta, maxDepth, ev, steps, i, best).value, alpha, beta)
         == Clamp(Best(player == maximizer, Children(b, player, maximizer, depth, maxDepth, ev, steps, i), best), alpha, beta)
    decreases maxDepth - depth, 0, |steps| - i
  {
    if i < |steps| {
      var s := steps[i];
      ExploreUnfold(b, player, maximizer, depth, alpha, beta, maxDepth, ev, steps, i, best);
      ChildrenUnfold(b, player, maximizer, depth, maxDepth, ev, steps, i, best);
      ChildSound(b, player, maximizer, depth, alpha, beta, maxDepth, ev, s);
      var v := Child(b, player, maximizer, depth, alpha, beta, maxDepth, ev, s).value;
      var c := ChildValue(b, player, maximizer, depth, maxDepth, ev, s);
      var rest := Children(b, player, maximizer, depth, maxDepth, ev, steps, i + 1);
      if player == maximizer {
        var best' := Max(best, v);
        var alpha' := Max(alpha, best');
        if alpha' < beta {
          ExploreSound(b, player, maximizer, depth, alpha', beta, maxDepth, ev, steps, i + 1, best');
          var ab := Explore(b, player, maximizer, depth, alpha', beta, maxDepth, ev, steps, i + 1, best').value;
          MaxWindowStep(alpha, beta, best, v, c, rest, ab);
        } else {
          MaxWindowStep(alpha, beta, best, v, c, rest, 0);
        }
      } else {
        var best' := Min(best, v);
        var beta' := Min(beta, best');
        if alpha < beta' {
          ExploreSound(b, player, maximizer, depth, alpha, beta', maxDepth, ev, steps, i + 1, best');
          var ab := Explore(b, player, maximizer, depth, alpha, beta', maxDepth, ev, steps, i + 1, best').value;
          MinWindowStep(alpha, beta, best, v, c, rest, ab);
        } else {
          MinWindowStep(alpha, beta, best, v, c, rest, 0);
        }
      }
    }
  }

  /** At the root, called with the full window, the search returns the
      unpruned value whenever that lies strictly between minus infinity and
      infinity. */
  lemma RootSound(b: Board, player: int, maximizer: int, maxDepth: int, ev: Evaluator)
    requires Wf(b) && IsSide(player) && IsSide(maximizer) && 0 <= maxDepth
    requires -OO < Value(b, player, maximizer, 0, maxDepth, ev, None) < OO
    ensures Minimax(b, player, maximizer, 0, -OO, OO, maxDepth, ev, None).value
         == Value(b, player, maximizer, 0, maxDepth, ev, None)
  {
    MinimaxSound(b, player, maximizer, 0, -OO, OO, maxDepth, ev, None);
    if IsLeaf(b, player, 0, maxDepth, None) {
      MinimaxLeaf(b, player, maximizer, 0, -OO, OO, maxDepth, ev, None);
    } else {
      MinimaxBounds(b, player, maximizer, 0, -OO, OO, maxDepth, ev, None);
    }
  }
}
