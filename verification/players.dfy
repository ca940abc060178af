/** The two players: the minimax player, which scores every step it may
    take with a search of the position after it and plays the first best,
    and the random player. Both keep capturing while the piece they moved
    can, and report whether a piece was captured. */
module Players {
  import opened Grid
  import opened BoardModel
  import opened Moves
  import opened Executor
  import opened Evaluators
  import opened Ordering
  import opened Search

  // --------------------------------------------------------------- chains

  /** steps is a capture chain player may play on b: the first step is
      legal, and the chain goes on exactly while the piece that just moved
      may keep capturing, each further step being one of its captures. A
      chain therefore stops only where no capture is left to its piece. */
  predicate ChainOk(b: Board, player: int, steps: seq<Step>)
    requires Wf(b) && IsSide(player)
    decreases |steps|
  {
    |steps| == 0 ||
    (LegalStep(b, player, steps[0].from, steps[0].to) &&
     var p := PlayStep(b, player, steps[0]);
     var cont := Continuation(p, player, steps[0].to);
     && (|steps| > 1 <==> cont.Some?)
     && (|steps| > 1 ==> steps[1] in Flatten(cont.value))
     && ChainOk(p.board, player, steps[1..]))
  }

  /** A single step is a whole chain exactly when the piece it moved may
      not keep capturing: a turn never stops while a capture is left. */
  lemma SingleStepChain(b: Board, player: int, s: Step)
    requires Wf(b) && IsSide(player) && LegalStep(b, player, s.from, s.to)
    ensures ChainOk(b, player, [s]) <==> Continuation(PlayStep(b, player, s), player, s.to).None?
  {
  }

  /** The board after playing a chain: the player keeps every piece and
      the opponent loses at least one when the chain starts with a
      capture. */
  function Replay(b: Board, player: int, steps: seq<Step>): (r: Board)
    requires Wf(b) && IsSide(player) && ChainOk(b, player, steps)
    ensures Wf(r)
    ensures Count(r, player) == Count(b, player)
    ensures Count(r, 1 - player) <= Count(b, 1 - player)
    ensures |steps| > 0 && CaptureStep(b, steps[0].from, steps[0].to) ==> Count(r, 1 - player) < Count(b, 1 - player)
    decreases |steps|
  {
    if |steps| == 0 then b
    else
      var p := PlayStep(b, player, steps[0]);
      Replay(p.board, player, steps[1..])
  }

  /** What a turn leaves: the game, whether the player could move at all,
      whether its first step captured, the steps it played (the moves the
      engine announces) and the next unused random draw. */
  datatype Turn = Turn(game: Game, more: bool, reset: bool, steps: seq<Step>, draws: nat)

  // --------------------------------------------------------------- scoring

  /** Play s and search the position it leads to, with the opponent to
      move, for player: the search the minimax player runs on every step. */
  function Reply(b: Board, player: int, maxDepth: int, ev: Evaluator, s: Step): (r: (Played, Searched))
    requires Wf(b) && IsSide(player) && 0 <= maxDepth && LegalStep(b, player, s.from, s.to)
    ensures r.0 == PlayMove(b, s.from.x, s.from.y, s.to.x, s.to.y)
    ensures r.1.board == r.0.board && Wf(r.0.board)
    ensures Steppable(r.0.board, s.from.x, s.from.y, s.to.x, s.to.y)
    ensures UndoMove(r.0.board, s.from.x, s.from.y, s.to.x, s.to.y, r.0.removed, r.0.promoted) == b
  {
    LegalSteppable(b, player, s.from, s.to);
    PlayMoveWf(b, s.from.x, s.from.y, s.to.x, s.to.y);
    UndoPlayMove(b, s.from.x, s.from.y, s.to.x, s.to.y);
    var p := PlayMove(b, s.from.x, s.from.y, s.to.x, s.to.y);
    (p, Minimax(p.board, 1 - player, player, 0, -OO, OO, maxDepth, ev, None))
  }

  /** The score of step s for player: the search value, for player, of the
      position after s with the opponent to move, plus twice the repetition
      penalty of that position. */
  function Score(b: Board, visits: Visits, player: int, maxDepth: int, ev: Evaluator, s: Step): int
    requires Wf(b) && IsSide(player) && 0 <= maxDepth && LegalStep(b, player, s.from, s.to)
  {
    var m := Reply(b, player, maxDepth, ev, s).1;
    m.value + 2 * StateValue(m.board, visits, player)
  }

  /** Score step s as the player does: play it, search, read the
      repetition penalty, and undo it on the board the search left. */
  function Trial(b: Board, visits: Visits, player: int, maxDepth: int, ev: Evaluator, s: Step): (r: Searched)
    requires Wf(b) && IsSide(player) && 0 <= maxDepth && LegalStep(b, player, s.from, s.to)
    ensures r.board == b
    ensures r.value == Score(b, visits, player, maxDepth, ev, s)
  {
    var (p, m) := Reply(b, player, maxDepth, ev, s);
    var value := m.value + 2 * StateValue(m.board, visits, player);
    Searched(value, UndoMove(m.board, s.from.x, s.from.y, s.to.x, s.to.y, p.removed, p.promoted))
  }

  /** Every step paired with its score. */
  function Scored(b: Board, visits: Visits, player: int, maxDepth: int, ev: Evaluator,
                  steps: seq<Step>): (r: seq<(Step, int)>)
    requires Wf(b) && IsSide(player) && 0 <= maxDepth && StepsLegal(b, player, steps)
    ensures |r| == |steps|
  {
    seq(|steps|, k requires 0 <= k < |steps| =>
      assert steps[k] in steps;
      (steps[k], Score(b, visits, player, maxDepth, ev, steps[k])))
  }

  lemma ScoredAt(b: Board, visits: Visits, player: int, maxDepth: int, ev: Evaluator, steps: seq<Step>, k: nat)
    requires Wf(b) && IsSide(player) && 0 <= maxDepth && StepsLegal(b, player, steps) && k < |steps|
    ensures steps[k] in steps
    ensures Scored(b, visits, player, maxDepth, ev, steps)[k] == (steps[k], Score(b, visits, player, maxDepth, ev, steps[k]))
  {
  }

  /** The first of the highest scores, scanning in order and replacing the
      running choice only on a strictly higher score. */
  function FirstBest(cs: seq<(Step, int)>, best: int, choice: Option<Step>): (r: (int, Option<Step>))
    ensures r.0 >= best
    ensures forall k :: 0 <= k < |cs| ==> cs[k].1 <= r.0
    ensures r.0 == best ==> r.1 == choice
    ensures r.0 > best ==>
      exists k :: 0 <= k < |cs| && r.1 == Some(cs[k].0) && cs[k].1 == r.0
        && forall j :: 0 <= j < k ==> cs[j].1 < r.0
  {
    if cs == [] then (best, choice)
    else
      var r := if cs[0].1 > best then FirstBest(cs[1..], cs[0].1, Some(cs[0].0)) else FirstBest(cs[1..], best, choice);
      assert forall k :: 1 <= k < |cs| ==> cs[k] == cs[1..][k - 1];
      if r.0 > best && r.1 != Some(cs[0].0) then
        var k :| 0 <= k < |cs[1..]| && r.1 == Some(cs[1..][k].0) && cs[1..][k].1 == r.0
          && forall j :: 0 <= j < k ==> cs[1..][j].1 < r.0;
        assert forall j :: 0 <= j < k + 1 ==> cs[j].1 < r.0;
        r
      else r
  }

  /** The running choice of the minimax player: the best score so far, the
      step that reached it, and the board. */
  datatype Pick = Pick(best: int, choice: Option<Step>, board: Board)

  /** Score steps[i..] in turn, each played, searched and undone on the
      board the previous one left, keeping the step of the best score so
      far: the first of the highest scores, and the board unchanged. */
  function PickBest(b: Board, visits: Visits, player: int, maxDepth: int, ev: Evaluator,
                    steps: seq<Step>, i: nat, best: int, choice: Option<Step>): (r: Pick)
    requires Wf(b) && IsSide(player) && 0 <= maxDepth
    requires i <= |steps| && StepsLegal(b, player, steps)
    ensures r.board == b
    ensures (r.best, r.choice) == FirstBest(Scored(b, visits, player, maxDepth, ev, steps)[i..], best, choice)
    decreases |steps| - i
  {
    if i == |steps| then Pick(best, choice, b)
    else
      assert steps[i] in steps;
      var t := Trial(b, visits, player, maxDepth, ev, steps[i]);
      var all := Scored(b, visits, player, maxDepth, ev, steps);
      assert all[i] == (steps[i], t.value);
      assert all[i..][1..] == all[i + 1..];
      if t.value > best then PickBest(t.board, visits, player, maxDepth, ev, steps, i + 1, t.value, Some(steps[i]))
      else PickBest(t.board, visits, player, maxDepth, ev, steps, i + 1, best, choice)
  }

  /** No step scores above the best score the minimax player finds. */
  lemma PickAbove(b: Board, visits: Visits, player: int, maxDepth: int, ev: Evaluator, steps: seq<Step>, t: Step)
    requires Wf(b) && IsSide(player) && 0 <= maxDepth && StepsLegal(b, player, steps) && t in steps
    ensures Score(b, visits, player, maxDepth, ev, t) <= PickBest(b, visits, player, maxDepth, ev, steps, 0, -OO, None).best
  {
    var k :| 0 <= k < |steps| && steps[k] == t;
    PickAboveAt(b, visits, player, maxDepth, ev, steps, k);
  }

  /** The k-th step scores no more than the best score found. */
  lemma PickAboveAt(b: Board, visits: Visits, player: int, maxDepth: int, ev: Evaluator, steps: seq<Step>, k: nat)
    requires Wf(b) && IsSide(player) && 0 <= maxDepth && StepsLegal(b, player, steps) && k < |steps|
    ensures steps[k] in steps
    ensures Score(b, visits, player, maxDepth, ev, steps[k]) <= PickBest(b, visits, player, maxDepth, ev, steps, 0, -OO, None).best
  {
    var all := Scored(b, visits, player, maxDepth, ev, steps);
    assert all[0..] == all;
    ScoredAt(b, visits, player, maxDepth, ev, steps, k);
  }

  /** The step the minimax player picks from steps, when it picks one, is
      one of them and has the best score; it picks none only when the best
      score is still -OO. */
  lemma PickChosen(b: Board, visits: Visits, player: int, maxDepth: int, ev: Evaluator, steps: seq<Step>)
    requires Wf(b) && IsSide(player) && 0 <= maxDepth && StepsLegal(b, player, steps)
    ensures var r := PickBest(b, visits, player, maxDepth, ev, steps, 0, -OO, None);
      && (r.choice.None? ==> r.best == -OO)
      && (r.choice.Some? ==> r.choice.value in steps && Score(b, visits, player, maxDepth, ev, r.choice.value) == r.best)
  {
    var r := PickBest(b, visits, player, maxDepth, ev, steps, 0, -OO, None);
    var all := Scored(b, visits, player, maxDepth, ev, steps);
    assert all[0..] == all;
    if r.choice.Some? {
      var k :| 0 <= k < |all| && r.choice == Some(all[k].0) && all[k].1 == r.best;
      ScoredAt(b, visits, player, maxDepth, ev, steps, k);
    }
  }

  /** When FirstBest replaces the choice, it takes an entry no later than
      any entry with the best score. */
  lemma FirstBestEarliest(cs: seq<(Step, int)>, best: int, choice: Option<Step>, j: nat)
    requires j < |cs| && cs[j].1 == FirstBest(cs, best, choice).0 > best
    ensures exists k :: 0 <= k <= j && FirstBest(cs, best, choice).1 == Some(cs[k].0)
  {
    var r := FirstBest(cs, best, choice);
    var k :| 0 <= k < |cs| && r.1 == Some(cs[k].0) && cs[k].1 == r.0
      && forall i :: 0 <= i < k ==> cs[i].1 < r.0;
    assert k <= j;
  }

  /** Of several steps with the best score the minimax player picks the
      first: its choice appears no later than any step scoring as much. */
  lemma PickFirst(b: Board, visits: Visits, player: int, maxDepth: int, ev: Evaluator, steps: seq<Step>, j: nat)
    requires Wf(b) && IsSide(player) && 0 <= maxDepth && StepsLegal(b, player, steps) && j < |steps|
    requires steps[j] in steps
    requires Score(b, visits, player, maxDepth, ev, steps[j]) == PickBest(b, visits, player, maxDepth, ev, steps, 0, -OO, None).best
    ensures var r := PickBest(b, visits, player, maxDepth, ev, steps, 0, -OO, None);
      r.choice.Some? ==> r.choice.value in steps[..j + 1]
  {
    var r := PickBest(b, visits, player, maxDepth, ev, steps, 0, -OO, None);
    var all := Scored(b, visits, player, maxDepth, ev, steps);
    assert all[0..] == all;
    ScoredAt(b, visits, player, maxDepth, ev, steps, j);
    if r.choice.Some? {
      FirstBestEarliest(all, -OO, None, j);
      var k :| 0 <= k <= j && r.choice == Some(all[k].0);
      ScoredAt(b, visits, player, maxDepth, ev, steps, k);
      assert steps[..j + 1][k] == steps[k];
    }
  }

  // ----------------------------------------------------------------- turns

  /** Play a legal step: the piece lands on the destination still owned
      by player, player keeps every piece, the opponent loses exactly the
      jumped piece of a capture, a piece is reported removed exactly on a
      capture, and the piece may keep capturing only after a capture. */
  function PlayStep(b: Board, player: int, s: Step): (r: Played)
    requires Wf(b) && IsSide(player) && LegalStep(b, player, s.from, s.to)
    ensures Steppable(b, s.from.x, s.from.y, s.to.x, s.to.y)
    ensures r == PlayMove(b, s.from.x, s.from.y, s.to.x, s.to.y)
    ensures Wf(r.board) && Owns(r.board, player, s.to)
    ensures Count(r.board, player) == Count(b, player)
    ensures Count(r.board, 1 - player) == Count(b, 1 - player) - (if CaptureStep(b, s.from, s.to) then 1 else 0)
    ensures r.removed != 0 <==> CaptureStep(b, s.from, s.to)
    ensures r.canCapture ==> CaptureStep(b, s.from, s.to)
  {
    PlayLegal(b, player, s.from, s.to);
    PlayMoveWf(b, s.from.x, s.from.y, s.to.x, s.to.y);
    PlayMove(b, s.from.x, s.from.y, s.to.x, s.to.y)
  }

  /** A step after which the moved piece may keep capturing took a piece
      of the opponent: chained turns run out. */
  lemma ChainShrinks(b: Board, player: int, s: Step)
    requires Wf(b) && IsSide(player) && LegalStep(b, player, s.from, s.to)
    requires Continuation(PlayStep(b, player, s), player, s.to).Some?
    ensures 0 <= Count(PlayStep(b, player, s).board, 1 - player) < Count(b, 1 - player)
  {
    var p := PlayStep(b, player, s);
    CountNonneg(p.board, 1 - player);
    assert p.canCapture;
  }

  /** A legal step followed by a chain of captures by the piece it moved,
      present exactly when that piece may keep capturing, is a chain, and
      replaying it replays the rest from the board the step leaves. */
  lemma ChainCons(b: Board, player: int, s: Step, rest: seq<Step>)
    requires Wf(b) && IsSide(player) && LegalStep(b, player, s.from, s.to)
    requires var p := PlayStep(b, player, s);
      var cont := Continuation(p, player, s.to);
      && (|rest| > 0 <==> cont.Some?)
      && (|rest| > 0 ==> rest[0] in Flatten(cont.value))
      && ChainOk(p.board, player, rest)
    ensures ChainOk(b, player, [s] + rest)
    ensures Replay(b, player, [s] + rest) == Replay(PlayStep(b, player, s).board, player, rest)
  {
    assert ([s] + rest)[0] == s;
    assert ([s] + rest)[1..] == rest;
  }

  /** What a turn by player on g, offered the move set ms and drawing from
      k on, promises: it moves exactly when ms is not empty; otherwise
      nothing changes; when it moves it plays a chain whose first step is
      one of ms, the board it leaves is that chain replayed, it reports a
      capture exactly when the first step is one, and draws are only
      consumed. */
  predicate TurnOk(g: Game, player: int, ms: seq<Move>, k: nat, t: Turn)
    requires Wf(g.board) && IsSide(player)
  {
    && (t.more <==> |ms| > 0)
    && (!t.more ==> t == Turn(g, false, false, [], k))
    && (t.more ==>
          && |t.steps| > 0
          && t.steps[0] in Flatten(ms)
          && ChainOk(g.board, player, t.steps)
          && t.game.board == Replay(g.board, player, t.steps)
          && (t.reset <==> CaptureStep(g.board, t.steps[0].from, t.steps[0].to))
          && t.draws >= k)
  }

  /** Prefix with s the turn t taken on h, the position s leaves (a turn
      restricted to the captures of the moved piece when it may keep
      capturing, none otherwise), leaving the visit counts v: the result
      keeps the promise of a turn on g. */
  function ExtendTurn(g: Game, player: int, ms: seq<Move>, k: nat, s: Step, h: Game, k2: nat, t: Turn, v: Visits): (r: Turn)
    requires Wf(g.board) && IsSide(player) && MovesOk(g.board, player, ms) && s in Flatten(ms)
    requires LegalStep(g.board, player, s.from, s.to) && k <= k2
    requires h.board == PlayStep(g.board, player, s).board
    requires var cont := Continuation(PlayStep(g.board, player, s), player, s.to);
      && (cont.Some? ==> TurnOk(h, player, cont.value, k2, t))
      && (cont.None? ==> t.steps == [] && t.game.board == h.board && t.draws == k2)
    ensures TurnOk(g, player, ms, k, r)
    ensures r.game.visits == v && r.steps == [s] + t.steps && r.draws == t.draws
  {
    TurnCons(g, player, ms, k, s, h, k2, t);
    Turn(Game(t.game.board, v), true, PlayStep(g.board, player, s).removed != 0, [s] + t.steps, t.draws)
  }

  /** The chain a prefixed turn plays is a chain, and the board it leaves
      is that chain replayed. */
  lemma TurnCons(g: Game, player: int, ms: seq<Move>, k: nat, s: Step, h: Game, k2: nat, t: Turn)
    requires Wf(g.board) && IsSide(player) && MovesOk(g.board, player, ms) && s in Flatten(ms)
    requires LegalStep(g.board, player, s.from, s.to) && k <= k2
    requires h.board == PlayStep(g.board, player, s).board
    requires var cont := Continuation(PlayStep(g.board, player, s), player, s.to);
      && (cont.Some? ==> TurnOk(h, player, cont.value, k2, t))
      && (cont.None? ==> t.steps == [] && t.game.board == h.board && t.draws == k2)
    ensures ChainOk(g.board, player, [s] + t.steps)
    ensures Replay(g.board, player, [s] + t.steps) == t.game.board
    ensures t.draws >= k
  {
    var p := PlayStep(g.board, player, s);
    var cont := Continuation(p, player, s.to);
    if cont.Some? {
      ChainCons(g.board, player, s, t.steps);
    } else {
      ChainCons(g.board, player, s, []);
    }
  }

  // --------------------------------------------------------------- minimax

  /** The minimax player's choice from the non-empty move set ms on g:
      shuffle the entries, drawing from k on, score every step with the
      position counted once more, and keep the first best. None when no
      step scores above -OO. Returns the step and the next unused draw. */
  function MinimaxChoice(g: Game, player: int, ms: seq<Move>, maxDepth: int, ev: Evaluator,
                         roll: Roll, k: nat): (r: Option<(Step, nat)>)
    requires Wf(g.board) && IsSide(player) && 0 <= maxDepth && MovesOk(g.board, player, ms)
    ensures r.Some? ==> r.value.0 in Flatten(ms) && LegalStep(g.board, player, r.value.0.from, r.value.0.to)
    ensures r.Some? ==> r.value.1 == k + |ms| - 1
  {
    var visits := Bump(g.visits, Encode(g.board));
    var (shuffled, k2) := Shuffle(ms, roll, k);
    var steps := Flatten(shuffled);
    ShuffleMembers(ms, roll, k);
    var pick := PickBest(g.board, visits, player, maxDepth, ev, steps, 0, -OO, None);
    PickChosen(g.board, visits, player, maxDepth, ev, steps);
    match pick.choice
    case None => None
    case Some(s) => Some((s, k2))
  }

  /** The step the minimax player chooses scores at least as much as every
      step of ms. */
  lemma MinimaxChoiceBest(g: Game, player: int, ms: seq<Move>, maxDepth: int, ev: Evaluator,
                          roll: Roll, k: nat, t: Step)
    requires Wf(g.board) && IsSide(player) && 0 <= maxDepth && MovesOk(g.board, player, ms)
    requires t in Flatten(ms)
    ensures var r := MinimaxChoice(g, player, ms, maxDepth, ev, roll, k);
      var visits := Bump(g.visits, Encode(g.board));
      r.Some? ==> Score(g.board, visits, player, maxDepth, ev, t) <= Score(g.board, visits, player, maxDepth, ev, r.value.0)
  {
    var visits := Bump(g.visits, Encode(g.board));
    var shuffled := Shuffle(ms, roll, k).0;
    var steps := Flatten(shuffled);
    ShuffleMembers(ms, roll, k);
    PickChosen(g.board, visits, player, maxDepth, ev, steps);
    var m :| m in ms && t.from == m.from && t.to in m.dests;
    assert t in steps;
    PickAbove(g.board, visits, player, maxDepth, ev, steps, t);
  }

  /** The end of the minimax player's turn that played s, counting a
      visit to g first, and then the turn t from the board s left: count a
      visit to the final position and report whether s captured. */
  function Close(g: Game, player: int, ms: seq<Move>, k: nat, s: Step, k2: nat, t: Turn): (r: Turn)
    requires Wf(g.board) && IsSide(player) && MovesOk(g.board, player, ms) && s in Flatten(ms)
    requires LegalStep(g.board, player, s.from, s.to) && k <= k2
    requires var p := PlayStep(g.board, player, s);
      var cont := Continuation(p, player, s.to);
      var visits := Bump(g.visits, Encode(g.board));
      && (cont.Some? ==> TurnOk(Game(p.board, visits), player, cont.value, k2, t))
      && (cont.None? ==> t.steps == [] && t.game.board == p.board && t.draws == k2)
      && Grows(visits, t.game.visits)
    ensures TurnOk(g, player, ms, k, r)
    ensures Grows(g.visits, r.game.visits)
    ensures Visit(r.game.visits, Encode(g.board)) > Visit(g.visits, Encode(g.board))
    ensures r.more && |r.steps| > 0 && r.steps[0] == s
  {
    var h := Game(PlayStep(g.board, player, s).board, Bump(g.visits, Encode(g.board)));
    BumpGrows(g.visits, Encode(g.board), t.game.visits, Encode(t.game.board));
    ExtendTurn(g, player, ms, k, s, h, k2, t, Bump(t.game.visits, Encode(t.game.board)))
  }

  /** The minimax player's turn on game g with the move set ms: with no
      entry it reports that it cannot move. Otherwise it counts a visit to
      the position and plays the step it chooses. None is the case where
      no step scores above -OO, on which the engine fails for want of a
      chosen move. */
  function MinimaxTurn(g: Game, player: int, ms: seq<Move>, maxDepth: int, ev: Evaluator,
                       roll: Roll, k: nat): (r: Option<Turn>)
    requires Wf(g.board) && IsSide(player) && 0 <= maxDepth && MovesOk(g.board, player, ms)
    ensures r.Some? ==> TurnOk(g, player, ms, k, r.value)
    ensures r.Some? ==> Grows(g.visits, r.value.game.visits)
    ensures r.Some? && r.value.more ==> Visit(r.value.game.visits, Encode(g.board)) > Visit(g.visits, Encode(g.board))
    ensures r.Some? && r.value.more ==>
      && MinimaxChoice(g, player, ms, maxDepth, ev, roll, k).Some?
      && r.value.steps[0] == MinimaxChoice(g, player, ms, maxDepth, ev, roll, k).value.0
    ensures |ms| > 0 && MinimaxChoice(g, player, ms, maxDepth, ev, roll, k).None? ==> r.None?
    decreases Count(g.board, 1 - player), 2
  {
    if |ms| == 0 then Some(Turn(g, false, false, [], k))
    else
      match MinimaxChoice(g, player, ms, maxDepth, ev, roll, k)
      case None => None
      case Some((s, k2)) => MinimaxStep(g, player, ms, maxDepth, ev, roll, k, s, k2)
  }

  /** The rest of the minimax player's turn once it chose s: play it and,
      while the moved piece can capture again, take another turn
      restricted to those captures; at the end count a visit to the final
      position. */
  function MinimaxStep(g: Game, player: int, ms: seq<Move>, maxDepth: int, ev: Evaluator,
                       roll: Roll, k: nat, s: Step, k2: nat): (r: Option<Turn>)
    requires Wf(g.board) && IsSide(player) && 0 <= maxDepth && MovesOk(g.board, player, ms)
    requires s in Flatten(ms) && LegalStep(g.board, player, s.from, s.to) && k <= k2
    ensures r.Some? ==> TurnOk(g, player, ms, k, r.value)
    ensures r.Some? ==> Grows(g.visits, r.value.game.visits)
    ensures r.Some? ==> Visit(r.value.game.visits, Encode(g.board)) > Visit(g.visits, Encode(g.board))
    ensures r.Some? ==> r.value.more && |r.value.steps| > 0 && r.value.steps[0] == s
    decreases Count(g.board, 1 - player), 1
  {
    var visits := Bump(g.visits, Encode(g.board));
    var p := PlayStep(g.board, player, s);
    if Continuation(p, player, s.to).None? then
      Some(Close(g, player, ms, k, s, k2, Turn(Game(p.board, visits), true, false, [], k2)))
    else MinimaxChain(g, player, ms, maxDepth, ev, roll, k, s, k2)
  }

  /** The minimax player's further turn, restricted to the captures of the
      piece that s moved, when it may keep capturing. */
  function MinimaxChain(g: Game, player: int, ms: seq<Move>, maxDepth: int, ev: Evaluator,
                        roll: Roll, k: nat, s: Step, k2: nat): (r: Option<Turn>)
    requires Wf(g.board) && IsSide(player) && 0 <= maxDepth && MovesOk(g.board, player, ms)
    requires s in Flatten(ms) && LegalStep(g.board, player, s.from, s.to) && k <= k2
    requires Continuation(PlayStep(g.board, player, s), player, s.to).Some?
    ensures r.Some? ==> TurnOk(g, player, ms, k, r.value)
    ensures r.Some? ==> Grows(g.visits, r.value.game.visits)
    ensures r.Some? ==> Visit(r.value.game.visits, Encode(g.board)) > Visit(g.visits, Encode(g.board))
    ensures r.Some? ==> r.value.more && |r.value.steps| > 0 && r.value.steps[0] == s
    decreases Count(g.board, 1 - player), 0
  {
    var visits := Bump(g.visits, Encode(g.board));
    var p := PlayStep(g.board, player, s);
    var cont := Continuation(p, player, s.to);
    ChainShrinks(g.board, player, s);
    match MinimaxTurn(Game(p.board, visits), player, cont.value, maxDepth, ev, roll, k2)
    case None => None
    case Some(t) => Some(Close(g, player, ms, k, s, k2, t))
  }

  /** The minimax player's turn, offered its own moves or, when moves is
      None, every move it has. */
  function MinimaxPlay(g: Game, player: int, moves: Option<seq<Move>>, maxDepth: int, ev: Evaluator,
                       roll: Roll, k: nat): (r: Option<Turn>)
    requires Wf(g.board) && IsSide(player) && 0 <= maxDepth
    requires moves.Some? ==> MovesOk(g.board, player, moves.value)
    ensures r.Some? ==> TurnOk(g, player, Candidates(g.board, player, moves), k, r.value)
    ensures r.Some? ==> Grows(g.visits, r.value.game.visits)
    ensures r.Some? && r.value.more ==> Visit(r.value.game.visits, Encode(g.board)) > Visit(g.visits, Encode(g.board))
    ensures var ms := Candidates(g.board, player, moves);
      r.Some? && r.value.more ==>
        && MinimaxChoice(g, player, ms, maxDepth, ev, roll, k).Some?
        && r.value.steps[0] == MinimaxChoice(g, player, ms, maxDepth, ev, roll, k).value.0
    ensures var ms := Candidates(g.board, player, moves);
      |ms| > 0 && MinimaxChoice(g, player, ms, maxDepth, ev, roll, k).None? ==> r.None?
  {
    MinimaxTurn(g, player, Candidates(g.board, player, moves), maxDepth, ev, roll, k)
  }

  /** The minimax player's turn opens with a step that scores at least as
      much as every step it was offered. */
  lemma MinimaxTurnBest(g: Game, player: int, ms: seq<Move>, maxDepth: int, ev: Evaluator,
                        roll: Roll, k: nat, t: Step)
    requires Wf(g.board) && IsSide(player) && 0 <= maxDepth && MovesOk(g.board, player, ms)
    requires t in Flatten(ms)
    ensures var r := MinimaxTurn(g, player, ms, maxDepth, ev, roll, k);
      var visits := Bump(g.visits, Encode(g.board));
      r.Some? && r.value.more ==>
        Score(g.board, visits, player, maxDepth, ev, t) <= Score(g.board, visits, player, maxDepth, ev, r.value.steps[0])
  {
    MinimaxChoiceBest(g, player, ms, maxDepth, ev, roll, k, t);
  }

  // ---------------------------------------------------------------- random

  /** The random player's turn on game g with the move set ms: with no
      entry it reports that it cannot move. Otherwise it draws an entry and
      then one of its destinations, plays that step and, while the moved
      piece can capture again, takes another turn restricted to those
      captures. It does not count visits. None is the case where the drawn
      entry has no destination, on which the engine fails. */
  function RandomTurn(g: Game, player: int, ms: seq<Move>, roll: Roll, k: nat): (r: Option<Turn>)
    requires Wf(g.board) && IsSide(player) && MovesOk(g.board, player, ms)
    ensures r.Some? ==> TurnOk(g, player, ms, k, r.value)
    ensures r.Some? ==> r.value.game.visits == g.visits && r.value.draws == k + 2 * |r.value.steps|
    ensures (forall m :: m in ms ==> |m.dests| > 0) ==> r.Some?
    decreases Count(g.board, 1 - player), 2
  {
    if |ms| == 0 then Some(Turn(g, false, false, [], k))
    else
      var m := Choice(ms, roll, k);
      if |m.dests| == 0 then None
      else
        var s := Step(m.from, Choice(m.dests, roll, k + 1));
        assert s in Flatten(ms);
        RandomStep(g, player, ms, roll, k, s)
  }

  /** The rest of the random player's turn once it drew s. */
  function RandomStep(g: Game, player: int, ms: seq<Move>, roll: Roll, k: nat, s: Step): (r: Option<Turn>)
    requires Wf(g.board) && IsSide(player) && MovesOk(g.board, player, ms)
    requires s in Flatten(ms) && LegalStep(g.board, player, s.from, s.to)
    ensures r.Some? ==> TurnOk(g, player, ms, k, r.value)
    ensures r.Some? ==> r.value.game.visits == g.visits && r.value.draws == k + 2 * |r.value.steps|
    ensures r.Some?
    decreases Count(g.board, 1 - player), 1
  {
    var p := PlayStep(g.board, player, s);
    if Continuation(p, player, s.to).None? then
      var h := Game(p.board, g.visits);
      Some(ExtendTurn(g, player, ms, k, s, h, k + 2, Turn(h, true, false, [], k + 2), g.visits))
    else RandomChain(g, player, ms, roll, k, s)
  }

  /** The random player's further turn, restricted to the captures of the
      piece that s moved, when it may keep capturing. */
  function RandomChain(g: Game, player: int, ms: seq<Move>, roll: Roll, k: nat, s: Step): (r: Option<Turn>)
    requires Wf(g.board) && IsSide(player) && MovesOk(g.board, player, ms)
    requires s in Flatten(ms) && LegalStep(g.board, player, s.from, s.to)
    requires Continuation(PlayStep(g.board, player, s), player, s.to).Some?
    ensures r.Some? ==> TurnOk(g, player, ms, k, r.value)
    ensures r.Some? ==> r.value.game.visits == g.visits && r.value.draws == k + 2 * |r.value.steps|
    ensures r.Some?
    decreases Count(g.board, 1 - player), 0
  {
    var p := PlayStep(g.board, player, s);
    var cont := Continuation(p, player, s.to);
    ChainShrinks(g.board, player, s);
    assert cont.value == [cont.value[0]];
    match RandomTurn(Game(p.board, g.visits), player, cont.value, roll, k + 2)
    case Some(t) => Some(ExtendTurn(g, player, ms, k, s, Game(p.board, g.visits), k + 2, t, g.visits))
  }

  /** The random player's turn, offered its own moves or, when moves is
      None, every move it has; on its own moves it never fails. */
  function RandomPlay(g: Game, player: int, moves: Option<seq<Move>>, roll: Roll, k: nat): (r: Option<Turn>)
    requires Wf(g.board) && IsSide(player)
    requires moves.Some? ==> MovesOk(g.board, player, moves.value)
    ensures r.Some? ==> TurnOk(g, player, Candidates(g.board, player, moves), k, r.value)
    ensures r.Some? ==> r.value.game.visits == g.visits && r.value.draws == k + 2 * |r.value.steps|
    ensures moves.None? ==> r.Some?
  {
    RandomTurn(g, player, Candidates(g.board, player, moves), roll, k)
  }

  /** From the opening position the random player always moves, and its
      first step is a quiet one, so it never reports a capture. */
  lemma OpeningRandomPlay(size: int, player: int, roll: Roll, k: nat)
    requires NewGame(size).Ok? && IsSide(player)
    ensures var g := NewGame(size).value;
      && RandomPlay(g, player, None, roll, k).Some?
      && RandomPlay(g, player, None, roll, k).value.more
      && !RandomPlay(g, player, None, roll, k).value.reset
  {
    var g := NewGame(size).value;
    Opening(size, player);
    var t := RandomPlay(g, player, None, roll, k).value;
    var s := t.steps[0];
    var m :| m in NextMoves(g.board, player) && s.from == m.from && s.to in m.dests;
    assert QuietStep(g.board, s.from, s.to);
  }
}
