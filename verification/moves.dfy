/** Move generation: the destinations of one piece, and the move set of a
    side under the mandatory-capture rule of English draughts. */
module Moves {
  import opened Grid
  import opened BoardModel

  /** The four diagonal directions, in the order the generator tries them;
      a black piece tries them with both signs flipped. */
  const DX: seq<int> := [1, 1, -1, -1]
  const DY: seq<int> := [1, -1, 1, -1]

  /** A source cell and the destinations reachable from it in one step. */
  datatype Move = Move(from: Pos, dests: seq<Pos>)

  /** The row direction a piece of value v calls forward. */
  function Forward(v: int): int { if v % 2 == WHITE then 1 else -1 }

  /** How many of the four directions a piece of value v tries: men try the
      two forward ones, kings all four. */
  function Reach(v: int): nat { if v <= 2 then 2 else 4 }

  /** Whether a piece of value v may step in row direction dx: a king either
      way, a white man only towards higher rows, a black man only towards
      lower rows. */
  predicate Allowed(v: int, dx: int) {
    IsKing(v) || (if v % 2 == WHITE then dx > 0 else dx < 0)
  }

  /** d is k cells away from p along a diagonal. */
  predicate Diagonal(p: Pos, d: Pos, k: int) {
    Abs(d.x - p.x) == k && Abs(d.y - p.y) == k
  }

  /** The cell half-way from p to d. */
  function Mid(p: Pos, d: Pos): Pos {
    Pos(p.x + (d.x - p.x) / 2, p.y + (d.y - p.y) / 2)
  }

  /** A quiet step from p: onto an empty diagonal neighbour. */
  predicate QuietStep(b: Board, p: Pos, d: Pos)
    requires Square(b)
  {
    OnBoard(b, d) && Diagonal(p, d, 1) && At(b, d) == 0
  }

  /** A capture from p: two cells along a diagonal onto an empty cell, over
      a piece of the other side. */
  predicate CaptureStep(b: Board, p: Pos, d: Pos)
    requires Square(b) && OnBoard(b, p)
  {
    && OnBoard(b, d) && Diagonal(p, d, 2) && At(b, d) == 0
    && OnBoard(b, Mid(p, d))
    && At(b, Mid(p, d)) != 0 && At(b, Mid(p, d)) % 2 == 1 - At(b, p) % 2
  }

  /** The index into DX/DY of the direction of a step (dx, dy) taken by a
      piece whose forward direction is s. */
  function StepDir(s: int, dx: int, dy: int): int {
    (if (dx > 0) == (s > 0) then 0 else 2) + (if (dy > 0) == (s > 0) then 0 else 1)
  }

  /** What trying direction i from p finds: at most one quiet destination
      (the empty neighbour) and at most one capture destination (the empty
      cell beyond a neighbouring piece of the other side). */
  function Try(b: Board, p: Pos, i: int): (r: (seq<Pos>, seq<Pos>))
    requires Square(b) && OnBoard(b, p) && At(b, p) != 0 && 0 <= i < 4
    ensures forall d :: d in r.0 <==>
      QuietStep(b, p, d) && StepDir(Forward(At(b, p)), d.x - p.x, d.y - p.y) == i
    ensures forall d :: d in r.1 <==>
      CaptureStep(b, p, d) && StepDir(Forward(At(b, p)), d.x - p.x, d.y - p.y) == i
  {
    var player := At(b, p) % 2;
    var sign := if player == WHITE then 1 else -1;
    var nx := p.x + sign * DX[i];
    var ny := p.y + sign * DY[i];
    DirSteps(b, p, sign, i);
    if IsValid(b, nx, ny) then
      if b[nx][ny] == 0 then ([Pos(nx, ny)], [])
      else if b[nx][ny] % 2 == 1 - player then
        var fx := nx + sign * DX[i];
        var fy := ny + sign * DY[i];
        if IsValid(b, fx, fy) && b[fx][fy] == 0 then ([], [Pos(fx, fy)])
        else ([], [])
      else ([], [])
    else ([], [])
  }

  /** The steps of direction i are the neighbour one step and the cell two
      steps along (sign * DX[i], sign * DY[i]), and no other cell. */
  lemma DirSteps(b: Board, p: Pos, sign: int, i: int)
    requires Square(b) && OnBoard(b, p) && 0 <= i < 4
    requires sign == Forward(At(b, p))
    ensures forall d :: Diagonal(p, d, 1) && StepDir(sign, d.x - p.x, d.y - p.y) == i <==>
      d == Pos(p.x + sign * DX[i], p.y + sign * DY[i])
    ensures forall d :: Diagonal(p, d, 2) && StepDir(sign, d.x - p.x, d.y - p.y) == i <==>
      d == Pos(p.x + 2 * sign * DX[i], p.y + 2 * sign * DY[i])
    ensures Mid(p, Pos(p.x + 2 * sign * DX[i], p.y + 2 * sign * DY[i]))
      == Pos(p.x + sign * DX[i], p.y + sign * DY[i])
  {
    assert DX[i] == 1 || DX[i] == -1;
    assert DY[i] == 1 || DY[i] == -1;
    assert i == 0 ==> DX[i] == 1 && DY[i] == 1;
    assert i == 1 ==> DX[i] == 1 && DY[i] == -1;
    assert i == 2 ==> DX[i] == -1 && DY[i] == 1;
    assert i == 3 ==> DX[i] == -1 && DY[i] == -1;
  }

  /** The quiet and the capture destinations found in the first k
      directions tried from p. */
  function Probe(b: Board, p: Pos, k: nat): (r: (seq<Pos>, seq<Pos>))
    requires Square(b) && OnBoard(b, p) && At(b, p) != 0 && k <= 4
    ensures forall d :: d in r.0 <==>
      QuietStep(b, p, d) && StepDir(Forward(At(b, p)), d.x - p.x, d.y - p.y) < k
    ensures forall d :: d in r.1 <==>
      CaptureStep(b, p, d) && StepDir(Forward(At(b, p)), d.x - p.x, d.y - p.y) < k
  {
    if k == 0 then ([], [])
    else
      var prev := Probe(b, p, k - 1);
      var step := Try(b, p, k - 1);
      (prev.0 + step.0, prev.1 + step.1)
  }

  /** The quiet and the capture destinations of the piece at p. The source
      answers a bare empty list for an empty cell, which no caller can
      unpack, so an occupied cell is required. */
  function NextPositions(b: Board, p: Pos): (r: (seq<Pos>, seq<Pos>))
    requires Square(b) && OnBoard(b, p) && At(b, p) != 0
    ensures forall d :: d in r.0 <==> QuietStep(b, p, d) && Allowed(At(b, p), d.x - p.x)
    ensures forall d :: d in r.1 <==> CaptureStep(b, p, d) && Allowed(At(b, p), d.x - p.x)
  {
    Probe(b, p, Reach(At(b, p)))
  }

  /** Destinations of one kind: captures when capture is set, quiet
      destinations otherwise. */
  function Dests(b: Board, p: Pos, capture: bool): seq<Pos>
    requires Square(b) && OnBoard(b, p) && At(b, p) != 0
  {
    if capture then NextPositions(b, p).1 else NextPositions(b, p).0
  }

  /** p precedes (x, y) in row-major order. */
  predicate Before(p: Pos, x: int, y: int) {
    p.x < x || (p.x == x && p.y < y)
  }

  predicate Less(p: Pos, q: Pos) {
    Before(p, q.x, q.y)
  }

  /** ms holds, in row-major order of their sources, one entry for every
      piece of player before (x, y) that has destinations of the given kind,
      and nothing else. */
  ghost predicate Collected(b: Board, player: int, x: int, y: int, ms: seq<Move>, capture: bool)
    requires Square(b)
  {
    && (forall m :: m in ms ==>
          Owns(b, player, m.from) && Before(m.from, x, y)
          && m.dests == Dests(b, m.from, capture) && |m.dests| > 0)
    && (forall p :: Owns(b, player, p) && Before(p, x, y) && |Dests(b, p, capture)| > 0 ==>
          Move(p, Dests(b, p, capture)) in ms)
    && (forall i, j :: 0 <= i < j < |ms| ==> Less(ms[i].from, ms[j].from))
  }

  /** The generator's scan of the cells before (x, y), collecting quiet and
      capture entries separately. */
  function Scan(b: Board, player: int, x: int, y: int): (r: (seq<Move>, seq<Move>))
    requires Square(b) && 0 <= x <= |b| && 0 <= y <= |b| && (x == |b| ==> y == 0)
    ensures Collected(b, player, x, y, r.0, false)
    ensures Collected(b, player, x, y, r.1, true)
    decreases x, y
  {
    if y == 0 then
      if x == 0 then ([], [])
      else
        var prev := Scan(b, player, x - 1, |b|);
        CollectedNextRow(b, player, x, prev.0, false);
        CollectedNextRow(b, player, x, prev.1, true);
        prev
    else
      var prev := Scan(b, player, x, y - 1);
      var c := Pos(x, y - 1);
      CollectedCell(b, player, x, y, prev.0, false);
      CollectedCell(b, player, x, y, prev.1, true);
      var r := if CellContains(b, x, y - 1, player) then
        var next := NextPositions(b, c);
        (if |next.0| != 0 then prev.0 + [Move(c, next.0)] else prev.0,
         if |next.1| != 0 then prev.1 + [Move(c, next.1)] else prev.1)
      else prev;
      assert r.0 == Extend(b, player, x, y, prev.0, false);
      assert r.1 == Extend(b, player, x, y, prev.1, true);
      r
  }

  /** Having scanned row x - 1 to its end is having scanned up to (x, 0). */
  lemma CollectedNextRow(b: Board, player: int, x: int, ms: seq<Move>, capture: bool)
    requires Square(b) && 0 < x <= |b|
    requires Collected(b, player, x - 1, |b|, ms, capture)
    ensures Collected(b, player, x, 0, ms, capture)
  {
  }

  /** The entries ms' obtained from ms by scanning cell (x, y - 1). */
  function Extend(b: Board, player: int, x: int, y: int, ms: seq<Move>, capture: bool): seq<Move>
    requires Square(b) && 0 <= x < |b| && 0 < y <= |b|
  {
    var c := Pos(x, y - 1);
    if CellContains(b, x, y - 1, player) && |Dests(b, c, capture)| != 0
    then ms + [Move(c, Dests(b, c, capture))] else ms
  }

  /** Scanning cell (x, y - 1) appends its entry, if it has one. */
  lemma CollectedCell(b: Board, player: int, x: int, y: int, ms: seq<Move>, capture: bool)
    requires Square(b) && 0 <= x < |b| && 0 < y <= |b|
    requires Collected(b, player, x, y - 1, ms, capture)
    ensures Collected(b, player, x, y, Extend(b, player, x, y, ms, capture), capture)
  {
    CollectedCellSound(b, player, x, y, ms, capture);
    CollectedCellComplete(b, player, x, y, ms, capture);
    CollectedCellOrdered(b, player, x, y, ms, capture);
  }

  lemma CollectedCellSound(b: Board, player: int, x: int, y: int, ms: seq<Move>, capture: bool)
    requires Square(b) && 0 <= x < |b| && 0 < y <= |b|
    requires Collected(b, player, x, y - 1, ms, capture)
    ensures forall m :: m in Extend(b, player, x, y, ms, capture) ==>
          Owns(b, player, m.from) && Before(m.from, x, y)
          && m.dests == Dests(b, m.from, capture) && |m.dests| > 0
  {
    var c := Pos(x, y - 1);
    var ms' := Extend(b, player, x, y, ms, capture);
    forall m | m in ms'
      ensures Owns(b, player, m.from) && Before(m.from, x, y)
           && m.dests == Dests(b, m.from, capture) && |m.dests| > 0
    {
      if m !in ms {
        assert m == Move(c, Dests(b, c, capture));
      }
    }
  }

  lemma CollectedCellComplete(b: Board, player: int, x: int, y: int, ms: seq<Move>, capture: bool)
    requires Square(b) && 0 <= x < |b| && 0 < y <= |b|
    requires Collected(b, player, x, y - 1, ms, capture)
    ensures forall p :: Owns(b, player, p) && Before(p, x, y) && |Dests(b, p, capture)| > 0 ==>
          Move(p, Dests(b, p, capture)) in Extend(b, player, x, y, ms, capture)
  {
    forall p | Owns(b, player, p) && Before(p, x, y) && |Dests(b, p, capture)| > 0
      ensures Move(p, Dests(b, p, capture)) in Extend(b, player, x, y, ms, capture)
    {
      CollectedCellHas(b, player, x, y, ms, capture, p);
    }
  }

  /** One piece before (x, y) with destinations has its entry after the scan
      of cell (x, y - 1). */
  lemma CollectedCellHas(b: Board, player: int, x: int, y: int, ms: seq<Move>, capture: bool, p: Pos)
    requires Square(b) && 0 <= x < |b| && 0 < y <= |b|
    requires Collected(b, player, x, y - 1, ms, capture)
    requires Owns(b, player, p) && Before(p, x, y) && |Dests(b, p, capture)| > 0
    ensures Move(p, Dests(b, p, capture)) in Extend(b, player, x, y, ms, capture)
  {
    var ms' := Extend(b, player, x, y, ms, capture);
    if p == Pos(x, y - 1) {
      assert ms' == ms + [Move(p, Dests(b, p, capture))];
    } else {
      assert Before(p, x, y - 1);
      assert Move(p, Dests(b, p, capture)) in ms;
      assert ms' == ms || ms' == ms + [Move(Pos(x, y - 1), Dests(b, Pos(x, y - 1), capture))];
    }
  }


  lemma CollectedCellOrdered(b: Board, player: int, x: int, y: int, ms: seq<Move>, capture: bool)
    requires Square(b) && 0 <= x < |b| && 0 < y <= |b|
    requires Collected(b, player, x, y - 1, ms, capture)
    ensures var ms' := Extend(b, player, x, y, ms, capture);
      forall i, j :: 0 <= i < j < |ms'| ==> Less(ms'[i].from, ms'[j].from)
  {
    var ms' := Extend(b, player, x, y, ms, capture);
    forall i, j | 0 <= i < j < |ms'|
      ensures Less(ms'[i].from, ms'[j].from)
    {
      if j >= |ms| {
        assert ms'[i] in ms;
      }
    }
  }

  /** Some piece of player has a capture. */
  ghost predicate CaptureAvailable(b: Board, player: int)
    requires Square(b)
  {
    exists p :: Owns(b, player, p) && |Dests(b, p, true)| > 0
  }

  /** The move set of player: the capture entries when any piece has a
      capture, the quiet entries otherwise. */
  function NextMoves(b: Board, player: int): (r: seq<Move>)
    requires Square(b)
    ensures forall m :: m in r ==>
      Owns(b, player, m.from) && |m.dests| > 0 && m.dests == Dests(b, m.from, CaptureAvailable(b, player))
    ensures forall p :: Owns(b, player, p) ==>
      (Move(p, Dests(b, p, CaptureAvailable(b, player))) in r <==> |Dests(b, p, CaptureAvailable(b, player))| > 0)
    ensures CaptureAvailable(b, player) ==>
      forall m, d :: m in r && d in m.dests ==> CaptureStep(b, m.from, d)
    ensures |r| == 0 <==>
      forall p :: Owns(b, player, p) ==> |Dests(b, p, false)| == 0 && |Dests(b, p, true)| == 0
    ensures forall i, j :: 0 <= i < j < |r| ==> Less(r[i].from, r[j].from)
  {
    var scanned := Scan(b, player, |b|, 0);
    ScanComplete(b, player, scanned.0, scanned.1);
    if |scanned.1| != 0 then scanned.1 else scanned.0
  }

  /** A full scan finds a capture entry exactly when some piece has a
      capture, and some entry exactly when some piece has a step. */
  lemma ScanComplete(b: Board, player: int, quiet: seq<Move>, capture: seq<Move>)
    requires Square(b)
    requires Collected(b, player, |b|, 0, quiet, false)
    requires Collected(b, player, |b|, 0, capture, true)
    ensures |capture| != 0 <==> CaptureAvailable(b, player)
    ensures |quiet| == 0 <==> forall p :: Owns(b, player, p) ==> |Dests(b, p, false)| == 0
  {
    if |capture| != 0 {
      assert capture[0] in capture;
    }
    if CaptureAvailable(b, player) {
      var p :| Owns(b, player, p) && |Dests(b, p, true)| > 0;
      assert Move(p, Dests(b, p, true)) in capture;
    }
    if |quiet| != 0 {
      assert quiet[0] in quiet;
    }
    if !(forall p :: Owns(b, player, p) ==> |Dests(b, p, false)| == 0) {
      var p :| Owns(b, player, p) && |Dests(b, p, false)| != 0;
      assert Move(p, Dests(b, p, false)) in quiet;
    }
  }

  /** A legal step of player on b: from one of its pieces, in a direction
      the piece may go, quietly or capturing. */
  predicate LegalStep(b: Board, player: int, from: Pos, to: Pos)
    requires Square(b)
  {
    && Owns(b, player, from)
    && Allowed(At(b, from), to.x - from.x)
    && (QuietStep(b, from, to) || CaptureStep(b, from, to))
  }

  /** Every destination of every entry of ms is a legal step of player. */
  predicate MovesOk(b: Board, player: int, ms: seq<Move>)
    requires Square(b)
  {
    forall m, d :: m in ms && d in m.dests ==> LegalStep(b, player, m.from, d)
  }

  /** Everything the generator offers is legal. */
  lemma NextMovesOk(b: Board, player: int)
    requires Square(b)
    ensures MovesOk(b, player, NextMoves(b, player))
  {
  }

  /** The only entry a capture chain may continue with: the captures of the
      piece that just landed on p. */
  lemma CapturesOk(b: Board, player: int, p: Pos)
    requires Square(b) && Owns(b, player, p)
    ensures MovesOk(b, player, [Move(p, Dests(b, p, true))])
  {
  }

  // ------------------------------------------------------------- opening

  /** In the initial position the cell a man would jump over in a forward
      direction is empty or holds a man of its own side. */
  lemma OpeningNoJump(size: int, player: int, p: Pos, d: Pos)
    requires NewGame(size).Ok? && IsSide(player)
    requires Owns(NewGame(size).value.board, player, p)
    requires Diagonal(p, d, 2) && OnBoard(NewGame(size).value.board, Mid(p, d))
    requires Allowed(At(NewGame(size).value.board, p), d.x - p.x)
    ensures var b := NewGame(size).value.board;
      At(b, Mid(p, d)) == 0 || At(b, Mid(p, d)) % 2 == At(b, p) % 2
  {
    var b := NewGame(size).value.board;
    var m := Mid(p, d);
    assert b[p.x][p.y] == InitialCell(size, p.x, p.y);
    assert b[m.x][m.y] == InitialCell(size, m.x, m.y);
  }

  /** In the initial position no piece has a capture. */
  lemma OpeningNoCapture(size: int, player: int, p: Pos)
    requires NewGame(size).Ok? && IsSide(player)
    requires Owns(NewGame(size).value.board, player, p)
    ensures |Dests(NewGame(size).value.board, p, true)| == 0
  {
    var b := NewGame(size).value.board;
    var caps := Dests(b, p, true);
    forall d | OnBoard(b, d) && Diagonal(p, d, 2) && OnBoard(b, Mid(p, d)) && Allowed(At(b, p), d.x - p.x)
      ensures At(b, Mid(p, d)) == 0 || At(b, Mid(p, d)) % 2 == At(b, p) % 2
    {
      OpeningNoJump(size, player, p, d);
    }
    HeadIn(caps);
  }

  /** A non-empty list holds its first entry. */
  lemma HeadIn<T>(s: seq<T>)
    ensures |s| > 0 ==> s[0] in s
  {
  }

  /** In the initial position each side has a quiet step: the man nearest
      the left edge on its front row has an empty square ahead of it. */
  lemma OpeningHasMove(size: int, player: int)
    requires NewGame(size).Ok? && IsSide(player)
    ensures |NextMoves(NewGame(size).value.board, player)| > 0
  {
    var b := NewGame(size).value.board;
    var p, d := OpeningStep(size, player);
    assert d in Dests(b, p, false);
  }

  /** A man of player on the front row of its side and the empty cell ahead
      of it, towards the higher column. */
  lemma OpeningStep(size: int, player: int) returns (p: Pos, d: Pos)
    requires NewGame(size).Ok? && IsSide(player)
    ensures var b := NewGame(size).value.board;
      Owns(b, player, p) && QuietStep(b, p, d) && Allowed(At(b, p), d.x - p.x)
  {
    var b := NewGame(size).value.board;
    var i := if player == WHITE then size / 2 - 2 else size / 2 + 1;
    var j := 1 - i % 2;
    assert (i + j) % 2 == 1;
    p := Pos(i, j);
    if player == WHITE {
      d := Pos(i + 1, j + 1);
      assert b[i][j] == InitialCell(size, i, j) == WHITE_MAN;
    } else {
      d := Pos(i - 1, j + 1);
      assert b[i][j] == InitialCell(size, i, j) == BLACK_MAN;
    }
    assert b[d.x][d.y] == InitialCell(size, d.x, d.y) == EMPTY;
  }

  /** The opening: neither side has a capture, so every step offered is
      quiet, and each side has at least one. */
  lemma Opening(size: int, player: int)
    requires NewGame(size).Ok? && IsSide(player)
    ensures var b := NewGame(size).value.board;
      && !CaptureAvailable(b, player)
      && |NextMoves(b, player)| > 0
      && forall m, d :: m in NextMoves(b, player) && d in m.dests ==> QuietStep(b, m.from, d)
  {
    var b := NewGame(size).value.board;
    forall p | Owns(b, player, p)
      ensures |Dests(b, p, true)| == 0
    {
      OpeningNoCapture(size, player, p);
    }
    OpeningHasMove(size, player);
  }
}
