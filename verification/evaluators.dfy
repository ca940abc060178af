/** The three heuristic evaluators (material, end game, positional) and
    the repetition penalty. Each scores a board from the point of view of a
    maximizing side; every whole-board loop of the source is a sum over the
    cells of a per-cell contribution. */
module Evaluators {
  import opened Grid
  import opened BoardModel
  import opened Moves

  // ------------------------------------------------------------- material

  /** What a piece is worth: a man 1, a king 2. */
  function Worth(v: int): int { if IsKing(v) then 2 else 1 }

  function WorthFn(side: int): CellFn {
    (i, j, v) => if v != 0 && v % 2 == side then Worth(v) else 0
  }

  /** The material of a side: the worth of all its pieces. */
  function Material(b: Board, side: int): int {
    SumCells(b, WorthFn(side))
  }

  /** The material evaluator's per-cell term: (v + 1) / 2, counted for the
      maximizer and against it otherwise. */
  function SignedWorthFn(maximizer: int): CellFn {
    (i, j, v) => if v != 0 then (if v % 2 == maximizer then (v + 1) / 2 else -((v + 1) / 2)) else 0
  }

  /** The material evaluator: a thousand times the maximizer's material
      minus the opponent's, a man counting 1 and a king 2. */
  function Evaluate1(b: Board, maximizer: int): (r: int)
    requires Wf(b) && IsSide(maximizer)
    ensures r == 1000 * (Material(b, maximizer) - Material(b, 1 - maximizer))
  {
    MaterialBalance(b, maximizer);
    SumCells(b, SignedWorthFn(maximizer)) * 1000
  }

  lemma MaterialBalance(b: Board, maximizer: int)
    requires Wf(b) && IsSide(maximizer)
    ensures SumCells(b, SignedWorthFn(maximizer)) == Material(b, maximizer) - Material(b, 1 - maximizer)
  {
    SumCellsSub(b, WorthFn(maximizer), WorthFn(1 - maximizer), SignedWorthFn(maximizer));
  }

  /** The material evaluator is zero-sum: what one side gains the other
      loses. */
  lemma Evaluate1ZeroSum(b: Board)
    requires Wf(b)
    ensures Evaluate1(b, WHITE) == -Evaluate1(b, BLACK)
  {
  }

  // ---------------------------------------------------------- repetition

  /** One for every piece not of the maximizer's side. */
  function OtherFn(maximizer: int): CellFn {
    (i, j, v) => if v != 0 && v % 2 != maximizer then 1 else 0
  }

  /** The repetition penalty: minus the visit count of the current
      fingerprint when the maximizer has strictly more pieces than the
      opponent, zero otherwise. */
  function StateValue(b: Board, visits: Visits, maximizer: int): (r: int)
    requires IsSide(maximizer)
    ensures r <= 0
    ensures r != 0 ==> Count(b, maximizer) > Count(b, 1 - maximizer)
    ensures Count(b, maximizer) > Count(b, 1 - maximizer) ==> r == -(Visit(visits, Encode(b)) as int)
  {
    var maxPieces := SumCells(b, OwnedFn(maximizer));
    var minPieces := SumCells(b, OtherFn(maximizer));
    SumCellsExt(b, OtherFn(maximizer), OwnedFn(1 - maximizer));
    if maxPieces > minPieces then -(Visit(visits, Encode(b)) as int) else 0
  }

  /** At most one side is ever penalised for repeating a position. */
  lemma StateValueOneSided(b: Board, visits: Visits)
    ensures StateValue(b, visits, WHITE) == 0 || StateValue(b, visits, BLACK) == 0
  {
  }

  // ------------------------------------------------------------- end game

  /** The squared distance from (i, j) to every piece of side. */
  function SqDistFn(side: int, i: int, j: int): CellFn {
    (x, y, w) => if w != 0 && w % 2 == side then (x - i) * (x - i) + (y - j) * (y - j) else 0
  }

  /** For every piece of the maximizer, the sum of its squared distances to
      all opposing pieces. */
  function SpreadFn(b: Board, maximizer: int): CellFn {
    (i, j, v) => if v != 0 && v % 2 == maximizer then SumCells(b, SqDistFn(1 - maximizer, i, j)) else 0
  }

  /** The sum of squared distances between every maximizer piece and every
      opposing piece. */
  function Spread(b: Board, maximizer: int): (r: int)
    ensures r >= 0
  {
    forall i, j | 0 <= i < |b| && 0 <= j < |b[i]|
      ensures SpreadFn(b, maximizer)(i, j, b[i][j]) >= 0
    {
      forall x, y | 0 <= x < |b| && 0 <= y < |b[x]|
        ensures SqDistFn(1 - maximizer, i, j)(x, y, b[x][y]) >= 0
      {
        assert (x - i) * (x - i) >= 0 && (y - j) * (y - j) >= 0;
      }
      SumCellsNonneg(b, SqDistFn(1 - maximizer, i, j));
    }
    SumCellsNonneg(b, SpreadFn(b, maximizer));
    SumCells(b, SpreadFn(b, maximizer))
  }

  /** For every man of the maximizer, how far it stands from row base. */
  function AdvanceFn(maximizer: int, base: int): CellFn {
    (i, j, v) => if v != 0 && v % 2 == maximizer && (v + 1) / 2 == 1 then Abs(base - i) else 0
  }

  /** How far the maximizer's men have advanced from its home row (row 0
      for WHITE, the last row for BLACK). */
  function Advance(b: Board, maximizer: int): (r: int)
    ensures r >= 0
  {
    var base := if maximizer == WHITE then 0 else |b| - 1;
    forall i, j | 0 <= i < |b| && 0 <= j < |b[i]|
      ensures AdvanceFn(maximizer, base)(i, j, b[i][j]) >= 0
    {
      assert Abs(base - i) >= 0;
    }
    SumCellsNonneg(b, AdvanceFn(maximizer, base));
    SumCells(b, AdvanceFn(maximizer, base))
  }

  /** Whether side holds one of the four double-corner cells. */
  predicate InDoubleCorner(b: Board, side: int)
    requires Wf(b)
  {
    var n := |b|;
    CellContains(b, 0, 1, side) || CellContains(b, 1, 0, side)
    || CellContains(b, n - 1, n - 2, side) || CellContains(b, n - 2, n - 1, side)
  }

  /** The end-game evaluator. When the maximizer has more pieces it chases:
      the distance to the opposing pieces and an opponent sheltering in a
      double corner count against it, advanced men for it. Otherwise it
      flees: distance counts for it, and so does sheltering in a double
      corner itself. The material term is the material evaluator's. */
  function EndGame(b: Board, maximizer: int): (r: int)
    requires Wf(b) && IsSide(maximizer)
    ensures Count(b, maximizer) > Count(b, 1 - maximizer) ==>
      r == 1000 * (Material(b, maximizer) - Material(b, 1 - maximizer))
           - Spread(b, maximizer) - (if InDoubleCorner(b, 1 - maximizer) then 5 else 0)
           + 10 * Advance(b, maximizer)
    ensures Count(b, maximizer) <= Count(b, 1 - maximizer) ==>
      r == 1000 * (Material(b, maximizer) - Material(b, 1 - maximizer))
           + Spread(b, maximizer) + (if InDoubleCorner(b, maximizer) then 5 else 0)
  {
    MaterialBalance(b, maximizer);
    var minimizer := 1 - maximizer;
    var score1 := SumCells(b, SignedWorthFn(maximizer));
    var score2 := Spread(b, maximizer);
    var rowScore := Advance(b, maximizer);
    var maxPieces := Count(b, maximizer);
    var minPieces := SumCells(b, OtherFn(maximizer));
    SumCellsExt(b, OtherFn(maximizer), OwnedFn(minimizer));
    var minimizerCorner := if InDoubleCorner(b, minimizer) then 1 else 0;
    var maximizerCorner := if InDoubleCorner(b, maximizer) then 1 else 0;
    if maxPieces > minPieces then
      score1 * 1000 - score2 - minimizerCorner * 5 + rowScore * 10
    else
      score1 * 1000 + score2 + maximizerCorner * 5
  }

  /** Chase when ahead, flee when behind: ahead on pieces, the positional
      terms can only pull the score below material plus advancement; not
      ahead, they can only push it above material. */
  lemma EndGameChaseOrFlee(b: Board, maximizer: int)
    requires Wf(b) && IsSide(maximizer)
    ensures Count(b, maximizer) > Count(b, 1 - maximizer) ==>
      EndGame(b, maximizer) <= Evaluate1(b, maximizer) + 10 * Advance(b, maximizer)
    ensures Count(b, maximizer) <= Count(b, 1 - maximizer) ==>
      EndGame(b, maximizer) >= Evaluate1(b, maximizer)
  {
  }

  /** Of two positions alike in pieces, material, advancement and
      double-corner shelter, the end-game evaluator prefers, when ahead,
      the one where the maximizer stands closer to the opposing pieces and,
      when not ahead, the one where it stands farther away. */
  lemma EndGameCloser(b1: Board, b2: Board, maximizer: int)
    requires Wf(b1) && Wf(b2) && IsSide(maximizer)
    requires Count(b1, maximizer) == Count(b2, maximizer) && Count(b1, 1 - maximizer) == Count(b2, 1 - maximizer)
    requires Material(b1, maximizer) == Material(b2, maximizer)
    requires Material(b1, 1 - maximizer) == Material(b2, 1 - maximizer)
    requires Advance(b1, maximizer) == Advance(b2, maximizer)
    requires InDoubleCorner(b1, maximizer) == InDoubleCorner(b2, maximizer)
    requires InDoubleCorner(b1, 1 - maximizer) == InDoubleCorner(b2, 1 - maximizer)
    ensures Count(b1, maximizer) > Count(b1, 1 - maximizer) ==>
      (EndGame(b1, maximizer) > EndGame(b2, maximizer) <==> Spread(b1, maximizer) < Spread(b2, maximizer))
    ensures Count(b1, maximizer) <= Count(b1, 1 - maximizer) ==>
      (EndGame(b1, maximizer) > EndGame(b2, maximizer) <==> Spread(b1, maximizer) > Spread(b2, maximizer))
  {
  }

  // ----------------------------------------------------------- positional

  /** +1 for a piece of the maximizer, -1 for any other piece. */
  function Sign(v: int, maximizer: int): int {
    if v % 2 == maximizer then 1 else -1
  }

  function MenFn(maximizer: int): CellFn {
    (i, j, v) => if v != 0 && v <= 2 then Sign(v, maximizer) else 0
  }

  function KingsFn(maximizer: int): CellFn {
    (i, j, v) => if v != 0 && v > 2 then Sign(v, maximizer) else 0
  }

  function BackRowFn(maximizer: int, n: int): CellFn {
    (i, j, v) =>
      if v != 0 && Sign(v, maximizer) == 1
         && ((i == 0 && maximizer == WHITE) || (i == n - 1 && maximizer == BLACK))
      then 1 else 0
  }

  /** Rows n/2 - 1 and n/2, the two middle rows. */
  predicate MiddleRow(n: int, i: int) { i == n / 2 - 1 || i == n / 2 }

  /** The four middle columns. */
  predicate MiddleColumn(n: int, j: int) { n / 2 - 2 <= j < n / 2 + 2 }

  function MiddleBoxFn(maximizer: int, n: int): CellFn {
    (i, j, v) => if v != 0 && MiddleRow(n, i) && MiddleColumn(n, j) then Sign(v, maximizer) else 0
  }

  function MiddleRowFn(maximizer: int, n: int): CellFn {
    (i, j, v) => if v != 0 && MiddleRow(n, i) && !MiddleColumn(n, j) then Sign(v, maximizer) else 0
  }

  /** The vulnerability test of direction k for the piece at (i, j), as
      the engine writes it: the neighbour (x, y) = (i, j) + (DX[k], DY[k])
      holds a piece whose side is not the maximizer's, the cell (n, m)
      opposite it is empty, and that piece is a king or the sign of x - n
      differs from the maximizer's forward direction. x - n points the
      wrong way: the neighbour would jump from x to n. */
  predicate ThreatAsWritten(b: Board, maximizer: int, i: int, j: int, k: int)
    requires Square(b) && 0 <= k < 4
  {
    var x := i + DX[k];
    var y := j + DY[k];
    var n := i - DX[k];
    var m := j - DY[k];
    var myDir := if maximizer == WHITE then 1 else -1;
    var opDir := Abs(x - n) / (x - n);
    && IsValid(b, x, y) && b[x][y] != 0 && b[x][y] % 2 != maximizer
    && IsValid(b, n, m) && b[n][m] == 0
    && (b[x][y] > 2 || myDir != opDir)
  }

  /** The vulnerability test with the direction of the jump, from x to n:
      a man of the opponent can jump only against the maximizer's forward
      direction. */
  predicate Threat(b: Board, maximizer: int, i: int, j: int, k: int)
    requires Square(b) && 0 <= k < 4
  {
    var x := i + DX[k];
    var y := j + DY[k];
    var n := i - DX[k];
    var m := j - DY[k];
    var myDir := if maximizer == WHITE then 1 else -1;
    var jumpDir := Abs(n - x) / (n - x);
    && IsValid(b, x, y) && b[x][y] != 0 && b[x][y] % 2 != maximizer
    && IsValid(b, n, m) && b[n][m] == 0
    && (b[x][y] > 2 || myDir != jumpDir)
  }

  /** For a piece of the maximizer, direction k threatens it exactly when
      the opposing piece next to it along k may capture it, landing on the
      cell opposite. */
  lemma ThreatIsCapture(b: Board, maximizer: int, i: int, j: int, k: int)
    requires Wf(b) && IsSide(maximizer) && 0 <= k < 4
    requires IsValid(b, i, j) && b[i][j] != 0 && b[i][j] % 2 == maximizer
    ensures var a := Pos(i + DX[k], j + DY[k]);
      var d := Pos(i - DX[k], j - DY[k]);
      Threat(b, maximizer, i, j, k) <==>
        OnBoard(b, a) && At(b, a) != 0 && CaptureStep(b, a, d) && Allowed(At(b, a), d.x - a.x)
  {
    var a := Pos(i + DX[k], j + DY[k]);
    var d := Pos(i - DX[k], j - DY[k]);
    assert Mid(a, d) == Pos(i, j);
    assert Diagonal(a, d, 2);
  }

  /** As written, the test is reversed for men: an opposing man next to a
      piece of the maximizer, with the cell opposite empty, counts as a
      threat exactly when it may not jump that way. */
  lemma ThreatAsWrittenReversed(b: Board, maximizer: int, i: int, j: int, k: int)
    requires Wf(b) && IsSide(maximizer) && 0 <= k < 4
    requires IsValid(b, i, j) && b[i][j] != 0 && b[i][j] % 2 == maximizer
    ensures var a := Pos(i + DX[k], j + DY[k]);
      var d := Pos(i - DX[k], j - DY[k]);
      OnBoard(b, a) && 0 < At(b, a) <= 2 && At(b, a) % 2 != maximizer && OnBoard(b, d) && At(b, d) == 0 ==>
        (ThreatAsWritten(b, maximizer, i, j, k) <==> !Allowed(At(b, a), d.x - a.x))
  {
  }

  /** On an 8 x 8 board with a white man at (3, 2) and a black man at
      (4, 3), the black man may capture the white one by jumping to (2, 1),
      yet the test as written finds no threat to WHITE there, while the
      corrected one does. */
  lemma ThreatAsWrittenMisses()
    ensures var b := Set(Set(EmptyBoard(8), 3, 2, WHITE_MAN), 4, 3, BLACK_MAN);
      && Wf(b)
      && CaptureStep(b, Pos(4, 3), Pos(2, 1)) && Allowed(At(b, Pos(4, 3)), 2 - 4)
      && !ThreatAsWritten(b, WHITE, 3, 2, 0)
      && Threat(b, WHITE, 3, 2, 0)
  {
    var b := Set(Set(EmptyBoard(8), 3, 2, WHITE_MAN), 4, 3, BLACK_MAN);
    assert b[3][2] == WHITE_MAN && b[4][3] == BLACK_MAN && b[2][1] == EMPTY;
  }

  /** Whether the piece at (i, j) counts as vulnerable: some direction
      threatens it, by the engine's test or, when corrected is set, by the
      test with the jump direction set right. */
  predicate Vulnerable(b: Board, maximizer: int, i: int, j: int, corrected: bool)
    requires Square(b)
  {
    if corrected then
      Threat(b, maximizer, i, j, 0) || Threat(b, maximizer, i, j, 1)
      || Threat(b, maximizer, i, j, 2) || Threat(b, maximizer, i, j, 3)
    else
      ThreatAsWritten(b, maximizer, i, j, 0) || ThreatAsWritten(b, maximizer, i, j, 1)
      || ThreatAsWritten(b, maximizer, i, j, 2) || ThreatAsWritten(b, maximizer, i, j, 3)
  }

  function VulnerableFn(b: Board, maximizer: int, corrected: bool): CellFn
    requires Square(b)
  {
    (i, j, v) => if v != 0 && Vulnerable(b, maximizer, i, j, corrected) then Sign(v, maximizer) else 0
  }

  function ProtectedFn(b: Board, maximizer: int, corrected: bool): CellFn
    requires Square(b)
  {
    (i, j, v) => if v != 0 && !Vulnerable(b, maximizer, i, j, corrected) then Sign(v, maximizer) else 0
  }

  /** The counters of the positional evaluator, each a signed count. */
  datatype Tally = Tally(men: int, kings: int, backRow: int, middleBox: int,
                         middleRow: int, vulnerable: int, protected: int)

  /** The positional evaluator's counters, with the engine's vulnerability
      test or, when corrected is set, the corrected one. Every piece adds
      its sign to exactly one of men and kings, and to exactly one of
      vulnerable and protected, so both pairs sum to the signed piece
      count; men plus twice kings is the signed material; the back-row
      bonus counts only the maximizer's own pieces. */
  function Count2(b: Board, maximizer: int, corrected: bool): (t: Tally)
    requires Wf(b) && IsSide(maximizer)
    ensures t.men + t.kings == Count(b, maximizer) - Count(b, 1 - maximizer)
    ensures t.vulnerable + t.protected == t.men + t.kings
    ensures t.men + 2 * t.kings == Material(b, maximizer) - Material(b, 1 - maximizer)
    ensures 0 <= t.backRow <= Count(b, maximizer)
  {
    var n := |b|;
    var t := Tally(
      SumCells(b, MenFn(maximizer)), SumCells(b, KingsFn(maximizer)),
      SumCells(b, BackRowFn(maximizer, n)), SumCells(b, MiddleBoxFn(maximizer, n)),
      SumCells(b, MiddleRowFn(maximizer, n)), SumCells(b, VulnerableFn(b, maximizer, corrected)),
      SumCells(b, ProtectedFn(b, maximizer, corrected)));
    TallyFacts(b, maximizer, corrected);
    t
  }

  lemma TallyFacts(b: Board, maximizer: int, corrected: bool)
    requires Wf(b) && IsSide(maximizer)
    ensures SumCells(b, MenFn(maximizer)) + SumCells(b, KingsFn(maximizer))
         == Count(b, maximizer) - Count(b, 1 - maximizer)
    ensures SumCells(b, VulnerableFn(b, maximizer, corrected)) + SumCells(b, ProtectedFn(b, maximizer, corrected))
         == Count(b, maximizer) - Count(b, 1 - maximizer)
    ensures SumCells(b, MenFn(maximizer)) + 2 * SumCells(b, KingsFn(maximizer))
         == Material(b, maximizer) - Material(b, 1 - maximizer)
    ensures 0 <= SumCells(b, BackRowFn(maximizer, |b|)) <= Count(b, maximizer)
  {
    var signed: CellFn := (i, j, v) => if v != 0 then Sign(v, maximizer) else 0;
    SumCellsSub(b, OwnedFn(maximizer), OwnedFn(1 - maximizer), signed);
    SumCellsAdd(b, MenFn(maximizer), KingsFn(maximizer), signed);
    SumCellsAdd(b, VulnerableFn(b, maximizer, corrected), ProtectedFn(b, maximizer, corrected), signed);
    var doubled: CellFn := (i, j, v) => 2 * KingsFn(maximizer)(i, j, v);
    SumCellsScale(b, KingsFn(maximizer), doubled, 2);
    SumCellsAdd(b, MenFn(maximizer), doubled, SignedWorthFn(maximizer));
    MaterialBalance(b, maximizer);
    SumCellsNonneg(b, BackRowFn(maximizer, |b|));
    SumCellsMono(b, BackRowFn(maximizer, |b|), OwnedFn(maximizer));
  }

  /** The weighted sum of the counters: men 2000 and kings 4000 each, 400
      per own piece on the home row, 250 per piece in the central box and
      50 per other piece on the middle rows, 300 against every vulnerable
      and for every protected piece. */
  function Weigh(t: Tally): int {
    t.men * 2000 + t.kings * 4000 + t.backRow * 400 + t.middleBox * 250 + t.middleRow * 50
      - 300 * t.vulnerable + 300 * t.protected
  }

  /** The positional evaluator, with the engine's vulnerability test. Its
      material part is twice the material evaluator. */
  function Evaluate2(b: Board, maximizer: int): (r: int)
    requires Wf(b) && IsSide(maximizer)
    ensures var t := Count2(b, maximizer, false);
      r == 2 * Evaluate1(b, maximizer) + 400 * t.backRow + 250 * t.middleBox + 50 * t.middleRow
           + 300 * (t.protected - t.vulnerable)
  {
    Weigh(Count2(b, maximizer, false))
  }

  /** The positional evaluator as evidently intended: the same terms, with
      the corrected vulnerability test. */
  function Evaluate2Fixed(b: Board, maximizer: int): (r: int)
    requires Wf(b) && IsSide(maximizer)
    ensures var t := Count2(b, maximizer, true);
      r == 2 * Evaluate1(b, maximizer) + 400 * t.backRow + 250 * t.middleBox + 50 * t.middleRow
           + 300 * (t.protected - t.vulnerable)
  {
    Weigh(Count2(b, maximizer, true))
  }

  /** The two evaluators differ only through the vulnerability test: each
      piece the corrected test counts as vulnerable and the engine's does
      not moves 600 points away from its side, and the other way round. */
  lemma Evaluate2Fix(b: Board, maximizer: int)
    requires Wf(b) && IsSide(maximizer)
    ensures Evaluate2Fixed(b, maximizer) - Evaluate2(b, maximizer)
         == 600 * (Count2(b, maximizer, false).vulnerable - Count2(b, maximizer, true).vulnerable)
  {
    var w := Count2(b, maximizer, false);
    var f := Count2(b, maximizer, true);
    assert w.men == f.men && w.kings == f.kings && w.backRow == f.backRow;
    assert w.middleBox == f.middleBox && w.middleRow == f.middleRow;
  }

  /** On a board without men the engine's test is right: kings may jump
      either way, and both evaluators agree. */
  lemma Evaluate2KingsOnly(b: Board, maximizer: int)
    requires Wf(b) && IsSide(maximizer)
    requires forall i, j :: 0 <= i < |b| && 0 <= j < |b| ==> b[i][j] == 0 || b[i][j] > 2
    ensures Evaluate2Fixed(b, maximizer) == Evaluate2(b, maximizer)
  {
    forall i, j | 0 <= i < |b| && 0 <= j < |b[i]|
      ensures VulnerableFn(b, maximizer, false)(i, j, b[i][j]) == VulnerableFn(b, maximizer, true)(i, j, b[i][j])
    {
      assert Vulnerable(b, maximizer, i, j, false) == Vulnerable(b, maximizer, i, j, true);
    }
    SumCellsExt(b, VulnerableFn(b, maximizer, false), VulnerableFn(b, maximizer, true));
    Evaluate2Fix(b, maximizer);
  }
}
