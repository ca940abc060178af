/** Move execution: playing one step (relocation, capture removal,
    promotion) and its exact inverse, used both by the players and by the
    search's explore/backtrack loop. */
module Executor {
  import opened Grid
  import opened BoardModel
  import opened Moves

  /** The result of playing a step: the new board, whether the piece must
      try to keep capturing, the value of the captured piece (0 if none) and
      whether the piece was promoted. */
  datatype Played = Played(board: Board, canCapture: bool, removed: int, promoted: bool)

  /** What playing or undoing a step from (x, y) to (nx, ny) needs of the
      grid: both cells on the board, and the cell between them too when they
      are two rows apart. */
  predicate Steppable(b: Board, x: int, y: int, nx: int, ny: int) {
    && Square(b) && IsValid(b, x, y) && IsValid(b, nx, ny)
    && (Abs(nx - x) == 2 ==> IsValid(b, x + (nx - x) / 2, y + (ny - y) / 2))
  }

  /** The cell (i, j) is none of the cells a step from (x, y) to (nx, ny)
      writes. */
  predicate Untouched(i: int, j: int, x: int, y: int, nx: int, ny: int) {
    && (i != x || j != y) && (i != nx || j != ny)
    && (Abs(nx - x) == 2 ==> i != x + (nx - x) / 2 || j != y + (ny - y) / 2)
  }

  /** Move the piece on (x, y) to (nx, ny), emptying (x, y). */
  function Relocate(b: Board, x: int, y: int, nx: int, ny: int): (r: Board)
    requires Square(b) && IsValid(b, x, y) && IsValid(b, nx, ny)
    ensures Square(r) && |r| == |b|
    ensures r[x][y] == 0
    ensures x != nx || y != ny ==> r[nx][ny] == b[x][y]
    ensures forall i, j :: IsValid(b, i, j) && (i != x || j != y) && (i != nx || j != ny) ==> r[i][j] == b[i][j]
  {
    Set(Set(b, nx, ny, b[x][y]), x, y, 0)
  }

  /** Crown a man that reached the far row: a white man on the last row, a
      black man on row 0. Reports whether it did. */
  function Promote(b: Board, nx: int, ny: int): (r: (Board, bool))
    requires Square(b) && IsValid(b, nx, ny)
    ensures Square(r.0) && |r.0| == |b|
    ensures r.1 <==> (b[nx][ny] == WHITE_MAN && nx == |b| - 1) || (b[nx][ny] == BLACK_MAN && nx == 0)
    ensures r.0[nx][ny] == if r.1 then b[nx][ny] + 2 else b[nx][ny]
    ensures forall i, j :: IsValid(b, i, j) && (i != nx || j != ny) ==> r.0[i][j] == b[i][j]
  {
    if b[nx][ny] == WHITE_MAN && nx == |b| - 1 then (Set(b, nx, ny, WHITE_KING), true)
    else if b[nx][ny] == BLACK_MAN && nx == 0 then (Set(b, nx, ny, BLACK_KING), true)
    else (b, false)
  }

  /** Play the step from (x, y) to (nx, ny): relocate the piece, remove the
      jumped piece on a two-row step, and crown a man on the far row. The
      piece may keep capturing only after an uncrowned capture. */
  function PlayMove(b: Board, x: int, y: int, nx: int, ny: int): (r: Played)
    requires Steppable(b, x, y, nx, ny)
    ensures Square(r.board) && |r.board| == |b|
    ensures r.removed == (if Abs(nx - x) == 2 then b[x + (nx - x) / 2][y + (ny - y) / 2] else 0)
    ensures r.promoted <==>
      (x != nx || y != ny) && ((b[x][y] == WHITE_MAN && nx == |b| - 1) || (b[x][y] == BLACK_MAN && nx == 0))
    ensures r.canCapture <==> Abs(nx - x) == 2 && !r.promoted
    ensures x != nx || y != ny ==>
      && r.board[nx][ny] == (if r.promoted then b[x][y] + 2 else b[x][y])
      && r.board[x][y] == 0
    ensures Abs(nx - x) == 2 ==> r.board[x + (nx - x) / 2][y + (ny - y) / 2] == 0
    ensures forall i, j :: IsValid(b, i, j) && Untouched(i, j, x, y, nx, ny) ==> r.board[i][j] == b[i][j]
  {
    var b2 := Relocate(b, x, y, nx, ny);
    var capture := Abs(nx - x) == 2;
    var removed := if capture then b2[x + (nx - x) / 2][y + (ny - y) / 2] else 0;
    var b3 := if capture then Set(b2, x + (nx - x) / 2, y + (ny - y) / 2, 0) else b2;
    var (b4, promoted) := Promote(b3, nx, ny);
    Played(b4, capture && !promoted, removed, promoted)
  }

  /** The value a piece had before a step that may have promoted it. */
  function Demote(promoted: bool, v: int): int {
    if promoted && v == WHITE_KING then WHITE_MAN
    else if promoted && v == BLACK_KING then BLACK_MAN
    else v
  }

  /** Undo the step from (x, y) to (nx, ny), given what playing it
      reported. */
  function UndoMove(b: Board, x: int, y: int, nx: int, ny: int, removed: int, promoted: bool): (r: Board)
    requires Steppable(b, x, y, nx, ny)
    ensures Square(r) && |r| == |b|
    ensures x != nx || y != ny ==> r[x][y] == Demote(promoted, b[nx][ny])
    ensures r[nx][ny] == 0
    ensures Abs(nx - x) == 2 ==> r[x + (nx - x) / 2][y + (ny - y) / 2] == removed
    ensures forall i, j :: IsValid(b, i, j) && Untouched(i, j, x, y, nx, ny) ==> r[i][j] == b[i][j]
  {
    var b2 := if promoted then Set(b, nx, ny, Demote(promoted, b[nx][ny])) else b;
    var b4 := Relocate(b2, nx, ny, x, y);
    if Abs(nx - x) == 2 then Set(b4, x + (nx - x) / 2, y + (ny - y) / 2, removed) else b4
  }

  /** Undoing a step with what playing it reported restores the board
      exactly, for every step between two distinct cells onto an empty one:
      quiet or capturing, promoting or not. */
  lemma {:induction false} UndoPlayMove(b: Board, x: int, y: int, nx: int, ny: int)
    requires Steppable(b, x, y, nx, ny)
    requires (x != nx || y != ny) && b[nx][ny] == 0
    ensures var r := PlayMove(b, x, y, nx, ny);
      Steppable(r.board, x, y, nx, ny)
      && UndoMove(r.board, x, y, nx, ny, r.removed, r.promoted) == b
  {
    var r := PlayMove(b, x, y, nx, ny);
    var u := UndoMove(r.board, x, y, nx, ny, r.removed, r.promoted);
    forall i, j | 0 <= i < |u| && 0 <= j < |u[i]|
      ensures u[i][j] == b[i][j]
    {
      if Abs(nx - x) == 2 && i == x + (nx - x) / 2 && j == y + (ny - y) / 2 {
      } else if i == x && j == y {
      } else if i == nx && j == ny {
      } else {
        assert Untouched(i, j, x, y, nx, ny);
      }
    }
    SameCells(u, b);
  }

  /** Playing a step keeps a well-formed board well-formed. */
  lemma PlayMoveWf(b: Board, x: int, y: int, nx: int, ny: int)
    requires Wf(b) && Steppable(b, x, y, nx, ny)
    ensures Wf(PlayMove(b, x, y, nx, ny).board)
  {
    var r := PlayMove(b, x, y, nx, ny);
    forall i, j | 0 <= i < |r.board| && 0 <= j < |r.board[i]|
      ensures 0 <= r.board[i][j] <= 4
    {
      if Abs(nx - x) == 2 && i == x + (nx - x) / 2 && j == y + (ny - y) / 2 {
      } else if i == x && j == y {
      } else if i == nx && j == ny {
      } else {
        assert Untouched(i, j, x, y, nx, ny);
      }
    }
  }

  /** A legal step can be played and undone. */
  lemma LegalSteppable(b: Board, player: int, from: Pos, to: Pos)
    requires Square(b) && LegalStep(b, player, from, to)
    ensures Steppable(b, from.x, from.y, to.x, to.y)
    ensures from != to && At(b, to) == 0
    ensures CaptureStep(b, from, to) <==> Abs(to.x - from.x) == 2
  {
  }

  /** Relocating a piece onto an empty cell keeps every side's count. */
  lemma RelocateCount(b: Board, side: int, x: int, y: int, nx: int, ny: int)
    requires Square(b) && IsValid(b, x, y) && IsValid(b, nx, ny)
    requires (x != nx || y != ny) && b[nx][ny] == 0
    ensures Count(Relocate(b, x, y, nx, ny), side) == Count(b, side)
  {
    CountSet(b, side, nx, ny, b[x][y]);
    CountSet(Set(b, nx, ny, b[x][y]), side, x, y, 0);
  }

  /** Crowning keeps every side's count. */
  lemma PromoteCount(b: Board, side: int, nx: int, ny: int)
    requires Square(b) && IsValid(b, nx, ny)
    ensures Count(Promote(b, nx, ny).0, side) == Count(b, side)
  {
    if Promote(b, nx, ny).1 {
      assert Promote(b, nx, ny).0 == Set(b, nx, ny, b[nx][ny] + 2);
      CountSet(b, side, nx, ny, b[nx][ny] + 2);
    }
  }

  /** A legal step of player keeps every piece of player on the board,
      lands it on the destination, removes one opposing piece exactly when
      it is a capture, and reports a removed piece exactly then. */
  lemma PlayLegal(b: Board, player: int, from: Pos, to: Pos)
    requires Square(b) && IsSide(player) && LegalStep(b, player, from, to)
    ensures Steppable(b, from.x, from.y, to.x, to.y)
    ensures var r := PlayMove(b, from.x, from.y, to.x, to.y);
      && Owns(r.board, player, to)
      && Count(r.board, player) == Count(b, player)
      && Count(r.board, 1 - player) == Count(b, 1 - player) - (if CaptureStep(b, from, to) then 1 else 0)
      && (r.removed != 0 <==> CaptureStep(b, from, to))
      && (r.canCapture ==> CaptureStep(b, from, to))
  {
    LegalSteppable(b, player, from, to);
    PlayLegalFlags(b, player, from, to);
    PlayLegalCount(b, player, from, to);
  }

  lemma PlayLegalFlags(b: Board, player: int, from: Pos, to: Pos)
    requires Square(b) && IsSide(player) && LegalStep(b, player, from, to)
    requires Steppable(b, from.x, from.y, to.x, to.y)
    ensures var r := PlayMove(b, from.x, from.y, to.x, to.y);
      && Owns(r.board, player, to)
      && (r.removed != 0 <==> CaptureStep(b, from, to))
      && (r.canCapture ==> CaptureStep(b, from, to))
  {
    LegalSteppable(b, player, from, to);
    PlayLegalOwns(b, player, from, to);
    PlayLegalRemoved(b, player, from, to);
  }

  /** The moved piece, crowned or not, still belongs to player. */
  lemma PlayLegalOwns(b: Board, player: int, from: Pos, to: Pos)
    requires Square(b) && IsSide(player) && LegalStep(b, player, from, to)
    requires Steppable(b, from.x, from.y, to.x, to.y) && from != to
    ensures Owns(PlayMove(b, from.x, from.y, to.x, to.y).board, player, to)
  {
    var r := PlayMove(b, from.x, from.y, to.x, to.y);
    var v := b[from.x][from.y];
    assert v != 0 && v % 2 == player;
    assert r.board[to.x][to.y] == v || r.board[to.x][to.y] == v + 2;
    assert (v + 2) % 2 == v % 2;
  }

  /** A piece is reported removed exactly on a capture. */
  lemma PlayLegalRemoved(b: Board, player: int, from: Pos, to: Pos)
    requires Square(b) && IsSide(player) && LegalStep(b, player, from, to)
    requires Steppable(b, from.x, from.y, to.x, to.y)
    requires CaptureStep(b, from, to) <==> Abs(to.x - from.x) == 2
    ensures PlayMove(b, from.x, from.y, to.x, to.y).removed != 0 <==> CaptureStep(b, from, to)
  {
    var r := PlayMove(b, from.x, from.y, to.x, to.y);
    if Abs(to.x - from.x) == 2 {
      var m := Mid(from, to);
      assert m == Pos(from.x + (to.x - from.x) / 2, from.y + (to.y - from.y) / 2);
      assert r.removed == At(b, m);
    } else {
      assert r.removed == 0;
    }
  }

  /** Playing a step onto an empty cell changes a side's count only by the
      jumped piece, when that piece is the side's. */
  lemma PlayCount(b: Board, side: int, x: int, y: int, nx: int, ny: int)
    requires Steppable(b, x, y, nx, ny) && (x != nx || y != ny) && b[nx][ny] == 0
    ensures Count(PlayMove(b, x, y, nx, ny).board, side) == Count(b, side)
      - (if Abs(nx - x) == 2 then OwnedFn(side)(x + (nx - x) / 2, y + (ny - y) / 2, b[x + (nx - x) / 2][y + (ny - y) / 2]) else 0)
  {
    var mx, my := x + (nx - x) / 2, y + (ny - y) / 2;
    var b2 := Relocate(b, x, y, nx, ny);
    RelocateCount(b, side, x, y, nx, ny);
    var capture := Abs(nx - x) == 2;
    var b3 := if capture then Set(b2, mx, my, 0) else b2;
    if capture {
      CountSet(b2, side, mx, my, 0);
    }
    PromoteCount(b3, side, nx, ny);
  }

  lemma PlayLegalCount(b: Board, player: int, from: Pos, to: Pos)
    requires Square(b) && IsSide(player) && LegalStep(b, player, from, to)
    requires Steppable(b, from.x, from.y, to.x, to.y)
    ensures var r := PlayMove(b, from.x, from.y, to.x, to.y);
      && Count(r.board, player) == Count(b, player)
      && Count(r.board, 1 - player) == Count(b, 1 - player) - (if CaptureStep(b, from, to) then 1 else 0)
  {
    OwnCount(b, player, from, to);
    OpponentCount(b, player, from, to);
  }

  lemma OwnCount(b: Board, player: int, from: Pos, to: Pos)
    requires Square(b) && IsSide(player) && LegalStep(b, player, from, to)
    requires Steppable(b, from.x, from.y, to.x, to.y)
    ensures Count(PlayMove(b, from.x, from.y, to.x, to.y).board, player) == Count(b, player)
  {
    LegalSteppable(b, player, from, to);
    PlayCount(b, player, from.x, from.y, to.x, to.y);
    if Abs(to.x - from.x) == 2 {
      JumpedOpponent(b, player, from, to);
    }
  }

  lemma OpponentCount(b: Board, player: int, from: Pos, to: Pos)
    requires Square(b) && IsSide(player) && LegalStep(b, player, from, to)
    requires Steppable(b, from.x, from.y, to.x, to.y)
    ensures Count(PlayMove(b, from.x, from.y, to.x, to.y).board, 1 - player)
         == Count(b, 1 - player) - (if CaptureStep(b, from, to) then 1 else 0)
  {
    LegalSteppable(b, player, from, to);
    PlayCount(b, 1 - player, from.x, from.y, to.x, to.y);
    if Abs(to.x - from.x) == 2 {
      JumpedOpponent(b, player, from, to);
    }
  }

  /** The piece a legal capture jumps is the opponent's. */
  lemma JumpedOpponent(b: Board, player: int, from: Pos, to: Pos)
    requires Square(b) && IsSide(player) && LegalStep(b, player, from, to)
    requires Abs(to.x - from.x) == 2
    ensures var mx, my := from.x + (to.x - from.x) / 2, from.y + (to.y - from.y) / 2;
      IsValid(b, mx, my)
      && OwnedFn(player)(mx, my, b[mx][my]) == 0
      && OwnedFn(1 - player)(mx, my, b[mx][my]) == 1
  {
    var m := Mid(from, to);
    assert CaptureStep(b, from, to);
  }
}
