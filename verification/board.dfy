/** The board model of the checkers engine: the piece encoding, the
    initial layout built by the constructor, the fingerprint of a board and
    the visit counter keyed by fingerprints. */
module BoardModel {
  import opened Grid

  /** Sides are told apart by the parity of a cell value. */
  const WHITE: int := 1
  const BLACK: int := 0

  /** Cell values: 0 is empty, a man is 1 or 2, a king is the man plus 2. */
  const EMPTY: int := 0
  const WHITE_MAN: int := 1
  const BLACK_MAN: int := 2
  const WHITE_KING: int := 3
  const BLACK_KING: int := 4

  /** The search's stand-in for infinity. */
  const OO: int := 1_000_000_000

  datatype Pos = Pos(x: int, y: int)

  /** An initialised game: the grid and the visit count of every
      fingerprint the search driver has committed. */
  datatype Game = Game(board: Board, visits: Visits)

  datatype Result<T> = Ok(value: T) | Err(message: string)

  type Visits = map<int, nat>

  predicate IsSide(s: int) { s == WHITE || s == BLACK }

  /** The side a nonzero cell value belongs to. */
  function SideOf(v: int): int { v % 2 }

  predicate IsKing(v: int) { v > 2 }

  /** The well-formed boards: square, of even size at least 4, every cell
      holding one of the five encoded values. The constructor establishes
      this and every step of play preserves it. */
  predicate Wf(b: Board) {
    && Square(b)
    && |b| >= 4 && |b| % 2 == 0
    && forall i, j :: 0 <= i < |b| && 0 <= j < |b[i]| ==> 0 <= b[i][j] <= 4
  }

  /** Whether (x, y) lies inside a board of the size of b. */
  predicate IsValid(b: Board, x: int, y: int) {
    0 <= x < |b| && 0 <= y < |b|
  }

  predicate OnBoard(b: Board, p: Pos) {
    IsValid(b, p.x, p.y)
  }

  function At(b: Board, p: Pos): int
    requires Square(b) && OnBoard(b, p)
  {
    b[p.x][p.y]
  }

  /** Whether cell (x, y) holds a piece of side player. */
  predicate CellContains(b: Board, x: int, y: int, player: int)
    requires Square(b) && IsValid(b, x, y)
  {
    b[x][y] != 0 && b[x][y] % 2 == player
  }

  /** Whether p is a cell of the board holding a piece of side player. */
  predicate Owns(b: Board, player: int, p: Pos)
    requires Square(b)
  {
    OnBoard(b, p) && CellContains(b, p.x, p.y, player)
  }

  /** The encoding puts exactly the men and kings of a side under its parity:
      a cell contains a piece of WHITE iff it is a white man or a white king,
      and likewise for BLACK. */
  lemma CellContainsPieces(b: Board, x: int, y: int)
    requires Wf(b) && IsValid(b, x, y)
    ensures CellContains(b, x, y, WHITE) <==> b[x][y] == WHITE_MAN || b[x][y] == WHITE_KING
    ensures CellContains(b, x, y, BLACK) <==> b[x][y] == BLACK_MAN || b[x][y] == BLACK_KING
    ensures b[x][y] == EMPTY <==> !CellContains(b, x, y, WHITE) && !CellContains(b, x, y, BLACK)
  {
  }

  /** One for every cell holding a piece of side, zero elsewhere. */
  function OwnedFn(side: int): CellFn {
    (i, j, v) => if v != 0 && v % 2 == side then 1 else 0
  }

  /** The number of pieces of a side on the board. */
  function Count(b: Board, side: int): int {
    SumCells(b, OwnedFn(side))
  }

  lemma CountNonneg(b: Board, side: int)
    ensures Count(b, side) >= 0
  {
    SumCellsNonneg(b, OwnedFn(side));
  }

  /** Overwriting one cell changes a side's count by the change in
      ownership of that cell. */
  lemma CountSet(b: Board, side: int, x: int, y: int, v: int)
    requires 0 <= x < |b| && 0 <= y < |b[x]|
    ensures Count(Set(b, x, y, v), side)
         == Count(b, side) - OwnedFn(side)(x, y, b[x][y]) + OwnedFn(side)(x, y, v)
  {
    SumCellsSet(b, OwnedFn(side), x, y, v);
  }

  // ---------------------------------------------------------------- fingerprint

  /** The weight of cell (i, j) on a board of size n times its value. */
  function EncodeFn(n: int): CellFn {
    (i, j, v) => (i * n + j + 5) * v
  }

  /** The fingerprint of a board: every cell value weighted by its
      row-major index plus 5. */
  function Encode(b: Board): int {
    SumCells(b, EncodeFn(|b|))
  }

  predicate IsEmpty(b: Board) {
    forall i, j :: 0 <= i < |b| && 0 <= j < |b[i]| ==> b[i][j] == 0
  }

  /** The fingerprint is zero exactly on the empty board, and positive on
      every other well-formed board. */
  lemma EncodeZero(b: Board)
    requires Wf(b)
    ensures Encode(b) >= 0
    ensures Encode(b) == 0 <==> IsEmpty(b)
  {
    var f := EncodeFn(|b|);
    forall i, j | 0 <= i < |b| && 0 <= j < |b[i]|
      ensures f(i, j, b[i][j]) >= 0
    {
      WeightPositive(i, j, |b|, b[i][j]);
    }
    SumCellsNonneg(b, f);
    if IsEmpty(b) {
      SumCellsExt(b, f, (i, j, v) => 0);
      SumRowsZero(b, |b|);
    } else {
      var x, y :| 0 <= x < |b| && 0 <= y < |b[x]| && b[x][y] != 0;
      SumCellsAtLeast(b, f, x, y);
      WeightPositive(x, y, |b|, b[x][y]);
    }
  }

  /** A cell's weighted value is non-negative, and positive when the cell
      is occupied. */
  lemma WeightPositive(i: nat, j: nat, n: nat, v: int)
    requires v >= 0
    ensures (i * n + j + 5) * v >= 0
    ensures v > 0 ==> (i * n + j + 5) * v > 0
  {
    assert i * n >= 0;
  }

  lemma {:induction false} SumRowsZero(b: Board, k: nat)
    requires k <= |b|
    ensures SumRows(b, (i, j, v) => 0, k) == 0
  {
    if k > 0 {
      SumRowsZero(b, k - 1);
      SumRowZero(b[k - 1], k - 1, |b[k - 1]|);
    }
  }

  /** Overwriting one empty cell with v raises the fingerprint by the
      cell's weight times v. */
  lemma EncodePlace(b: Board, x: int, y: int, v: int)
    requires Square(b) && IsValid(b, x, y) && b[x][y] == 0
    ensures Encode(Set(b, x, y, v)) == Encode(b) + (x * |b| + y + 5) * v
  {
    SumCellsSet(b, EncodeFn(|b|), x, y, v);
  }

  /** The empty board of size n. */
  function EmptyBoard(n: nat): (b: Board)
    ensures |b| == n && Square(b) && IsEmpty(b)
  {
    seq(n, i => seq(n, j => 0))
  }

  /** The fingerprint is not injective, whatever its documentation claims:
      on the 8 x 8 board a lone black man at (1, 0) and a lone white man at
      (2, 5), both on dark squares short of their crowning rows, weigh in at
      26 each (13 * 2 and 26 * 1). */
  lemma EncodeCollision()
    ensures Set(EmptyBoard(8), 1, 0, BLACK_MAN) != Set(EmptyBoard(8), 2, 5, WHITE_MAN)
    ensures Wf(Set(EmptyBoard(8), 1, 0, BLACK_MAN)) && Wf(Set(EmptyBoard(8), 2, 5, WHITE_MAN))
    ensures Encode(Set(EmptyBoard(8), 1, 0, BLACK_MAN)) == 26
    ensures Encode(Set(EmptyBoard(8), 2, 5, WHITE_MAN)) == 26
  {
    var e := EmptyBoard(8);
    EncodeZero(e);
    EncodePlace(e, 1, 0, BLACK_MAN);
    EncodePlace(e, 2, 5, WHITE_MAN);
    assert Set(e, 1, 0, BLACK_MAN)[1][0] != Set(e, 2, 5, WHITE_MAN)[1][0];
  }

  // ------------------------------------------------------------ visit counter

  /** The visit count of a fingerprint; absent keys count zero. */
  function Visit(visits: Visits, key: int): nat {
    if key in visits then visits[key] else 0
  }

  /** Increment the visit count of a fingerprint. */
  function Bump(visits: Visits, key: int): (r: Visits)
    ensures Visit(r, key) == Visit(visits, key) + 1
    ensures forall k :: k != key ==> Visit(r, k) == Visit(visits, k)
  {
    visits[key := Visit(visits, key) + 1]
  }

  /** visits2 counts every fingerprint at least as often as visits1. */
  ghost predicate Grows(visits1: Visits, visits2: Visits) {
    forall key :: Visit(visits1, key) <= Visit(visits2, key)
  }

  /** Counting key, then whatever grows the counts, then counting key2
      grows every count and counts key at least once more. */
  lemma BumpGrows(visits: Visits, key: int, mid: Visits, key2: int)
    requires Grows(Bump(visits, key), mid)
    ensures Grows(visits, Bump(mid, key2))
    ensures Visit(Bump(mid, key2), key) > Visit(visits, key)
  {
    forall k
      ensures Visit(visits, k) <= Visit(Bump(mid, key2), k)
    {
      assert Visit(visits, k) <= Visit(Bump(visits, key), k);
    }
    assert Visit(Bump(visits, key), key) <= Visit(mid, key);
  }

  // ------------------------------------------------------------ constructor

  /** The value of cell (i, j) of the initial board of size n: white men on
      the dark squares of the rows before the two middle rows, black men on
      the dark squares of the rows after them, everything else empty. */
  function InitialCell(n: int, i: int, j: int): int {
    if (i + j) % 2 == 0 then EMPTY
    else if i < n / 2 - 1 then WHITE_MAN
    else if i > n / 2 then BLACK_MAN
    else EMPTY
  }

  /** One row of the constructor's loop: cells j.. of a row whose cell j
      gets piece when f is set, the flag alternating from cell to cell. */
  function RowFrom(n: int, j: int, f: bool, piece: int): (row: seq<int>)
    requires 0 <= j <= n
    ensures |row| == n - j
    ensures forall k :: 0 <= k < |row| ==> row[k] == (if (k % 2 == 0) == f then piece else 0)
    decreases n - j
  {
    if j == n then [] else [if f then piece else 0] + RowFrom(n, j + 1, !f, piece)
  }

  /** The piece the constructor's loop holds when it starts row i. */
  function PieceBefore(n: int, i: int): int {
    if i <= n / 2 - 1 then WHITE_MAN else if i <= n / 2 + 1 then EMPTY else BLACK_MAN
  }

  /** Rows i.. of the constructor's loop, which switches the running piece
      to empty at row n/2 - 1 and to black men at row n/2 + 1. */
  function RowsFrom(n: int, i: int, piece: int): (rows: seq<seq<int>>)
    requires n >= 4 && n % 2 == 0 && 0 <= i <= n
    requires piece == PieceBefore(n, i)
    ensures |rows| == n - i
    ensures forall k :: 0 <= k < |rows| ==> |rows[k]| == n
    ensures forall k, j :: 0 <= k < |rows| && 0 <= j < |rows[k]| ==> rows[k][j] == InitialCell(n, i + k, j)
    decreases n - i
  {
    if i == n then []
    else
      var p := if i == n / 2 - 1 then EMPTY else if i == n / 2 + 1 then BLACK_MAN else piece;
      var row := RowFrom(n, 0, i % 2 == 1, p);
      assert forall j :: 0 <= j < n ==> row[j] == InitialCell(n, i, j) by {
        forall j | 0 <= j < n
          ensures row[j] == InitialCell(n, i, j)
        {
          ParityOfSum(i, j);
        }
      }
      [row] + RowsFrom(n, i + 1, p)
  }

  lemma ParityOfSum(i: int, j: int)
    ensures (i + j) % 2 == 1 <==> ((j % 2 == 0) == (i % 2 == 1))
  {
  }

  /** The constructor: it rejects an odd size or a size below 4, and
      otherwise lays out the initial board with an empty visit counter. */
  function NewGame(size: int): (r: Result<Game>)
    ensures r.Err? <==> size % 2 != 0 || size < 4
    ensures r.Ok? ==> Wf(r.value.board) && |r.value.board| == size && r.value.visits == map[]
    ensures r.Ok? ==> forall i, j :: 0 <= i < size && 0 <= j < size ==> r.value.board[i][j] == InitialCell(size, i, j)
  {
    if size % 2 != 0 || size < 4 then Err("The size of the board must be even and graeter than 3")
    else Ok(Game(RowsFrom(size, 0, WHITE_MAN), map[]))
  }

  /** The initial layout in the terms of the rules: only dark squares are
      occupied, the rows before the middle two hold white men, the rows after
      them hold black men, and the middle two rows are empty. */
  lemma InitialLayout(size: int, i: int, j: int)
    requires NewGame(size).Ok? && 0 <= i < size && 0 <= j < size
    ensures var b := NewGame(size).value.board;
      && ((i + j) % 2 == 0 ==> b[i][j] == EMPTY)
      && ((i + j) % 2 == 1 && i < size / 2 - 1 ==> b[i][j] == WHITE_MAN)
      && ((i + j) % 2 == 1 && i > size / 2 ==> b[i][j] == BLACK_MAN)
      && (i == size / 2 - 1 || i == size / 2 ==> b[i][j] == EMPTY)
  {
  }
}
