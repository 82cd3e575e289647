/**
 * The board component: it owns a 2-D array of lights that a press changes
 * in place, and a `hasWon` flag recomputed after every press.
 */
module LightsOut {
  import opened JsNumbers
  import opened GridModel
  import CoordKey

  /** The lights of an array as a board value. */
  function View(b: array2<bool>): (g: Grid)
    reads b
    ensures IsShape(g, b.Length0, b.Length1)
    ensures forall i, j :: 0 <= i < b.Length0 && 0 <= j < b.Length1 ==> g[i][j] == b[i, j]
  {
    seq(b.Length0, i requires 0 <= i < b.Length0 reads b =>
      seq(b.Length1, j requires 0 <= j < b.Length1 reads b => b[i, j]))
  }

  /**
   * flipCell, the helper inside the press handler: it reaches the board
   * through the handler's local `board` and the component's `nrows` and
   * `ncols`, given here as parameters.
   */
  method FlipCell(board: array2<bool>, nrows: nat, ncols: nat, y: JsNum, x: JsNum)
    requires board.Length0 == nrows && board.Length1 == ncols
    modifies board
    ensures View(board) == Flip(old(View(board)), nrows, ncols, y, x)
  {
    if AtLeast(x, 0) && Below(x, ncols) && AtLeast(y, 0) && Below(y, nrows) {
      board[y.n, x.n] := !board[y.n, x.n];
    }
    SameCells(View(board), Flip(old(View(board)), nrows, ncols, y, x), nrows, ncols);
  }

  /**
   * createBoard: `nrows` rows of `ncols` cells, filled row by row, each cell
   * taking the next draw of the random stream.
   */
  method CreateBoard(nrows: nat, ncols: nat, draws: seq<bool>) returns (board: array2<bool>)
    requires |draws| == nrows * ncols
    ensures fresh(board)
    ensures board.Length0 == nrows && board.Length1 == ncols
    ensures View(board) == InitialGrid(nrows, ncols, draws)
  {
    board := new bool[nrows, ncols];
    ghost var g := InitialGrid(nrows, ncols, draws);
    var k := 0;  // draws made so far
    for i := 0 to nrows
      invariant k == i * ncols
      invariant forall r, c :: 0 <= r < i && 0 <= c < ncols ==> board[r, c] == g[r][c]
    {
      for j := 0 to ncols
        invariant k == i * ncols + j
        invariant forall r, c :: 0 <= r < i && 0 <= c < ncols ==> board[r, c] == g[r][c]
        invariant forall c :: 0 <= c < j ==> board[i, c] == g[i][c]
      {
        InitialGridAt(nrows, ncols, draws, i, j);
        board[i, j] := draws[k];
        k := k + 1;
      }
      MulDistributes(i, 1, ncols);
    }
    SameCells(View(board), g, nrows, ncols);
  }

  class Board {
    const nrows: nat
    const ncols: nat
    var board: array2<bool>
    var hasWon: bool

    ghost predicate Valid()
      reads this
    {
      board.Length0 == nrows && board.Length1 == ncols
    }

    /**
     * A new game. `hasWon` starts false whatever the drawn board looks like.
     * A board with no rows is refused: the component then holds the malformed
     * board `[0]`, whose rendering fails before any cell can be pressed.
     */
    constructor (nrows: nat, ncols: nat, draws: seq<bool>)
      requires 1 <= nrows
      requires |draws| == nrows * ncols
      ensures Valid() && fresh(board)
      ensures this.nrows == nrows && this.ncols == ncols
      ensures View(board) == InitialGrid(nrows, ncols, draws)
      ensures !hasWon
    {
      var initial := CreateBoard(nrows, ncols, draws);
      this.nrows, this.ncols := nrows, ncols;
      board, hasWon := initial, false;
    }

    /**
     * flipCellsAround: decode the key, flip the cell and its four orthogonal
     * neighbours in place, then store the board and whether the game is won.
     * The local `b` is the same array as the stored board, so the win check
     * sees the board after the flips.
     */
    method FlipCellsAround(coord: string)
      requires Valid()
      modifies this, board
      ensures Valid() && board == old(board)
      ensures View(board) == Press(old(View(board)), nrows, ncols,
                                   CoordKey.Decode(coord).0, CoordKey.Decode(coord).1)
      ensures hasWon == AllOff(View(board))
      ensures hasWon <==> forall i, j :: 0 <= i < nrows && 0 <= j < ncols ==> !board[i, j]
    {
      var b := board;
      var (y, x) := CoordKey.Decode(coord);
      FlipCell(b, nrows, ncols, y, x);
      FlipCell(b, nrows, ncols, Add(y, 1), x);
      FlipCell(b, nrows, ncols, y, Add(x, 1));
      FlipCell(b, nrows, ncols, Add(y, -1), x);
      FlipCell(b, nrows, ncols, y, Add(x, -1));
      var didWin := AllOff(View(board));
      board, hasWon := b, didWin;
      AllOffIff(View(board));
    }
  }

  /**
   * Pressing the cell whose key the board built for `row`, `col` negates that
   * cell and its on-board orthogonal neighbours and leaves every other cell.
   */
  lemma PressByKey(g: Grid, nrows: nat, ncols: nat, row: nat, col: nat)
    requires IsShape(g, nrows, ncols)
    ensures var (y, x) := CoordKey.Decode(CoordKey.Encode(row, col));
      forall i, j :: 0 <= i < nrows && 0 <= j < ncols ==>
        Press(g, nrows, ncols, y, x)[i][j] == (g[i][j] != Adjacent(row, col, i, j))
  {
    CoordKey.DecodeEncode(row, col);
    PressCells(g, nrows, ncols, row, col);
  }
}
