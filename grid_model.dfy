/**
 * The board as a value: `nrows` rows of `ncols` cells, `true` for a lit
 * cell. This module states what a press does to the board and when the game
 * is won; the board object in module LightsOut is proved against it.
 */
module GridModel {
  import opened JsNumbers

  type Grid = seq<seq<bool>>

  /** `nrows` rows, each of `ncols` cells. */
  predicate IsShape(g: Grid, nrows: nat, ncols: nat) {
    |g| == nrows && forall i :: 0 <= i < |g| ==> |g[i]| == ncols
  }

  /** The all-off board. */
  function Dark(nrows: nat, ncols: nat): (g: Grid)
    ensures IsShape(g, nrows, ncols)
  {
    seq(nrows, _ => seq(ncols, _ => false))
  }

  /** The bounds test of flipCell: `x >= 0 && x < ncols && y >= 0 && y < nrows`. */
  predicate InBounds(y: JsNum, x: JsNum, nrows: nat, ncols: nat) {
    AtLeast(x, 0) && Below(x, ncols) && AtLeast(y, 0) && Below(y, nrows)
  }

  /** flipCell(y, x): negate the cell if it lies on the board, else leave the board alone. */
  function Flip(g: Grid, nrows: nat, ncols: nat, y: JsNum, x: JsNum): (h: Grid)
    requires IsShape(g, nrows, ncols)
    ensures IsShape(h, nrows, ncols)
    ensures !InBounds(y, x, nrows, ncols) ==> h == g
    ensures forall i, j :: 0 <= i < nrows && 0 <= j < ncols ==>
      h[i][j] == (g[i][j] != (y == Num(i) && x == Num(j)))
  {
    if InBounds(y, x, nrows, ncols) then g[y.n := g[y.n][x.n := !g[y.n][x.n]]] else g
  }

  /** flipCellsAround: the target, then below, right, above and left of it, in that order. */
  function Press(g: Grid, nrows: nat, ncols: nat, y: JsNum, x: JsNum): (h: Grid)
    requires IsShape(g, nrows, ncols)
    ensures IsShape(h, nrows, ncols)
  {
    var g1 := Flip(g, nrows, ncols, y, x);
    var g2 := Flip(g1, nrows, ncols, Add(y, 1), x);
    var g3 := Flip(g2, nrows, ncols, y, Add(x, 1));
    var g4 := Flip(g3, nrows, ncols, Add(y, -1), x);
    Flip(g4, nrows, ncols, y, Add(x, -1))
  }

  /** The five coordinates a press flips, in the order the handler flips them. */
  function Targets(y: JsNum, x: JsNum): seq<(JsNum, JsNum)> {
    [(y, x), (Add(y, 1), x), (y, Add(x, 1)), (Add(y, -1), x), (y, Add(x, -1))]
  }

  /** Flip the coordinates of `ts` one after the other. */
  function FlipAll(g: Grid, nrows: nat, ncols: nat, ts: seq<(JsNum, JsNum)>): (h: Grid)
    requires IsShape(g, nrows, ncols)
    ensures IsShape(h, nrows, ncols)
    decreases |ts|
  {
    if ts == [] then g else FlipAll(Flip(g, nrows, ncols, ts[0].0, ts[0].1), nrows, ncols, ts[1..])
  }

  predicate NoDuplicates<T(==)>(ts: seq<T>) {
    forall a, b :: 0 <= a < b < |ts| ==> ts[a] != ts[b]
  }

  function Abs(k: int): nat {
    if k < 0 then -k else k
  }

  /** Cell `i`, `j` is the cell at `y`, `x` or one of its four orthogonal neighbours. */
  predicate Adjacent(y: int, x: int, i: int, j: int) {
    Abs(i - y) + Abs(j - x) <= 1
  }

  /** JavaScript's `s.every(p)`: stops at the first element that fails `p`. */
  function Every<T>(s: seq<T>, p: T -> bool): bool
    decreases |s|
  {
    if s == [] then true else p(s[0]) && Every(s[1..], p)
  }

  predicate CellOff(cell: bool) {
    !cell
  }

  predicate RowOff(row: seq<bool>) {
    Every(row, CellOff)
  }

  /** The win check: `board.every(row => row.every(cell => !cell))`. */
  predicate AllOff(g: Grid) {
    Every(g, RowOff)
  }

  /** The cells on which two boards of the same shape differ. */
  function Changed(g: Grid, h: Grid, nrows: nat, ncols: nat): set<(int, int)>
    requires IsShape(g, nrows, ncols) && IsShape(h, nrows, ncols)
  {
    set i, j | 0 <= i < nrows && 0 <= j < ncols && g[i][j] != h[i][j] :: (i, j)
  }

  /** The on-board cells a press at `y`, `x` is meant to toggle. */
  function Neighbourhood(y: int, x: int, nrows: nat, ncols: nat): set<(int, int)> {
    set i, j | 0 <= i < nrows && 0 <= j < ncols && Adjacent(y, x, i, j) :: (i, j)
  }

  /** The number of board edges the cell at `y`, `x` lies on. */
  function EdgesTouched(y: int, x: int, nrows: nat, ncols: nat): nat {
    (if y == 0 then 1 else 0) + (if y == nrows - 1 then 1 else 0) +
    (if x == 0 then 1 else 0) + (if x == ncols - 1 then 1 else 0)
  }

  // ---------------------------------------------------------------- lemmas

  /** Two boards of the same shape that agree on every cell are equal. */
  lemma SameCells(g: Grid, h: Grid, nrows: nat, ncols: nat)
    requires IsShape(g, nrows, ncols) && IsShape(h, nrows, ncols)
    requires forall i, j :: 0 <= i < nrows && 0 <= j < ncols ==> g[i][j] == h[i][j]
    ensures g == h
  {
    forall i | 0 <= i < nrows
      ensures g[i] == h[i]
    {
      assert forall j :: 0 <= j < ncols ==> g[i][j] == h[i][j];
    }
  }

  /** `every` holds exactly when each element satisfies the predicate. */
  lemma {:induction false} EveryIff<T>(s: seq<T>, p: T -> bool)
    ensures Every(s, p) <==> forall k :: 0 <= k < |s| ==> p(s[k])
    decreases |s|
  {
    if s != [] {
      EveryIff(s[1..], p);
      assert forall k :: 1 <= k < |s| ==> s[k] == s[1..][k - 1];
    }
  }

  /** The win check holds exactly when no cell of the board is lit. */
  lemma AllOffIff(g: Grid)
    ensures AllOff(g) <==> forall i, j :: 0 <= i < |g| && 0 <= j < |g[i]| ==> !g[i][j]
  {
    EveryIff(g, RowOff);
    forall i | 0 <= i < |g|
      ensures RowOff(g[i]) <==> forall j :: 0 <= j < |g[i]| ==> !g[i][j]
    {
      EveryIff(g[i], CellOff);
    }
  }

  /** On a board of a given shape, winning means being the all-off board. */
  lemma AllOffIsDark(g: Grid, nrows: nat, ncols: nat)
    requires IsShape(g, nrows, ncols)
    ensures AllOff(g) <==> g == Dark(nrows, ncols)
  {
    AllOffIff(g);
    AllOffIff(Dark(nrows, ncols));
    if AllOff(g) {
      SameCells(g, Dark(nrows, ncols), nrows, ncols);
    }
  }

  /** Flipping a list of distinct coordinates negates exactly the on-board cells it names. */
  lemma {:induction false} FlipAllCells(g: Grid, nrows: nat, ncols: nat, ts: seq<(JsNum, JsNum)>)
    requires IsShape(g, nrows, ncols)
    requires NoDuplicates(ts)
    ensures forall i, j :: 0 <= i < nrows && 0 <= j < ncols ==>
      FlipAll(g, nrows, ncols, ts)[i][j] == (g[i][j] != ((Num(i), Num(j)) in ts))
    decreases |ts|
  {
    if ts != [] {
      var g1 := Flip(g, nrows, ncols, ts[0].0, ts[0].1);
      FlipAllCells(g1, nrows, ncols, ts[1..]);
      forall i, j | 0 <= i < nrows && 0 <= j < ncols
        ensures FlipAll(g, nrows, ncols, ts)[i][j] == (g[i][j] != ((Num(i), Num(j)) in ts))
      {
        var c := (Num(i), Num(j));
        assert c in ts <==> c == ts[0] || c in ts[1..] by {
          assert ts == [ts[0]] + ts[1..];
        }
        assert c == ts[0] ==> c !in ts[1..];
      }
    }
  }

  /** A press is the five flips of Targets, in order. */
  lemma PressIsFlipAll(g: Grid, nrows: nat, ncols: nat, y: JsNum, x: JsNum)
    requires IsShape(g, nrows, ncols)
    ensures Press(g, nrows, ncols, y, x) == FlipAll(g, nrows, ncols, Targets(y, x))
  {
    var ts := Targets(y, x);
    var g1 := Flip(g, nrows, ncols, y, x);
    var g2 := Flip(g1, nrows, ncols, Add(y, 1), x);
    var g3 := Flip(g2, nrows, ncols, y, Add(x, 1));
    var g4 := Flip(g3, nrows, ncols, Add(y, -1), x);
    var g5 := Flip(g4, nrows, ncols, y, Add(x, -1));
    assert FlipAll(g5, nrows, ncols, ts[5..]) == g5;
    assert FlipAll(g4, nrows, ncols, ts[4..]) == g5;
    assert FlipAll(g3, nrows, ncols, ts[3..]) == g5;
    assert FlipAll(g2, nrows, ncols, ts[2..]) == g5;
    assert FlipAll(g1, nrows, ncols, ts[1..]) == g5;
  }

  /** For a numeric target the five coordinates are pairwise distinct, and they are its neighbourhood. */
  lemma TargetsAreNeighbourhood(y: int, x: int)
    ensures NoDuplicates(Targets(Num(y), Num(x)))
    ensures forall i, j :: (Num(i), Num(j)) in Targets(Num(y), Num(x)) <==> Adjacent(y, x, i, j)
  {
  }

  /** A press at a numeric coordinate negates each on-board cell of its neighbourhood and nothing else. */
  lemma PressCells(g: Grid, nrows: nat, ncols: nat, y: int, x: int)
    requires IsShape(g, nrows, ncols)
    ensures forall i, j :: 0 <= i < nrows && 0 <= j < ncols ==>
      Press(g, nrows, ncols, Num(y), Num(x))[i][j] == (g[i][j] != Adjacent(y, x, i, j))
  {
    PressIsFlipAll(g, nrows, ncols, Num(y), Num(x));
    TargetsAreNeighbourhood(y, x);
    FlipAllCells(g, nrows, ncols, Targets(Num(y), Num(x)));
  }

  /** A press at a NaN coordinate (an unreadable key) changes nothing. */
  lemma PressNaN(g: Grid, nrows: nat, ncols: nat, y: JsNum, x: JsNum)
    requires IsShape(g, nrows, ncols)
    requires !y.Num? || !x.Num?
    ensures Press(g, nrows, ncols, y, x) == g
  {
  }

  /** Pressing the same coordinate twice restores the board. */
  lemma PressTwice(g: Grid, nrows: nat, ncols: nat, y: JsNum, x: JsNum)
    requires IsShape(g, nrows, ncols)
    ensures Press(Press(g, nrows, ncols, y, x), nrows, ncols, y, x) == g
  {
    if y.Num? && x.Num? {
      var h := Press(g, nrows, ncols, y, x);
      PressCells(g, nrows, ncols, y.n, x.n);
      PressCells(h, nrows, ncols, y.n, x.n);
      SameCells(Press(h, nrows, ncols, y, x), g, nrows, ncols);
    } else {
      PressNaN(g, nrows, ncols, y, x);
    }
  }

  /**
   * The five flips may come in any order: flipping any duplicate-free
   * arrangement of the same five coordinates gives the same board.
   */
  lemma PressOrderIrrelevant(g: Grid, nrows: nat, ncols: nat, y: int, x: int, ts: seq<(JsNum, JsNum)>)
    requires IsShape(g, nrows, ncols)
    requires NoDuplicates(ts)
    requires forall t :: t in ts <==> t in Targets(Num(y), Num(x))
    ensures FlipAll(g, nrows, ncols, ts) == Press(g, nrows, ncols, Num(y), Num(x))
  {
    FlipAllCells(g, nrows, ncols, ts);
    PressCells(g, nrows, ncols, y, x);
    TargetsAreNeighbourhood(y, x);
    SameCells(FlipAll(g, nrows, ncols, ts), Press(g, nrows, ncols, Num(y), Num(x)), nrows, ncols);
  }

  /** The cells a press changes are exactly its on-board neighbourhood. */
  lemma PressChanged(g: Grid, nrows: nat, ncols: nat, y: int, x: int)
    requires IsShape(g, nrows, ncols)
    ensures Changed(g, Press(g, nrows, ncols, Num(y), Num(x)), nrows, ncols) == Neighbourhood(y, x, nrows, ncols)
  {
    PressCells(g, nrows, ncols, y, x);
  }

  /** The on-board orthogonal neighbours of `y`, `x` in one direction, as a set of at most one cell. */
  function Step(y: int, x: int, nrows: nat, ncols: nat, dy: int, dx: int): (s: set<(int, int)>)
  {
    if 0 <= y + dy < nrows && 0 <= x + dx < ncols then {(y + dy, x + dx)} else {}
  }

  lemma NeighbourhoodParts(y: int, x: int, nrows: nat, ncols: nat)
    requires 0 <= y < nrows && 0 <= x < ncols
    ensures Neighbourhood(y, x, nrows, ncols) ==
      {(y, x)} + Step(y, x, nrows, ncols, 1, 0) + Step(y, x, nrows, ncols, 0, 1)
      + Step(y, x, nrows, ncols, -1, 0) + Step(y, x, nrows, ncols, 0, -1)
  {
    var u := {(y, x)} + Step(y, x, nrows, ncols, 1, 0) + Step(y, x, nrows, ncols, 0, 1)
      + Step(y, x, nrows, ncols, -1, 0) + Step(y, x, nrows, ncols, 0, -1);
    forall p | p in Neighbourhood(y, x, nrows, ncols)
      ensures p in u
    {
      var (i, j) := p;
      assert Adjacent(y, x, i, j);
    }
    forall p | p in u
      ensures p in Neighbourhood(y, x, nrows, ncols)
    {
      var (i, j) := p;
      assert 0 <= i < nrows && 0 <= j < ncols && Adjacent(y, x, i, j);
    }
  }

  /** An on-board cell's neighbourhood has one cell fewer than five per board edge it lies on. */
  lemma NeighbourhoodSize(y: int, x: int, nrows: nat, ncols: nat)
    requires 2 <= nrows && 2 <= ncols
    requires 0 <= y < nrows && 0 <= x < ncols
    ensures |Neighbourhood(y, x, nrows, ncols)| == 5 - EdgesTouched(y, x, nrows, ncols)
  {
    NeighbourhoodParts(y, x, nrows, ncols);
    var below, right := Step(y, x, nrows, ncols, 1, 0), Step(y, x, nrows, ncols, 0, 1);
    var above, left := Step(y, x, nrows, ncols, -1, 0), Step(y, x, nrows, ncols, 0, -1);
    var s1 := {(y, x)} + below;
    assert |s1| == 1 + |below|;
    var s2 := s1 + right;
    assert s1 * right == {};
    assert |s2| == |s1| + |right|;
    var s3 := s2 + above;
    assert s2 * above == {};
    assert |s3| == |s2| + |above|;
    assert s3 * left == {};
    assert |s3 + left| == |s3| + |left|;
  }

  /** On a board of at least 2 by 2 a press toggles 3 cells at a corner, 4 on an edge and 5 inside. */
  lemma PressToggleCount(g: Grid, nrows: nat, ncols: nat, y: int, x: int)
    requires IsShape(g, nrows, ncols)
    requires 2 <= nrows && 2 <= ncols
    requires 0 <= y < nrows && 0 <= x < ncols
    ensures var n := |Changed(g, Press(g, nrows, ncols, Num(y), Num(x)), nrows, ncols)|;
      && ((y == 0 || y == nrows - 1) && (x == 0 || x == ncols - 1) ==> n == 3)
      && ((y == 0 || y == nrows - 1) != (x == 0 || x == ncols - 1) ==> n == 4)
      && (0 < y < nrows - 1 && 0 < x < ncols - 1 ==> n == 5)
  {
    PressChanged(g, nrows, ncols, y, x);
    NeighbourhoodSize(y, x, nrows, ncols);
  }

  /** A press wins exactly when the board before it was the press's own pattern on a dark board. */
  lemma WinningPress(g: Grid, nrows: nat, ncols: nat, y: JsNum, x: JsNum)
    requires IsShape(g, nrows, ncols)
    ensures AllOff(Press(g, nrows, ncols, y, x)) <==> g == Press(Dark(nrows, ncols), nrows, ncols, y, x)
  {
    var h := Press(g, nrows, ncols, y, x);
    AllOffIsDark(h, nrows, ncols);
    PressTwice(g, nrows, ncols, y, x);
    PressTwice(Dark(nrows, ncols), nrows, ncols, y, x);
  }

  // ------------------------------------------------------- the starting board

  lemma DrawIndexBound(nrows: nat, ncols: nat, i: nat, j: nat)
    requires i < nrows && j <= ncols
    ensures 0 <= i * ncols
    ensures i * ncols + j <= nrows * ncols
  {
    var d := nrows - i;
    MulNonNegative(i, ncols);
    MulNonNegative(d - 1, ncols);
    MulDistributes(i, d, ncols);
    MulDistributes(d - 1, 1, ncols);
  }

  lemma MulNonNegative(a: nat, b: nat)
    ensures 0 <= a * b
  {
  }

  lemma MulDistributes(a: int, b: int, c: int)
    ensures (a + b) * c == a * c + b * c
  {
  }

  /**
   * createBoard, given the outcomes of the random draws in the order they
   * are made (`draws[k]` is whether the k-th draw lights its cell): row `i`
   * takes the `ncols` draws after the first `i * ncols`.
   */
  function InitialGrid(nrows: nat, ncols: nat, draws: seq<bool>): (g: Grid)
    requires |draws| == nrows * ncols
    ensures IsShape(g, nrows, ncols)
  {
    seq(nrows, i requires 0 <= i < nrows => DrawnRow(nrows, ncols, draws, i))
  }

  /** Row `i` of the starting board: the `ncols` draws after the first `i * ncols`. */
  function DrawnRow(nrows: nat, ncols: nat, draws: seq<bool>, i: nat): (row: seq<bool>)
    requires |draws| == nrows * ncols && i < nrows
    ensures |row| == ncols
  {
    DrawIndexBound(nrows, ncols, i, ncols);
    var start := i * ncols;
    draws[start .. start + ncols]
  }

  /** Cell `i`, `j` of the starting board is the outcome of draw `i * ncols + j`. */
  lemma InitialGridAt(nrows: nat, ncols: nat, draws: seq<bool>, i: nat, j: nat)
    requires |draws| == nrows * ncols
    requires i < nrows && j < ncols
    ensures i * ncols + j < |draws|
    ensures InitialGrid(nrows, ncols, draws)[i][j] == draws[i * ncols + j]
  {
    DrawIndexBound(nrows, ncols, i, ncols);
  }

  /** With a light chance of 0 every draw is false, and the starting board is already won. */
  lemma NoLightDrawnIsWon(nrows: nat, ncols: nat, draws: seq<bool>)
    requires |draws| == nrows * ncols
    requires forall k :: 0 <= k < |draws| ==> !draws[k]
    ensures AllOff(InitialGrid(nrows, ncols, draws))
  {
    var g := InitialGrid(nrows, ncols, draws);
    forall i, j | 0 <= i < |g| && 0 <= j < |g[i]|
      ensures !g[i][j]
    {
      InitialGridAt(nrows, ncols, draws, i, j);
    }
    AllOffIff(g);
  }

  /** With a light chance of 1 every draw is true, and a non-empty starting board is not won. */
  lemma AllLightsDrawnIsLost(nrows: nat, ncols: nat, draws: seq<bool>)
    requires |draws| == nrows * ncols
    requires 1 <= nrows && 1 <= ncols
    requires forall k :: 0 <= k < |draws| ==> draws[k]
    ensures forall i, j :: 0 <= i < nrows && 0 <= j < ncols ==> InitialGrid(nrows, ncols, draws)[i][j]
    ensures !AllOff(InitialGrid(nrows, ncols, draws))
  {
    var g := InitialGrid(nrows, ncols, draws);
    forall i, j | 0 <= i < nrows && 0 <= j < ncols
      ensures g[i][j]
    {
      InitialGridAt(nrows, ncols, draws, i, j);
    }
    AllOffIff(g);
  }

  // ------------------------------------------------------------- scenarios

  /** Pressing the centre of a dark 3 by 3 board lights a plus sign; the game is not won. */
  lemma CentrePressScenario()
    ensures Press(Dark(3, 3), 3, 3, Num(1), Num(1)) ==
      [[false, true, false], [true, true, true], [false, true, false]]
    ensures !AllOff(Press(Dark(3, 3), 3, 3, Num(1), Num(1)))
  {
    var h := Press(Dark(3, 3), 3, 3, Num(1), Num(1));
    var plus := [[false, true, false], [true, true, true], [false, true, false]];
    PressCells(Dark(3, 3), 3, 3, 1, 1);
    SameCells(h, plus, 3, 3);
    AllOffIff(h);
    assert h[1][1];
  }

  /** Pressing the centre again returns to the dark board, which is won. */
  lemma CentrePressAgainScenario()
    ensures Press(Press(Dark(3, 3), 3, 3, Num(1), Num(1)), 3, 3, Num(1), Num(1)) == Dark(3, 3)
    ensures AllOff(Press(Press(Dark(3, 3), 3, 3, Num(1), Num(1)), 3, 3, Num(1), Num(1)))
  {
    PressTwice(Dark(3, 3), 3, 3, Num(1), Num(1));
    AllOffIsDark(Dark(3, 3), 3, 3);
  }
}
