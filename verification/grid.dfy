/** The tile grid the environment hands to the agent every frame: a rectangular
    matrix of small tile ids, read with numpy's indexing rules. */
module Grid {
  import opened Outcome

  type Grid = seq<seq<int>>

  /** `game_area.shape[0]` */
  function Rows(g: Grid): nat {
    |g|
  }

  /** `game_area.shape[1]` (a grid without rows has no columns in this model) */
  function Cols(g: Grid): nat {
    if |g| == 0 then 0 else |g[0]|
  }

  /** A 2-D numpy array: every row has the same length. */
  predicate Rectangular(g: Grid) {
    forall i :: 0 <= i < |g| ==> |g[i]| == Cols(g)
  }

  /** An index Python accepts for a sequence of length n: negative indexes count from the end. */
  predicate InPyRange(i: int, n: nat) {
    -(n as int) <= i < n
  }

  /** The position Python addresses with index i in a sequence of length n. */
  function PyIndex(i: int, n: nat): (k: nat)
    requires InPyRange(i, n)
    ensures k < n
    ensures i >= 0 ==> k == i
    ensures i < 0 ==> k == n + i
  {
    if i < 0 then i + n else i
  }

  /** `game_area[r][c]`: first the row, then the column, each with Python's indexing;
      an index out of range raises IndexError. */
  function At(g: Grid, r: int, c: int): Result<int> {
    if !InPyRange(r, |g|) then IndexError
    else
      var row := g[PyIndex(r, |g|)];
      if !InPyRange(c, |row|) then IndexError
      else Ok(row[PyIndex(c, |row|)])
  }

  /** A read at index r - n addresses the same cell as a read at r (for r in range):
      a negative row index is an alias, not a different cell. */
  lemma AtNegativeAlias(g: Grid, r: int, c: int)
    requires Rectangular(g)
    requires 0 <= r < Rows(g) && 0 <= c < Cols(g)
    ensures At(g, r - Rows(g), c) == At(g, r, c) == Ok(g[r][c])
  {
  }

  /** The grid with the single cell (r, c) replaced by v. */
  function Update(g: Grid, r: int, c: int, v: int): (g': Grid)
    requires Rectangular(g)
    requires 0 <= r < Rows(g) && 0 <= c < Cols(g)
    ensures Rectangular(g') && Rows(g') == Rows(g) && Cols(g') == Cols(g)
    ensures g'[r][c] == v
    ensures forall i, j :: 0 <= i < Rows(g) && 0 <= j < Cols(g) && (i, j) != (r, c) ==> g'[i][j] == g[i][j]
  {
    g[r := g[r][c := v]]
  }

  /** A read whose normalised position is not the updated cell sees the old value. */
  lemma AtUpdateOther(g: Grid, r: int, c: int, v: int, i: int, j: int)
    requires Rectangular(g)
    requires 0 <= r < Rows(g) && 0 <= c < Cols(g)
    requires !(InPyRange(i, Rows(g)) && InPyRange(j, Cols(g)) && PyIndex(i, Rows(g)) == r && PyIndex(j, Cols(g)) == c)
    ensures At(Update(g, r, c, v), i, j) == At(g, i, j)
  {
  }
}
