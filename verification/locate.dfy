/** `findMario`: the row-major scan for the self-marker tile. */
module Locate {
  import opened Outcome
  import opened Grid
  import opened Tiles

  /** A grid coordinate as `findMario` returns it: (row, column). */
  datatype Pos = Pos(row: int, col: int)

  /** The coordinate returned when no marker is found. */
  const FALLBACK: Pos := Pos(5, 5)

  /** The scanned window: `range(x-1)` by `range(y-1)` leaves out the last row and the last column. */
  predicate InWindow(g: Grid, i: int, j: int) {
    0 <= i < Rows(g) - 1 && 0 <= j < Cols(g) - 1
  }

  predicate MarkerAt(g: Grid, i: int, j: int)
    requires Rectangular(g)
  {
    InWindow(g, i, j) && g[i][j] == MARIO
  }

  /** Strict row-major order on coordinates. */
  predicate Before(i: int, j: int, i': int, j': int) {
    i < i' || (i == i' && j < j')
  }

  ghost predicate HasMarker(g: Grid)
    requires Rectangular(g)
  {
    exists i, j :: MarkerAt(g, i, j)
  }

  /** (i, j) holds a marker and no marker of the window precedes it. */
  ghost predicate FirstMarker(g: Grid, i: int, j: int)
    requires Rectangular(g)
  {
    MarkerAt(g, i, j) && forall i', j' :: MarkerAt(g, i', j') ==> !Before(i', j', i, j)
  }

  /** The nested loops from cell (i, j) onward: finishes row i from column j, then
      scans the following rows from column 0. */
  function ScanFrom(g: Grid, i: nat, j: nat): (r: Option<Pos>)
    requires Rectangular(g)
    ensures r.Some? ==> MarkerAt(g, r.value.row, r.value.col) && !Before(r.value.row, r.value.col, i, j)
    ensures forall i', j' :: MarkerAt(g, i', j') && !Before(i', j', i, j) ==>
              r.Some? && !Before(i', j', r.value.row, r.value.col)
    decreases Rows(g) - i, Cols(g) - j
  {
    if i >= Rows(g) - 1 then None
    else if j >= Cols(g) - 1 then ScanFrom(g, i + 1, 0)
    else if g[i][j] == MARIO then Some(Pos(i, j))
    else ScanFrom(g, i, j + 1)
  }

  /** `findMario`: the first marker of the window in row-major order, or (5, 5). */
  function FindMario(g: Grid): (p: Pos)
    requires Rectangular(g)
    ensures HasMarker(g) ==> FirstMarker(g, p.row, p.col)
    ensures !HasMarker(g) ==> p == FALLBACK
  {
    match ScanFrom(g, 0, 0)
    case Some(p) => p
    case None => FALLBACK
  }

  /** The marker's coordinates always lie inside the scanned window, or are the
      fallback. */
  lemma FindMarioBounds(g: Grid)
    requires Rectangular(g)
    ensures var p := FindMario(g);
            p == FALLBACK || (0 <= p.row < Rows(g) - 1 && 0 <= p.col < Cols(g) - 1)
  {
  }

  /** Row-major order is total, so the first marker is unique. */
  lemma FirstMarkerUnique(g: Grid, i: int, j: int, i': int, j': int)
    requires Rectangular(g)
    requires FirstMarker(g, i, j) && FirstMarker(g, i', j')
    ensures i == i' && j == j'
  {
    assert !Before(i', j', i, j) && !Before(i, j, i', j');
  }

  /** The converse of FindMario's contract: any first marker is what the scan returns. */
  lemma FindMarioCharacterised(g: Grid, i: int, j: int)
    requires Rectangular(g)
    requires FirstMarker(g, i, j)
    ensures FindMario(g) == Pos(i, j)
  {
    var p := FindMario(g);
    assert HasMarker(g);
    FirstMarkerUnique(g, i, j, p.row, p.col);
  }

  /** A marker that sits only in the last row or the last column is never found. */
  lemma EdgeMarkerIgnored(g: Grid)
    requires Rectangular(g) && Rows(g) > 0 && Cols(g) > 0
    requires forall i, j :: 0 <= i < Rows(g) && 0 <= j < Cols(g) && g[i][j] == MARIO ==>
               i == Rows(g) - 1 || j == Cols(g) - 1
    ensures FindMario(g) == FALLBACK
  {
  }

  /** Overwriting a non-marker cell with a non-marker value leaves the scan's answer unchanged. */
  lemma FindMarioUpdate(g: Grid, r: int, c: int, v: int)
    requires Rectangular(g)
    requires 0 <= r < Rows(g) && 0 <= c < Cols(g)
    requires g[r][c] != MARIO && v != MARIO
    ensures FindMario(Update(g, r, c, v)) == FindMario(g)
  {
    var g' := Update(g, r, c, v);
    assert forall i, j :: MarkerAt(g', i, j) <==> MarkerAt(g, i, j);
    if HasMarker(g) {
      var p := FindMario(g);
      assert FirstMarker(g', p.row, p.col);
      FindMarioCharacterised(g', p.row, p.col);
    } else {
      assert !HasMarker(g');
    }
  }
}
