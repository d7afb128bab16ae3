/**
 * The keyboard navigator of components/DealsTable.tsx:290-299, 466-476: a focused
 * (row, column) coordinate moved by the arrow keys and clamped, without wrap-around,
 * by `Math.min(Math.max(0, v), n - 1)`.
 */
module Navigation {
  import opened Wrappers

  datatype Focus = Focus(r: int, c: int)

  /** The focus state's initial value `{ r: 0, c: 0 }`. */
  const Origin := Focus(0, 0)

  function Min(a: int, b: int): int { if a <= b then a else b }

  function Max(a: int, b: int): int { if a >= b then a else b }

  /** `Math.min(Math.max(0, v), n - 1)`. */
  function Clamp(v: int, n: nat): (w: int)
    ensures n >= 1 ==> 0 <= w < n
    ensures n == 0 ==> w == -1
    ensures 0 <= v < n ==> w == v
    ensures n >= 1 && v < 0 ==> w == 0
    ensures n >= 1 && v >= n ==> w == n - 1
  {
    Min(Max(0, v), n - 1)
  }

  /**
   * `moveFocus(dr, dc)`: `rows` is the number of rows the table renders and `cols` the number
   * of ALL leaf columns, hidden ones included.
   */
  function MoveFocus(f: Focus, dr: int, dc: int, rows: nat, cols: nat): (g: Focus)
    ensures rows >= 1 ==> 0 <= g.r < rows
    ensures cols >= 1 ==> 0 <= g.c < cols
    ensures rows == 0 ==> g.r == -1
    ensures cols == 0 ==> g.c == -1
    ensures 0 <= f.r + dr < rows ==> g.r == f.r + dr
    ensures 0 <= f.c + dc < cols ==> g.c == f.c + dc
  {
    Focus(Clamp(f.r + dr, rows), Clamp(f.c + dc, cols))
  }

  /** The movement each arrow key asks for; other keys do not move the focus. */
  function ArrowDelta(key: string): (d: Option<(int, int)>)
    ensures d.Some? ==> (d.value.0 == 0) != (d.value.1 == 0)
    ensures d.Some? ==> -1 <= d.value.0 <= 1 && -1 <= d.value.1 <= 1
    ensures key == "ArrowRight" ==> d == Some((0, 1))
    ensures key == "ArrowLeft" ==> d == Some((0, -1))
    ensures key == "ArrowDown" ==> d == Some((1, 0))
    ensures key == "ArrowUp" ==> d == Some((-1, 0))
    ensures d.Some? <==> key in {"ArrowRight", "ArrowLeft", "ArrowDown", "ArrowUp"}
  {
    if key == "ArrowRight" then Some((0, 1))
    else if key == "ArrowLeft" then Some((0, -1))
    else if key == "ArrowDown" then Some((1, 0))
    else if key == "ArrowUp" then Some((-1, 0))
    else None
  }

  /** A key press in a cell, as far as the focus is concerned (Enter and Escape act on the DOM). */
  function OnCellKey(f: Focus, key: string, rows: nat, cols: nat): (g: Focus)
    ensures ArrowDelta(key).None? ==> g == f
    ensures ArrowDelta(key).Some? ==>
      g == MoveFocus(f, ArrowDelta(key).value.0, ArrowDelta(key).value.1, rows, cols)
  {
    match ArrowDelta(key)
    case Some((dr, dc)) => MoveFocus(f, dr, dc, rows, cols)
    case None => f
  }

  /** No wrap-around: at the last column ArrowRight stays, at the first row ArrowUp stays. */
  lemma NoWrapAround(f: Focus, rows: nat, cols: nat)
    requires 0 <= f.r < rows && 0 <= f.c < cols
    ensures f.c == cols - 1 ==> OnCellKey(f, "ArrowRight", rows, cols) == f
    ensures f.c == 0 ==> OnCellKey(f, "ArrowLeft", rows, cols) == f
    ensures f.r == rows - 1 ==> OnCellKey(f, "ArrowDown", rows, cols) == f
    ensures f.r == 0 ==> OnCellKey(f, "ArrowUp", rows, cols) == f
  {
  }

  /** Away from the edges, an arrow and its opposite cancel out. */
  lemma OppositeArrowsCancel(f: Focus, rows: nat, cols: nat)
    requires 0 <= f.r < rows && 0 <= f.c < cols
    ensures f.c + 1 < cols ==>
      OnCellKey(OnCellKey(f, "ArrowRight", rows, cols), "ArrowLeft", rows, cols) == f
    ensures f.r + 1 < rows ==>
      OnCellKey(OnCellKey(f, "ArrowDown", rows, cols), "ArrowUp", rows, cols) == f
  {
  }

  /** Inside the grid and away from the edge it points at, each arrow moves one cell its way. */
  lemma ArrowsMoveOneCell(f: Focus, rows: nat, cols: nat)
    requires 0 <= f.r < rows && 0 <= f.c < cols
    ensures f.c + 1 < cols ==> OnCellKey(f, "ArrowRight", rows, cols) == Focus(f.r, f.c + 1)
    ensures f.c > 0 ==> OnCellKey(f, "ArrowLeft", rows, cols) == Focus(f.r, f.c - 1)
    ensures f.r + 1 < rows ==> OnCellKey(f, "ArrowDown", rows, cols) == Focus(f.r + 1, f.c)
    ensures f.r > 0 ==> OnCellKey(f, "ArrowUp", rows, cols) == Focus(f.r - 1, f.c)
  {
  }

  /** Once inside the grid, every key press keeps the focus inside it. */
  lemma KeyKeepsInside(f: Focus, key: string, rows: nat, cols: nat)
    requires 0 <= f.r < rows && 0 <= f.c < cols
    ensures var g := OnCellKey(f, key, rows, cols); 0 <= g.r < rows && 0 <= g.c < cols
  {
  }
}
