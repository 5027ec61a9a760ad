/** Keyboard navigation in a tile grid (components/cyberdeck_app/app_widgets.c). */
module Tiles {
  import opened Arith

  datatype Arrow = Left | Right | Up | Down

  /** tile_nav over `count` tiles, `ncols` to a row. */
  function TileNav(sel: nat, k: Arrow, count: nat, ncols: nat): (ns: nat)
    requires count > 0 && ncols > 0
    ensures ns < count
  {
    var moved: int := match k
      case Left => if sel % ncols > 0 then sel - 1 else sel
      case Right => if sel % ncols < ncols - 1 && sel + 1 < count then sel + 1 else sel
      case Up => if sel / ncols > 0 then sel - ncols else sel
      case Down => if sel + ncols < count then sel + ncols else sel;
    if moved < 0 then 0 else if moved >= count then count - 1 else moved
  }

  /** On a selected tile the arrows move by rows and columns. Down goes to the same column
      of the next row exactly when that tile exists, Up to the previous row exactly when
      there is one, Left and Right by one column within the row, Right exactly when that
      tile exists; otherwise the selection stays. */
  lemma MovesByRowAndColumn(sel: nat, k: Arrow, count: nat, ncols: nat)
    requires sel < count && ncols > 0
    ensures var r, c, ns := sel / ncols, sel % ncols, TileNav(sel, k, count, ncols);
            match k
            case Left => if c > 0 then ns / ncols == r && ns % ncols == c - 1 else ns == sel
            case Right =>
              if c + 1 < ncols && r * ncols + c + 1 < count then ns / ncols == r && ns % ncols == c + 1 else ns == sel
            case Up => if r > 0 then ns / ncols == r - 1 && ns % ncols == c else ns == sel
            case Down =>
              if (r + 1) * ncols + c < count then ns / ncols == r + 1 && ns % ncols == c else ns == sel
  {
    var r, c := sel / ncols, sel % ncols;
    DivMod(sel, ncols);
    match k {
      case Left =>
        if c > 0 {
          TileAt(sel - 1, r, c - 1, ncols);
        }
      case Right =>
        if c + 1 < ncols {
          TileAt(sel + 1, r, c + 1, ncols);
        }
      case Up =>
        if r > 0 {
          RowAbove(sel, r, c, ncols);
        }
      case Down =>
        RowBelow(sel, r, c, ncols);
    }
  }

  lemma TileAt(sel: int, r: nat, c: nat, ncols: nat)
    requires sel == r * ncols + c && c < ncols
    ensures sel >= 0 && sel / ncols == r && sel % ncols == c
  {
    DivUnique(sel, ncols, r, c);
  }

  lemma RowAbove(sel: nat, r: nat, c: nat, ncols: nat)
    requires sel == r * ncols + c && c < ncols && r > 0
    ensures sel >= ncols && (sel - ncols) / ncols == r - 1 && (sel - ncols) % ncols == c
  {
    assert (r - 1) * ncols == r * ncols - ncols;
    TileAt(sel - ncols, r - 1, c, ncols);
  }

  lemma RowBelow(sel: nat, r: nat, c: nat, ncols: nat)
    requires sel == r * ncols + c && c < ncols
    ensures sel + ncols == (r + 1) * ncols + c && (sel + ncols) / ncols == r + 1 && (sel + ncols) % ncols == c
  {
    assert (r + 1) * ncols == r * ncols + ncols;
    TileAt(sel + ncols, r + 1, c, ncols);
  }

  function Opposite(k: Arrow): Arrow {
    match k case Left => Right case Right => Left case Up => Down case Down => Up
  }

  /** A move is undone by the opposite arrow. */
  lemma OppositeUndoes(sel: nat, k: Arrow, count: nat, ncols: nat)
    requires sel < count && ncols > 0 && TileNav(sel, k, count, ncols) != sel
    ensures TileNav(TileNav(sel, k, count, ncols), Opposite(k), count, ncols) == sel
  {
    MovesByRowAndColumn(sel, k, count, ncols);
    DivMod(sel, ncols);
    if k.Up? {
      MulAtLeast(sel / ncols, ncols);
    }
  }
}
