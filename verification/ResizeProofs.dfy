// A resize keeps what both sizes have room for (vt/screen.cpp).

module ResizeProofs {
  import opened Bytes
  import opened ScreenRow
  import opened Screen
  import opened ScreenOrders
  import opened ScreenProofs

  /** What becomes of column x of a line of `from` columns cut or completed to `to`: it stays, unless
      it is a first half in the last column kept; what is new is erased. */
  function KeptCell(row: Row, to: nat, e: SCell, x: nat): SCell
    requires x < to
  {
    if x >= |row| then e
    else if x == Min(to, |row|) - 1 && row[x].width == 2 then e
    else row[x]
  }

  ghost predicate KeepsPage(g: Grid, h: Grid, cols: nat, rows: nat, e: SCell) {
    && Sized(h, cols, rows)
    && forall y, x :: 0 <= y < rows && 0 <= x < cols ==> h[y][x] == if y < |g| then KeptCell(g[y], cols, e, x) else e
  }

  lemma ReshapeKeeps(g: Grid, cols: nat, rows: nat, e: SCell)
    requires 1 <= cols && e.width == 1 && forall y :: 0 <= y < |g| ==> 1 <= |g[y]|
    ensures KeepsPage(g, Reshape(g, cols, rows, e), cols, rows, e)
  {
    hide KeptCell;
    var h := Reshape(g, cols, rows, e);
    forall y, x | 0 <= y < rows && 0 <= x < cols
      ensures h[y][x] == if y < |g| then KeptCell(g[y], cols, e, x) else e
    {
      if y < |g| {
        assert h[y] == ReshapeRow(g[y], cols, e);
        ReshapedCell(g[y], cols, e, x);
      } else {
        assert h[y] == BlankRow(cols, e);
      }
    }
  }

  lemma ReshapedCell(row: Row, cols: nat, e: SCell, x: nat)
    requires 1 <= cols && 1 <= |row| && x < cols && e.width == 1
    ensures ReshapeRow(row, cols, e)[x] == KeptCell(row, cols, e, x)
  {
  }

  /** A resize keeps every cell that both sizes have, of the main page wherever it is, but for a wide
      glyph cut in two; everything new is erased, the alternate page wholly. The cursor stays
      where it was if it can; the region is the page; pen, character set, saved cursor,
      autowrap and history are not concerned, nor are the tab stops unless the width changes. */
  lemma ResizeKeepsContent(s: Scr, c: int, r: int)
    requires Valid(s) && (Max(1, c) != s.cols || Max(1, r) != s.rows)
    ensures var t := Resize(s, c, r); var e := Erased(s.pen);
      && t.cols == Max(1, c) && t.rows == Max(1, r)
      && (if s.alt then KeepsPage(s.parked, t.parked, t.cols, t.rows, e) && KeepsPage([], t.grid, t.cols, t.rows, e)
          else KeepsPage(s.grid, t.grid, t.cols, t.rows, e) && t.parked == s.parked)
      && t.cx == Min(s.cx, t.cols - 1) && t.cy == Min(s.cy, t.rows - 1) && !t.wrap
      && t.parkedCursor.x == Min(s.parkedCursor.x, t.cols - 1) && t.parkedCursor.y == Min(s.parkedCursor.y, t.rows - 1)
      && t.top == 0 && t.bottom == t.rows - 1
      && t.pen == s.pen && t.charset == s.charset && t.saved == s.saved && t.autowrap == s.autowrap
      && t.alt == s.alt && t.history == s.history && t.parkedDecsc == s.parkedDecsc
      && (t.cols == s.cols ==> t.tabs == s.tabs)
      && (t.cols != s.cols ==> forall x :: 0 <= x < t.cols ==> (t.tabs[x] <==> x > 0 && x % 8 == 0))
  {
    var cols, rows, e := Max(1, c), Max(1, r), Erased(s.pen);
    ResizeKeepsBounds(s, c, r);
    hide Reshape;
    if s.alt { ReshapeKeeps(s.parked, cols, rows, e); } else { ReshapeKeeps(s.grid, cols, rows, e); }
  }

  /** The size it has already is no change at all. */
  lemma SameSizeIsNoResize(s: Scr)
    requires Valid(s)
    ensures Resize(s, s.cols, s.rows) == s
  {
  }

  /** The first halves that stand alone at the end of their line. */
  ghost predicate CutAtEdge(g: Grid) {
    exists y :: 0 <= y < |g| && |g[y]| > 0 && g[y][|g[y]| - 1].width == 2
  }

  /** Where wide glyphs are whole and there is room for one, none stands alone at the end. */
  lemma WholeIsNotCut(g: Grid)
    requires WholeGrid(g) && forall y :: 0 <= y < |g| ==> |g[y]| >= 2
    ensures !CutAtEdge(g)
  {
    forall y | 0 <= y < |g| ensures g[y][|g[y]| - 1].width != 2 {
      assert Whole(g[y]) && PairedAt(g[y], |g[y]| - 1);
    }
  }

  lemma BackAgain(g: Grid, h: Grid, k: Grid, cols: nat, rows: nat, c: nat, r: nat, e: SCell)
    requires Sized(g, cols, rows) && 1 <= cols <= c && rows <= r && e.width == 1
    requires KeepsPage(g, h, c, r, e) && KeepsPage(h, k, cols, rows, e)
    ensures k == g <==> !CutAtEdge(g)
  {
    if CutAtEdge(g) {
      var y :| 0 <= y < |g| && |g[y]| > 0 && g[y][|g[y]| - 1].width == 2;
      assert h[y][cols - 1] == e;
      assert k[y][cols - 1] == e;
    } else {
      forall y, x | 0 <= y < rows && 0 <= x < cols ensures k[y][x] == g[y][x] {
        BackCell(g[y], h[y], c, e, x);
      }
      SamePages(g, k, cols, rows);
    }
  }

  lemma BackCell(row: Row, wider: Row, c: nat, e: SCell, x: nat)
    requires x < |row| <= c == |wider| && e.width == 1 && row[|row| - 1].width != 2
    requires forall i :: 0 <= i < c ==> wider[i] == KeptCell(row, c, e, i)
    ensures KeptCell(wider, |row|, e, x) == row[x]
  {
  }

  lemma SamePages(g: Grid, k: Grid, cols: nat, rows: nat)
    requires Sized(g, cols, rows) && Sized(k, cols, rows)
    requires forall y, x :: 0 <= y < rows && 0 <= x < cols ==> k[y][x] == g[y][x]
    ensures k == g
  {
    forall y | 0 <= y < rows ensures k[y] == g[y] {
    }
  }

  /** Grown and then shrunk back, the main page is what it was, exactly if no line of it ends in the
      first half of a wide glyph, as only a page of one column has them. */
  lemma GrowAndBackIff(s: Scr, c: int, r: int)
    requires Valid(s) && s.cols <= c && s.rows <= r && (s.cols < c || s.rows < r)
    ensures Valid(Resize(s, c, r))
    ensures var t := Resize(Resize(s, c, r), s.cols, s.rows); var main := if s.alt then s.parked else s.grid;
      && ((if s.alt then t.parked else t.grid) == main <==> !CutAtEdge(main))
      && t.cx == s.cx && t.cy == s.cy
  {
    ResizeKeepsBounds(s, c, r);
    ResizeKeepsContent(s, c, r);
    var m := Resize(s, c, r);
    ResizeKeepsContent(m, s.cols, s.rows);
    var t, e := Resize(m, s.cols, s.rows), Erased(s.pen);
    hide Resize, KeepsPage, CutAtEdge;
    if s.alt {
      BackAgain(s.parked, m.parked, t.parked, s.cols, s.rows, c, r, e);
    } else {
      BackAgain(s.grid, m.grid, t.grid, s.cols, s.rows, c, r, e);
    }
  }
}
