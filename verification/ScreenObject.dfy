// The emulator's screen as the program keeps it: a grid, a cursor and the rest, edited in place
// (vt/screen.cpp). Every method does exactly what its order means.

module ScreenObject {
  import opened Bytes
  import opened Cells
  import opened Width
  import opened ScreenRow
  import opened Scrollback
  import opened Screen
  import opened ScreenOrders

  const TAB_STOP := 8

  class TextScreen {
    const ring: Ring?
    var cols: nat
    var rows: nat
    var grid: Grid
    var tabs: seq<bool>
    var cx: nat
    var cy: nat
    var wrapPending: bool
    var top: nat
    var bottom: nat
    var autowrap: bool
    var charset: Charset
    var pen: Style
    var saved: Saved
    var alt: bool
    var parked: Grid
    var parkedCursor: Saved
    var parkedDecsc: Saved

    ghost predicate HasHistory()
      reads ring
    {
      ring != null ==> ring.Valid()
    }

    ghost function Model(): Scr
      reads this, ring
      requires HasHistory()
    {
      Scr(cols, rows, grid, tabs, cx, cy, wrapPending, top, bottom, autowrap, charset, pen,
          saved, alt, parked, parkedCursor, parkedDecsc, if ring == null then None else Some(ring.Model()))
    }

    ghost predicate Ok()
      reads this, ring
    {
      HasHistory() && Valid(Model())
    }

    /** A screen at power-on, with or without a history. */
    constructor (c: int, r: int, ring: Ring?)
      requires ring != null ==> ring.Valid()
      ensures this.ring == ring && Ok()
      ensures Model() == New(c, r).(history := if ring == null then None else Some(ring.Model()))
    {
      this.ring := ring;
      cols, rows := Max(1, c), Max(1, r);
      grid := BlankGrid(Max(1, c), Max(1, r), EMPTY);
      tabs := [];
      cx, cy, wrapPending, top, bottom := 0, 0, false, 0, Max(1, r) - 1;
      autowrap, charset, pen := true, Ascii, PLAIN;
      saved, alt, parked, parkedCursor, parkedDecsc := FRESH, false, [], FRESH, FRESH;
      new;
      ResetTabs();
    }

    /** A stop every eight columns, none on the first. */
    method ResetTabs()
      modifies `tabs
      ensures tabs == DefaultTabs(cols)
    {
      tabs := seq(cols, _ => false);
      var x := TAB_STOP;
      while x < cols
        invariant |tabs| == cols && x % TAB_STOP == 0 && x > 0
        invariant forall i :: 0 <= i < cols ==> tabs[i] == (0 < i < x && i % TAB_STOP == 0)
      {
        tabs := tabs[x := true];
        x := x + TAB_STOP;
      }
    }

    function Blank(): SCell
      reads this
    {
      Erased(pen)
    }

    method SetCell(x: nat, y: nat, c: SCell)
      requires y < |grid| && x < |grid[y]|
      modifies `grid
      ensures grid == old(grid)[y := old(grid)[y][x := c]]
    {
      grid := grid[y := grid[y][x := c]];
    }

    // ---- One line.

    method ClearWide(x: nat, y: nat)
      requires y < |grid| && x < |grid[y]| == cols
      modifies `grid
      ensures grid == old(grid)[y := ClearWideAt(old(grid)[y], x, Blank())]
    {
      var c := grid[y][x];
      if c.width == 2 && x + 1 < cols {
        SetCell(x + 1, y, Blank());
      } else if c.width == 0 && x > 0 {
        SetCell(x - 1, y, Blank());
      }
    }

    method BreakWide(x: nat, y: nat)
      requires y < |grid| && |grid[y]| == cols
      modifies `grid
      ensures grid == old(grid)[y := BreakWideAt(old(grid)[y], x, Blank())]
    {
      if x >= cols {
        return;
      }
      var c := grid[y][x];
      if c.width == 2 && x + 1 < cols {
        SetCell(x, y, Blank());
        SetCell(x + 1, y, Blank());
      } else if c.width == 0 && x > 0 {
        SetCell(x, y, Blank());
        SetCell(x - 1, y, Blank());
      }
    }

    method EraseSpanOn(from: int, to: int, y: int)
      requires 0 <= y < |grid| && |grid| == rows && |grid[y]| == cols
      modifies `grid
      ensures grid == old(grid)[y := EraseSpan(old(grid)[y], from, to, Blank())]
    {
      hide ClearWideAt, Fill;
      var x0, x1 := Max(0, from), Min(cols - 1, to);
      if x0 > x1 {
        return;
      }
      ClearWide(x0, y);
      ClearWide(x1, y);
      var line := FillLine(grid[y], x0, x1, Blank());
      grid := grid[y := line];
    }

    static method FillLine(line: Row, x0: nat, x1: nat, e: SCell) returns (r: Row)
      requires x0 <= x1 < |line|
      ensures r == Fill(line, x0, x1 + 1, e)
    {
      r := line;
      assert r == Fill(line, x0, x0, e);
      var x := x0;
      while x <= x1
        invariant x0 <= x <= x1 + 1 && r == Fill(line, x0, x, e)
      {
        FillOneMore(line, x0, x, e);
        r := r[x := e];
        x := x + 1;
      }
    }

    method PutGlyphHere(cp: nat, w: nat)
      requires cy < |grid| && |grid[cy]| == cols && cx < cols
      modifies `grid
      ensures grid == old(grid)[cy := PutGlyph(old(grid)[cy], cx, cp, w, pen)]
    {
      hide ClearWideAt;
      ClearWide(cx, cy);
      if w == 2 && cx + 1 < cols {
        ClearWide(cx + 1, cy);
      }
      SetCell(cx, cy, SCell(cp, w, pen));
      if w == 2 && cx + 1 < cols {
        SetCell(cx + 1, cy, SCell(32, 0, pen));
      }
    }

    /** The cells from column at on move n columns right, from the right end, so that none is
        overwritten before it was copied; the first ones keep their old contents. */
    static method ShiftLineRight(line: Row, at: nat, n: nat) returns (r: Row)
      requires at + n <= |line|
      ensures r == ShiftRight(line, at, n)
    {
      ghost var goal := ShiftRight(line, at, n);
      r := line;
      var x := |line| - 1;
      while x >= at + n
        invariant at + n - 1 <= x < |line| == |r|
        invariant forall i :: 0 <= i <= x ==> r[i] == line[i]
        invariant forall i :: x < i < |line| ==> r[i] == goal[i]
      {
        r := r[x := r[x - n]];
        x := x - 1;
      }
    }

    /** The cells right of at + n move n columns left, from the left end; the last ones keep their
        old contents. */
    static method ShiftLineLeft(line: Row, at: nat, n: nat) returns (r: Row)
      requires at + n <= |line|
      ensures r == ShiftLeft(line, at, n)
    {
      r := line;
      var x := at;
      while x + n < |line|
        invariant at <= x <= Max(at, |line| - n) && |r| == |line|
        invariant forall i :: 0 <= i < at || x <= i < |line| ==> r[i] == line[i]
        invariant forall i :: at <= i < x ==> r[i] == line[i + n]
      {
        r := r[x := r[x + n]];
        x := x + 1;
      }
    }

    // ---- Orders on the cursor's line.

    method EraseOnThisLine(x0: int, x1: int)
      requires Ok()
      modifies `grid
      ensures Ok() && Model() == EraseInLine(old(Model()), x0, x1)
    {
      EraseInLineKeepsBounds(Model(), x0, x1);
      hide EraseSpan;
      EraseSpanOn(x0, x1, cy);
    }

    method EraseOnLine(mode: int)
      requires Ok()
      modifies `grid
      ensures Ok() && Model() == EraseLine(old(Model()), mode)
    {
      hide EraseInLine, Valid;
      if mode == 0 {
        EraseOnThisLine(cx, cols - 1);
      } else if mode == 1 {
        EraseOnThisLine(0, cx);
      } else if mode == 2 {
        EraseOnThisLine(0, cols - 1);
      }
    }

    method EraseSome(n: int)
      requires Ok()
      modifies `grid
      ensures Ok() && Model() == EraseChars(old(Model()), n)
    {
      hide EraseInLine, Valid;
      EraseOnThisLine(cx, cx + n - 1);
    }

    method InsertOnLine(n: int)
      requires cy < |grid| == rows && |grid[cy]| == cols && cx < cols
      modifies `grid
      ensures grid == old(grid)[cy := InsertChars(old(grid)[cy], cx, n, Blank())]
    {
      hide EraseSpan, BreakWideAt, ShiftRight;
      if n <= 0 || cx >= cols {
        return;
      }
      var k := Min(n, cols - cx);
      BreakWide(cx, cy);
      var line := ShiftLineRight(grid[cy], cx, k);
      grid := grid[cy := line];
      EraseSpanOn(cx, cx + k - 1, cy);
      if grid[cy][cols - 1].width == 2 {
        SetCell(cols - 1, cy, Blank());
      }
    }

    method InsertSome(n: int)
      requires Ok()
      modifies `grid
      ensures Ok() && Model() == Insert(old(Model()), n)
    {
      EditKeepsBounds(Model(), n);
      hide InsertChars;
      InsertOnLine(n);
    }

    method DeleteOnLine(n: int)
      requires cy < |grid| == rows && |grid[cy]| == cols && cx < cols
      modifies `grid
      ensures grid == old(grid)[cy := DeleteChars(old(grid)[cy], cx, n, Blank())]
    {
      hide EraseSpan, BreakWideAt, ShiftLeft;
      if n <= 0 || cx >= cols {
        return;
      }
      var k := Min(n, cols - cx);
      BreakWide(cx, cy);
      BreakWide(cx + k, cy);
      var line := ShiftLineLeft(grid[cy], cx, k);
      grid := grid[cy := line];
      EraseSpanOn(cols - k, cols - 1, cy);
    }

    method DeleteSome(n: int)
      requires Ok()
      modifies `grid
      ensures Ok() && Model() == Delete(old(Model()), n)
    {
      EditKeepsBounds(Model(), n);
      hide DeleteChars;
      DeleteOnLine(n);
    }

    // ---- Whole lines.

    /** Blanks the lines from `from` to `to`, the last one excluded. */
    method BlankLines(from: nat, to: nat)
      requires from <= to <= |grid|
      modifies `grid
      ensures grid == old(grid)[..from] + BlankGrid(cols, to - from, Blank()) + old(grid)[to..]
    {
      ghost var was := grid;
      var y := from;
      while y < to
        invariant from <= y <= to && |grid| == |was|
        invariant forall i :: 0 <= i < |grid| ==> grid[i] == if from <= i < y then BlankRow(cols, Blank()) else was[i]
      {
        grid := grid[y := BlankRow(cols, Blank())];
        y := y + 1;
      }
      assert grid == was[..from] + BlankGrid(cols, to - from, Blank()) + was[to..];
    }

    /** Erases whole lines, one span after the other. */
    method EraseLines(from: nat, to: nat)
      requires Ok() && from <= to <= rows
      modifies `grid
      ensures Ok() && Model() == EraseRows(old(Model()), from, to)
    {
      EraseRowsKeepsBounds(Model(), from, to);
      hide EraseSpan;
      ghost var was := grid;
      var y := from;
      while y < to
        invariant from <= y <= to && |grid| == |was| == rows
        invariant forall i :: 0 <= i < rows ==> grid[i] == if from <= i < y then BlankRow(cols, Blank()) else was[i]
      {
        EraseWholeLine(grid[y], Blank());
        EraseSpanOn(0, cols - 1, y);
        y := y + 1;
      }
      assert grid == was[..from] + BlankGrid(cols, to - from, Blank()) + was[to..];
    }

    method EraseOnDisplay(mode: int)
      requires Ok()
      modifies `grid
      ensures Ok() && Model() == EraseDisplay(old(Model()), mode)
    {
      hide EraseInLine, EraseRows, Valid;
      CursorIsIn(Model());
      if mode == 0 {
        ErasingCommutes(Model(), cy + 1, rows, cx, cols - 1);
        EraseOnThisLine(cx, cols - 1);
        EraseLines(cy + 1, rows);
      } else if mode == 1 {
        EraseLines(0, cy);
        EraseOnThisLine(0, cx);
      } else if mode == 2 {
        EraseLines(0, rows);
      }
    }

    /** Rotates the lines of a slice up and blanks what came round. */
    method RotateUp(from: nat, to: nat, n: nat)
      requires from <= to < |grid| && 0 < n <= to - from + 1
      modifies `grid
      ensures grid == old(grid)[..from] + old(grid)[from + n..to + 1] + BlankGrid(cols, n, Blank()) + old(grid)[to + 1..]
    {
      if n >= to - from + 1 {
        assert grid[to + 1..to + 1] == [];
        BlankLines(from, to + 1);
        return;
      }
      RotatedUp(grid, from, to, n, BlankGrid(cols, n, Blank()));
      hide BlankGrid;
      grid := grid[..from] + grid[from + n..to + 1] + grid[from..from + n] + grid[to + 1..];
      BlankLines(to + 1 - n, to + 1);
    }

    method RotateDown(from: nat, to: nat, n: nat)
      requires from <= to < |grid| && 0 < n <= to - from + 1
      modifies `grid
      ensures grid == old(grid)[..from] + BlankGrid(cols, n, Blank()) + old(grid)[from..to + 1 - n] + old(grid)[to + 1..]
    {
      if n >= to - from + 1 {
        assert grid[from..from] == [];
        BlankLines(from, to + 1);
        return;
      }
      RotatedDown(grid, from, to, n, BlankGrid(cols, n, Blank()));
      hide BlankGrid;
      grid := grid[..from] + grid[to + 1 - n..to + 1] + grid[from..to + 1 - n] + grid[to + 1..];
      BlankLines(from, from + n);
    }

    method ScrollLinesUp(from: int, to: int, n: int)
      requires Ok()
      modifies `grid
      ensures Ok() && Model() == ScrollSliceUp(old(Model()), from, to, n)
    {
      SliceUpKeepsBounds(Model(), from, to, n);
      hide BlankGrid;
      if n <= 0 || from < 0 || to >= rows || from > to {
        return;
      }
      RotateUp(from, to, Min(n, to - from + 1));
    }

    method ScrollLinesDown(from: int, to: int, n: int)
      requires Ok()
      modifies `grid
      ensures Ok() && Model() == ScrollSliceDown(old(Model()), from, to, n)
    {
      SliceDownKeepsBounds(Model(), from, to, n);
      hide BlankGrid;
      if n <= 0 || from < 0 || to >= rows || from > to {
        return;
      }
      RotateDown(from, to, Min(n, to - from + 1));
    }

    /** The one path that feeds the history: a natural scroll of the whole main page. */
    method ScrollPageUp()
      requires Ok()
      modifies `grid, ring
      ensures Ok() && Model() == ScrollUp(old(Model()))
    {
      ScrollUpKeepsBounds(Model());
      hide ScrollSliceUp, Push;
      if ring != null && !alt && top == 0 && bottom == rows - 1 {
        ring.PushRow(grid[top]);
        PushedIsOk(old(Model()), grid[top]);
      }
      ScrollLinesUp(top, bottom, 1);
    }

    method InsertSomeLines(n: int)
      requires Ok()
      modifies `grid
      ensures Ok() && Model() == InsertLines(old(Model()), n)
    {
      hide ScrollSliceDown;
      if n <= 0 || cy < top || cy > bottom {
        return;
      }
      ScrollLinesDown(cy, bottom, n);
    }

    method DeleteSomeLines(n: int)
      requires Ok()
      modifies `grid
      ensures Ok() && Model() == DeleteLines(old(Model()), n)
    {
      hide ScrollSliceUp;
      if n <= 0 || cy < top || cy > bottom {
        return;
      }
      ScrollLinesUp(cy, bottom, n);
    }

    // ---- The cursor.

    method FeedLine()
      requires Ok()
      modifies `wrapPending, `cy, `grid, ring
      ensures Ok() && Model() == LineFeed(old(Model()))
    {
      LineFeedKeepsBounds(Model());
      Unpending(Model());
      hide ScrollUp, Valid;
      CursorIsIn(Model());
      wrapPending := false;
      if cy == bottom {
        ScrollPageUp();
      } else if cy + 1 < rows {
        cy := cy + 1;
      }
    }

    method ReturnCarriage()
      requires Ok()
      modifies `wrapPending, `cx
      ensures Ok() && Model() == CarriageReturn(old(Model()))
    {
      wrapPending := false;
      cx := 0;
    }

    method StepBack()
      requires Ok()
      modifies `wrapPending, `cx
      ensures Ok() && Model() == Backspace(old(Model()))
    {
      if wrapPending {
        wrapPending := false;
        return;
      }
      if cx > 0 {
        cx := cx - 1;
      }
    }

    method ToNextTab()
      requires Ok()
      modifies `wrapPending, `cx
      ensures Ok() && Model() == Tab(old(Model()))
    {
      CursorIsIn(Model());
      hide Valid;
      var x := cx + 1;
      while x < cols
        invariant x <= cols && NextTab(Model(), x) == NextTab(Model(), cx + 1)
      {
        if tabs[x] {
          break;
        }
        x := x + 1;
      }
      MovedIsOk(Model(), if x < cols then x else cols - 1, cy);
      wrapPending := false;
      cx := if x < cols then x else cols - 1;
    }

    method IndexReverse()
      requires Ok()
      modifies `wrapPending, `cy, `grid
      ensures Ok() && Model() == ReverseIndex(old(Model()))
    {
      CursorIsIn(Model());
      MovedIsOk(Model(), cx, cy);
      MovedIsOk(Model(), cx, Max(cy - 1, 0));
      hide ScrollSliceDown, Valid;
      wrapPending := false;
      if cy == top {
        ScrollLinesDown(top, bottom, 1);
      } else if cy > 0 {
        cy := cy - 1;
      }
    }

    method ToNextLine()
      requires Ok()
      modifies `wrapPending, `cx, `cy, `grid, ring
      ensures Ok() && Model() == NextLine(old(Model()))
    {
      hide LineFeed, Valid;
      ReturnCarriage();
      FeedLine();
    }

    method GoTo(x: int, y: int)
      requires Ok()
      modifies `wrapPending, `cx, `cy
      ensures Ok() && Model() == MoveTo(old(Model()), x, y)
    {
      wrapPending := false;
      cx := Clamp(x, 0, cols - 1);
      cy := Clamp(y, 0, rows - 1);
    }

    /** With a wrap pending the cursor is one cell past the last column: the first step left only
        brings it back. */
    method GoLeft(n: int)
      requires Ok()
      modifies `wrapPending, `cx, `cy
      ensures Ok() && Model() == MoveLeft(old(Model()), n)
    {
      hide Valid;
      CursorIsIn(Model());
      var steps := Max(1, n);
      if wrapPending {
        steps := steps - 1;
      }
      GoTo(cx - steps, cy);
    }

    method SetTabHere(on: bool)
      requires Ok()
      modifies `tabs
      ensures Ok() && Model() == old(Model()).(tabs := old(tabs)[cx := on])
    {
      if 0 <= cx < cols {
        tabs := tabs[cx := on];
      }
    }

    method ClearTabs()
      requires Ok()
      modifies `tabs
      ensures Ok() && Model() == old(Model()).(tabs := seq(cols, _ => false))
    {
      tabs := seq(cols, _ => false);
    }

    method SetPen(style: Style)
      requires Ok()
      modifies `pen
      ensures Ok() && Model() == old(Model()).(pen := style)
    {
      pen := style;
    }

    method SetCharset(set0: Charset)
      requires Ok()
      modifies `charset
      ensures Ok() && Model() == old(Model()).(charset := set0)
    {
      charset := set0;
    }

    method SetAutowrap(on: bool)
      requires Ok()
      modifies `autowrap
      ensures Ok() && Model() == old(Model()).(autowrap := on)
    {
      autowrap := on;
    }

    // ---- Text.

    method PutHere(cp: nat, w: nat)
      requires Ok()
      modifies `grid, `cx, `wrapPending
      ensures Ok() && Model() == Put(old(Model()), cp, w)
    {
      PutKeepsBounds(Model(), cp, w);
      hide PutGlyph;
      PutGlyphHere(cp, w);
      if cx + w >= cols {
        cx := cols - 1;
        wrapPending := true;
      } else {
        cx := cx + w;
      }
    }

    method TakePendingWrap()
      requires Ok()
      modifies `grid, `cx, `cy, `wrapPending, ring
      ensures Ok() && Model() == Unwrap(old(Model()))
    {
      HomeKeepsBounds(Model());
      hide LineFeed, Valid;
      if wrapPending && autowrap {
        wrapPending := false;
        cx := 0;
        FeedLine();
      }
    }

    method PrintGlyph(ambiguous: bool, code: nat)
      requires Ok()
      modifies `grid, `cx, `cy, `wrapPending, ring
      ensures Ok() && Model() == Screen.Print(old(Model()), ambiguous, code)
    {
      hide LineFeed, Unwrap, Put, Valid, CharWidth;
      var cp := Translate(code, charset);
      var w := CharWidth(ambiguous, cp);
      if w == 0 {
        return;
      }
      TakePendingWrap();
      if w == 2 && cx + 1 >= cols {
        if !autowrap {
          return;
        }
        HomeKeepsBounds(Model());
        cx := 0;
        FeedLine();
      }
      PutHere(cp, w);
    }

    // ---- Region, saved cursor, alternate screen, size.

    method SetScrollRegion(from: int, to: int)
      requires Ok()
      modifies `top, `bottom, `cx, `cy, `wrapPending
      ensures Ok() && Model() == SetRegion(old(Model()), from, to)
    {
      var t, b := Max(0, from), Min(rows - 1, to);
      if b - t < 1 {
        return;
      }
      top, bottom := t, b;
      cx, cy, wrapPending := 0, 0, false;
    }

    method ResetScrollRegion()
      requires Ok()
      modifies `top, `bottom, `cx, `cy, `wrapPending
      ensures Ok() && Model() == ResetRegion(old(Model()))
    {
      top, bottom := 0, rows - 1;
      cx, cy, wrapPending := 0, 0, false;
    }

    method SaveHere()
      requires Ok()
      modifies `saved
      ensures Ok() && Model() == SaveCursor(old(Model()))
    {
      saved := Saved(cx, cy, wrapPending, pen, charset);
    }

    method RestoreHere()
      requires Ok()
      modifies `cx, `cy, `wrapPending, `charset, `pen
      ensures Ok() && Model() == RestoreCursor(old(Model()))
    {
      CursorOrderKeepsBounds(Model(), false, ORestore);
      assert 1 <= cols && 1 <= rows;
      hide Valid;
      cx := Clamp(saved.x, 0, cols - 1);
      cy := Clamp(saved.y, 0, rows - 1);
      wrapPending := saved.wrap && cx == cols - 1;
      charset := saved.charset;
      pen := saved.style;
    }

    method EnterAlternate()
      requires Ok()
      modifies `grid, `parked, `parkedCursor, `parkedDecsc, `saved, `alt
      ensures Ok() && Model() == EnterAlt(old(Model()))
    {
      PageOrderKeepsBounds(Model(), false, OEnterAlt);
      hide Valid, BlankGrid;
      if alt {
        return;
      }
      parked := grid;
      grid := BlankGrid(cols, rows, Blank());
      parkedCursor := Saved(cx, cy, wrapPending, pen, charset);
      parkedDecsc := saved;
      saved := FRESH;
      alt := true;
    }

    /** The cursor as it was put aside. */
    method TakeUp(c: Saved)
      requires HasHistory() && c.x >= 0 && c.y >= 0
      modifies `cx, `cy, `wrapPending, `pen, `charset
      ensures Model() == old(Model()).(cx := c.x, cy := c.y, wrap := c.wrap, pen := c.style, charset := c.charset)
    {
      cx, cy, wrapPending := c.x, c.y, c.wrap;
      pen, charset := c.style, c.charset;
    }

    method LeaveAlternate()
      requires Ok()
      modifies `grid, `parked, `cx, `cy, `wrapPending, `pen, `charset, `saved, `alt
      ensures Ok() && Model() == LeaveAlt(old(Model()))
    {
      PageOrderKeepsBounds(Model(), false, OLeaveAlt);
      assert alt ==> InGrid(parkedCursor, cols, rows);
      hide Valid;
      if !alt {
        return;
      }
      grid, parked := parked, grid;
      TakeUp(parkedCursor);
      saved, alt := parkedDecsc, false;
    }

    /** One line copied into a page of another width. */
    static method ReshapeLine(line: Row, width: nat, e: SCell) returns (r: Row)
      requires 1 <= width && line != []
      ensures r == ReshapeRow(line, width, e)
    {
      r := BlankRow(width, e);
      var keep := Min(width, |line|);
      for x := 0 to keep
        invariant r == line[..x] + BlankRow(width - x, e)
      {
        r := r[x := line[x]];
      }
      if r[keep - 1].width == 2 {
        r := r[keep - 1 := e];
      }
    }

    method ReshapePage(g: Grid, width: nat, height: nat) returns (r: Grid)
      requires 1 <= width && forall y :: 0 <= y < |g| ==> 1 <= |g[y]|
      ensures r == Reshape(g, width, height, Blank())
    {
      hide ReshapeRow;
      r := [];
      for y := 0 to height
        invariant |r| == y
        invariant forall i :: 0 <= i < y ==>
          r[i] == if i < |g| then ReshapeRow(g[i], width, Blank()) else BlankRow(width, Blank())
      {
        if y < |g| {
          var line := ReshapeLine(g[y], width, Blank());
          r := r + [line];
        } else {
          r := r + [BlankRow(width, Blank())];
        }
      }
      assert r == Reshape(g, width, height, Blank());
    }

    /** The alternate screen is thrown away; the page that waits behind it is recut instead. */
    method ReshapePages(width: nat, height: nat)
      requires Ok() && 1 <= width
      modifies `grid, `parked, `cols, `rows
      ensures alt || forall y :: 0 <= y < |old(grid)| ==> 1 <= |old(grid)[y]|
      ensures alt ==> forall y :: 0 <= y < |old(parked)| ==> 1 <= |old(parked)[y]|
      ensures Model() == old(Model()).(
        cols := width, rows := height,
        grid := if alt then BlankGrid(width, height, Blank()) else Reshape(old(grid), width, height, Blank()),
        parked := if alt then Reshape(old(parked), width, height, Blank()) else old(parked))
    {
      PagesHaveColumns(Model());
      hide Reshape, Valid, BlankGrid;
      if alt {
        parked := ReshapePage(parked, width, height);
        grid := BlankGrid(width, height, Blank());
      } else {
        grid := ReshapePage(grid, width, height);
      }
      cols, rows := width, height;
    }

    /** The cursor follows the new size; a wrap that was pending meant the old one. */
    method RefitCursor()
      requires HasHistory() && 1 <= cols && 1 <= rows
      modifies `cx, `cy, `wrapPending
      ensures Model() == old(Model()).(
        cx := Clamp(old(cx), 0, cols - 1), cy := Clamp(old(cy), 0, rows - 1), wrap := false)
    {
      cx := Clamp(cx, 0, cols - 1);
      cy := Clamp(cy, 0, rows - 1);
      wrapPending := false;
    }

    /** The parked cursor is bounded, the region is the whole page again. */
    method RefitRegion()
      requires HasHistory() && 1 <= cols && 1 <= rows
      modifies `parkedCursor, `top, `bottom
      ensures Model() == old(Model()).(
        parkedCursor := Bounded(old(parkedCursor), cols, rows), top := 0, bottom := rows - 1)
    {
      parkedCursor := parkedCursor.(x := Clamp(parkedCursor.x, 0, cols - 1), y := Clamp(parkedCursor.y, 0, rows - 1));
      top, bottom := 0, rows - 1;
    }

    method ResizeTo(c: int, r: int)
      requires Ok()
      modifies this
      ensures Ok() && Model() == Resize(old(Model()), c, r)
    {
      ResizeKeepsBounds(Model(), c, r);
      hide Reshape, Valid, DefaultTabs, BlankGrid;
      var width, height := Max(1, c), Max(1, r);
      if width == cols && height == rows {
        return;
      }
      var widthChanged := width != cols;
      ReshapePages(width, height);
      RefitCursor();
      RefitRegion();
      if widthChanged {
        ResetTabs();
      }
    }
  }

  lemma Unpending(s: Scr)
    requires Valid(s)
    ensures Valid(s.(wrap := false)) && (s.cy + 1 < s.rows ==> Valid(s.(wrap := false, cy := s.cy + 1)))
  {
  }

  lemma MovedIsOk(s: Scr, x: nat, y: nat)
    requires Valid(s) && x < s.cols && y < s.rows
    ensures Valid(s.(wrap := false, cx := x, cy := y))
  {
  }

  lemma PagesHaveColumns(s: Scr)
    requires Valid(s)
    ensures forall y :: 0 <= y < |s.grid| ==> 1 <= |s.grid[y]|
    ensures s.alt ==> forall y :: 0 <= y < |s.parked| ==> 1 <= |s.parked[y]|
  {
  }

  lemma CursorIsIn(s: Scr)
    requires Valid(s)
    ensures s.cx < s.cols && s.cy < s.rows && s.top <= s.bottom < s.rows && |s.tabs| == s.cols
  {
  }

  lemma RotatedUp(g: Grid, from: nat, to: nat, n: nat, blank: Grid)
    requires from <= to < |g| && 0 < n < to - from + 1 && |blank| == n
    ensures var r := g[..from] + g[from + n..to + 1] + g[from..from + n] + g[to + 1..];
      r[..to + 1 - n] + blank + r[to + 1..] == g[..from] + g[from + n..to + 1] + blank + g[to + 1..]
  {
    var r := g[..from] + g[from + n..to + 1] + g[from..from + n] + g[to + 1..];
    assert r[..to + 1 - n] == g[..from] + g[from + n..to + 1];
    assert r[to + 1..] == g[to + 1..];
  }

  lemma RotatedDown(g: Grid, from: nat, to: nat, n: nat, blank: Grid)
    requires from <= to < |g| && 0 < n < to - from + 1 && |blank| == n
    ensures var r := g[..from] + g[to + 1 - n..to + 1] + g[from..to + 1 - n] + g[to + 1..];
      r[..from] + blank + r[from + n..] == g[..from] + blank + g[from..to + 1 - n] + g[to + 1..]
  {
    var r := g[..from] + g[to + 1 - n..to + 1] + g[from..to + 1 - n] + g[to + 1..];
    assert r[..from] == g[..from];
    assert r[from + n..] == g[from..to + 1 - n] + g[to + 1..];
  }

  /** Erasing a line from end to end leaves nothing of it. */
  lemma EraseWholeLine(row: Row, e: SCell)
    requires row != []
    ensures EraseSpan(row, 0, |row| - 1, e) == BlankRow(|row|, e)
  {
  }

  /** Lines below or above the cursor's are erased independently of it. */
  lemma ErasingCommutes(s: Scr, from: nat, to: nat, x0: int, x1: int)
    requires Valid(s) && s.cy < from <= to <= s.rows
    ensures Valid(EraseInLine(s, x0, x1)) && Valid(EraseRows(s, from, to))
    ensures EraseRows(EraseInLine(s, x0, x1), from, to) == EraseInLine(EraseRows(s, from, to), x0, x1)
  {
    EraseInLineKeepsBounds(s, x0, x1);
    EraseRowsKeepsBounds(s, from, to);
    hide EraseSpan;
    var a, b := EraseRows(EraseInLine(s, x0, x1), from, to), EraseInLine(EraseRows(s, from, to), x0, x1);
    assert a.grid == b.grid;
  }

  lemma PushedIsOk(s: Scr, row: Row)
    requires Valid(s) && s.history.Some?
    ensures Valid(s.(history := Some(Push(s.history.value, row))))
  {
    PushKeepsSound(s.history.value, row);
    hide Push;
  }

  lemma FillOneMore(row: Row, x0: nat, x: nat, e: SCell)
    requires x0 <= x < |row|
    ensures Fill(row, x0, x + 1, e) == Fill(row, x0, x, e)[x := e]
  {
  }
}
