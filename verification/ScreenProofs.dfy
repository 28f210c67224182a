// Wide glyphs stay whole, the alternate screen is isolated, and history is conserved.

module ScreenProofs {
  import opened Bytes
  import opened Cells
  import opened Width
  import opened ScreenRow
  import opened Scrollback
  import opened Screen
  import opened ScreenOrders

  // ---- Wide glyphs.

  /** On two columns and more, every wide glyph has its two halves; on a single column, where a
      wide glyph is written alone, there is no second half. */
  ghost predicate Whole(row: Row) {
    if |row| == 1 then 1 <= row[0].width <= 2 else Paired(row)
  }

  ghost predicate WholeGrid(g: Grid) {
    forall y :: 0 <= y < |g| ==> Whole(g[y])
  }

  /** Both pages. */
  ghost predicate WholePages(s: Scr) {
    WholeGrid(s.grid) && (s.alt ==> WholeGrid(s.parked))
  }

  /** What a caller of DCH can check beforehand: see DeleteCharsKeepsPairsIff. */
  predicate DeleteIsSafe(s: Scr, n: int)
    requires Valid(s)
  {
    var row := s.grid[s.cy];
    var k := Min(n, s.cols - s.cx);
    n <= 0 || s.cols == 1 ||
    (var r1 := Cut(row, s.cx, k, E(s)); !(r1[s.cols - k].width == 0 && r1[s.cols - 1].width == 0))
  }

  predicate Guarded(s: Scr, o: Order)
    requires Valid(s)
  {
    o.ODelete? ==> DeleteIsSafe(s, o.n)
  }

  lemma BlankIsWhole(cols: nat, e: SCell)
    requires e.width == 1
    ensures Whole(BlankRow(cols, e))
  {
  }

  lemma LineIsWhole(s: Scr, row: Row)
    requires Valid(s) && WholePages(s) && |row| == s.cols && Whole(row)
    ensures WholePages(OnLine(s, row))
  {
  }

  lemma PutIsWhole(s: Scr, cp: nat, w: nat)
    requires Valid(s) && WholePages(s) && 1 <= w <= 2 && (w == 2 && 2 <= s.cols ==> s.cx + 1 < s.cols)
    ensures WholePages(Put(s, cp, w))
  {
    var row := s.grid[s.cy];
    assert Whole(row);
    if s.cols > 1 { PutGlyphKeepsPairs(row, s.cx, cp, w, s.pen); }
    var r := PutGlyph(row, s.cx, cp, w, s.pen);
    assert Whole(r);
    hide PutGlyph, Whole;
    LineIsWhole(s, r);
  }

  lemma SliceUpIsWhole(s: Scr, top: int, bottom: int, n: int)
    requires Valid(s) && WholePages(s)
    ensures WholePages(ScrollSliceUp(s, top, bottom, n))
  {
    BlankIsWhole(s.cols, E(s));
    hide Whole;
  }

  lemma SliceDownIsWhole(s: Scr, top: int, bottom: int, n: int)
    requires Valid(s) && WholePages(s)
    ensures WholePages(ScrollSliceDown(s, top, bottom, n))
  {
    BlankIsWhole(s.cols, E(s));
    hide Whole;
  }

  lemma LineFeedIsWhole(s: Scr)
    requires Valid(s) && WholePages(s)
    ensures WholePages(LineFeed(s))
  {
    hide Whole, ScrollSliceUp, Push;
    var t := s.(wrap := false);
    var u := if Feeds(t) then t.(history := Some(Push(t.history.value, t.grid[t.top]))) else t;
    if Feeds(t) { PushKeepsSound(t.history.value, t.grid[t.top]); }
    SliceUpIsWhole(u, u.top, u.bottom, 1);
  }

  lemma PrintIsWhole(s: Scr, ambiguous: bool, code: nat)
    requires Valid(s) && WholePages(s)
    ensures WholePages(Print(s, ambiguous, code))
  {
    hide Put, LineFeed, CharWidth, WholePages, Valid;
    var cp := Translate(code, s.charset);
    var w := CharWidth(ambiguous, cp);
    WidthAtMostTwo(ambiguous, cp);
    UnwrapKeepsBounds(s);
    var t := Unwrap(s);
    HomeKeepsBounds(s);
    HomeKeepsBounds(t);
    if s.wrap && s.autowrap {
      WholeHome(s);
      LineFeedIsWhole(s.(wrap := false, cx := 0));
    }
    if w == 2 && t.cx + 1 >= t.cols {
      var u := t.(cx := 0);
      WholeHome(t);
      LineFeedKeepsBounds(u);
      LineFeedIsWhole(u);
      if t.autowrap { PutIsWhole(LineFeed(u), cp, w); }
    } else if w > 0 {
      PutIsWhole(t, cp, w);
    }
  }

  lemma WidthAtMostTwo(ambiguous: bool, cp: nat)
    ensures CharWidth(ambiguous, cp) <= 2
  {
  }

  lemma WholeHome(s: Scr)
    requires WholePages(s)
    ensures WholePages(s.(cx := 0)) && WholePages(s.(wrap := false, cx := 0))
  {
  }

  lemma EraseInLineIsWhole(s: Scr, x0: int, x1: int)
    requires Valid(s) && WholePages(s)
    ensures WholePages(EraseInLine(s, x0, x1))
  {
    var row, r := s.grid[s.cy], EraseSpan(s.grid[s.cy], x0, x1, E(s));
    assert Whole(row);
    if s.cols > 1 { EraseSpanKeepsPairs(row, x0, x1, E(s)); }
    assert Whole(r);
    hide EraseSpan, Whole;
    LineIsWhole(s, r);
  }

  lemma EraseRowsIsWhole(s: Scr, from: nat, to: nat)
    requires Valid(s) && WholePages(s) && from <= to <= s.rows
    ensures WholePages(EraseRows(s, from, to))
  {
    BlankIsWhole(s.cols, E(s));
    hide Whole;
  }

  lemma EraseDisplayIsWhole(s: Scr, mode: int)
    requires Valid(s) && WholePages(s)
    ensures WholePages(EraseDisplay(s, mode))
  {
    hide EraseRows, EraseInLine, WholePages;
    if mode == 0 {
      EraseRowsKeepsBounds(s, s.cy + 1, s.rows);
      EraseRowsIsWhole(s, s.cy + 1, s.rows);
      EraseInLineIsWhole(EraseRows(s, s.cy + 1, s.rows), s.cx, s.cols - 1);
    } else if mode == 1 {
      EraseRowsKeepsBounds(s, 0, s.cy);
      EraseRowsIsWhole(s, 0, s.cy);
      EraseInLineIsWhole(EraseRows(s, 0, s.cy), 0, s.cx);
    } else if mode == 2 {
      EraseRowsIsWhole(s, 0, s.rows);
    }
  }

  lemma InsertIsWhole(s: Scr, n: int)
    requires Valid(s) && WholePages(s)
    ensures WholePages(Insert(s, n))
  {
    var row := s.grid[s.cy];
    assert Whole(row) && |row| == s.cols;
    hide InsertChars, Whole, Paired;
    InsertRowIsWhole(row, s.cx, n, E(s));
    InsertKeepsLength(row, s.cx, n, E(s));
    LineIsWhole(s, InsertChars(row, s.cx, n, E(s)));
  }

  lemma InsertRowIsWhole(row: Row, x: nat, n: int, e: SCell)
    requires x < |row| && Whole(row) && e.width == 1
    ensures Whole(InsertChars(row, x, n, e))
  {
    InsertKeepsLength(row, x, n, e);
    if |row| == 1 {
      InsertTrivially(row, x, n, e);
    } else {
      hide InsertChars;
      InsertCharsKeepsPairs(row, x, n, e);
    }
  }

  lemma InsertTrivially(row: Row, x: nat, n: int, e: SCell)
    requires x < |row| == 1 && Whole(row) && e.width == 1
    ensures InsertChars(row, x, n, e) == if n <= 0 then row else [e]
  {
    hide Whole;
  }

  lemma InsertKeepsLength(row: Row, x: nat, n: int, e: SCell)
    requires x < |row|
    ensures |InsertChars(row, x, n, e)| == |row|
  {
  }

  lemma DeleteTrivially(row: Row, x: nat, n: int, e: SCell)
    requires x < |row| && (n <= 0 || |row| == 1) && Whole(row) && e.width == 1
    ensures Whole(DeleteChars(row, x, n, e))
  {
    hide Cut, ShiftLeft, EraseSpan;
    if n > 0 {
      EraseOne(ShiftLeft(Cut(row, 0, 1, e), 0, 1), e);
    }
  }

  lemma EraseOne(row: Row, e: SCell)
    requires |row| == 1
    ensures EraseSpan(row, 0, 0, e) == [e]
  {
  }

  lemma DeleteRowIsWholeIff(s: Scr, n: int)
    requires Valid(s) && Whole(s.grid[s.cy])
    ensures Whole(DeleteChars(s.grid[s.cy], s.cx, n, E(s))) <==> DeleteIsSafe(s, n)
  {
    hide DeleteChars, Cut, PairedAt, Erased;
    var row := s.grid[s.cy];
    assert |row| == s.cols;
    ErasedIsNarrow(s);
    if s.cols == 1 || n <= 0 {
      DeleteTrivially(row, s.cx, n, E(s));
    } else {
      DeleteKeepsLength(row, s.cx, n, E(s));
      DeleteCharsKeepsPairsIff(row, s.cx, n, E(s));
    }
  }

  lemma ErasedIsNarrow(s: Scr)
    ensures E(s).width == 1
  {
  }

  lemma DeleteKeepsLength(row: Row, x: nat, n: int, e: SCell)
    requires x < |row|
    ensures |DeleteChars(row, x, n, e)| == |row|
  {
  }

  /** DCH keeps the pages whole exactly when its guard holds. */
  lemma DeleteIsWholeIff(s: Scr, n: int)
    requires Valid(s) && WholePages(s)
    ensures WholePages(Delete(s, n)) <==> DeleteIsSafe(s, n)
  {
    var r := DeleteChars(s.grid[s.cy], s.cx, n, E(s));
    assert |r| == s.cols;
    DeleteRowIsWholeIff(s, n);
    hide DeleteChars, Whole, DeleteIsSafe;
    assert Delete(s, n).grid[s.cy] == r;
    if DeleteIsSafe(s, n) {
      LineIsWhole(s, r);
    }
  }

  /** A cut line drops the head left without its second half. */
  lemma ReshapeRowIsWhole(row: Row, cols: nat, e: SCell)
    requires |row| >= 1 && cols >= 1 && Whole(row) && e.width == 1
    ensures Whole(ReshapeRow(row, cols, e))
  {
    var r := ReshapeRow(row, cols, e);
    var keep := Min(cols, |row|);
    if cols > 1 {
      forall x | 0 <= x < cols
        ensures PairedAt(r, x)
      {
        if |row| > 1 && x < keep {
          assert PairedAt(row, x);
          assert PairedAt(row, keep - 1);
        }
      }
    } else if |row| > 1 {
      assert PairedAt(row, 0);
    }
  }

  lemma ReshapeIsWhole(g: Grid, cols: nat, rows: nat, e: SCell)
    requires 1 <= cols && (forall y :: 0 <= y < |g| ==> 1 <= |g[y]|) && WholeGrid(g) && e.width == 1
    ensures WholeGrid(Reshape(g, cols, rows, e))
  {
    var r := Reshape(g, cols, rows, e);
    hide ReshapeRow, Whole;
    BlankIsWhole(cols, e);
    forall y | 0 <= y < rows
      ensures Whole(r[y])
    {
      if y < |g| { ReshapeRowIsWhole(g[y], cols, e); }
    }
  }

  lemma ResizeIsWhole(s: Scr, c: int, r: int)
    requires Valid(s) && WholePages(s)
    ensures WholePages(Resize(s, c, r))
  {
    var cols, rows := Max(1, c), Max(1, r);
    hide Reshape, Whole;
    BlankIsWhole(cols, E(s));
    ReshapeIsWhole(s.grid, cols, rows, E(s));
    if s.alt {
      assert forall y :: 0 <= y < |s.parked| ==> |s.parked[y]| == s.cols;
      ReshapeIsWhole(s.parked, cols, rows, E(s));
    }
  }

  lemma EnterIsWhole(s: Scr)
    requires Valid(s) && WholePages(s)
    ensures WholePages(EnterAlt(s))
  {
    BlankIsWhole(s.cols, E(s));
    hide Whole;
  }

  lemma EditOrderIsWhole(s: Scr, ambiguous: bool, o: Order)
    requires Valid(s) && WholePages(s) && EditsLine(o) && Guarded(s, o)
    ensures WholePages(Do(s, ambiguous, o))
  {
    hide EraseDisplay, EraseInLine, Insert, Delete, Whole, DeleteIsSafe;
    match o
    case OEraseDisplay(mode) => EraseDisplayIsWhole(s, mode);
    case OEraseLine(mode) =>
      EraseInLineIsWhole(s, s.cx, s.cols - 1);
      EraseInLineIsWhole(s, 0, s.cx);
      EraseInLineIsWhole(s, 0, s.cols - 1);
    case OEraseChars(n) => EraseInLineIsWhole(s, s.cx, s.cx + n - 1);
    case OInsert(n) => InsertIsWhole(s, n);
    case ODelete(n) => DeleteIsWholeIff(s, n);
  }

  lemma ScrollOrderIsWhole(s: Scr, ambiguous: bool, o: Order)
    requires Valid(s) && WholePages(s) && !MovesCursor(o) && !EditsLine(o)
    ensures WholePages(Do(s, ambiguous, o))
  {
    hide Print, LineFeed, ScrollSliceUp, ScrollSliceDown, Resize, EnterAlt, Whole;
    match o
    case OPrint(cp) => PrintIsWhole(s, ambiguous, cp);
    case OLineFeed => LineFeedIsWhole(s);
    case OReverseIndex => var t := s.(wrap := false); SliceDownIsWhole(t, t.top, t.bottom, 1);
    case ONextLine => HomeKeepsBounds(s); LineFeedIsWhole(CarriageReturn(s));
    case OInsertLines(n) => SliceDownIsWhole(s, s.cy, s.bottom, n);
    case ODeleteLines(n) => SliceUpIsWhole(s, s.cy, s.bottom, n);
    case OEnterAlt => EnterIsWhole(s);
    case OLeaveAlt =>
    case OResize(c, r) => ResizeIsWhole(s, c, r);
  }

  lemma CursorOrderIsWhole(s: Scr, ambiguous: bool, o: Order)
    requires Valid(s) && WholePages(s) && MovesCursor(o)
    ensures WholePages(Do(s, ambiguous, o))
  {
    hide Whole;
  }

  /** Every order but an unguarded DCH keeps every wide glyph whole on both pages. */
  lemma OrderIsWhole(s: Scr, ambiguous: bool, o: Order)
    requires Valid(s) && WholePages(s) && Guarded(s, o)
    ensures WholePages(Do(s, ambiguous, o))
  {
    hide Do, Valid, WholePages;
    if MovesCursor(o) { CursorOrderIsWhole(s, ambiguous, o); }
    else if EditsLine(o) { EditOrderIsWhole(s, ambiguous, o); }
    else { ScrollOrderIsWhole(s, ambiguous, o); }
  }

  /** Every DCH of the run meets its guard when its turn comes. */
  ghost predicate GuardedRun(s: Scr, ambiguous: bool, os: seq<Order>)
    requires Valid(s)
    decreases |os|
  {
    os == [] ||
    (Guarded(s, os[0]) &&
     (OrderKeepsBounds(s, ambiguous, os[0]); GuardedRun(Do(s, ambiguous, os[0]), ambiguous, os[1..])))
  }

  /** Through any guarded run, resizes and page swaps included, no glyph is ever cut in two. */
  lemma {:induction false} RunIsWhole(s: Scr, ambiguous: bool, os: seq<Order>)
    requires Valid(s) && WholePages(s) && GuardedRun(s, ambiguous, os)
    ensures WholePages(Run(s, ambiguous, os))
    decreases |os|
  {
    hide Do, Valid, WholePages;
    if os != [] {
      OrderKeepsBounds(s, ambiguous, os[0]);
      OrderIsWhole(s, ambiguous, os[0]);
      RunIsWhole(Do(s, ambiguous, os[0]), ambiguous, os[1..]);
    }
  }

  // ---- The deferred wrap.

  /** A pending wrap is a cursor on the last column, on the page shown and on the page parked. */
  predicate WrapAtEdge(s: Scr) {
    && (s.wrap ==> s.cx == s.cols - 1)
    && (s.alt && s.parkedCursor.wrap ==> s.parkedCursor.x == s.cols - 1)
  }

  lemma LineFeedClearsWrap(s: Scr)
    requires Valid(s)
    ensures var t := LineFeed(s); !t.wrap && t.alt == s.alt && t.parkedCursor == s.parkedCursor && t.cols == s.cols
    ensures LineFeed(s).autowrap == s.autowrap && LineFeed(s).parked == s.parked
      && LineFeed(s).parkedDecsc == s.parkedDecsc && (s.alt ==> LineFeed(s).history == s.history)
  {
    hide ScrollSliceUp;
    var t := s.(wrap := false);
    var u := if Feeds(t) then t.(history := Some(Push(t.history.value, t.grid[t.top]))) else t;
    if Feeds(t) { PushKeepsSound(t.history.value, t.grid[t.top]); }
    SliceUpGridOnly(u, u.top, u.bottom, 1);
  }

  /** A resize keeps that, except that the cursor parked outside the alternate screen keeps its
      flag: it stays on the last column exactly when the page does not widen. */
  lemma ResizeWrapIff(s: Scr, c: int, r: int)
    requires Valid(s) && WrapAtEdge(s)
    ensures WrapAtEdge(Resize(s, c, r)) <==> !(s.alt && s.parkedCursor.wrap && Max(1, c) > s.cols)
  {
    hide Reshape;
  }

  /** A wrap parked on the last of two columns, and a resize to three. */
  lemma ResizeStrandsAWrap()
    ensures var s := EnterAlt(New(2, 1).(cx := 1, wrap := true));
      Valid(s) && WrapAtEdge(s) && !WrapAtEdge(Resize(s, 3, 1))
  {
    var s := EnterAlt(New(2, 1).(cx := 1, wrap := true));
    assert Valid(s) && s.alt && s.parkedCursor.wrap && s.cols == 2;
    ResizeWrapIff(s, 3, 1);
  }

  lemma PrintWrap(s: Scr, ambiguous: bool, code: nat)
    requires Valid(s) && WrapAtEdge(s)
    ensures WrapAtEdge(Print(s, ambiguous, code))
  {
    hide LineFeed, CharWidth, PutGlyph;
    var cp := Translate(code, s.charset);
    UnwrapKeepsBounds(s);
    var t := Unwrap(s);
    if s.wrap && s.autowrap {
      HomeKeepsBounds(s);
      LineFeedClearsWrap(s.(wrap := false, cx := 0));
      LineFeedKeepsBounds(s.(wrap := false, cx := 0));
    }
    HomeKeepsBounds(t);
    LineFeedClearsWrap(t.(cx := 0));
    LineFeedKeepsBounds(t.(cx := 0));
  }

  lemma OrderKeepsWrap(s: Scr, ambiguous: bool, o: Order)
    requires Valid(s) && WrapAtEdge(s) && !o.OResize?
    ensures WrapAtEdge(Do(s, ambiguous, o))
  {
    hide Print, LineFeed, NextTab;
    match o
    case OPrint(cp) => PrintWrap(s, ambiguous, cp);
    case OLineFeed => LineFeedClearsWrap(s);
    case ONextLine => HomeKeepsBounds(s); LineFeedClearsWrap(CarriageReturn(s));
    case _ =>
      if EditsLine(o) || o.OInsertLines? || o.ODeleteLines? {
        EditKeepsWrap(s, ambiguous, o);
      } else {
        hide EraseDisplay, EraseLine, EraseChars, Insert, Delete, InsertLines, DeleteLines;
      }
  }

  lemma EditKeepsWrap(s: Scr, ambiguous: bool, o: Order)
    requires Valid(s) && WrapAtEdge(s) && (EditsLine(o) || o.OInsertLines? || o.ODeleteLines?)
    ensures WrapAtEdge(Do(s, ambiguous, o))
  {
    hide EraseSpan, InsertChars, DeleteChars, BlankGrid;
  }

  /** Without a resize in between, a pending wrap always means the last column, for the cursor and
      for the one parked outside the alternate screen. */
  lemma {:induction false} RunKeepsWrap(s: Scr, ambiguous: bool, os: seq<Order>)
    requires Valid(s) && WrapAtEdge(s) && forall i :: 0 <= i < |os| ==> !os[i].OResize?
    ensures WrapAtEdge(Run(s, ambiguous, os))
    decreases |os|
  {
    if os != [] {
      OrderKeepsBounds(s, ambiguous, os[0]);
      OrderKeepsWrap(s, ambiguous, os[0]);
      hide Do, Valid, WrapAtEdge;
      RunKeepsWrap(Do(s, ambiguous, os[0]), ambiguous, os[1..]);
    }
  }

  // ---- The alternate screen.

  /** The main page and everything that waits with it, seen from inside the alternate screen. */
  predicate Parks(s: Scr, main: Scr) {
    s.alt && s.parked == main.grid && s.parkedCursor == Here(main) && s.parkedDecsc == main.saved
    && s.history == main.history && s.cols == main.cols && s.rows == main.rows
  }

  predicate StaysInside(o: Order) { !o.OResize? && !o.OLeaveAlt? }

  lemma EditKeepsParked(s: Scr, ambiguous: bool, o: Order, main: Scr)
    requires Valid(s) && Parks(s, main) && (EditsLine(o) || MovesCursor(o) || o.OEnterAlt?)
    ensures Parks(Do(s, ambiguous, o), main)
  {
    hide EraseSpan, InsertChars, DeleteChars, NextTab, BlankGrid;
  }

  lemma PrintKeepsSize(s: Scr, ambiguous: bool, code: nat)
    requires Valid(s)
    ensures Print(s, ambiguous, code).cols == s.cols && Print(s, ambiguous, code).rows == s.rows
    ensures var t := Print(s, ambiguous, code);
      s.alt ==>
        && t.alt && t.parkedCursor == s.parkedCursor && t.parked == s.parked
        && t.parkedDecsc == s.parkedDecsc && t.history == s.history
  {
    hide LineFeed, CharWidth, PutGlyph;
    UnwrapKeepsBounds(s);
    var t := Unwrap(s);
    if s.wrap && s.autowrap {
      HomeKeepsBounds(s);
      LineFeedClearsWrap(s.(wrap := false, cx := 0));
      LineFeedKeepsBounds(s.(wrap := false, cx := 0));
    }
    HomeKeepsBounds(t);
    LineFeedClearsWrap(t.(cx := 0));
    LineFeedKeepsBounds(t.(cx := 0));
  }

  lemma ScrollKeepsParked(s: Scr, ambiguous: bool, o: Order, main: Scr)
    requires Valid(s) && Parks(s, main) && StaysInside(o) && !EditsLine(o) && !MovesCursor(o) && !o.OEnterAlt?
    ensures Parks(Do(s, ambiguous, o), main)
  {
    hide Print, LineFeed, BlankGrid;
    match o
    case OPrint(cp) => PrintKeepsSize(s, ambiguous, cp);
    case OLineFeed => LineFeedClearsWrap(s); LineFeedKeepsBounds(s);
    case ONextLine =>
      HomeKeepsBounds(s);
      LineFeedClearsWrap(CarriageReturn(s));
      LineFeedKeepsBounds(CarriageReturn(s));
    case _ =>
  }

  lemma {:induction false} RunKeepsParked(s: Scr, ambiguous: bool, os: seq<Order>, main: Scr)
    requires Valid(s) && Parks(s, main) && forall i :: 0 <= i < |os| ==> StaysInside(os[i])
    ensures Valid(Run(s, ambiguous, os)) && Parks(Run(s, ambiguous, os), main)
    decreases |os|
  {
    hide Do, Valid, Parks;
    if os != [] {
      OrderKeepsBounds(s, ambiguous, os[0]);
      if EditsLine(os[0]) || MovesCursor(os[0]) || os[0].OEnterAlt? { EditKeepsParked(s, ambiguous, os[0], main); }
      else { ScrollKeepsParked(s, ambiguous, os[0], main); }
      RunKeepsParked(Do(s, ambiguous, os[0]), ambiguous, os[1..], main);
    }
  }

  /** Whatever an application does inside the alternate screen, entering it again included,
      leaving gives back the main page cell for cell with its cursor, pending wrap, pen, charset
      and DECSC slot, and history untouched. The region, tabs and autowrap flag are shared. */
  lemma AlternateScreenIsIsolated(s: Scr, ambiguous: bool, os: seq<Order>)
    requires Valid(s) && !s.alt && forall i :: 0 <= i < |os| ==> StaysInside(os[i])
    ensures Valid(EnterAlt(s)) && Valid(Run(EnterAlt(s), ambiguous, os))
    ensures var t := Run(EnterAlt(s), ambiguous, os);
      LeaveAlt(t) == s.(tabs := t.tabs, top := t.top, bottom := t.bottom, autowrap := t.autowrap,
                        parked := t.grid, parkedCursor := Here(s), parkedDecsc := s.saved)
  {
    hide Do, BlankGrid;
    PageOrderKeepsBounds(s, ambiguous, OEnterAlt);
    EnterIsInBounds(s);
    RunKeepsParked(EnterAlt(s), ambiguous, os, s);
  }

  lemma EnterIsInBounds(s: Scr)
    requires Valid(s)
    ensures Valid(EnterAlt(s))
  {
  }

  // ---- History.

  function TrimAll(g: Grid): seq<Line> {
    seq(|g|, y requires 0 <= y < |g| => Trim(g[y]))
  }

  /** What a reader can scroll through: the history, then the page. */
  function Tape(s: Scr): seq<Line>
    requires s.history.Some?
  {
    s.history.value.lines + TrimAll(s.grid)
  }

  lemma FullPageFeed(s: Scr)
    requires Valid(s) && Feeds(s) && s.cy == s.bottom
    ensures LineFeed(s) == s.(wrap := false, history := Some(Push(s.history.value, s.grid[0])),
                              grid := s.grid[1..] + [BlankRow(s.cols, E(s))])
  {
    hide Trim, Push;
    var u := s.(wrap := false, history := Some(Push(s.history.value, s.grid[0])));
    PushKeepsSound(s.history.value, s.grid[0]);
    assert ScrollSliceUp(u, 0, s.rows - 1, 1).grid == s.grid[1..] + [BlankRow(s.cols, E(s))];
  }

  lemma ScrolledTape(lines: seq<Line>, g: Grid, blank: Row)
    requires g != []
    ensures lines + [Trim(g[0])] + TrimAll(g[1..] + [blank]) == lines + TrimAll(g) + [Trim(blank)]
  {
    hide Trim;
    assert TrimAll(g) == [Trim(g[0])] + TrimAll(g[1..]);
    assert TrimAll(g[1..] + [blank]) == TrimAll(g[1..]) + [Trim(blank)];
  }

  /** A line feed at the bottom of a full page extends the tape below by one blank line and loses
      nothing, until the ring is full: then it loses its oldest line, and only that one. */
  lemma LineFeedExtendsTape(s: Scr)
    requires Valid(s) && Feeds(s) && s.cy == s.bottom && s.history.value.capacity > 0
    ensures LineFeed(s).history.Some?
    ensures Tape(LineFeed(s)) ==
      (if |s.history.value.lines| < s.history.value.capacity then Tape(s) else Tape(s)[1..])
      + [Trim(BlankRow(s.cols, E(s)))]
  {
    hide Trim, LineFeed, BlankRow, TrimAll;
    FullPageFeed(s);
    var h := s.history.value;
    if |h.lines| < h.capacity {
      ScrolledTape(h.lines, s.grid, BlankRow(s.cols, E(s)));
    } else {
      ScrolledTape(h.lines[1..], s.grid, BlankRow(s.cols, E(s)));
      assert Tape(s)[1..] == h.lines[1..] + TrimAll(s.grid);
    }
  }
}
