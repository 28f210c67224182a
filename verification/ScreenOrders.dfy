// Runs of the screen: every order it accepts, and what any sequence of orders keeps.

module ScreenOrders {
  import opened Cells
  import opened Width
  import opened ScreenRow
  import opened Screen

  datatype Order =
    | OPrint(cp: nat) | OLineFeed | OCarriageReturn | OBackspace | OTab | OReverseIndex | ONextLine
    | OMoveTo(x: int, y: int) | OMoveLeft(n: int)
    | OSetTab | OClearTab | OClearAllTabs
    | OEraseDisplay(mode: int) | OEraseLine(mode: int) | OEraseChars(n: int)
    | OInsert(n: int) | ODelete(n: int) | OInsertLines(n: int) | ODeleteLines(n: int)
    | OSetRegion(top: int, bottom: int) | OResetRegion
    | OSave | ORestore | OEnterAlt | OLeaveAlt | OResize(cols: int, rows: int)
    | OSetPen(style: Style) | OSetCharset(charset: Charset) | OSetAutowrap(on: bool)

  function Do(s: Scr, ambiguous: bool, o: Order): Scr
    requires Valid(s)
  {
    match o
    case OPrint(cp) => Print(s, ambiguous, cp)
    case OLineFeed => LineFeed(s)
    case OCarriageReturn => CarriageReturn(s)
    case OBackspace => Backspace(s)
    case OTab => Tab(s)
    case OReverseIndex => ReverseIndex(s)
    case ONextLine => NextLine(s)
    case OMoveTo(x, y) => MoveTo(s, x, y)
    case OMoveLeft(n) => MoveLeft(s, n)
    case OSetTab => s.(tabs := s.tabs[s.cx := true])
    case OClearTab => s.(tabs := s.tabs[s.cx := false])
    case OClearAllTabs => s.(tabs := seq(s.cols, _ => false))
    case OEraseDisplay(mode) => EraseDisplay(s, mode)
    case OEraseLine(mode) => EraseLine(s, mode)
    case OEraseChars(n) => EraseChars(s, n)
    case OInsert(n) => Insert(s, n)
    case ODelete(n) => Delete(s, n)
    case OInsertLines(n) => InsertLines(s, n)
    case ODeleteLines(n) => DeleteLines(s, n)
    case OSetRegion(top, bottom) => SetRegion(s, top, bottom)
    case OResetRegion => ResetRegion(s)
    case OSave => SaveCursor(s)
    case ORestore => RestoreCursor(s)
    case OEnterAlt => EnterAlt(s)
    case OLeaveAlt => LeaveAlt(s)
    case OResize(cols, rows) => Resize(s, cols, rows)
    case OSetPen(style) => s.(pen := style)
    case OSetCharset(charset) => s.(charset := charset)
    case OSetAutowrap(on) => s.(autowrap := on)
  }

  // ---- Bounds.

  lemma OnLineKeepsBounds(s: Scr, row: Row)
    requires Valid(s) && |row| == s.cols
    ensures Valid(OnLine(s, row))
  {
  }

  lemma PutKeepsBounds(s: Scr, cp: nat, w: nat)
    requires Valid(s)
    ensures Valid(Put(s, cp, w))
  {
    hide PutGlyph;
    var row := PutGlyph(s.grid[s.cy], s.cx, cp, w, s.pen);
    assert |row| == s.cols by { PutGlyphLength(s.grid[s.cy], s.cx, cp, w, s.pen); }
    OnLineKeepsBounds(s, row);
  }

  lemma PutGlyphLength(row: Row, x: nat, cp: nat, w: nat, pen: Style)
    requires x < |row|
    ensures |PutGlyph(row, x, cp, w, pen)| == |row|
  {
  }

  lemma PrintKeepsBounds(s: Scr, ambiguous: bool, code: nat)
    requires Valid(s)
    ensures Valid(Print(s, ambiguous, code))
  {
    hide Put, LineFeed, Unwrap, CharWidth, Valid;
    var cp := Translate(code, s.charset);
    var w := CharWidth(ambiguous, cp);
    UnwrapKeepsBounds(s);
    var t := Unwrap(s);
    var u := t.(cx := 0);
    HomeKeepsBounds(t);
    LineFeedKeepsBounds(u);
    PutKeepsBounds(LineFeed(u), cp, w);
    PutKeepsBounds(t, cp, w);
  }

  lemma HomeKeepsBounds(t: Scr)
    requires Valid(t)
    ensures Valid(t.(cx := 0)) && Valid(t.(wrap := false, cx := 0))
  {
  }

  lemma SliceDownKeepsBounds(s: Scr, top: int, bottom: int, n: int)
    requires Valid(s)
    ensures Valid(ScrollSliceDown(s, top, bottom, n))
  {
  }

  lemma SliceUpKeepsBounds(s: Scr, top: int, bottom: int, n: int)
    requires Valid(s)
    ensures Valid(ScrollSliceUp(s, top, bottom, n))
  {
  }

  lemma EraseRowsKeepsBounds(s: Scr, from: nat, to: nat)
    requires Valid(s) && from <= to <= s.rows
    ensures Valid(EraseRows(s, from, to)) && EraseRows(s, from, to).cy == s.cy
  {
  }

  lemma EraseInLineKeepsBounds(s: Scr, x0: int, x1: int)
    requires Valid(s)
    ensures Valid(EraseInLine(s, x0, x1))
  {
    var row := EraseSpan(s.grid[s.cy], x0, x1, E(s));
    assert |row| == s.cols;
    hide EraseSpan;
    OnLineKeepsBounds(s, row);
  }

  lemma EraseDisplayKeepsBounds(s: Scr, mode: int)
    requires Valid(s)
    ensures Valid(EraseDisplay(s, mode))
  {
    hide EraseRows, EraseInLine;
    if mode == 0 {
      EraseRowsKeepsBounds(s, s.cy + 1, s.rows);
      EraseInLineKeepsBounds(EraseRows(s, s.cy + 1, s.rows), s.cx, s.cols - 1);
    } else if mode == 1 {
      EraseRowsKeepsBounds(s, 0, s.cy);
      EraseInLineKeepsBounds(EraseRows(s, 0, s.cy), 0, s.cx);
    } else if mode == 2 {
      EraseRowsKeepsBounds(s, 0, s.rows);
    }
  }

  lemma EditKeepsBounds(s: Scr, n: int)
    requires Valid(s)
    ensures Valid(Insert(s, n)) && Valid(Delete(s, n))
  {
    var r1, r2 := InsertChars(s.grid[s.cy], s.cx, n, E(s)), DeleteChars(s.grid[s.cy], s.cx, n, E(s));
    assert |r1| == s.cols && |r2| == s.cols;
    hide InsertChars, DeleteChars;
    OnLineKeepsBounds(s, r1);
    OnLineKeepsBounds(s, r2);
  }

  lemma ResizeKeepsBounds(s: Scr, c: int, r: int)
    requires Valid(s)
    ensures Valid(Resize(s, c, r))
  {
    hide ReshapeRow;
    if s.alt {
      assert forall y :: 0 <= y < |s.parked| ==> |s.parked[y]| == s.cols;
    }
  }

  predicate MovesCursor(o: Order) {
    o.OCarriageReturn? || o.OBackspace? || o.OTab? || o.OMoveTo? || o.OMoveLeft? || o.ORestore? || o.OSave?
    || o.OSetTab? || o.OClearTab? || o.OClearAllTabs? || o.OSetRegion? || o.OResetRegion?
    || o.OSetPen? || o.OSetCharset? || o.OSetAutowrap?
  }

  predicate EditsLine(o: Order) {
    o.OEraseDisplay? || o.OEraseLine? || o.OEraseChars? || o.OInsert? || o.ODelete?
  }

  lemma CursorOrderKeepsBounds(s: Scr, ambiguous: bool, o: Order)
    requires Valid(s) && MovesCursor(o)
    ensures Valid(Do(s, ambiguous, o))
  {
  }

  lemma PageOrderKeepsBounds(s: Scr, ambiguous: bool, o: Order)
    requires Valid(s) && (o.OEnterAlt? || o.OLeaveAlt? || o.OResize?)
    ensures Valid(Do(s, ambiguous, o))
  {
    hide Resize;
    if o.OResize? { ResizeKeepsBounds(s, o.cols, o.rows); }
  }

  lemma EditOrderKeepsBounds(s: Scr, ambiguous: bool, o: Order)
    requires Valid(s) && EditsLine(o)
    ensures Valid(Do(s, ambiguous, o))
  {
    hide EraseDisplay, EraseInLine, Insert, Delete;
    match o
    case OEraseDisplay(mode) => EraseDisplayKeepsBounds(s, mode);
    case OEraseLine(mode) =>
      EraseInLineKeepsBounds(s, s.cx, s.cols - 1);
      EraseInLineKeepsBounds(s, 0, s.cx);
      EraseInLineKeepsBounds(s, 0, s.cols - 1);
    case OEraseChars(n) => EraseInLineKeepsBounds(s, s.cx, s.cx + n - 1);
    case OInsert(n) => EditKeepsBounds(s, n);
    case ODelete(n) => EditKeepsBounds(s, n);
  }

  lemma ScrollOrderKeepsBounds(s: Scr, ambiguous: bool, o: Order)
    requires Valid(s) && !MovesCursor(o) && !EditsLine(o) && !o.OEnterAlt? && !o.OLeaveAlt? && !o.OResize?
    ensures Valid(Do(s, ambiguous, o))
  {
    hide Print, LineFeed, ScrollSliceUp, ScrollSliceDown;
    match o
    case OPrint(cp) => PrintKeepsBounds(s, ambiguous, cp);
    case OLineFeed => LineFeedKeepsBounds(s);
    case OReverseIndex => var t := s.(wrap := false); SliceDownKeepsBounds(t, t.top, t.bottom, 1);
    case ONextLine => HomeKeepsBounds(s); LineFeedKeepsBounds(CarriageReturn(s));
    case OInsertLines(n) => SliceDownKeepsBounds(s, s.cy, s.bottom, n);
    case ODeleteLines(n) => SliceUpKeepsBounds(s, s.cy, s.bottom, n);
  }

  /** Every order keeps the cursors, the region, both pages and the history in bounds. */
  lemma OrderKeepsBounds(s: Scr, ambiguous: bool, o: Order)
    requires Valid(s)
    ensures Valid(Do(s, ambiguous, o))
  {
    hide Do, Valid;
    if MovesCursor(o) { CursorOrderKeepsBounds(s, ambiguous, o); }
    else if EditsLine(o) { EditOrderKeepsBounds(s, ambiguous, o); }
    else if o.OEnterAlt? || o.OLeaveAlt? || o.OResize? { PageOrderKeepsBounds(s, ambiguous, o); }
    else { ScrollOrderKeepsBounds(s, ambiguous, o); }
  }

  function Run(s: Scr, ambiguous: bool, os: seq<Order>): Scr
    requires Valid(s)
    decreases |os|
  {
    if os == [] then s
    else
      OrderKeepsBounds(s, ambiguous, os[0]);
      Run(Do(s, ambiguous, os[0]), ambiguous, os[1..])
  }

  /** Whatever a guest sends, from power-on on, nothing leaves its bounds. */
  lemma {:induction false} RunKeepsBounds(s: Scr, ambiguous: bool, os: seq<Order>)
    requires Valid(s)
    ensures Valid(Run(s, ambiguous, os))
    decreases |os|
  {
    if os != [] {
      OrderKeepsBounds(s, ambiguous, os[0]);
      RunKeepsBounds(Do(s, ambiguous, os[0]), ambiguous, os[1..]);
    }
  }

  lemma PowerOnIsInBounds(c: int, r: int)
    ensures Valid(New(c, r))
  {
  }
}
