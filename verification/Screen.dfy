// The emulator's screen as a value, and each order as a function on it (vt/screen.cpp,
// vt/charset.cpp). The grid is kept as a sequence of rows.

module Screen {
  import opened Bytes
  import opened Cells
  import opened Width
  import opened ScreenRow
  import opened Scrollback

  datatype Charset = Ascii | Graphics

  /** The DEC line-drawing glyphs, for 0x5F to 0x7E. */
  const GRAPHICS: seq<nat> := [
    0x0020, 0x25C6, 0x2592, 0x2409, 0x240C, 0x240D, 0x240A, 0x00B0, 0x00B1, 0x2424, 0x240B,
    0x2518, 0x2510, 0x250C, 0x2514, 0x253C, 0x23BA, 0x23BB, 0x2500, 0x23BC, 0x23BD, 0x251C,
    0x2524, 0x2534, 0x252C, 0x2502, 0x2264, 0x2265, 0x03C0, 0x2260, 0x00A3, 0x00B7
  ]

  function Translate(cp: nat, set0: Charset): nat {
    if set0.Graphics? && 0x5F <= cp <= 0x7E then GRAPHICS[cp - 0x5F] else cp
  }

  /** What DECSC puts aside. */
  datatype Saved = Saved(x: int, y: int, wrap: bool, style: Style, charset: Charset)

  const FRESH := Saved(0, 0, false, PLAIN, Ascii)

  type Grid = seq<Row>

  datatype Scr = Scr(
    cols: nat, rows: nat, grid: Grid, tabs: seq<bool>,
    cx: nat, cy: nat, wrap: bool, top: nat, bottom: nat, autowrap: bool, charset: Charset, pen: Style,
    saved: Saved, alt: bool, parked: Grid, parkedCursor: Saved, parkedDecsc: Saved,
    history: Option<History>)

  predicate Sized(g: Grid, cols: nat, rows: nat) {
    |g| == rows && forall y :: 0 <= y < |g| ==> |g[y]| == cols
  }

  predicate InGrid(c: Saved, cols: nat, rows: nat) {
    0 <= c.x < cols && 0 <= c.y < rows
  }

  /** The bounds every order keeps. */
  ghost predicate Valid(s: Scr) {
    && 1 <= s.cols && 1 <= s.rows && Sized(s.grid, s.cols, s.rows) && |s.tabs| == s.cols
    && s.cx < s.cols && s.cy < s.rows
    && s.top <= s.bottom < s.rows
    && InGrid(s.parkedCursor, s.cols, s.rows)
    && (s.alt ==> Sized(s.parked, s.cols, s.rows))
    && (s.history.Some? ==> Sound(s.history.value))
  }

  function BlankRow(cols: nat, e: SCell): (r: Row)
    ensures |r| == cols && forall x :: 0 <= x < cols ==> r[x] == e
  {
    seq(cols, _ => e)
  }

  function BlankGrid(cols: nat, rows: nat, e: SCell): (g: Grid)
    ensures Sized(g, cols, rows) && forall y :: 0 <= y < rows ==> g[y] == BlankRow(cols, e)
  {
    seq(rows, _ => BlankRow(cols, e))
  }

  function DefaultTabs(cols: nat): (t: seq<bool>)
    ensures |t| == cols
  {
    seq(cols, x => x > 0 && x % 8 == 0)
  }

  function New(c: int, r: int): Scr {
    var cols, rows := Max(1, c), Max(1, r);
    Scr(cols, rows, BlankGrid(cols, rows, EMPTY), DefaultTabs(cols), 0, 0, false, 0, rows - 1, true, Ascii, PLAIN,
        FRESH, false, [], FRESH, FRESH, None)
  }

  function E(s: Scr): SCell { Erased(s.pen) }

  /** Replaces the cursor's line. */
  function OnLine(s: Scr, r: Row): Scr
    requires Valid(s)
  {
    s.(grid := s.grid[s.cy := r])
  }

  // ---- Scrolling.

  function ScrollSliceUp(s: Scr, top: int, bottom: int, n: int): Scr
    requires Valid(s)
  {
    if n <= 0 || top < 0 || bottom >= s.rows || top > bottom then s
    else
      var k := Min(n, bottom - top + 1);
      s.(grid := s.grid[..top] + s.grid[top + k..bottom + 1] + BlankGrid(s.cols, k, E(s)) + s.grid[bottom + 1..])
  }

  function ScrollSliceDown(s: Scr, top: int, bottom: int, n: int): Scr
    requires Valid(s)
  {
    if n <= 0 || top < 0 || bottom >= s.rows || top > bottom then s
    else
      var k := Min(n, bottom - top + 1);
      s.(grid := s.grid[..top] + BlankGrid(s.cols, k, E(s)) + s.grid[top..bottom + 1 - k] + s.grid[bottom + 1..])
  }

  /** Only a natural scroll of the whole main page feeds the history. */
  predicate Feeds(s: Scr) {
    s.history.Some? && !s.alt && s.top == 0 && s.bottom == s.rows - 1
  }

  function ScrollUp(s: Scr): Scr
    requires Valid(s)
  {
    var t := if Feeds(s) then s.(history := Some(Push(s.history.value, s.grid[s.top]))) else s;
    ScrollSliceUp(t, t.top, t.bottom, 1)
  }

  // ---- Cursor movement.

  function LineFeed(s: Scr): Scr
    requires Valid(s)
  {
    var t := s.(wrap := false);
    if t.cy == t.bottom then ScrollUp(t)
    else if t.cy + 1 < t.rows then t.(cy := t.cy + 1)
    else t
  }

  function CarriageReturn(s: Scr): Scr { s.(wrap := false, cx := 0) }

  function Backspace(s: Scr): Scr {
    if s.wrap then s.(wrap := false) else if s.cx > 0 then s.(cx := s.cx - 1) else s
  }

  function NextTab(s: Scr, x: nat): (r: nat)
    requires Valid(s) && x <= s.cols
    ensures r < s.cols
    decreases s.cols - x
  {
    if x == s.cols then s.cols - 1 else if s.tabs[x] then x else NextTab(s, x + 1)
  }

  function Tab(s: Scr): Scr
    requires Valid(s)
  {
    s.(wrap := false, cx := NextTab(s, s.cx + 1))
  }

  function ReverseIndex(s: Scr): Scr
    requires Valid(s)
  {
    var t := s.(wrap := false);
    if t.cy == t.top then ScrollSliceDown(t, t.top, t.bottom, 1)
    else if t.cy > 0 then t.(cy := t.cy - 1)
    else t
  }

  function NextLine(s: Scr): Scr
    requires Valid(s)
  {
    LineFeed(CarriageReturn(s))
  }

  function MoveTo(s: Scr, x: int, y: int): Scr
    requires Valid(s)
  {
    s.(wrap := false, cx := Clamp(x, 0, s.cols - 1), cy := Clamp(y, 0, s.rows - 1))
  }

  function MoveLeft(s: Scr, n: int): Scr
    requires Valid(s)
  {
    MoveTo(s, s.cx - (Max(1, n) - (if s.wrap then 1 else 0)), s.cy)
  }

  // ---- Text.

  function Put(s: Scr, cp: nat, w: nat): Scr
    requires Valid(s)
  {
    var t := OnLine(s, PutGlyph(s.grid[s.cy], s.cx, cp, w, s.pen));
    if t.cx + w >= t.cols then t.(cx := t.cols - 1, wrap := true) else t.(cx := t.cx + w)
  }

  /** A pending wrap is consumed by the next character, and only with autowrap on. */
  function Unwrap(s: Scr): Scr
    requires Valid(s)
  {
    if s.wrap && s.autowrap then LineFeed(s.(wrap := false, cx := 0)) else s
  }

  function Print(s: Scr, ambiguous: bool, code: nat): Scr
    requires Valid(s)
  {
    var cp := Translate(code, s.charset);
    var w := CharWidth(ambiguous, cp);
    if w == 0 then s
    else
      UnwrapKeepsBounds(s);
      var t := Unwrap(s);
      if w == 2 && t.cx + 1 >= t.cols then
        if !t.autowrap then t
        else
          var u := t.(cx := 0);
          LineFeedKeepsBounds(u);
          Put(LineFeed(u), cp, w)
      else Put(t, cp, w)
  }

  // ---- Erasing and editing.

  function EraseRows(s: Scr, from: nat, to: nat): Scr
    requires Valid(s) && from <= to <= s.rows
  {
    s.(grid := s.grid[..from] + BlankGrid(s.cols, to - from, E(s)) + s.grid[to..])
  }

  function EraseInLine(s: Scr, x0: int, x1: int): Scr
    requires Valid(s)
  {
    OnLine(s, EraseSpan(s.grid[s.cy], x0, x1, E(s)))
  }

  function EraseLine(s: Scr, mode: int): Scr
    requires Valid(s)
  {
    if mode == 0 then EraseInLine(s, s.cx, s.cols - 1)
    else if mode == 1 then EraseInLine(s, 0, s.cx)
    else if mode == 2 then EraseInLine(s, 0, s.cols - 1)
    else s
  }

  function EraseDisplay(s: Scr, mode: int): Scr
    requires Valid(s)
  {
    if mode == 0 then EraseInLine(EraseRows(s, s.cy + 1, s.rows), s.cx, s.cols - 1)
    else if mode == 1 then EraseInLine(EraseRows(s, 0, s.cy), 0, s.cx)
    else if mode == 2 then EraseRows(s, 0, s.rows)
    else s
  }

  function EraseChars(s: Scr, n: int): Scr
    requires Valid(s)
  {
    EraseInLine(s, s.cx, s.cx + n - 1)
  }

  function Insert(s: Scr, n: int): Scr
    requires Valid(s)
  {
    OnLine(s, InsertChars(s.grid[s.cy], s.cx, n, E(s)))
  }

  function Delete(s: Scr, n: int): Scr
    requires Valid(s)
  {
    OnLine(s, DeleteChars(s.grid[s.cy], s.cx, n, E(s)))
  }

  function InsertLines(s: Scr, n: int): Scr
    requires Valid(s)
  {
    if n <= 0 || s.cy < s.top || s.cy > s.bottom then s else ScrollSliceDown(s, s.cy, s.bottom, n)
  }

  function DeleteLines(s: Scr, n: int): Scr
    requires Valid(s)
  {
    if n <= 0 || s.cy < s.top || s.cy > s.bottom then s else ScrollSliceUp(s, s.cy, s.bottom, n)
  }

  // ---- Region, saved cursor, alternate screen, size.

  function SetRegion(s: Scr, top0: int, bottom0: int): Scr
    requires Valid(s)
  {
    var top, bottom := Max(0, top0), Min(s.rows - 1, bottom0);
    if bottom - top < 1 then s else s.(top := top, bottom := bottom, cx := 0, cy := 0, wrap := false)
  }

  function ResetRegion(s: Scr): Scr
    requires Valid(s)
  {
    s.(top := 0, bottom := s.rows - 1, cx := 0, cy := 0, wrap := false)
  }

  function Here(s: Scr): Saved { Saved(s.cx, s.cy, s.wrap, s.pen, s.charset) }

  function SaveCursor(s: Scr): Scr { s.(saved := Here(s)) }

  function RestoreCursor(s: Scr): Scr
    requires Valid(s)
  {
    var x, y := Clamp(s.saved.x, 0, s.cols - 1), Clamp(s.saved.y, 0, s.rows - 1);
    s.(cx := x, cy := y, wrap := s.saved.wrap && x == s.cols - 1, charset := s.saved.charset, pen := s.saved.style)
  }

  function EnterAlt(s: Scr): Scr
    requires Valid(s)
  {
    if s.alt then s
    else s.(parked := s.grid, grid := BlankGrid(s.cols, s.rows, E(s)), parkedCursor := Here(s),
            parkedDecsc := s.saved, saved := FRESH, alt := true)
  }

  function LeaveAlt(s: Scr): Scr
    requires Valid(s)
  {
    if !s.alt then s
    else
      var c := s.parkedCursor;
      s.(grid := s.parked, parked := s.grid, cx := c.x, cy := c.y, wrap := c.wrap, pen := c.style,
         charset := c.charset, saved := s.parkedDecsc, alt := false)
  }

  /** A line cut or completed to `cols` columns; a head cut from its second half is blanked. */
  function ReshapeRow(row: Row, cols: nat, e: SCell): (r: Row)
    requires 1 <= cols && 1 <= |row|
    ensures |r| == cols
  {
    var keep := Min(cols, |row|);
    var r := row[..keep] + BlankRow(cols - keep, e);
    if r[keep - 1].width == 2 then r[keep - 1 := e] else r
  }

  function Reshape(g: Grid, cols: nat, rows: nat, e: SCell): (r: Grid)
    requires 1 <= cols && forall y :: 0 <= y < |g| ==> 1 <= |g[y]|
    ensures Sized(r, cols, rows)
  {
    seq(rows, y requires 0 <= y < rows => if y < |g| then ReshapeRow(g[y], cols, e) else BlankRow(cols, e))
  }

  function Bounded(c: Saved, cols: int, rows: int): Saved {
    c.(x := Clamp(c.x, 0, cols - 1), y := Clamp(c.y, 0, rows - 1))
  }

  function Resize(s: Scr, c: int, r: int): Scr
    requires Valid(s)
  {
    var cols, rows := Max(1, c), Max(1, r);
    if cols == s.cols && rows == s.rows then s
    else
      s.(cols := cols, rows := rows,
         grid := if s.alt then BlankGrid(cols, rows, E(s)) else Reshape(s.grid, cols, rows, E(s)),
         parked := if s.alt then Reshape(s.parked, cols, rows, E(s)) else s.parked,
         cx := Clamp(s.cx, 0, cols - 1), cy := Clamp(s.cy, 0, rows - 1), wrap := false,
         parkedCursor := Bounded(s.parkedCursor, cols, rows), top := 0, bottom := rows - 1,
         tabs := if cols != s.cols then DefaultTabs(cols) else s.tabs)
  }

  // ---- What the definitions above rely on.

  lemma SliceUpSized(s: Scr, top: int, bottom: int, n: int)
    requires Valid(s)
    ensures Sized(ScrollSliceUp(s, top, bottom, n).grid, s.cols, s.rows)
  {
  }

  lemma ScrollUpKeepsBounds(s: Scr)
    requires Valid(s)
    ensures ScrollUp(s) == s.(grid := ScrollUp(s).grid, history := ScrollUp(s).history) && Valid(ScrollUp(s))
  {
    hide ScrollSliceUp, Push;
    var t := if Feeds(s) then s.(history := Some(Push(s.history.value, s.grid[s.top]))) else s;
    if Feeds(s) {
      PushKeepsSound(s.history.value, s.grid[s.top]);
    }
    SliceUpSized(t, t.top, t.bottom, 1);
    assert ScrollSliceUp(t, t.top, t.bottom, 1) == t.(grid := ScrollSliceUp(t, t.top, t.bottom, 1).grid) by {
      SliceUpGridOnly(t, t.top, t.bottom, 1);
    }
  }

  lemma SliceUpGridOnly(s: Scr, top: int, bottom: int, n: int)
    requires Valid(s)
    ensures ScrollSliceUp(s, top, bottom, n) == s.(grid := ScrollSliceUp(s, top, bottom, n).grid)
  {
  }

  lemma PushKeepsSound(h: History, row: Row)
    requires Sound(h)
    ensures Sound(Push(h, row))
  {
  }

  lemma LineFeedKeepsBounds(s: Scr)
    requires Valid(s)
    ensures var t := LineFeed(s); Valid(t) && t.cols == s.cols && t.rows == s.rows && t.cx == s.cx
  {
    hide ScrollUp;
    ScrollUpKeepsBounds(s.(wrap := false));
  }

  lemma UnwrapKeepsBounds(s: Scr)
    requires Valid(s)
    ensures var t := Unwrap(s); Valid(t) && t.cols == s.cols && t.rows == s.rows
  {
    hide LineFeed;
    if s.wrap && s.autowrap {
      LineFeedKeepsBounds(s.(wrap := false, cx := 0));
    }
  }
}
