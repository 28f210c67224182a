// The frame theorem: what one frame leaves on a terminal (render/diff.cpp).

module FrameRuns {
  import opened Bytes
  import opened Cells
  import opened Profile
  import opened SgrInverse
  import opened ScreenRow
  import opened Screen
  import opened ScreenProofs
  import opened Terminal
  import opened Picture
  import opened Frame
  import opened FrameSteps
  import opened FrameProofs
  import opened FullRows
  import opened FullFrames

  /** Every cell of the grid shows the picture's. */
  ghost predicate GridShows(g: Grid, rows: seq<PicRow>, d: Depth) {
    && |g| == |rows|
    && forall y :: 0 <= y < |g| ==>
      |g[y]| == |rows[y]| && forall x :: 0 <= x < |g[y]| ==> Shows(g[y][x], rows[y][x], d)
  }

  /** What the differ supposes of the terminal, when it supposes anything. */
  ghost predicate Remembers(t: Emulator, m: Memory, d: Depth) {
    SizedPicture(m.prev) && (m.valid ==> GridShows(t.term.screen.grid, m.prev.rows, d))
  }

  // ---- Silence.

  /** Nothing emitted means nothing different, and nothing added to the frame. */
  lemma {:induction false} QuietScan(row: PicRow, prev: PicRow, full: bool, y: int, x: nat, limit: nat, e: Emit,
                                     d: Depth)
    requires x <= limit <= |row| && |prev| == |row|
    ensures ScanRow(row, prev, full, y, x, limit, e, d).any <==>
      e.any || exists i :: x <= i < limit && Differs(row, prev, full, i)
    ensures (forall i :: x <= i < limit ==> !Differs(row, prev, full, i)) ==>
      ScanRow(row, prev, full, y, x, limit, e, d) == e
    decreases limit - x
  {
    hide Differs, EmitRun;
    if x < limit {
      if !Differs(row, prev, full, x) {
        QuietScan(row, prev, full, y, x + 1, limit, e, d);
      } else {
        var end := RunEnd(row, prev, full, x + 1, limit);
        QuietScan(row, prev, full, y, end, limit, EmitRun(row, y, RunStart(row, x), end, e, d).(any := true), d);
      }
    }
  }

  lemma QuietRow(row: PicRow, prev: PicRow, full: bool, y: int, e: Emit, d: Depth)
    requires |prev| == |row|
    ensures FrameRow(row, prev, full, y, e, d).any <==> e.any || (if full then row != [] else row != prev)
  {
    hide ScanRow, EraseTail, ErasesTail, ContentEnd;
    var limit := ContentEnd(row);
    LimitFits(row);
    QuietScan(row, prev, full, y, 0, limit, e, d);
    EraseTailSpeaks(ScanRow(row, prev, full, y, 0, limit, e, d), limit, y, d);
    if !full && row != prev {
      var i :| 0 <= i < |row| && row[i] != prev[i];
      assert Differs(row, prev, full, i);
    } else if full && row != [] {
      assert Differs(row, prev, full, 0);
    }
  }

  lemma LimitFits(row: PicRow)
    ensures ContentEnd(row) <= |row| && (!ErasesTail(row) ==> ContentEnd(row) == |row|)
    ensures ErasesTail(row) ==> ContentEnd(row) < |row|
  {
  }

  lemma EraseTailSpeaks(e: Emit, x: int, y: int, d: Depth)
    ensures EraseTail(e, x, y, d).any
  {
  }

  lemma {:induction false} QuietRows(rows: seq<PicRow>, prev: seq<PicRow>, full: bool, y: nat, e: Emit, d: Depth)
    requires y <= |rows| == |prev| && forall i :: 0 <= i < |rows| ==> |prev[i]| == |rows[i]|
    requires !full
    ensures FrameRows(rows, prev, full, y, e, d).any <==> e.any || rows[y..] != prev[y..]
    decreases |rows| - y
  {
    hide FrameRow;
    if y < |rows| {
      QuietRow(rows[y], prev[y], full, y, e, d);
      QuietRows(rows, prev, full, y + 1, FrameRow(rows[y], prev[y], full, y, e, d), d);
      assert rows[y..] == [rows[y]] + rows[y + 1..];
      assert prev[y..] == [prev[y]] + prev[y + 1..];
    }
  }

  /** `frame` has nothing to send exactly when the terminal is known to show this very picture,
      with this very cursor. */
  lemma FrameIsSilentIff(m: Memory, cur: Picture, cursor: Option<Pos>, d: Depth)
    requires SizedPicture(m.prev) && SizedPicture(cur)
    ensures FrameBytes(m, cur, cursor, d) == [] <==> m.valid && m.prev == cur && !CursorChanged(m, cursor)
  {
    hide FrameRows;
    var f := Fitted(m, cur);
    assert PROLOGUE != [];
    if f.valid {
      QuietRows(cur.rows, f.prev.rows, false, 0, START, d);
      assert cur.rows[0..] == cur.rows && f.prev.rows[0..] == f.prev.rows;
    }
  }

  // ---- One frame.

  lemma ReceivePrologue(t: Emulator, ambiguous: bool)
    requires Ready(t)
    ensures var r := Receive(t, ambiguous, PROLOGUE);
      Ready(r) && r.term == Term(t.term.screen.(pen := PLAIN), t.term.modes.(cursorVisible := false))
  {
    ReadyIsValid(t);
    ReceiveConcat(t, ambiguous, HIDE_CURSOR, CsiBytes([0], 109));
    ReceiveCursorMode(t, ambiguous, false);
    hide Ready, Receive;
    ResetIsSmall();
    ReceiveSgr(Receive(t, ambiguous, HIDE_CURSOR), ambiguous, [0]);
    ApplySimple(0, t.term.screen.pen);
  }

  /** The terminal is idle and of the picture's size, whatever it shows. */
  ghost predicate Matches(t: Emulator, ambiguous: bool, cur: Picture) {
    var s := t.term.screen;
    && Ready(t) && WellFormed(ambiguous, cur)
    && s.cols == cur.w <= MAX_SIZE && s.rows == cur.h <= MAX_SIZE
  }

  ghost predicate ReceptiveGrid(g: Grid) {
    forall y :: 0 <= y < |g| ==> Receptive(g[y])
  }

  /** An incremental frame needs whole glyphs to work on; a full one only that no second half is
      met from the left. */
  ghost predicate Paintable(t: Emulator, m: Memory, cur: Picture)
    requires SizedPicture(m.prev)
  {
    if Fitted(m, cur).valid then WholeGrid(t.term.screen.grid) else ReceptiveGrid(t.term.screen.grid)
  }

  lemma WholeIsReceptive(g: Grid)
    requires WholeGrid(g)
    ensures ReceptiveGrid(g)
  {
    forall y | 0 <= y < |g| ensures Receptive(g[y]) {
      assert Whole(g[y]);
      if |g[y]| != 1 { PairedIsReceptive(g[y]); }
    }
  }

  /** A page that shows a well-formed picture has whole glyphs. */
  lemma ShownIsWhole(ambiguous: bool, g: Grid, cur: Picture, d: Depth)
    requires WellFormed(ambiguous, cur) && GridShows(g, cur.rows, d)
    ensures WholeGrid(g)
  {
    hide Shown, Quantized;
    forall y | 0 <= y < |g| ensures Whole(g[y]) {
      forall x | 0 <= x < |g[y]| ensures PairedAt(g[y], x) {
        assert WellFormedAt(ambiguous, cur.rows[y], x) && Shows(g[y][x], cur.rows[y][x], d);
        if x + 1 < |g[y]| { assert Shows(g[y][x + 1], cur.rows[y][x + 1], d); }
        if x > 0 { assert Shows(g[y][x - 1], cur.rows[y][x - 1], d); }
      }
      if |g[y]| == 1 { assert PairedAt(g[y], 0); }
    }
  }

  function JobOf(t: Emulator, ambiguous: bool, m: Memory, cur: Picture, d: Depth): Job
    requires Valid(t.term.screen) && SizedPicture(m.prev)
  {
    var f := Fitted(m, cur);
    Job(Receive(t, ambiguous, PROLOGUE), ambiguous, cur.rows, f.prev.rows, !f.valid, d)
  }

  /** Where the body starts, every line is as the differ remembers it. */
  lemma StartIsGood(t: Emulator, ambiguous: bool, m: Memory, cur: Picture, d: Depth)
    requires Matches(t, ambiguous, cur) && Remembers(t, m, d) && WholeGrid(t.term.screen.grid)
    ensures Good(JobOf(t, ambiguous, m, cur, d), START, 0, 0)
  {
    hide Receive, Shows, Whole, WellFormedRow, PROLOGUE;
    ReceivePrologue(t, ambiguous);
    var k := JobOf(t, ambiguous, m, cur, d);
    ReceiveNothing(k.t0, ambiguous);
    assert Quantized(PLAIN, d) == PLAIN;
    var g := k.t0.term.screen.grid;
    forall r | 0 <= r < |g|
      ensures RowShows(g[r], k.rows[r], k.prev[r], k.full, 0, d)
    {
    }
  }

  /** The terminal after the body of a frame. */
  function AfterBody(t: Emulator, ambiguous: bool, m: Memory, cur: Picture, d: Depth): Emulator
    requires Ready(t) && SizedPicture(m.prev) && SizedPicture(cur)
  {
    ReceivePrologue(t, ambiguous);
    Receive(Receive(t, ambiguous, PROLOGUE), ambiguous, Body(m, cur, d).body)
  }

  /** The body of any frame on a whole page leaves it showing the picture. */
  lemma BodyShows(t: Emulator, ambiguous: bool, m: Memory, cur: Picture, d: Depth)
    requires Matches(t, ambiguous, cur) && Remembers(t, m, d) && WholeGrid(t.term.screen.grid)
    ensures var r := AfterBody(t, ambiguous, m, cur, d);
      Ready(r) && GridShows(r.term.screen.grid, cur.rows, d)
      && r.term.screen.cols == cur.w && r.term.screen.rows == cur.h && !r.term.modes.cursorVisible
  {
    hide Receive, Shows, Whole, WellFormedRow, FrameRows;
    StartIsGood(t, ambiguous, m, cur, d);
    var k := JobOf(t, ambiguous, m, cur, d);
    FrameRowsIsGood(k, START, 0);
    var e := FrameRows(k.rows, k.prev, k.full, 0, START, d);
    PageIsShown(k, At(k, e).term.screen.grid);
    ReceivePrologue(t, ambiguous);
  }

  lemma PageIsShown(k: Job, g: Grid)
    requires PageShows(g, k, |k.rows|, 0)
    ensures GridShows(g, k.rows, k.d)
  {
    hide Shows, Whole;
    forall y | 0 <= y < |g|
      ensures |g[y]| == |k.rows[y]| && forall x :: 0 <= x < |g[y]| ==> Shows(g[y][x], k.rows[y][x], k.d)
    {
      assert RowShows(g[y], k.rows[y], k.prev[y], k.full, |k.rows[y]|, k.d);
    }
  }

  /** The body of a full frame, on any page at all: every line becomes its full row. */
  lemma FullBody(t: Emulator, ambiguous: bool, m: Memory, cur: Picture, d: Depth)
    requires Matches(t, ambiguous, cur) && SizedPicture(m.prev) && !Fitted(m, cur).valid
    ensures SameShape(t.term.screen.grid, cur.rows)
    ensures var r := AfterBody(t, ambiguous, m, cur, d);
      Ready(r) && r.term.screen.grid == FullGrid(t.term.screen.grid, cur.rows, d)
      && r.term.screen.cols == cur.w && r.term.screen.rows == cur.h && !r.term.modes.cursorVisible
  {
    hide Receive, WellFormedRow, FrameRows, PROLOGUE, FullGrid, PageAt;
    ReceivePrologue(t, ambiguous);
    var k := JobOf(t, ambiguous, m, cur, d);
    ReceiveNothing(k.t0, ambiguous);
    assert Quantized(PLAIN, d) == PLAIN;
    PageIsFull(k.t0.term.screen.grid, k.rows, d);
    assert Exactly(k, START, 0, 0);
    ExactRows(k, START, 0);
  }

  /** What follows the body: the cursor goes to its target and, if there is one, is shown. */
  function Ending(cursor: Option<Pos>): bytes {
    Cup(Target(cursor).x, Target(cursor).y) + (if cursor.Some? then SHOW_CURSOR else [])
  }

  /** The end of the frame puts the cursor on its target and, if there is one, shows it. */
  lemma ReceiveEnding(t: Emulator, ambiguous: bool, cursor: Option<Pos>)
    requires Ready(t) && 0 <= Target(cursor).x < MAX_SIZE && 0 <= Target(cursor).y < MAX_SIZE
    ensures var r := Receive(t, ambiguous, Ending(cursor));
      && Ready(r)
      && r.term.screen == MoveTo(t.term.screen, Target(cursor).x, Target(cursor).y)
      && r.term.modes == if cursor.Some? then t.term.modes.(cursorVisible := true) else t.term.modes
  {
    var x, y := Target(cursor).x, Target(cursor).y;
    ReadyIsValid(t);
    ReceiveCup(t, ambiguous, x, y);
    hide Receive, Cup;
    if cursor.Some? {
      ReceiveConcat(t, ambiguous, Cup(x, y), SHOW_CURSOR);
      ReceiveCursorMode(Receive(t, ambiguous, Cup(x, y)), ambiguous, true);
    } else {
      assert Cup(x, y) + [] == Cup(x, y);
    }
  }

  predicate OnScreen(cur: Picture, cursor: Option<Pos>) {
    0 <= Target(cursor).x < Max(1, cur.w) && 0 <= Target(cursor).y < Max(1, cur.h)
  }

  lemma Assemble(t: Emulator, ambiguous: bool, a: bytes, b: bytes, c: bytes)
    requires Valid(t.term.screen)
    ensures Valid(Receive(t, ambiguous, a).term.screen)
    ensures Valid(Receive(Receive(t, ambiguous, a), ambiguous, b).term.screen)
    ensures Receive(t, ambiguous, a + b + c) == Receive(Receive(Receive(t, ambiguous, a), ambiguous, b), ambiguous, c)
  {
    hide Receive, Valid;
    ReceiveConcat(t, ambiguous, a, b + c);
    assert a + b + c == a + (b + c);
    ReceiveConcat(Receive(t, ambiguous, a), ambiguous, b, c);
  }

  lemma FrameIsConcat(m: Memory, cur: Picture, cursor: Option<Pos>, d: Depth)
    requires SizedPicture(m.prev) && SizedPicture(cur) && FrameBytes(m, cur, cursor, d) != []
    ensures FrameBytes(m, cur, cursor, d) == PROLOGUE + Body(m, cur, d).body + Ending(cursor)
  {
    hide Cup, PROLOGUE, Body, Silent;
    Associate(PROLOGUE + Body(m, cur, d).body, Cup(Target(cursor).x, Target(cursor).y),
              if cursor.Some? then SHOW_CURSOR else []);
  }

  lemma FrameInParts(t: Emulator, ambiguous: bool, m: Memory, cur: Picture, cursor: Option<Pos>, d: Depth)
    requires Ready(t) && SizedPicture(m.prev) && SizedPicture(cur) && FrameBytes(m, cur, cursor, d) != []
    ensures Valid(AfterBody(t, ambiguous, m, cur, d).term.screen)
    ensures Receive(t, ambiguous, FrameBytes(m, cur, cursor, d))
         == Receive(AfterBody(t, ambiguous, m, cur, d), ambiguous, Ending(cursor))
  {
    ReadyIsValid(t);
    hide Receive, PROLOGUE, Body, Ending, Valid, Ready, FrameBytes;
    FrameIsConcat(m, cur, cursor, d);
    Assemble(t, ambiguous, PROLOGUE, Body(m, cur, d).body, Ending(cursor));
  }

  /** A frame that is not empty: the page is the one after the body, the cursor is on its target,
      and visible if asked. */
  lemma LoudFrame(t: Emulator, ambiguous: bool, m: Memory, cur: Picture, cursor: Option<Pos>, d: Depth)
    requires Matches(t, ambiguous, cur) && SizedPicture(m.prev) && OnScreen(cur, cursor)
    requires FrameBytes(m, cur, cursor, d) != []
    requires var b := AfterBody(t, ambiguous, m, cur, d);
      Ready(b) && b.term.screen.cols == cur.w && b.term.screen.rows == cur.h && !b.term.modes.cursorVisible
    ensures var r := Receive(t, ambiguous, FrameBytes(m, cur, cursor, d)); var s := r.term.screen;
      && Matches(r, ambiguous, cur) && s.grid == AfterBody(t, ambiguous, m, cur, d).term.screen.grid
      && s.cx == Target(cursor).x && s.cy == Target(cursor).y && r.term.modes.cursorVisible == cursor.Some?
  {
    assert SizedPicture(cur);
    hide Receive, Ending, FrameBytes, AfterBody, WellFormed;
    FrameInParts(t, ambiguous, m, cur, cursor, d);
    ReceiveEnding(AfterBody(t, ambiguous, m, cur, d), ambiguous, cursor);
  }

  /** The body of a frame leaves the whole page showing the picture. */
  lemma PaintableBodyShows(t: Emulator, ambiguous: bool, m: Memory, cur: Picture, d: Depth)
    requires Matches(t, ambiguous, cur) && Remembers(t, m, d) && Paintable(t, m, cur)
    ensures var r := AfterBody(t, ambiguous, m, cur, d);
      Ready(r) && GridShows(r.term.screen.grid, cur.rows, d)
      && r.term.screen.cols == cur.w && r.term.screen.rows == cur.h && !r.term.modes.cursorVisible
  {
    hide AfterBody, WholeGrid, WellFormedRow, Receptive, Shows, FullRow;
    if Fitted(m, cur).valid {
      BodyShows(t, ambiguous, m, cur, d);
    } else {
      FullBody(t, ambiguous, m, cur, d);
      FullGridShows(ambiguous, t.term.screen.grid, cur, d);
    }
  }

  lemma FullGridShows(ambiguous: bool, g: Grid, cur: Picture, d: Depth)
    requires SameShape(g, cur.rows) && WellFormed(ambiguous, cur) && ReceptiveGrid(g)
    ensures GridShows(FullGrid(g, cur.rows, d), cur.rows, d)
  {
    hide FullRow, WellFormedRow, Receptive, Shows;
    forall y | 0 <= y < |g| ensures RowIs(FullRow(g[y], cur.rows[y], d), cur.rows[y], d) {
      ReceptiveShows(ambiguous, g[y], cur.rows[y], d);
    }
  }

  /** The repaint compiler is correct: on any terminal of the picture's size which shows what the
      differ remembers, if it remembers anything, and on which a full frame can paint, the bytes of
      a frame, read by the emulator, leave every glyph, width and displayable style of the picture
      on the screen. When the frame is not empty its cursor is on the target, visible if asked. */
  lemma FrameShowsPicture(t: Emulator, ambiguous: bool, m: Memory, cur: Picture, cursor: Option<Pos>, d: Depth)
    requires Matches(t, ambiguous, cur) && Remembers(t, m, d) && Paintable(t, m, cur) && OnScreen(cur, cursor)
    ensures var out := FrameBytes(m, cur, cursor, d); var r := Receive(t, ambiguous, out); var s := r.term.screen;
      && Matches(r, ambiguous, cur) && GridShows(s.grid, cur.rows, d) && WholeGrid(s.grid)
      && Remembers(r, After(m, cur, cursor, d), d)
      && (out != [] ==> s.cx == Target(cursor).x && s.cy == Target(cursor).y
                        && r.term.modes.cursorVisible == cursor.Some?)
  {
    FrameIsSilentIff(m, cur, cursor, d);
    ReadyIsValid(t);
    hide Body, WholeGrid, Receive;
    if FrameBytes(m, cur, cursor, d) == [] {
      ReceiveNothing(t, ambiguous);
      SilentKeeps(m, cur, cursor, d);
    } else {
      PaintableBodyShows(t, ambiguous, m, cur, d);
      LoudFrame(t, ambiguous, m, cur, cursor, d);
    }
    ShownIsWhole(ambiguous, Receive(t, ambiguous, FrameBytes(m, cur, cursor, d)).term.screen.grid, cur, d);
  }

  /** After an invalidation every picture of the terminal's size comes out right. */
  ghost predicate FullFramesShow(t: Emulator, ambiguous: bool, m: Memory, cursor: Option<Pos>, d: Depth)
    requires Ready(t) && SizedPicture(m.prev)
  {
    forall cur: Picture :: Matches(t, ambiguous, cur) ==>
      GridShows(Receive(t, ambiguous, FrameBytes(m.(valid := false), cur, cursor, d)).term.screen.grid, cur.rows, d)
  }

  /** "A full repaint repairs the terminal": true of every picture exactly if no line of the
      terminal makes a repaint from the left meet a second half. */
  lemma FullFramesShowIff(t: Emulator, ambiguous: bool, m: Memory, cursor: Option<Pos>, d: Depth)
    requires Ready(t) && SizedPicture(m.prev)
    requires t.term.screen.cols <= MAX_SIZE && 0 <= Target(cursor).x < t.term.screen.cols
    requires t.term.screen.rows <= MAX_SIZE && 0 <= Target(cursor).y < t.term.screen.rows
    ensures FullFramesShow(t, ambiguous, m, cursor, d) <==> ReceptiveGrid(t.term.screen.grid)
  {
    hide Receive, FrameBytes, FullGrid, Receptive, GridShows, WellFormed;
    var g := t.term.screen.grid;
    forall cur: Picture | Matches(t, ambiguous, cur)
      ensures SameShape(g, cur.rows)
      ensures Receive(t, ambiguous, FrameBytes(m.(valid := false), cur, cursor, d)).term.screen.grid
           == FullGrid(g, cur.rows, d)
    {
      FullFrameIs(t, ambiguous, m, cur, cursor, d);
    }
    if ReceptiveGrid(g) {
      forall cur: Picture | Matches(t, ambiguous, cur) ensures GridShows(FullGrid(g, cur.rows, d), cur.rows, d) {
        FullGridShows(ambiguous, g, cur, d);
      }
    } else {
      var cur := LettersEverywhere(t, ambiguous);
      LettersFail(g, cur, d);
    }
  }

  lemma FullFrameIs(t: Emulator, ambiguous: bool, m: Memory, cur: Picture, cursor: Option<Pos>, d: Depth)
    requires Matches(t, ambiguous, cur) && SizedPicture(m.prev) && OnScreen(cur, cursor)
    ensures SameShape(t.term.screen.grid, cur.rows)
    ensures Receive(t, ambiguous, FrameBytes(m.(valid := false), cur, cursor, d)).term.screen.grid
         == FullGrid(t.term.screen.grid, cur.rows, d)
  {
    hide Receive, AfterBody, FullGrid, Body;
    var forgetful := m.(valid := false);
    FullBody(t, ambiguous, forgetful, cur, d);
    FrameIsSilentIff(forgetful, cur, cursor, d);
    LoudFrame(t, ambiguous, forgetful, cur, cursor, d);
  }

  /** The letter A on every cell. */
  lemma LettersEverywhere(t: Emulator, ambiguous: bool) returns (cur: Picture)
    requires Ready(t) && t.term.screen.cols <= MAX_SIZE && t.term.screen.rows <= MAX_SIZE
    ensures Matches(t, ambiguous, cur) && SameShape(t.term.screen.grid, cur.rows)
    ensures forall y :: 0 <= y < |cur.rows| ==> cur.rows[y] == Letters(|t.term.screen.grid[y]|)
  {
    hide Letters;
    var s := t.term.screen;
    cur := Picture(s.cols, s.rows, seq(s.rows, _ => Letters(s.cols)));
    LettersAreWellFormed(ambiguous, s.cols);
    LettersLength(s.cols);
  }

  lemma LettersLength(n: nat)
    ensures |Letters(n)| == n
  {
  }

  lemma LettersFail(g: Grid, cur: Picture, d: Depth)
    requires SameShape(g, cur.rows) && !ReceptiveGrid(g)
    requires forall y :: 0 <= y < |cur.rows| ==> cur.rows[y] == Letters(|g[y]|)
    ensures !GridShows(FullGrid(g, cur.rows, d), cur.rows, d)
  {
    hide FullRow, Receptive, Letters, Shows;
    var y :| 0 <= y < |g| && !Receptive(g[y]);
    LettersAreSpoilt(g[y], d);
    assert FullGrid(g, cur.rows, d)[y] == FullRow(g[y], Letters(|g[y]|), d);
  }

  lemma SilentKeeps(m: Memory, cur: Picture, cursor: Option<Pos>, d: Depth)
    requires SizedPicture(m.prev) && SizedPicture(cur)
    requires m.valid && m.prev == cur && FrameBytes(m, cur, cursor, d) == []
    ensures After(m, cur, cursor, d) == m
  {
    hide Body;
    assert PROLOGUE != [];
  }

  // ---- What is not sent.

  /** A line that has not changed costs an incremental frame nothing. */
  lemma UnchangedLineIsFree(row: PicRow, y: int, e: Emit, d: Depth)
    ensures FrameRow(row, row, false, y, e, d) == e
  {
    LimitFits(row);
    QuietScan(row, row, false, y, 0, ContentEnd(row), e, d);
    hide ScanRow, EraseTail, ErasesTail, ContentEnd;
  }

  /** A tail is erased if the last four cells are default blanks, and otherwise painted. */
  lemma TailIsErasedIff(row: PicRow)
    ensures ErasesTail(row) <==> |row| >= 4 && forall x :: |row| - 4 <= x < |row| ==> row[x] == BLANK
  {
    TailIsBlank(row, |row|);
    assert TailStart(row, |row|) > 0 ==> row[TailStart(row, |row|) - 1] != BLANK;
  }
}
