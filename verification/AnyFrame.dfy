// A frame that reaches a terminal it was not made for, because the window was resized while the
// frame was on its way (render/diff.cpp): whatever it paints, every wide glyph stays whole.

module AnyFrame {
  import opened Bytes
  import opened Cells
  import opened Width
  import opened Utf8
  import opened Profile
  import opened SgrInverse
  import opened ScreenRow
  import opened Scrollback
  import opened Screen
  import opened ScreenOrders
  import opened ScreenProofs
  import opened Terminal
  import opened Picture
  import opened Frame
  import opened FrameSteps
  import opened FrameProofs

  // ---- One order on the page in front.

  lemma LineFeedKeepsModes(s: Scr)
    requires Valid(s)
    ensures var r := LineFeed(s);
      r.alt == s.alt && r.autowrap == s.autowrap && r.charset == s.charset && r.pen == s.pen
      && r.parked == s.parked && r.cols == s.cols && r.rows == s.rows
  {
  }

  lemma PutKeepsModes(s: Scr, cp: nat, w: nat)
    requires Valid(s)
    ensures var r := Put(s, cp, w);
      r.alt == s.alt && r.autowrap == s.autowrap && r.charset == s.charset && r.pen == s.pen
      && r.parked == s.parked && r.cols == s.cols && r.rows == s.rows
  {
    hide PutGlyph;
  }

  /** Printing changes neither the pen, nor the size, nor what the modes mirror. */
  lemma PrintKeepsModes(s: Scr, ambiguous: bool, code: nat)
    requires Valid(s)
    ensures var r := Screen.Print(s, ambiguous, code);
      r.alt == s.alt && r.autowrap == s.autowrap && r.charset == s.charset && r.pen == s.pen
      && r.parked == s.parked && r.cols == s.cols && r.rows == s.rows
  {
    hide Put, LineFeed, CharWidth, Valid, Translate;
    var cp := Translate(code, s.charset);
    var w := CharWidth(ambiguous, cp);
    UnwrapKeepsBounds(s);
    UnwrapKeepsModes(s);
    var t := Unwrap(s);
    hide Unwrap;
    if w > 0 {
      if w == 2 && t.cx + 1 >= t.cols {
        HomeKeepsBounds(t);
        var u := t.(cx := 0);
        LineFeedKeepsBounds(u);
        LineFeedKeepsModes(u);
        PutKeepsModes(LineFeed(u), cp, w);
      } else {
        PutKeepsModes(t, cp, w);
      }
    }
  }

  lemma UnwrapKeepsModes(s: Scr)
    requires Valid(s)
    ensures var r := Unwrap(s);
      r.alt == s.alt && r.autowrap == s.autowrap && r.charset == s.charset && r.pen == s.pen
      && r.parked == s.parked && r.cols == s.cols && r.rows == s.rows
  {
    HomeKeepsBounds(s);
    hide LineFeed, Valid;
    if s.wrap && s.autowrap { LineFeedKeepsModes(s.(wrap := false, cx := 0)); }
  }

  /** What is parked behind the page in front plays no part. */
  lemma LineFeedIgnoresParked(s: Scr, g: Grid)
    requires Valid(s) && Sized(g, s.cols, s.rows)
    ensures LineFeed(s.(parked := g)) == LineFeed(s).(parked := g)
  {
    ParkedKeepsBounds(s, g);
    ScrollIgnoresParked(s.(wrap := false), g);
    hide ScrollUp, Sized;
    assert s.(parked := g).(wrap := false) == s.(wrap := false).(parked := g);
  }

  lemma ScrollIgnoresParked(s: Scr, g: Grid)
    requires Valid(s) && Sized(g, s.cols, s.rows)
    ensures ScrollUp(s.(parked := g)) == ScrollUp(s).(parked := g)
  {
    ParkedKeepsBounds(s, g);
    hide ScrollSliceUp, Sized, Push;
    var t := if Feeds(s) then s.(history := Some(Push(s.history.value, s.grid[s.top]))) else s;
    assert Valid(t) by { if Feeds(s) { PushKeepsSound(s.history.value, s.grid[s.top]); } }
    SliceIgnoresParked(t, t.top, t.bottom, g);
  }

  lemma SliceIgnoresParked(s: Scr, top: int, bottom: int, g: Grid)
    requires Valid(s) && Valid(s.(parked := g))
    ensures ScrollSliceUp(s.(parked := g), top, bottom, 1) == ScrollSliceUp(s, top, bottom, 1).(parked := g)
  {
    hide Valid, BlankGrid;
  }

  lemma PutIgnoresParked(s: Scr, cp: nat, w: nat, g: Grid)
    requires Valid(s) && Sized(g, s.cols, s.rows)
    ensures Put(s.(parked := g), cp, w) == Put(s, cp, w).(parked := g)
  {
    hide PutGlyph;
  }

  lemma UnwrapIgnoresParked(s: Scr, g: Grid)
    requires Valid(s) && Sized(g, s.cols, s.rows)
    ensures Unwrap(s.(parked := g)) == Unwrap(s).(parked := g)
  {
    HomeKeepsBounds(s);
    hide LineFeed;
    if s.wrap && s.autowrap {
      var u := s.(wrap := false, cx := 0);
      LineFeedIgnoresParked(u, g);
      assert s.(parked := g).(wrap := false, cx := 0) == u.(parked := g);
    }
  }

  lemma ParkedKeepsBounds(s: Scr, g: Grid)
    requires Valid(s) && Sized(g, s.cols, s.rows)
    ensures Valid(s.(parked := g))
  {
  }

  lemma PrintIgnoresParked(s: Scr, ambiguous: bool, code: nat, g: Grid)
    requires Valid(s) && Sized(g, s.cols, s.rows)
    ensures Valid(s.(parked := g))
    ensures Screen.Print(s.(parked := g), ambiguous, code) == Screen.Print(s, ambiguous, code).(parked := g)
  {
    ParkedKeepsBounds(s, g);
    UnwrapKeepsBounds(s);
    UnwrapIgnoresParked(s, g);
    UnwrapKeepsModes(s);
    hide Put, LineFeed, CharWidth, Valid, Translate, Unwrap, Sized;
    var cp, t := Translate(code, s.charset), Unwrap(s);
    var w := CharWidth(ambiguous, cp);
    ParkedKeepsBounds(t, g);
    if w > 0 {
      if w == 2 && t.cx + 1 >= t.cols {
        HomeKeepsBounds(t);
        var u := t.(cx := 0);
        assert t.(parked := g).(cx := 0) == u.(parked := g);
        LineFeedKeepsBounds(u);
        LineFeedKeepsModes(u);
        LineFeedIgnoresParked(u, g);
        ParkedKeepsBounds(LineFeed(u), g);
        PutIgnoresParked(LineFeed(u), cp, w, g);
      } else {
        PutIgnoresParked(t, cp, w, g);
      }
    }
  }

  /** Printing anywhere keeps the page in front whole, whatever is parked behind it. */
  lemma PrintKeepsPage(s: Scr, ambiguous: bool, code: nat)
    requires Valid(s) && WholeGrid(s.grid)
    ensures WholeGrid(Screen.Print(s, ambiguous, code).grid)
  {
    PageIsSized(s);
    hide Screen.Print, Valid, Sized;
    PrintIgnoresParked(s, ambiguous, code, s.grid);
    PrintIsWhole(s.(parked := s.grid), ambiguous, code);
  }

  lemma PageIsSized(s: Scr)
    requires Valid(s)
    ensures Sized(s.grid, s.cols, s.rows)
  {
  }

  lemma EraseKeepsPage(s: Scr)
    requires Valid(s) && WholeGrid(s.grid)
    ensures WholeGrid(EraseLine(s, 0).grid)
  {
    ParkedKeepsBounds(s, s.grid);
    hide EraseSpan, WholeGrid;
    EraseInLineIsWhole(s.(parked := s.grid), s.cx, s.cols - 1);
  }

  // ---- A whole frame.

  /** The terminal is idle, of the size it was, its page is whole and its pen is what the frame
      believes. */
  ghost predicate Kept(t: Emulator, ambiguous: bool, e: Emit, d: Depth) {
    Ready(t) &&
    (var r := Receive(t, ambiguous, e.body);
     Ready(r) && WholeGrid(r.term.screen.grid) && r.term.screen.pen == Quantized(e.pen, d)
     && r.term.screen.cols == t.term.screen.cols && r.term.screen.rows == t.term.screen.rows)
  }

  lemma More(t: Emulator, ambiguous: bool, e: Emit, s: bytes)
    requires Ready(t)
    ensures Valid(Receive(t, ambiguous, e.body).term.screen)
    ensures Receive(t, ambiguous, e.body + s) == Receive(Receive(t, ambiguous, e.body), ambiguous, s)
  {
    ReceiveConcat(t, ambiguous, e.body, s);
  }

  lemma GotoKeeps(t: Emulator, ambiguous: bool, e: Emit, d: Depth, x: nat, y: nat)
    requires Kept(t, ambiguous, e, d) && x < MAX_SIZE && y < MAX_SIZE
    ensures Kept(t, ambiguous, Goto(e, x, y), d)
  {
    hide Receive, Cup, WholeGrid, Quantized;
    More(t, ambiguous, e, Cup(x, y));
    ReceiveCup(Receive(t, ambiguous, e.body), ambiguous, x, y);
  }

  lemma SetPenKeeps(t: Emulator, ambiguous: bool, e: Emit, d: Depth, to: Style)
    requires Kept(t, ambiguous, e, d)
    ensures Kept(t, ambiguous, SetPen(e, to, d), d)
  {
    hide Receive, Transition, WholeGrid, Quantized;
    More(t, ambiguous, e, Transition(e.pen, to, d));
    ReceiveTransition(Receive(t, ambiguous, e.body), ambiguous, e.pen, to, d);
  }

  lemma GlyphKeeps(t: Emulator, ambiguous: bool, e: Emit, d: Depth, c: Cell)
    requires Kept(t, ambiguous, e, d) && 0x20 <= c.ch != 0x7F
    ensures Kept(t, ambiguous, Glyph(e, c), d)
  {
    hide Receive, EncodeUtf8, WholeGrid, Quantized, Shown, Screen.Print;
    var r := Receive(t, ambiguous, e.body);
    More(t, ambiguous, e, EncodeUtf8(c.ch));
    ReceiveGlyph(r, ambiguous, c.ch);
    PrintKeepsPage(r.term.screen, ambiguous, Shown(c.ch));
    PrintKeepsModes(r.term.screen, ambiguous, Shown(c.ch));
  }

  lemma EraseKeeps(t: Emulator, ambiguous: bool, e: Emit, d: Depth)
    requires Kept(t, ambiguous, e, d)
    ensures Kept(t, ambiguous, e.(body := e.body + ERASE_TO_END, any := true), d)
  {
    hide Receive, WholeGrid, Quantized, EraseSpan;
    var r := Receive(t, ambiguous, e.body);
    More(t, ambiguous, e, ERASE_TO_END);
    ReceiveErase(r, ambiguous);
    EraseKeepsPage(r.term.screen);
  }

  lemma EraseTailKeeps(t: Emulator, ambiguous: bool, e: Emit, d: Depth, x: nat, y: nat)
    requires Kept(t, ambiguous, e, d) && x < MAX_SIZE && y < MAX_SIZE
    ensures Kept(t, ambiguous, EraseTail(e, x, y, d), d)
  {
    hide Kept, Goto, SetPen;
    GotoKeeps(t, ambiguous, e, d, x, y);
    var at := Goto(e, x, y);
    SetPenKeeps(t, ambiguous, at, d, at.pen.(bg := Default));
    EraseKeeps(t, ambiguous, if at.pen.bg != Default then SetPen(at, at.pen.(bg := Default), d) else at, d);
  }

  lemma {:induction false} RunKeeps(t: Emulator, ambiguous: bool, row: PicRow, y: nat, c: nat, end: nat, e: Emit,
                                    d: Depth)
    requires Kept(t, ambiguous, e, d) && WellFormedRow(ambiguous, row)
    requires c <= end <= |row| <= MAX_SIZE && y < MAX_SIZE
    ensures Kept(t, ambiguous, EmitRun(row, y, c, end, e, d), d)
    decreases end - c
  {
    hide Kept, Goto, SetPen, Glyph, WellFormedRow;
    if c < end {
      if row[c].width == 0 {
        RunKeeps(t, ambiguous, row, y, c + 1, end, e, d);
      } else {
        GlyphWidth(ambiguous, row, c);
        GotoKeeps(t, ambiguous, e, d, c, y);
        SetPenKeeps(t, ambiguous, Goto(e, c, y), d, row[c].style);
        GlyphKeeps(t, ambiguous, SetPen(Goto(e, c, y), row[c].style, d), d, row[c]);
        RunKeeps(t, ambiguous, row, y, c + 1, end, Paint(e, row[c], c, y, d), d);
      }
    }
  }

  lemma {:induction false} ScanKeeps(t: Emulator, ambiguous: bool, row: PicRow, prev: PicRow, full: bool, y: nat,
                                     x: nat, limit: nat, e: Emit, d: Depth)
    requires Kept(t, ambiguous, e, d) && WellFormedRow(ambiguous, row)
    requires x <= limit <= |row| == |prev| && |row| <= MAX_SIZE && y < MAX_SIZE
    ensures Kept(t, ambiguous, ScanRow(row, prev, full, y, x, limit, e, d), d)
    decreases limit - x
  {
    hide WellFormedRow, Differs, EmitRun;
    if x < limit {
      if !Differs(row, prev, full, x) {
        ScanKeeps(t, ambiguous, row, prev, full, y, x + 1, limit, e, d);
      } else {
        var end := RunEnd(row, prev, full, x + 1, limit);
        RunKeeps(t, ambiguous, row, y, RunStart(row, x), end, e, d);
        var f := EmitRun(row, y, RunStart(row, x), end, e, d).(any := true);
        assert Kept(t, ambiguous, f, d);
        hide Kept;
        ScanKeeps(t, ambiguous, row, prev, full, y, end, limit, f, d);
      }
    }
  }

  lemma RowKeeps(t: Emulator, ambiguous: bool, row: PicRow, prev: PicRow, full: bool, y: nat, e: Emit, d: Depth)
    requires Kept(t, ambiguous, e, d) && WellFormedRow(ambiguous, row)
    requires |row| == |prev| && |row| <= MAX_SIZE && y < MAX_SIZE
    ensures Kept(t, ambiguous, FrameRow(row, prev, full, y, e, d), d)
  {
    hide Kept, WellFormedRow, ScanRow, EraseTail, TailDiffers;
    var limit := ContentEnd(row);
    ScanKeeps(t, ambiguous, row, prev, full, y, 0, limit, e, d);
    if ErasesTail(row) {
      EraseTailKeeps(t, ambiguous, ScanRow(row, prev, full, y, 0, limit, e, d), d, limit, y);
    }
  }

  lemma {:induction false} RowsKeep(t: Emulator, ambiguous: bool, rows: seq<PicRow>, prev: seq<PicRow>, full: bool,
                                    y: nat, e: Emit, d: Depth)
    requires Kept(t, ambiguous, e, d)
    requires y <= |rows| == |prev| && |rows| <= MAX_SIZE
    requires forall i :: 0 <= i < |rows| ==>
      |prev[i]| == |rows[i]| <= MAX_SIZE && WellFormedRow(ambiguous, rows[i])
    ensures Kept(t, ambiguous, FrameRows(rows, prev, full, y, e, d), d)
    decreases |rows| - y
  {
    hide Kept, WellFormedRow, FrameRow;
    if y < |rows| {
      RowKeeps(t, ambiguous, rows[y], prev[y], full, y, e, d);
      RowsKeep(t, ambiguous, rows, prev, full, y + 1, FrameRow(rows[y], prev[y], full, y, e, d), d);
    }
  }
}
