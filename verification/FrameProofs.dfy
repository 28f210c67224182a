// The repaint compiler preserves meaning: fed to the emulator, its bytes leave the screen showing
// the picture.

module FrameProofs {
  import opened Bytes
  import opened Cells
  import opened Width
  import opened Utf8
  import opened Profile
  import opened SgrInverse
  import opened ScreenRow
  import opened Screen
  import opened ScreenProofs
  import opened Terminal
  import opened Picture
  import opened Frame
  import opened FrameSteps

  /** The screen cell shows the picture cell: same width, and on a glyph the same character in
      the style the colour depth can display. */
  predicate Shows(sc: SCell, c: Cell, d: Depth) {
    sc.width == c.width && (c.width != 0 ==> sc.ch == Shown(c.ch) && sc.style == Quantized(c.style, d))
  }

  /** Repainted up to column c: every column before it shows its cell, and so does every column
      the frame has no reason to touch. */
  ghost predicate RowShows(row: Row, cur: PicRow, prev: PicRow, full: bool, c: nat, d: Depth) {
    && |row| == |cur| == |prev|
    && forall x :: 0 <= x < |row| && (x < c || !Differs(cur, prev, full, x)) ==> Shows(row[x], cur[x], d)
  }

  lemma ShowsMore(row: Row, cur: PicRow, prev: PicRow, full: bool, c: nat, c': nat, d: Depth)
    requires RowShows(row, cur, prev, full, c, d)
    requires forall x :: c <= x < c' && x < |row| && Differs(cur, prev, full, x) ==> Shows(row[x], cur[x], d)
    ensures RowShows(row, cur, prev, full, c', d)
  {
    hide Shows, Differs;
  }

  // ---- One line.

  /** A continuation after shown columns is shown: its head forces it. */
  lemma ContinuationShows(ambiguous: bool, row: Row, cur: PicRow, prev: PicRow, full: bool, c: nat, d: Depth)
    requires Whole(row) && WellFormedRow(ambiguous, cur) && RowShows(row, cur, prev, full, c, d)
    requires c < |row| && cur[c].width == 0
    ensures RowShows(row, cur, prev, full, c + 1, d)
  {
    assert WellFormedAt(ambiguous, cur, c);
    assert Shows(row[c - 1], cur[c - 1], d);
    assert PairedAt(row, c - 1);
    assert Shows(row[c], cur[c], d);
    ShowsMore(row, cur, prev, full, c, c + 1, d);
  }

  /** Painting a glyph breaks nothing that is shown: an orphan it blanks is always a column still
      to be painted. */
  lemma PaintColumn(ambiguous: bool, row: Row, cur: PicRow, prev: PicRow, full: bool, c: nat, pen: Style, d: Depth,
                    x: nat)
    requires Paired(row) && WellFormedRow(ambiguous, cur) && RowShows(row, cur, prev, full, c, d)
    requires c < |row| && cur[c].width != 0 && pen == Quantized(cur[c].style, d)
    requires x < |row| && (x <= c || !Differs(cur, prev, full, x))
    requires cur[c].width <= 2 && (cur[c].width == 2 ==> c + 1 < |row|)
    ensures Shows(PutCell(row, c, Shown(cur[c].ch), cur[c].width, pen, x), cur[x], d)
  {
    hide Quantized, CharWidth, Shown;
    assert WellFormedAt(ambiguous, cur, c) && PairedAt(row, c);
    assert WellFormedAt(ambiguous, cur, x) && PairedAt(row, x);
    if x == c + 1 {
    } else if x == c + 2 && cur[c].width == 2 {
      assert WellFormedAt(ambiguous, cur, c + 1) && PairedAt(row, c + 1);
    } else if x + 1 == c {
      assert Shows(row[x], cur[x], d);
    }
  }

  lemma PaintRow(ambiguous: bool, row: Row, cur: PicRow, prev: PicRow, full: bool, c: nat, pen: Style, d: Depth)
    requires Whole(row) && WellFormedRow(ambiguous, cur) && RowShows(row, cur, prev, full, c, d)
    requires c < |row| && cur[c].width != 0 && pen == Quantized(cur[c].style, d)
    ensures var r := PutGlyph(row, c, Shown(cur[c].ch), cur[c].width, pen);
      Whole(r) && RowShows(r, cur, prev, full, c + 1, d)
  {
    var cp, w := Shown(cur[c].ch), cur[c].width;
    var r := PutGlyph(row, c, cp, w, pen);
    assert WellFormedAt(ambiguous, cur, c);
    hide Quantized, CharWidth, Shown;
    if |row| == 1 {
      assert r == [SCell(cp, w, pen)];
    } else {
      hide PutGlyph, Shows, Differs, WellFormedAt;
      PutGlyphKeepsPairs(row, c, cp, w, pen);
      PutKeepsLength(row, c, cp, w, pen);
      forall x | 0 <= x < |r| && (x < c + 1 || !Differs(cur, prev, full, x))
        ensures Shows(r[x], cur[x], d)
      {
        PutGlyphAt(row, c, cp, w, pen, x);
        PaintColumn(ambiguous, row, cur, prev, full, c, pen, d, x);
      }
    }
  }

  lemma PutKeepsLength(row: Row, x: nat, cp: nat, w: nat, pen: Style)
    requires x < |row|
    ensures |PutGlyph(row, x, cp, w, pen)| == |row|
  {
  }

  lemma {:induction false} TailIsBlank(row: PicRow, n: nat)
    requires n <= |row|
    ensures forall x :: TailStart(row, n) <= x < n ==> row[x] == BLANK
    ensures TailStart(row, n) > 0 ==> row[TailStart(row, n) - 1] != BLANK
  {
    if n > 0 && row[n - 1] == BLANK {
      TailIsBlank(row, n - 1);
    }
  }

  /** Erasing the blank tail shows it, and cannot bite into the content before it. */
  lemma EraseColumn(ambiguous: bool, row: Row, cur: PicRow, prev: PicRow, full: bool, ts: nat, d: Depth, x: nat)
    requires Paired(row) && WellFormedRow(ambiguous, cur) && RowShows(row, cur, prev, full, ts, d)
    requires ts + 2 <= |row| && (forall i :: ts <= i < |row| ==> cur[i] == BLANK) && x < |row|
    ensures Shows(ErasedCell(row, ts, |row| - 1, EMPTY, x), cur[x], d)
  {
    hide CharWidth;
    assert PairedAt(row, ts);
    if x < ts {
      assert Shows(row[x], cur[x], d);
      assert WellFormedAt(ambiguous, cur, x);
    }
  }

  lemma EraseRow(ambiguous: bool, row: Row, cur: PicRow, prev: PicRow, full: bool, d: Depth)
    requires Whole(row) && WellFormedRow(ambiguous, cur) && ErasesTail(cur)
    requires RowShows(row, cur, prev, full, TailStart(cur, |cur|), d)
    ensures var r := EraseSpan(row, TailStart(cur, |cur|), |row| - 1, EMPTY);
      Whole(r) && RowShows(r, cur, prev, full, |cur|, d)
  {
    hide EraseSpan, Shows, Differs, WellFormedAt;
    var ts := TailStart(cur, |cur|);
    TailIsBlank(cur, |cur|);
    var r := EraseSpan(row, ts, |row| - 1, EMPTY);
    EraseKeepsLength(row, ts, |row| - 1, EMPTY);
    EraseSpanKeepsPairs(row, ts, |row| - 1, EMPTY);
    forall x | 0 <= x < |r|
      ensures Shows(r[x], cur[x], d)
    {
      EraseBorder(row, ts);
      EraseSpanAt(row, ts, |row| - 1, EMPTY, x);
      EraseColumn(ambiguous, row, cur, prev, full, ts, d, x);
    }
  }

  lemma EraseBorder(row: Row, x: nat)
    requires Paired(row) && x + 1 < |row|
    ensures row[x].width == 2 ==> row[x + 1].width == 0
  {
    assert PairedAt(row, x);
  }

  lemma EraseKeepsLength(row: Row, from: int, to: int, e: SCell)
    ensures |EraseSpan(row, from, to, e)| == |row|
  {
  }

  // ---- The emulator in step with the frame under construction.

  /** One repaint: the terminal it starts from, and the pictures before and after. */
  datatype Job = Job(t0: Emulator, ambiguous: bool, rows: seq<PicRow>, prev: seq<PicRow>, full: bool, d: Depth)

  /** The terminal and both pictures have the same size, one the wire can carry. */
  ghost predicate Fits(k: Job) {
    var s := k.t0.term.screen;
    && Ready(k.t0)
    && |k.rows| == |k.prev| == s.rows <= MAX_SIZE && s.cols <= MAX_SIZE
    && (forall y :: 0 <= y < |k.rows| ==> |k.rows[y]| == |k.prev[y]| == s.cols)
    && (forall y :: 0 <= y < |k.rows| ==> WellFormedRow(k.ambiguous, k.rows[y]))
  }

  /** The terminal once it has received the frame so far. */
  function At(k: Job, e: Emit): Emulator
    requires Valid(k.t0.term.screen)
  {
    Receive(k.t0, k.ambiguous, e.body)
  }

  /** The frame's beliefs about pen and cursor are true of the terminal. */
  ghost predicate InSync(t: Emulator, e: Emit, d: Depth) {
    var s := t.term.screen;
    && Ready(t) && s.pen == Quantized(e.pen, d)
    && (e.known ==> s.cy == e.py && (e.px < s.cols ==> s.cx == e.px && !s.wrap))
  }

  /** Lines above y are repainted, line y up to column c. */
  ghost predicate PageShows(g: Grid, k: Job, y: nat, c: nat) {
    && |g| == |k.rows| == |k.prev|
    && forall r :: 0 <= r < |g| ==>
      Whole(g[r])
      && RowShows(g[r], k.rows[r], k.prev[r], k.full, if r < y then |k.rows[r]| else if r == y then c else 0, k.d)
  }

  ghost predicate Good(k: Job, e: Emit, y: nat, c: nat) {
    && Fits(k)
    && var t := At(k, e);
       InSync(t, e, k.d) && t.term.screen.cols == k.t0.term.screen.cols && t.term.screen.rows == k.t0.term.screen.rows
       && PageShows(t.term.screen.grid, k, y, c) && t.term.modes == k.t0.term.modes
  }

  lemma Extend(k: Job, e: Emit, s: bytes)
    requires Valid(k.t0.term.screen)
    ensures Valid(At(k, e).term.screen)
    ensures At(k, e.(body := e.body + s)) == Receive(At(k, e), k.ambiguous, s)
  {
    hide Valid, Receive;
    ReceiveConcat(k.t0, k.ambiguous, e.body, s);
  }

  /** Only the bytes count. */
  lemma SameBody(k: Job, e: Emit, f: Emit)
    requires Valid(k.t0.term.screen) && e.body == f.body
    ensures At(k, e) == At(k, f)
  {
  }

  lemma GotoIsGood(k: Job, e: Emit, x: nat, y: nat)
    requires Fits(k) && InSync(At(k, e), e, k.d)
    requires var s := At(k, e).term.screen; x < s.cols <= MAX_SIZE && y < s.rows <= MAX_SIZE
    ensures var g := Goto(e, x, y); var s, u := At(k, e).term.screen, At(k, g).term.screen;
      InSync(At(k, g), g, k.d) && u == s.(cx := x, cy := y, wrap := false) && g.known && g.px == x && g.py == y
      && At(k, g).term.modes == At(k, e).term.modes
  {
    hide Receive, Quantized;
    var g := Goto(e, x, y);
    if g == e {
      var s := At(k, e).term.screen;
      assert s == s.(cx := x, cy := y, wrap := false);
    } else {
      Extend(k, e, Cup(x, y));
      SameBody(k, g, e.(body := e.body + Cup(x, y)));
      ReceiveCup(At(k, e), k.ambiguous, x, y);
    }
  }

  lemma SetPenIsGood(k: Job, e: Emit, to: Style)
    requires Fits(k) && InSync(At(k, e), e, k.d)
    ensures var g := SetPen(e, to, k.d);
      InSync(At(k, g), g, k.d) && At(k, g).term.screen == At(k, e).term.screen.(pen := Quantized(to, k.d))
      && At(k, g).term.modes == At(k, e).term.modes
  {
    hide Receive, Quantized, Transition;
    var g := SetPen(e, to, k.d);
    Extend(k, e, Transition(e.pen, to, k.d));
    SameBody(k, g, e.(body := e.body + Transition(e.pen, to, k.d)));
    ReceiveTransition(At(k, e), k.ambiguous, e.pen, to, k.d);
  }

  lemma GlyphWidth(ambiguous: bool, row: PicRow, x: nat)
    requires WellFormedRow(ambiguous, row) && x < |row| && row[x].width != 0
    ensures 1 <= row[x].width <= 2 && x + row[x].width <= |row|
    ensures 0x20 <= row[x].ch != 0x7F && CharWidth(ambiguous, Shown(row[x].ch)) == row[x].width
  {
    assert WellFormedAt(ambiguous, row, x);
    var cp := row[x].ch;
    if !IsScalar(cp) {
      ReplacementIsNarrow(ambiguous, cp);
      ReplacementIsNarrow(ambiguous, 0xFFFD);
    }
  }

  /** Printed where it fits and with no wrap pending, a glyph goes where the cursor is. */
  lemma PrintInPlace(s: Scr, ambiguous: bool, cp: nat, w: nat)
    requires Valid(s) && s.charset.Ascii? && !s.wrap && CharWidth(ambiguous, cp) == w && w > 0 && s.cx + w <= s.cols
    ensures Screen.Print(s, ambiguous, cp) == Put(s, cp, w)
  {
    hide CharWidth, Put, LineFeed;
  }

  lemma GlyphIsGood(k: Job, e: Emit, row: PicRow, c: nat)
    requires Fits(k) && InSync(At(k, e), e, k.d) && e.known && e.px == c
    requires WellFormedRow(k.ambiguous, row) && c < |row| == At(k, e).term.screen.cols && row[c].width != 0
    ensures var g := Glyph(e, row[c]);
      InSync(At(k, g), g, k.d) && At(k, g).term.screen == Put(At(k, e).term.screen, Shown(row[c].ch), row[c].width)
      && At(k, g).term.modes == At(k, e).term.modes
  {
    hide Receive, Quantized, EncodeUtf8, CharWidth, Shown, PutGlyph;
    var g, t := Glyph(e, row[c]), At(k, e);
    GlyphWidth(k.ambiguous, row, c);
    Extend(k, e, EncodeUtf8(row[c].ch));
    SameBody(k, g, e.(body := e.body + EncodeUtf8(row[c].ch)));
    ReceiveGlyph(t, k.ambiguous, row[c].ch);
    PrintInPlace(t.term.screen, k.ambiguous, Shown(row[c].ch), row[c].width);
  }

  // ---- From glyphs to frames.

  lemma PagePainted(k: Job, g: Grid, y: nat, c: nat, r: Row)
    requires PageShows(g, k, y, c) && y < |g|
    requires Whole(r) && RowShows(r, k.rows[y], k.prev[y], k.full, c + 1, k.d)
    ensures PageShows(g[y := r], k, y, c + 1)
  {
    hide Whole, RowShows;
  }

  lemma PaintIsGood(k: Job, e: Emit, y: nat, c: nat)
    requires Good(k, e, y, c) && y < |k.rows| && c < |k.rows[y]| && k.rows[y][c].width != 0
    ensures Good(k, Paint(e, k.rows[y][c], c, y, k.d), y, c + 1)
  {
    hide Receive, Quantized, PutGlyph, Whole, RowShows, WellFormedRow, Glyph, SetPen, Goto;
    var cell := k.rows[y][c];
    var e1 := Goto(e, c, y);
    GotoIsGood(k, e, c, y);
    var e2 := SetPen(e1, cell.style, k.d);
    SetPenIsGood(k, e1, cell.style);
    SetPenKeepsCursor(e1, cell.style, k.d);
    GlyphIsGood(k, e2, k.rows[y], c);
    var s0, s2 := At(k, e).term.screen, At(k, e2).term.screen;
    GlyphWidth(k.ambiguous, k.rows[y], c);
    PaintRow(k.ambiguous, s0.grid[y], k.rows[y], k.prev[y], k.full, c, s2.pen, k.d);
    PagePainted(k, s0.grid, y, c, PutGlyph(s0.grid[y], c, Shown(cell.ch), cell.width, s2.pen));
  }

  lemma SetPenKeepsCursor(e: Emit, to: Style, d: Depth)
    ensures var g := SetPen(e, to, d); g.known == e.known && g.px == e.px && g.py == e.py && g.pen == to
  {
  }

  lemma SkipContinuation(k: Job, e: Emit, y: nat, c: nat)
    requires Good(k, e, y, c) && y < |k.rows| && c < |k.rows[y]| && k.rows[y][c].width == 0
    ensures Good(k, e, y, c + 1)
  {
    hide Receive, Quantized, Whole, RowShows, WellFormedRow, InSync;
    var g := At(k, e).term.screen.grid;
    LengthsAgree(k, g, y, c);
    ContinuationShows(k.ambiguous, g[y], k.rows[y], k.prev[y], k.full, c, k.d);
    PagePainted(k, g, y, c, g[y]);
    assert g[y := g[y]] == g;
  }

  lemma LengthsAgree(k: Job, g: Grid, y: nat, c: nat)
    requires PageShows(g, k, y, c) && y < |g|
    ensures |g[y]| == |k.rows[y]| == |k.prev[y]|
  {
  }

  lemma {:induction false} EmitRunIsGood(k: Job, e: Emit, y: nat, c: nat, end: nat)
    requires Good(k, e, y, c) && y < |k.rows| && c <= end <= |k.rows[y]|
    ensures Good(k, EmitRun(k.rows[y], y, c, end, e, k.d), y, end)
    decreases end - c
  {
    hide Good, Paint;
    if c < end {
      if k.rows[y][c].width == 0 {
        SkipContinuation(k, e, y, c);
        EmitRunIsGood(k, e, y, c + 1, end);
      } else {
        PaintIsGood(k, e, y, c);
        EmitRunIsGood(k, Paint(e, k.rows[y][c], c, y, k.d), y, c + 1, end);
      }
    }
  }

  /** A column that does not differ is shown already. */
  lemma SkipSame(k: Job, e: Emit, y: nat, c: nat)
    requires Good(k, e, y, c) && y < |k.rows| && c < |k.rows[y]| == |k.prev[y]|
    requires !Differs(k.rows[y], k.prev[y], k.full, c)
    ensures Good(k, e, y, c + 1)
  {
    hide Receive, Quantized, Whole, WellFormedRow, InSync, Shows;
    var g := At(k, e).term.screen.grid;
    LengthsAgree(k, g, y, c);
    ShowsMore(g[y], k.rows[y], k.prev[y], k.full, c, c + 1, k.d);
    PagePainted(k, g, y, c, g[y]);
    assert g[y := g[y]] == g;
  }

  /** Backing up to a head only forgets columns that were shown. */
  lemma BackUp(k: Job, e: Emit, y: nat, c: nat, start: nat)
    requires Good(k, e, y, c) && start <= c
    ensures Good(k, e, y, start)
  {
    hide Receive, Quantized, Whole, WellFormedRow, InSync;
    var g := At(k, e).term.screen.grid;
    forall r | 0 <= r < |g|
      ensures RowShows(g[r], k.rows[r], k.prev[r], k.full,
                       if r < y then |k.rows[r]| else if r == y then start else 0, k.d)
    {
    }
  }

  lemma SetAny(k: Job, e: Emit, y: nat, c: nat)
    requires Good(k, e, y, c)
    ensures Good(k, e.(any := true), y, c)
  {
    hide Receive, PageShows, Ready, Quantized;
    SameBody(k, e, e.(any := true)) by { FitsIsValid(k); }
  }

  lemma FitsIsValid(k: Job)
    requires Fits(k)
    ensures Valid(k.t0.term.screen)
  {
  }

  lemma {:induction false} ScanRowIsGood(k: Job, e: Emit, y: nat, x: nat, limit: nat)
    requires Good(k, e, y, x) && y < |k.rows| && x <= limit <= |k.rows[y]| == |k.prev[y]|
    ensures Good(k, ScanRow(k.rows[y], k.prev[y], k.full, y, x, limit, e, k.d), y, limit)
    decreases limit - x
  {
    assert y < |k.prev|;
    hide Good, EmitRun, Differs;
    var row, prev := k.rows[y], k.prev[y];
    if x < limit {
      if !Differs(row, prev, k.full, x) {
        SkipSame(k, e, y, x);
        ScanRowIsGood(k, e, y, x + 1, limit);
      } else {
        var start, end := RunStart(row, x), RunEnd(row, prev, k.full, x + 1, limit);
        BackUp(k, e, y, x, start);
        EmitRunIsGood(k, e, y, start, end);
        SetAny(k, EmitRun(row, y, start, end, e, k.d), y, end);
        ScanRowIsGood(k, EmitRun(row, y, start, end, e, k.d).(any := true), y, end, limit);
      }
    }
  }

  /** The pen the tail is erased with has the default background. */
  lemma BarePen(k: Job, e: Emit)
    requires Fits(k) && InSync(At(k, e), e, k.d)
    ensures var g := if e.pen.bg != Default then SetPen(e, e.pen.(bg := Default), k.d) else e;
      && InSync(At(k, g), g, k.d) && g.pen.bg == Default
      && At(k, g).term.screen == At(k, e).term.screen.(pen := At(k, g).term.screen.pen)
      && E(At(k, g).term.screen) == EMPTY
      && g.known == e.known && g.px == e.px && g.py == e.py && At(k, g).term.modes == At(k, e).term.modes
  {
    hide Receive, Transition;
    if e.pen.bg != Default {
      SetPenIsGood(k, e, e.pen.(bg := Default));
    }
  }

  /** CSI K: the line is erased from the cursor on, nothing else moves. */
  lemma EraseIsGood(k: Job, e: Emit)
    requires Fits(k) && InSync(At(k, e), e, k.d)
    ensures var g := e.(body := e.body + ERASE_TO_END, any := true); var s := At(k, e).term.screen;
      InSync(At(k, g), g, k.d) && At(k, g).term.screen == EraseLine(s, 0)
      && At(k, g).term.modes == At(k, e).term.modes
  {
    hide Receive, Quantized, EraseSpan;
    var g := e.(body := e.body + ERASE_TO_END);
    Extend(k, e, ERASE_TO_END);
    SameBody(k, g, e.(body := e.body + ERASE_TO_END, any := true));
    ReceiveErase(At(k, e), k.ambiguous);
  }

  lemma PageErased(k: Job, g: Grid, y: nat, c: nat, r: Row)
    requires PageShows(g, k, y, c) && y < |g|
    requires Whole(r) && RowShows(r, k.rows[y], k.prev[y], k.full, |k.rows[y]|, k.d)
    ensures PageShows(g[y := r], k, y, |k.rows[y]|)
  {
    hide Whole, RowShows;
  }

  lemma EraseTailIsGood(k: Job, e: Emit, y: nat)
    requires y < |k.rows| && ErasesTail(k.rows[y]) && Good(k, e, y, TailStart(k.rows[y], |k.rows[y]|))
    ensures Good(k, EraseTail(e, TailStart(k.rows[y], |k.rows[y]|), y, k.d), y, |k.rows[y]|)
  {
    hide Receive, Quantized, EraseSpan, Whole, RowShows, WellFormedRow, SetPen, Goto, E;
    var ts := TailStart(k.rows[y], |k.rows[y]|);
    var e1 := Goto(e, ts, y);
    GotoIsGood(k, e, ts, y);
    var e2 := if e1.pen.bg != Default then SetPen(e1, e1.pen.(bg := Default), k.d) else e1;
    BarePen(k, e1);
    EraseIsGood(k, e2);
    var g := At(k, e).term.screen.grid;
    EraseRow(k.ambiguous, g[y], k.rows[y], k.prev[y], k.full, k.d);
    PageErased(k, g, y, ts, EraseSpan(g[y], ts, |g[y]| - 1, EMPTY));
  }

  /** A tail that does not differ is shown already. */
  lemma SkipTail(k: Job, e: Emit, y: nat, c: nat)
    requires Good(k, e, y, c) && y < |k.rows| && |k.rows[y]| == |k.prev[y]|
    requires !TailDiffers(k.rows[y], k.prev[y], k.full, c)
    ensures Good(k, e, y, |k.rows[y]|)
  {
    hide Receive, Quantized, Whole, WellFormedRow, InSync, Shows;
    var g := At(k, e).term.screen.grid;
    LengthsAgree(k, g, y, c);
    ShowsMore(g[y], k.rows[y], k.prev[y], k.full, c, |k.rows[y]|, k.d);
    PageErased(k, g, y, c, g[y]);
    assert g[y := g[y]] == g;
  }

  lemma NextRow(k: Job, e: Emit, y: nat)
    requires y < |k.rows| && Good(k, e, y, |k.rows[y]|)
    ensures Good(k, e, y + 1, 0)
  {
    hide Receive, Quantized, Whole, RowShows, WellFormedRow, InSync;
  }

  lemma GoodSizes(k: Job, e: Emit, y: nat, c: nat)
    requires Good(k, e, y, c)
    ensures |k.rows| == |k.prev| && forall i :: 0 <= i < |k.rows| ==> |k.prev[i]| == |k.rows[i]|
  {
    hide Receive, Ready, PageShows, InSync, WellFormedRow;
  }

  lemma FrameRowIsGood(k: Job, e: Emit, y: nat)
    requires y < |k.rows| && Good(k, e, y, 0)
    ensures |k.rows[y]| == |k.prev[y]|
    ensures Good(k, FrameRow(k.rows[y], k.prev[y], k.full, y, e, k.d), y + 1, 0)
  {
    GoodSizes(k, e, y, 0);
    hide Good, ScanRow, EraseTail, TailDiffers, ErasesTail;
    var row, prev, limit := k.rows[y], k.prev[y], ContentEnd(k.rows[y]);
    ScanRowIsGood(k, e, y, 0, limit);
    var scanned := ScanRow(row, prev, k.full, y, 0, limit, e, k.d);
    if ErasesTail(row) {
      if TailDiffers(row, prev, k.full, limit) {
        EraseTailIsGood(k, scanned, y);
        NextRow(k, EraseTail(scanned, limit, y, k.d), y);
      } else {
        SkipTail(k, scanned, y, limit);
        NextRow(k, scanned, y);
      }
    } else {
      NextRow(k, scanned, y);
    }
  }

  lemma RowsUnfold(rows: seq<PicRow>, prev: seq<PicRow>, full: bool, y: nat, e: Emit, d: Depth)
    requires y <= |rows| == |prev| && forall i :: 0 <= i < |rows| ==> |prev[i]| == |rows[i]|
    ensures FrameRows(rows, prev, full, y, e, d) ==
      if y == |rows| then e
      else FrameRows(rows, prev, full, y + 1, FrameRow(rows[y], prev[y], full, y, e, d), d)
  {
    hide FrameRow;
  }

  lemma {:induction false} FrameRowsIsGood(k: Job, e: Emit, y: nat)
    requires y <= |k.rows| && Good(k, e, y, 0)
    ensures |k.rows| == |k.prev| && forall i :: 0 <= i < |k.rows| ==> |k.prev[i]| == |k.rows[i]|
    ensures Good(k, FrameRows(k.rows, k.prev, k.full, y, e, k.d), |k.rows|, 0)
    decreases |k.rows| - y
  {
    hide Good, FrameRow, FrameRows;
    GoodSizes(k, e, y, 0);
    RowsUnfold(k.rows, k.prev, k.full, y, e, k.d);
    if y < |k.rows| {
      FrameRowIsGood(k, e, y);
      FrameRowsIsGood(k, FrameRow(k.rows[y], k.prev[y], k.full, y, e, k.d), y + 1);
    }
  }
}
