// A full frame on any terminal of the picture's size, whatever is on it (render/diff.cpp).

module FullFrames {
  import opened Cells
  import opened Profile
  import opened SgrInverse
  import opened ScreenRow
  import opened Screen
  import opened Terminal
  import opened Picture
  import opened Frame
  import opened FrameSteps
  import opened FrameProofs
  import opened FullRows

  predicate SameShape(g: Grid, rows: seq<PicRow>) {
    |g| == |rows| && forall r :: 0 <= r < |g| ==> |g[r]| == |rows[r]|
  }

  /** The page once the lines above y, and line y up to column c, have been repainted. */
  function PageAt(g: Grid, rows: seq<PicRow>, y: nat, c: nat, d: Depth): (r: Grid)
    requires SameShape(g, rows) && (y < |rows| ==> c <= |rows[y]|)
    ensures SameShape(r, rows)
  {
    seq(|g|, i requires 0 <= i < |g| =>
      if i < y then FullRow(g[i], rows[i], d) else if i == y then PaintedTo(g[i], rows[i], c, d) else g[i])
  }

  function FullGrid(g: Grid, rows: seq<PicRow>, d: Depth): (r: Grid)
    requires SameShape(g, rows)
    ensures SameShape(r, rows)
  {
    seq(|g|, i requires 0 <= i < |g| => FullRow(g[i], rows[i], d))
  }

  /** The terminal is in step with the frame under construction, and its page is exactly what the
      glyphs so far make of the page it had. */
  ghost predicate Exactly(k: Job, e: Emit, y: nat, c: nat) {
    && Fits(k) && k.full && SameShape(k.t0.term.screen.grid, k.rows) && (y < |k.rows| ==> c <= |k.rows[y]|)
    && var t := At(k, e);
    && InSync(t, e, k.d) && t.term.screen.cols == k.t0.term.screen.cols && t.term.screen.rows == k.t0.term.screen.rows
    && t.term.screen.grid == PageAt(k.t0.term.screen.grid, k.rows, y, c, k.d) && t.term.modes == k.t0.term.modes
  }

  lemma PageStep(g: Grid, rows: seq<PicRow>, y: nat, c: nat, d: Depth)
    requires SameShape(g, rows) && y < |rows| && c < |rows[y]|
    ensures PageAt(g, rows, y, c + 1, d) == PageAt(g, rows, y, c, d)[y := PaintedTo(g[y], rows[y], c + 1, d)]
  {
    hide PaintedTo, FullRow;
  }

  lemma PageTurn(g: Grid, rows: seq<PicRow>, y: nat, c: nat, d: Depth)
    requires SameShape(g, rows) && y < |rows| && c <= |rows[y]|
    ensures PageAt(g, rows, y + 1, 0, d) == PageAt(g, rows, y, c, d)[y := FullRow(g[y], rows[y], d)]
  {
    hide FullRow;
    var a, b := PageAt(g, rows, y + 1, 0, d), PageAt(g, rows, y, c, d)[y := FullRow(g[y], rows[y], d)];
    forall i | 0 <= i < |g| ensures a[i] == b[i] {
    }
  }

  lemma ExactPaint(k: Job, e: Emit, y: nat, c: nat)
    requires Exactly(k, e, y, c) && y < |k.rows| && c < |k.rows[y]| && k.rows[y][c].width != 0
    ensures Exactly(k, Paint(e, k.rows[y][c], c, y, k.d), y, c + 1)
  {
    hide Receive, Quantized, PutGlyph, WellFormedRow, Glyph, SetPen, Goto, PageAt;
    var cell, g0 := k.rows[y][c], k.t0.term.screen.grid;
    var e1 := Goto(e, c, y);
    GotoIsGood(k, e, c, y);
    var e2 := SetPen(e1, cell.style, k.d);
    SetPenIsGood(k, e1, cell.style);
    SetPenKeepsCursor(e1, cell.style, k.d);
    GlyphIsGood(k, e2, k.rows[y], c);
    GlyphWidth(k.ambiguous, k.rows[y], c);
    PageLine(g0, k.rows, y, c, k.d);
    PageStep(g0, k.rows, y, c, k.d);
  }

  lemma PageLine(g: Grid, rows: seq<PicRow>, y: nat, c: nat, d: Depth)
    requires SameShape(g, rows) && y < |rows| && c <= |rows[y]|
    ensures PageAt(g, rows, y, c, d)[y] == PaintedTo(g[y], rows[y], c, d)
  {
    hide PaintedTo, FullRow;
  }

  lemma ExactSkip(k: Job, e: Emit, y: nat, c: nat)
    requires Exactly(k, e, y, c) && y < |k.rows| && c < |k.rows[y]| && k.rows[y][c].width == 0
    ensures Exactly(k, e, y, c + 1)
  {
    hide Receive, Quantized, InSync, PageAt;
    var g0 := k.t0.term.screen.grid;
    PageLine(g0, k.rows, y, c, k.d);
    PageStep(g0, k.rows, y, c, k.d);
  }

  lemma {:induction false} ExactRun(k: Job, e: Emit, y: nat, c: nat, end: nat)
    requires Exactly(k, e, y, c) && y < |k.rows| && c <= end <= |k.rows[y]|
    ensures Exactly(k, EmitRun(k.rows[y], y, c, end, e, k.d), y, end)
    decreases end - c
  {
    hide Exactly, Paint;
    if c < end {
      if k.rows[y][c].width == 0 {
        ExactSkip(k, e, y, c);
        ExactRun(k, e, y, c + 1, end);
      } else {
        ExactPaint(k, e, y, c);
        ExactRun(k, Paint(e, k.rows[y][c], c, y, k.d), y, c + 1, end);
      }
    }
  }

  /** A full frame's scan of a line is one run from end to end. */
  lemma FullScan(row: PicRow, prev: PicRow, y: int, limit: nat, e: Emit, d: Depth)
    requires limit <= |row| == |prev|
    ensures ScanRow(row, prev, true, y, 0, limit, e, d)
         == if limit == 0 then e else EmitRun(row, y, 0, limit, e, d).(any := true)
  {
    hide EmitRun;
    if limit > 0 {
      FullRun(row, prev, 1, limit);
    }
  }

  lemma {:induction false} FullRun(row: PicRow, prev: PicRow, end: nat, limit: nat)
    requires end <= limit <= |row| == |prev|
    ensures RunEnd(row, prev, true, end, limit) == limit
    decreases limit - end
  {
    if end < limit {
      FullRun(row, prev, end + 1, limit);
    }
  }

  lemma ExactAny(k: Job, e: Emit, y: nat, c: nat)
    requires Exactly(k, e, y, c)
    ensures Exactly(k, e.(any := true), y, c)
  {
    hide Receive, PageAt, Ready, Quantized;
    SameBody(k, e, e.(any := true)) by { FitsIsValid(k); }
  }

  lemma ExactErase(k: Job, e: Emit, y: nat)
    requires y < |k.rows| && ErasesTail(k.rows[y]) && Exactly(k, e, y, ContentEnd(k.rows[y]))
    ensures Exactly(k, EraseTail(e, ContentEnd(k.rows[y]), y, k.d), y + 1, 0)
  {
    hide Receive, Quantized, EraseSpan, WellFormedRow, SetPen, Goto, E, PageAt, TailStart, PaintedTo;
    var ts, g0 := ContentEnd(k.rows[y]), k.t0.term.screen.grid;
    var e1 := Goto(e, ts, y);
    GotoIsGood(k, e, ts, y);
    var e2 := if e1.pen.bg != Default then SetPen(e1, e1.pen.(bg := Default), k.d) else e1;
    BarePen(k, e1);
    EraseIsGood(k, e2);
    PageLine(g0, k.rows, y, ts, k.d);
    PageTurn(g0, k.rows, y, ts, k.d);
  }

  lemma ExactTurn(k: Job, e: Emit, y: nat)
    requires y < |k.rows| && !ErasesTail(k.rows[y]) && Exactly(k, e, y, |k.rows[y]|)
    ensures Exactly(k, e, y + 1, 0)
  {
    hide Receive, Quantized, InSync, PageAt, PaintedTo;
    var g0 := k.t0.term.screen.grid;
    PageLine(g0, k.rows, y, |k.rows[y]|, k.d);
    PageTurn(g0, k.rows, y, |k.rows[y]|, k.d);
  }

  lemma ExactSizes(k: Job, e: Emit, y: nat, c: nat)
    requires Exactly(k, e, y, c)
    ensures |k.rows| == |k.prev| && forall i :: 0 <= i < |k.rows| ==> |k.prev[i]| == |k.rows[i]|
  {
    hide Receive, Ready, PageAt, InSync, WellFormedRow;
  }

  lemma ExactRow(k: Job, e: Emit, y: nat)
    requires y < |k.rows| && Exactly(k, e, y, 0)
    ensures |k.rows[y]| == |k.prev[y]|
    ensures Exactly(k, FrameRow(k.rows[y], k.prev[y], true, y, e, k.d), y + 1, 0)
  {
    ExactSizes(k, e, y, 0);
    hide Exactly, EraseTail, ErasesTail, EmitRun, ScanRow;
    var row, prev, limit := k.rows[y], k.prev[y], ContentEnd(k.rows[y]);
    FullScan(row, prev, y, limit, e, k.d);
    ExactRun(k, e, y, 0, limit);
    ExactAny(k, EmitRun(row, y, 0, limit, e, k.d), y, limit);
    var scanned := ScanRow(row, prev, true, y, 0, limit, e, k.d);
    EmptyRun(row, y, e, k.d);
    if ErasesTail(row) {
      ExactErase(k, scanned, y);
    } else {
      ExactTurn(k, scanned, y);
    }
  }

  lemma EmptyRun(row: PicRow, y: int, e: Emit, d: Depth)
    ensures EmitRun(row, y, 0, 0, e, d) == e
  {
  }

  lemma {:induction false} ExactRows(k: Job, e: Emit, y: nat)
    requires y <= |k.rows| && Exactly(k, e, y, 0)
    ensures |k.rows| == |k.prev| && forall i :: 0 <= i < |k.rows| ==> |k.prev[i]| == |k.rows[i]|
    ensures Exactly(k, FrameRows(k.rows, k.prev, true, y, e, k.d), |k.rows|, 0)
    decreases |k.rows| - y
  {
    hide Exactly, FrameRow, FrameRows;
    ExactSizes(k, e, y, 0);
    RowsUnfold(k.rows, k.prev, true, y, e, k.d);
    if y < |k.rows| {
      ExactRow(k, e, y);
      ExactRows(k, FrameRow(k.rows[y], k.prev[y], true, y, e, k.d), y + 1);
    }
  }

  lemma PageIsFull(g: Grid, rows: seq<PicRow>, d: Depth)
    requires SameShape(g, rows)
    ensures PageAt(g, rows, |rows|, 0, d) == FullGrid(g, rows, d)
    ensures PageAt(g, rows, 0, 0, d) == g
  {
    hide FullRow;
  }
}
