// The repaint compiler: from the previous and the new picture to the bytes that turn one into the
// other on a terminal (render/diff.cpp), as functions.

module Frame {
  import opened Bytes
  import opened Cells
  import opened Utf8
  import opened Profile
  import opened Picture

  /** Below this length a blank tail is cheaper as literal spaces. */
  const MIN_ERASABLE_TAIL := 4

  function Cup(x: int, y: int): bytes {
    [ESC, 91] + ToString(y + 1) + [59] + ToString(x + 1) + [72]
  }

  const ERASE_TO_END: bytes := [ESC, 91, 75]
  const HIDE_CURSOR: bytes := [ESC, 91, 63] + Dec(25) + [108]
  const PROLOGUE: bytes := HIDE_CURSOR + CsiBytes([0], 109)
  const SHOW_CURSOR: bytes := [ESC, 91, 63] + Dec(25) + [104]

  /** The frame under construction: the bytes so far, and what the terminal is known to be at. */
  datatype Emit = Emit(body: bytes, pen: Style, known: bool, px: int, py: int, any: bool)

  const START := Emit([], PLAIN, false, 0, 0, false)

  /** Anchors the cursor, unless it is known to be there already. */
  function Goto(e: Emit, x: int, y: int): Emit {
    if !e.known || e.px != x || e.py != y
    then e.(body := e.body + Cup(x, y), known := true, px := x, py := y)
    else e
  }

  function SetPen(e: Emit, to: Style, d: Depth): Emit {
    e.(body := e.body + Transition(e.pen, to, d), pen := to)
  }

  /** After a non-ASCII glyph the implicit cursor position is not trusted. */
  function Glyph(e: Emit, c: Cell): Emit {
    e.(body := e.body + EncodeUtf8(c.ch), px := e.px + c.width, known := e.known && c.ch < 0x80)
  }

  function Paint(e: Emit, c: Cell, x: int, y: int, d: Depth): Emit {
    Glyph(SetPen(Goto(e, x, y), c.style, d), c)
  }

  function EmitRun(row: PicRow, y: int, c: nat, end: nat, e: Emit, d: Depth): Emit
    requires c <= end <= |row|
    decreases end - c
  {
    if c == end then e
    else EmitRun(row, y, c + 1, end, if row[c].width == 0 then e else Paint(e, row[c], c, y, d), d)
  }

  predicate Differs(row: PicRow, prev: PicRow, full: bool, x: nat)
    requires x < |row| && |prev| == |row|
  {
    full || row[x] != prev[x]
  }

  /** Never start on a continuation: back up to its head. */
  function RunStart(row: PicRow, x: nat): (s: nat)
    requires x < |row|
    ensures s <= x
  {
    if x > 0 && row[x].width == 0 then RunStart(row, x - 1) else x
  }

  function RunEnd(row: PicRow, prev: PicRow, full: bool, end: nat, limit: nat): (r: nat)
    requires end <= limit <= |row| && |prev| == |row|
    ensures end <= r <= limit
    decreases limit - end
  {
    if end < limit && (Differs(row, prev, full, end) || row[end].width == 0)
    then RunEnd(row, prev, full, end + 1, limit)
    else end
  }

  function ScanRow(row: PicRow, prev: PicRow, full: bool, y: int, x: nat, limit: nat, e: Emit, d: Depth): Emit
    requires x <= limit <= |row| && |prev| == |row|
    decreases limit - x
  {
    if x == limit then e
    else if !Differs(row, prev, full, x) then ScanRow(row, prev, full, y, x + 1, limit, e, d)
    else
      var end := RunEnd(row, prev, full, x + 1, limit);
      ScanRow(row, prev, full, y, end, limit, EmitRun(row, y, RunStart(row, x), end, e, d).(any := true), d)
  }

  /** The start of the longest suffix of default blanks within the first n cells. */
  function TailStart(row: PicRow, n: nat): (s: nat)
    requires n <= |row|
    ensures s <= n
  {
    if n > 0 && row[n - 1] == BLANK then TailStart(row, n - 1) else n
  }

  predicate ErasesTail(row: PicRow) {
    |row| - TailStart(row, |row|) >= MIN_ERASABLE_TAIL
  }

  function ContentEnd(row: PicRow): (n: nat)
    ensures n <= |row|
  {
    if ErasesTail(row) then TailStart(row, |row|) else |row|
  }

  predicate TailDiffers(row: PicRow, prev: PicRow, full: bool, from: nat)
    requires |prev| == |row|
  {
    full || exists x :: from <= x < |row| && row[x] != prev[x]
  }

  /** `CSI K` erases with the current background: bring that back to the default first. */
  function EraseTail(e: Emit, x: int, y: int, d: Depth): Emit {
    var at := Goto(e, x, y);
    var plain := if at.pen.bg != Default then SetPen(at, at.pen.(bg := Default), d) else at;
    plain.(body := plain.body + ERASE_TO_END, any := true)
  }

  function FrameRow(row: PicRow, prev: PicRow, full: bool, y: int, e: Emit, d: Depth): Emit
    requires |prev| == |row|
  {
    var limit := ContentEnd(row);
    var scanned := ScanRow(row, prev, full, y, 0, limit, e, d);
    if ErasesTail(row) && TailDiffers(row, prev, full, limit) then EraseTail(scanned, limit, y, d) else scanned
  }

  function FrameRows(rows: seq<PicRow>, prev: seq<PicRow>, full: bool, y: nat, e: Emit, d: Depth): Emit
    requires y <= |rows| == |prev| && forall i :: 0 <= i < |rows| ==> |prev[i]| == |rows[i]|
    decreases |rows| - y
  {
    if y == |rows| then e
    else FrameRows(rows, prev, full, y + 1, FrameRow(rows[y], prev[y], full, y, e, d), d)
  }

  // ---- The differ's own state.

  datatype Memory = Memory(prev: Picture, valid: bool, lastTarget: Pos, lastShown: bool, first: bool)

  /** A size change forgets the terminal. */
  function Fitted(m: Memory, cur: Picture): (r: Memory)
    requires SizedPicture(m.prev)
    ensures SizedPicture(r.prev) && r.prev.w == cur.w && r.prev.h == cur.h
  {
    if m.prev.w != cur.w || m.prev.h != cur.h then m.(prev := Blank(cur.w, cur.h), valid := false) else m
  }

  function Target(cursor: Option<Pos>): Pos {
    if cursor.Some? then cursor.value else Pos(0, 0)
  }

  predicate CursorChanged(m: Memory, cursor: Option<Pos>) {
    m.first || Target(cursor) != m.lastTarget || cursor.Some? != m.lastShown
  }

  /** The body of the frame. */
  function Body(m: Memory, cur: Picture, d: Depth): Emit
    requires SizedPicture(m.prev) && SizedPicture(cur)
  {
    var f := Fitted(m, cur);
    FrameRows(cur.rows, f.prev.rows, !f.valid, 0, START, d)
  }

  predicate Silent(m: Memory, cur: Picture, cursor: Option<Pos>, d: Depth)
    requires SizedPicture(m.prev) && SizedPicture(cur)
  {
    !Body(m, cur, d).any && Fitted(m, cur).valid && !CursorChanged(m, cursor)
  }

  function FrameBytes(m: Memory, cur: Picture, cursor: Option<Pos>, d: Depth): bytes
    requires SizedPicture(m.prev) && SizedPicture(cur)
  {
    if Silent(m, cur, cursor, d) then []
    else
      PROLOGUE + Body(m, cur, d).body + Cup(Target(cursor).x, Target(cursor).y)
      + (if cursor.Some? then SHOW_CURSOR else [])
  }

  function After(m: Memory, cur: Picture, cursor: Option<Pos>, d: Depth): Memory
    requires SizedPicture(m.prev) && SizedPicture(cur)
  {
    if Silent(m, cur, cursor, d) then Fitted(m, cur)
    else Memory(cur, true, Target(cursor), cursor.Some?, false)
  }
}
