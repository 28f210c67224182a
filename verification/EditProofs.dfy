// What moves and what goes when lines and characters are inserted, deleted or erased (vt/screen.cpp).

module EditProofs {
  import opened Bytes
  import opened Cells
  import opened ScreenRow
  import opened Scrollback
  import opened Screen
  import opened ScreenOrders

  function BlankLine(s: Scr): Row { BlankRow(s.cols, Erased(s.pen)) }

  // ---- Lines.

  /** Line y once the lines from `from` to `to` have gone down by k, k blank ones coming in above. */
  function FromAbove(g: Grid, blank: Row, from: int, to: int, k: nat, y: nat): Row
    requires y < |g|
  {
    if y < from || to < y then g[y] else if y < from + k || y < k then blank else g[y - k]
  }

  /** Line y once they have gone up by k, k blank ones coming in below. */
  function FromBelow(g: Grid, blank: Row, from: int, to: int, k: nat, y: nat): Row
    requires y < |g|
  {
    if y < from || to < y then g[y] else if y > to - k || y + k >= |g| then blank else g[y + k]
  }

  ghost predicate MovedDown(g: Grid, h: Grid, blank: Row, from: int, to: int, k: nat) {
    |h| == |g| && forall y :: 0 <= y < |g| ==> h[y] == FromAbove(g, blank, from, to, k, y)
  }

  ghost predicate MovedUp(g: Grid, h: Grid, blank: Row, from: int, to: int, k: nat) {
    |h| == |g| && forall y :: 0 <= y < |g| ==> h[y] == FromBelow(g, blank, from, to, k, y)
  }

  lemma DownRows(g: Grid, blanks: Grid, blank: Row, from: nat, to: nat)
    requires from <= to < |g| && |blanks| <= to - from + 1 && forall y :: 0 <= y < |blanks| ==> blanks[y] == blank
    ensures MovedDown(g, g[..from] + blanks + g[from..to + 1 - |blanks|] + g[to + 1..], blank, from, to, |blanks|)
  {
  }

  lemma UpRows(g: Grid, blanks: Grid, blank: Row, from: nat, to: nat)
    requires from <= to < |g| && |blanks| <= to - from + 1 && forall y :: 0 <= y < |blanks| ==> blanks[y] == blank
    ensures MovedUp(g, g[..from] + g[from + |blanks|..to + 1] + blanks + g[to + 1..], blank, from, to, |blanks|)
  {
  }

  lemma SliceDownMoves(s: Scr, from: nat, to: nat, n: int)
    requires Valid(s) && n >= 1 && from <= to < s.rows
    ensures var r := ScrollSliceDown(s, from, to, n);
      r == s.(grid := r.grid) && MovedDown(s.grid, r.grid, BlankLine(s), from, to, Min(n, to - from + 1))
  {
    var k := Min(n, to - from + 1);
    DownRows(s.grid, BlankGrid(s.cols, k, Erased(s.pen)), BlankLine(s), from, to);
    hide BlankRow, MovedDown, BlankGrid;
  }

  lemma SliceUpMoves(s: Scr, from: nat, to: nat, n: int)
    requires Valid(s) && n >= 1 && from <= to < s.rows
    ensures var r := ScrollSliceUp(s, from, to, n);
      r == s.(grid := r.grid) && MovedUp(s.grid, r.grid, BlankLine(s), from, to, Min(n, to - from + 1))
  {
    var k := Min(n, to - from + 1);
    UpRows(s.grid, BlankGrid(s.cols, k, Erased(s.pen)), BlankLine(s), from, to);
    hide BlankRow, MovedUp, BlankGrid;
  }

  /** IL: inside the region the cursor's line and those below it make room; outside nothing happens. */
  lemma InsertLinesMoves(s: Scr, n: int)
    requires Valid(s)
    ensures var r := InsertLines(s, n);
      if n >= 1 && s.top <= s.cy <= s.bottom then
        r == s.(grid := r.grid) && MovedDown(s.grid, r.grid, BlankLine(s), s.cy, s.bottom, Min(n, s.bottom - s.cy + 1))
      else r == s
  {
    hide ScrollSliceDown, MovedDown;
    if n >= 1 && s.top <= s.cy <= s.bottom { SliceDownMoves(s, s.cy, s.bottom, n); }
  }

  /** DL: the lines below the deleted ones come up, up to the bottom of the region. */
  lemma DeleteLinesMoves(s: Scr, n: int)
    requires Valid(s)
    ensures var r := DeleteLines(s, n);
      if n >= 1 && s.top <= s.cy <= s.bottom then
        r == s.(grid := r.grid) && MovedUp(s.grid, r.grid, BlankLine(s), s.cy, s.bottom, Min(n, s.bottom - s.cy + 1))
      else r == s
  {
    hide ScrollSliceUp, MovedUp;
    if n >= 1 && s.top <= s.cy <= s.bottom { SliceUpMoves(s, s.cy, s.bottom, n); }
  }

  /** RI: one line up; from the top of the region the region goes down instead. */
  lemma ReverseIndexMoves(s: Scr)
    requires Valid(s)
    ensures var r := ReverseIndex(s);
      if s.cy == s.top then
        r == s.(wrap := false, grid := r.grid) && MovedDown(s.grid, r.grid, BlankLine(s), s.top, s.bottom, 1)
      else r == s.(wrap := false, cy := Max(0, s.cy - 1))
  {
    hide ScrollSliceDown;
    if s.cy == s.top { SliceDownMoves(s.(wrap := false), s.top, s.bottom, 1); }
  }

  /** LF: one line down; from the bottom of the region the region goes up instead. */
  lemma LineFeedMoves(s: Scr)
    requires Valid(s)
    ensures var r := LineFeed(s);
      if s.cy == s.bottom then
        r == s.(wrap := false, grid := r.grid, history := r.history)
        && MovedUp(s.grid, r.grid, BlankLine(s), s.top, s.bottom, 1)
      else r == s.(wrap := false, cy := Min(s.cy + 1, s.rows - 1))
  {
    hide ScrollSliceUp, Push;
    if s.cy == s.bottom {
      var t := s.(wrap := false);
      var u := if Feeds(t) then t.(history := Some(Push(t.history.value, t.grid[t.top]))) else t;
      if Feeds(t) { PushKeepsSound(t.history.value, t.grid[t.top]); }
      SliceUpMoves(u, u.top, u.bottom, 1);
    }
  }

  /** Lines inserted and deleted again are gone; of those they pushed down, the last ones too. */
  lemma DeleteUndoesInsert(s: Scr, n: int)
    requires Valid(s) && n >= 1 && s.top <= s.cy <= s.bottom
    ensures Valid(InsertLines(s, n))
    ensures var k, r := Min(n, s.bottom - s.cy + 1), DeleteLines(InsertLines(s, n), n);
      BottomBlank(s.grid, r.grid, BlankLine(s), s.bottom, k)
  {
    SliceDownKeepsBounds(s, s.cy, s.bottom, n);
    InsertLinesMoves(s, n);
    hide InsertLines, DeleteLines, BottomBlank, MovedDown, MovedUp, Valid;
    Deleted(s, InsertLines(s, n), n);
  }

  /** The last k lines down to `bottom` are blank, the others as they were. */
  ghost predicate BottomBlank(g: Grid, h: Grid, blank: Row, bottom: int, k: nat) {
    |h| == |g| && forall y :: 0 <= y < |g| ==> h[y] == if bottom - k < y <= bottom then blank else g[y]
  }

  lemma Deleted(s: Scr, m: Scr, n: int)
    requires Valid(s) && Valid(m) && n >= 1 && s.top <= s.cy <= s.bottom && m == s.(grid := m.grid)
    requires MovedDown(s.grid, m.grid, BlankLine(s), s.cy, s.bottom, Min(n, s.bottom - s.cy + 1))
    ensures BottomBlank(s.grid, DeleteLines(m, n).grid, BlankLine(s), s.bottom, Min(n, s.bottom - s.cy + 1))
  {
    DeleteLinesMoves(m, n);
    hide DeleteLines, MovedDown, MovedUp, BottomBlank;
    DownAndUp(s.grid, m.grid, DeleteLines(m, n).grid, BlankLine(s), s.cy, s.bottom, Min(n, s.bottom - s.cy + 1));
  }

  lemma DownAndUp(g: Grid, m: Grid, h: Grid, blank: Row, from: nat, to: nat, k: nat)
    requires from <= to < |g| && 1 <= k <= to - from + 1
    requires MovedDown(g, m, blank, from, to, k) && MovedUp(m, h, blank, from, to, k)
    ensures BottomBlank(g, h, blank, to, k)
  {
    forall y | 0 <= y < |g| ensures h[y] == if to - k < y <= to then blank else g[y] {
      if from <= y <= to - k {
        var z := y + k;
        assert m[z] == FromAbove(g, blank, from, to, k, z);
      }
    }
  }

  // ---- Erasing.

  /** A cell next to an erased span may have been half of a glyph that was cut. */
  predicate Stands(was: SCell, now: SCell, e: SCell) { now == was || (was.width != 1 && now == e) }

  /** The span is erased, the other columns stand. */
  ghost predicate ErasedSpan(row: Row, r: Row, from: int, to: int, e: SCell) {
    |r| == |row| && forall i :: 0 <= i < |row| ==> if from <= i <= to then r[i] == e else Stands(row[i], r[i], e)
  }

  lemma SpanIsErased(row: Row, from: int, to: int, e: SCell)
    requires Paired(row) && e.width == 1
    ensures ErasedSpan(row, EraseSpan(row, from, to, e), from, to, e)
  {
    var x0, x1 := Max(0, from), Min(|row| - 1, to);
    if x0 <= x1 {
      assert EraseSpan(row, from, to, e) == EraseSpan(row, x0, x1, e);
      assert PairedAt(row, x0) && PairedAt(row, x1);
      hide EraseSpan;
      forall i | 0 <= i < |row|
        ensures var r := EraseSpan(row, x0, x1, e);
          if from <= i <= to then r[i] == e else Stands(row[i], r[i], e)
      {
        EraseSpanAt(row, x0, x1, e, i);
      }
    }
  }

  /** The cursor's line, erased between two columns; nothing else. */
  ghost predicate LineErased(s: Scr, r: Scr, from: int, to: int)
    requires Valid(s)
  {
    && r == s.(grid := r.grid) && |r.grid| == s.rows
    && ErasedSpan(s.grid[s.cy], r.grid[s.cy], from, to, Erased(s.pen))
    && forall y :: 0 <= y < s.rows && y != s.cy ==> r.grid[y] == s.grid[y]
  }

  lemma InLineErased(s: Scr, from: int, to: int)
    requires Valid(s) && Paired(s.grid[s.cy])
    ensures LineErased(s, EraseInLine(s, from, to), from, to)
  {
    SpanIsErased(s.grid[s.cy], from, to, Erased(s.pen));
    hide EraseSpan, ErasedSpan;
  }

  /** EL: from the cursor to the end, from the start to the cursor, or all of the line; and ECH: n
      columns from the cursor on. */
  lemma EraseLineErases(s: Scr, mode: int, n: int)
    requires Valid(s) && Paired(s.grid[s.cy])
    ensures LineErased(s, EraseLine(s, 0), s.cx, s.cols - 1) && LineErased(s, EraseLine(s, 1), 0, s.cx)
    ensures LineErased(s, EraseLine(s, 2), 0, s.cols - 1)
    ensures mode !in {0, 1, 2} ==> EraseLine(s, mode) == s
    ensures LineErased(s, EraseChars(s, n), s.cx, s.cx + n - 1)
  {
    hide EraseInLine, LineErased;
    InLineErased(s, s.cx, s.cols - 1);
    InLineErased(s, 0, s.cx);
    InLineErased(s, 0, s.cols - 1);
    InLineErased(s, s.cx, s.cx + n - 1);
  }

  /** The whole lines in [first, last) and the cursor's line between two columns are erased. */
  ghost predicate PageErased(s: Scr, r: Scr, first: int, last: int, from: int, to: int)
    requires Valid(s)
  {
    && r == s.(grid := r.grid) && |r.grid| == s.rows
    && ErasedSpan(s.grid[s.cy], r.grid[s.cy], from, to, Erased(s.pen))
    && forall y :: 0 <= y < s.rows && y != s.cy ==> r.grid[y] == if first <= y < last then BlankLine(s) else s.grid[y]
  }

  lemma RowsErased(s: Scr, first: nat, last: nat)
    requires Valid(s) && first <= last <= s.rows
    ensures var r := EraseRows(s, first, last);
      && Valid(r) && r == s.(grid := r.grid) && |r.grid| == s.rows
      && forall y :: 0 <= y < s.rows ==> r.grid[y] == if first <= y < last then BlankLine(s) else s.grid[y]
  {
    hide BlankRow;
  }

  lemma PageIsErased(s: Scr, first: nat, last: nat, from: int, to: int)
    requires Valid(s) && Paired(s.grid[s.cy]) && first <= last <= s.rows && !(first <= s.cy < last)
    ensures Valid(EraseRows(s, first, last))
    ensures PageErased(s, EraseInLine(EraseRows(s, first, last), from, to), first, last, from, to)
  {
    RowsErased(s, first, last);
    hide EraseRows, EraseInLine, ErasedSpan, BlankRow;
    InLineErased(EraseRows(s, first, last), from, to);
  }

  /** ED: from the cursor to the end of the page, from its start to the cursor, or all of it. */
  lemma EraseDisplayErases(s: Scr, mode: int)
    requires Valid(s) && Paired(s.grid[s.cy])
    ensures PageErased(s, EraseDisplay(s, 0), s.cy + 1, s.rows, s.cx, s.cols - 1)
    ensures PageErased(s, EraseDisplay(s, 1), 0, s.cy, 0, s.cx)
    ensures var r := EraseDisplay(s, 2);
      r == s.(grid := r.grid) && |r.grid| == s.rows && forall y :: 0 <= y < s.rows ==> r.grid[y] == BlankLine(s)
    ensures mode !in {0, 1, 2} ==> EraseDisplay(s, mode) == s
  {
    hide EraseInLine, PageErased, BlankLine;
    PageIsErased(s, s.cy + 1, s.rows, s.cx, s.cols - 1);
    PageIsErased(s, 0, s.cy, 0, s.cx);
    RowsErased(s, 0, s.rows);
    hide EraseRows;
  }

  // ---- Characters.

  lemma InsertedAll(row: Row, x: nat, k: nat, e: SCell)
    requires Paired(row) && x < |row| && 1 <= k && x + k <= |row| && e.width == 1
    ensures var b := BreakWideAt(row, x, e);
      b[x].width == 1 && forall i :: 0 <= i < |row| ==> InsertChars(row, x, k, e)[i] == InsertedCell(b, x, k, e, i)
  {
    BreakKeepsPairs(row, x, e);
    hide BreakWideAt, InsertChars, InsertedCell;
    forall i | 0 <= i < |row| ensures InsertChars(row, x, k, e)[i] == InsertedCell(BreakWideAt(row, x, e), x, k, e, i) {
      InsertCharsAt(row, x, k, e, i);
    }
  }

  lemma DeletedAll(row: Row, x: nat, k: nat, e: SCell)
    requires Paired(row) && x < |row| && 1 <= k && x + k <= |row| && e.width == 1
    ensures forall i :: 0 <= i < |row| ==> DeleteChars(row, x, k, e)[i] == DeletedCell(Cut(row, x, k, e), x, k, e, i)
  {
    hide Cut, DeleteChars, DeletedCell;
    forall i | 0 <= i < |row| ensures DeleteChars(row, x, k, e)[i] == DeletedCell(Cut(row, x, k, e), x, k, e, i) {
      DeleteCharsAt(row, x, k, e, i);
    }
  }

  /** Line b shifted right by k from column x on, but for a first half that reaches the edge. */
  ghost predicate ShiftedRight(b: Row, r: Row, x: nat, k: nat)
    requires |r| == |b|
  {
    forall i :: x + k <= i < |b| && !(i == |b| - 1 && b[i - k].width == 2) ==> r[i] == b[i - k]
  }

  ghost predicate ShiftedLeft(c: Row, r: Row, x: nat, k: nat)
    requires |r| == |c|
  {
    forall i :: x <= i < |c| - k ==> r[i] == c[i + k]
  }

  /** What was left of x stands, and k columns from there are erased; a head pushed to the edge too. */
  ghost predicate GapMade(b: Row, r: Row, x: nat, k: nat, e: SCell)
    requires |r| == |b| && k < |b|
  {
    && (forall i :: 0 <= i < x && i < |b| ==> r[i] == b[i]) && (forall i :: x <= i < x + k && i < |b| ==> r[i] == e)
    && (b[|b| - 1 - k].width == 2 ==> r[|r| - 1] == e)
  }

  /** ICH of k at x moves what was right of the cursor by k: false exactly where a first half stood in the
      last of the k columns, whose erasure takes the first moved cell with it. */
  lemma InsertShiftsIff(row: Row, x: nat, k: nat, e: SCell)
    requires Paired(row) && x < |row| && 1 <= k && x + k < |row| && e.width == 1
    ensures GapMade(BreakWideAt(row, x, e), InsertChars(row, x, k, e), x, k, e)
    ensures var b := BreakWideAt(row, x, e);
      ShiftedRight(b, InsertChars(row, x, k, e), x, k) <==> b[x + k - 1].width != 2 || b[x] == e
  {
    assert |BreakWideAt(row, x, e)| == |InsertChars(row, x, k, e)| == |row|;
    hide BreakWideAt, InsertChars, Paired, ShiftedRight, InsertedCell, GapMade;
    InsertedAll(row, x, k, e);
    InsertedShifts(BreakWideAt(row, x, e), InsertChars(row, x, k, e), x, k, e);
  }

  lemma InsertedShifts(b: Row, r: Row, x: nat, k: nat, e: SCell)
    requires |r| == |b| && 1 <= k && x + k < |b| && e.width == 1 && b[x].width == 1
    requires forall i :: 0 <= i < |b| ==> r[i] == InsertedCell(b, x, k, e, i)
    ensures GapMade(b, r, x, k, e)
    ensures ShiftedRight(b, r, x, k) <==> b[x + k - 1].width != 2 || b[x] == e
  {
    var i := x + k;
    assert r[i] == InsertedCell(b, x, k, e, i) && b[i - k] == b[x];
    var last := |b| - 1;
    assert r[last] == InsertedCell(b, x, k, e, last);
  }

  /** A narrow cell pushed right over a wide glyph is lost. */
  lemma InsertLosesACell(a: SCell)
    requires a.width == 1 && a != EMPTY
    ensures var row := [a, SCell(0x4E00, 2, PLAIN), SCell(32, 0, PLAIN), EMPTY];
      Paired(row) && InsertChars(row, 0, 2, EMPTY) == [EMPTY, EMPTY, EMPTY, EMPTY]
  {
    var row := [a, SCell(0x4E00, 2, PLAIN), SCell(32, 0, PLAIN), EMPTY];
    assert Paired(row);
    assert BreakWideAt(row, 0, EMPTY) == row;
    InsertedAll(row, 0, 2, EMPTY);
  }

  /** What was left of x stands, and the last k columns are erased. */
  ghost predicate TailFreed(c: Row, r: Row, x: nat, k: nat, e: SCell)
    requires |r| == |c|
  {
    (forall i :: 0 <= i < x && i < |c| ==> r[i] == c[i]) && (forall i :: 0 <= i < |c| && |c| - k <= i ==> r[i] == e)
  }

  /** DCH of k at x moves what was right of the deleted cells to the cursor: false exactly where the first
      stale column holds a second half, whose erasure takes the last moved cell with it. */
  lemma DeleteShiftsIff(row: Row, x: nat, k: nat, e: SCell)
    requires Paired(row) && x < |row| && 1 <= k && x + k < |row| && e.width == 1
    ensures TailFreed(Cut(row, x, k, e), DeleteChars(row, x, k, e), x, k, e)
    ensures ShiftedLeft(Cut(row, x, k, e), DeleteChars(row, x, k, e), x, k) <==> TailIsFree(Cut(row, x, k, e), k, e)
  {
    assert |Cut(row, x, k, e)| == |DeleteChars(row, x, k, e)| == |row|;
    hide Cut, DeleteChars, Paired, ShiftedLeft, DeletedCell, TailFreed, TailIsFree;
    DeletedAll(row, x, k, e);
    DeletedShifts(Cut(row, x, k, e), DeleteChars(row, x, k, e), x, k, e);
  }

  /** No second half in the first of the last k columns, or nothing to lose in the last one. */
  predicate TailIsFree(c: Row, k: nat, e: SCell)
    requires 1 <= k <= |c|
  {
    c[|c| - k].width != 0 || c[|c| - 1] == e
  }

  lemma DeletedShifts(c: Row, r: Row, x: nat, k: nat, e: SCell)
    requires |r| == |c| && 1 <= k && x + k < |c|
    requires forall i :: 0 <= i < |c| ==> r[i] == DeletedCell(c, x, k, e, i)
    ensures TailFreed(c, r, x, k, e)
    ensures ShiftedLeft(c, r, x, k) <==> TailIsFree(c, k, e)
  {
    var i := |c| - k - 1;
    assert r[i] == DeletedCell(c, x, k, e, i) && c[i + k] == c[|c| - 1];
  }

  /** Two cells deleted left of a wide glyph, and the narrow cell right of it is lost. */
  lemma DeleteLosesACell(a: SCell)
    requires a.width == 1 && a != EMPTY
    ensures var wide, half := SCell(0x4E00, 2, PLAIN), SCell(32, 0, PLAIN);
      var row := [EMPTY, EMPTY, EMPTY, wide, half, a];
      Paired(row) && DeleteChars(row, 0, 2, EMPTY) == [EMPTY, wide, half, EMPTY, EMPTY, EMPTY]
  {
    var row := [EMPTY, EMPTY, EMPTY, SCell(0x4E00, 2, PLAIN), SCell(32, 0, PLAIN), a];
    assert Paired(row);
    assert Cut(row, 0, 2, EMPTY) == row;
    DeletedAll(row, 0, 2, EMPTY);
  }

  /** A cut blanks the glyph it falls into, and one that starts there, and nothing else. */
  lemma CutBreaksOne(row: Row, x: nat, e: SCell, i: nat)
    requires Paired(row) && x < |row| && i < |row|
    ensures BreakWideAt(row, x, e)[i] ==
      if (row[x].width == 2 && (i == x || i == x + 1)) || (row[x].width == 0 && (i == x || i + 1 == x)) then e else row[i]
  {
    assert PairedAt(row, x);
  }

  lemma NothingToBreak(row: Row, x: nat, k: nat, e: SCell)
    requires forall j :: 0 <= j < |row| ==> row[j].width == 1
    ensures Paired(row) && BreakWideAt(row, x, e) == row && Cut(row, x, k, e) == row
  {
  }

  function Pushed(row: Row, x: nat, k: nat, e: SCell, i: nat): SCell
    requires i < |row|
  {
    if i < x then row[i] else if i < x + k then e else row[i - k]
  }

  function Pulled(row: Row, x: nat, k: nat, e: SCell, i: nat): SCell
    requires i < |row|
  {
    if i < x then row[i] else if i + k < |row| then row[i + k] else e
  }

  ghost predicate PushedRight(row: Row, r: Row, x: nat, k: nat, e: SCell) {
    |r| == |row| && forall i :: 0 <= i < |row| ==> r[i] == Pushed(row, x, k, e, i)
  }

  ghost predicate PulledLeft(row: Row, r: Row, x: nat, k: nat, e: SCell) {
    |r| == |row| && forall i :: 0 <= i < |row| ==> r[i] == Pulled(row, x, k, e, i)
  }

  /** Where every glyph is narrow, characters inserted push the rest of the line right, and characters
      deleted pull it left. */
  lemma NarrowLinesShift(row: Row, x: nat, n: int, e: SCell)
    requires x < |row| && n >= 1 && e.width == 1 && forall j :: 0 <= j < |row| ==> row[j].width == 1
    ensures PushedRight(row, InsertChars(row, x, n, e), x, Min(n, |row| - x), e)
    ensures PulledLeft(row, DeleteChars(row, x, n, e), x, Min(n, |row| - x), e)
  {
    var k := Min(n, |row| - x);
    NothingToBreak(row, x, k, e);
    CountIsClamped(row, x, n, e);
    assert |InsertChars(row, x, k, e)| == |DeleteChars(row, x, k, e)| == |row|;
    hide InsertChars, DeleteChars, BreakWideAt, Cut, Paired, PushedRight, PulledLeft;
    InsertedAll(row, x, k, e);
    NarrowInserted(row, InsertChars(row, x, k, e), x, k, e);
    DeletedAll(row, x, k, e);
    NarrowDeleted(row, DeleteChars(row, x, k, e), x, k, e);
  }

  lemma NarrowInserted(row: Row, r: Row, x: nat, k: nat, e: SCell)
    requires |r| == |row| && 1 <= k && x + k <= |row| && x < |row| && forall j :: 0 <= j < |row| ==> row[j].width == 1
    requires forall i :: 0 <= i < |row| ==> r[i] == InsertedCell(row, x, k, e, i)
    ensures PushedRight(row, r, x, k, e)
  {
  }

  lemma NarrowDeleted(row: Row, r: Row, x: nat, k: nat, e: SCell)
    requires |r| == |row| && 1 <= k && x + k <= |row| && x < |row| && forall j :: 0 <= j < |row| ==> row[j].width == 1
    requires forall i :: 0 <= i < |row| ==> r[i] == DeletedCell(row, x, k, e, i)
    ensures PulledLeft(row, r, x, k, e)
  {
  }

  lemma CountIsClamped(row: Row, x: nat, n: int, e: SCell)
    requires x < |row| && n >= 1
    ensures var k := Min(n, |row| - x);
      InsertChars(row, x, n, e) == InsertChars(row, x, k, e) && DeleteChars(row, x, n, e) == DeleteChars(row, x, k, e)
  {
    hide BreakWideAt, Cut, EraseSpan, ShiftLeft, ShiftRight;
  }
}
