// What a full repaint makes of one line of a terminal in any state, and of which lines it makes the
// picture (render/diff.cpp, vt/screen.cpp).

module FullRows {
  import opened Cells
  import opened Width
  import opened SgrInverse
  import opened Profile
  import opened ScreenRow
  import opened Picture
  import opened Frame
  import opened FrameProofs

  /** The line once the picture's glyphs before column c have been printed over it. */
  function PaintedTo(row: Row, cur: PicRow, c: nat, d: Depth): (r: Row)
    requires c <= |row| == |cur|
    ensures |r| == |row|
  {
    if c == 0 then row
    else
      var r, cell := PaintedTo(row, cur, c - 1, d), cur[c - 1];
      if cell.width == 0 then r else PutGlyph(r, c - 1, Shown(cell.ch), cell.width, Quantized(cell.style, d))
  }

  /** The line after the row of a full frame: the glyphs, and the erased tail if there is one. */
  function FullRow(row: Row, cur: PicRow, d: Depth): (r: Row)
    requires |row| == |cur|
    ensures |r| == |row|
  {
    var painted := PaintedTo(row, cur, ContentEnd(cur), d);
    if ErasesTail(cur) then EraseSpan(painted, ContentEnd(cur), |row| - 1, EMPTY) else painted
  }

  ghost predicate RowIs(row: Row, cur: PicRow, d: Depth) {
    |row| == |cur| && forall x :: 0 <= x < |row| ==> Shows(row[x], cur[x], d)
  }

  /** The width a repaint from the left meets at column x: a first half met there has taken its
      neighbour with it. */
  function Met(row: Row, x: nat): nat
    requires x < |row|
  {
    if x > 0 && Met(row, x - 1) == 2 then 1 else row[x].width
  }

  /** No second half is ever met: its glyph would be blanked with what was just printed there. */
  ghost predicate Receptive(row: Row) {
    forall x :: 0 < x < |row| ==> Met(row, x) != 0
  }

  // ---- One glyph over any line.

  /** Column i after a glyph at column x, whatever the line was. */
  lemma PutAnywhereAt(row: Row, x: nat, cp: nat, w: nat, pen: Style, i: nat)
    requires x < |row| && i < |row| && 1 <= w <= 2 && (w == 2 ==> x + 1 < |row|)
    ensures var r := PutGlyph(row, x, cp, w, pen);
      && (i == x ==> r[i] == SCell(cp, w, pen))
      && (w == 2 && i == x + 1 ==> r[i] == SCell(32, 0, pen))
      && (i + 1 == x ==> r[i] == if row[x].width == 0 then Erased(pen) else row[i])
      && (i + 1 < x || i > x + w ==> r[i] == row[i])
  {
  }

  /** Right of a glyph, the line is as before but for a first half that lost its second. */
  lemma PutAfter(row: Row, x: nat, cp: nat, w: nat, pen: Style)
    requires x < |row| && 1 <= w <= 2 && x + w < |row|
    ensures var last := if w == 1 || row[x].width == 2 then (if w == 1 then row[x].width else 1) else row[x + 1].width;
      PutGlyph(row, x, cp, w, pen)[x + w] == if last == 2 then Erased(pen) else row[x + w]
  {
  }

  // ---- What has not been reached yet.

  /** The part of the line from column c on, during the repaint. A column covered by the glyph just
      printed is not met at all. */
  ghost predicate Ahead(r: Row, row: Row, cur: PicRow, c: nat)
    requires |r| == |row| == |cur|
  {
    if c < |row| && cur[c].width == 0 then r[c].width == 0 && AheadFrom(r, row, c + 1) else AheadFrom(r, row, c)
  }

  ghost predicate AheadFrom(r: Row, row: Row, c: nat)
    requires |r| == |row|
  {
    && (c < |row| ==> r[c].width == Met(row, c))
    && forall i :: c < i < |row| ==> r[i] == row[i]
  }

  lemma GlyphPushesAhead(ambiguous: bool, r: Row, row: Row, cur: PicRow, c: nat, pen: Style)
    requires |r| == |row| == |cur| && c < |row| && WellFormedRow(ambiguous, cur) && cur[c].width != 0
    requires Ahead(r, row, cur, c)
    ensures Ahead(PutGlyph(r, c, Shown(cur[c].ch), cur[c].width, pen), row, cur, c + 1)
  {
    var cp, w := Shown(cur[c].ch), cur[c].width;
    assert WellFormedAt(ambiguous, cur, c);
    if c + 1 < |row| { assert WellFormedAt(ambiguous, cur, c + 1); }
    assert 1 <= w <= 2 && c + w <= |row| && (c + 1 < |row| ==> (cur[c + 1].width == 0 <==> w == 2));
    hide PutGlyph, CharWidth, WellFormedAt, WellFormedRow, Shown;
    var now := PutGlyph(r, c, cp, w, pen);
    PutKeepsLength(r, c, cp, w, pen);
    forall i | c + w < i < |row| ensures now[i] == row[i] {
      PutAnywhereAt(r, c, cp, w, pen, i);
    }
    if w == 2 {
      PutAnywhereAt(r, c, cp, w, pen, c + 1);
    }
    if c + w < |row| {
      PutAfter(r, c, cp, w, pen);
      assert Met(row, c + w) == if (if w == 1 then Met(row, c) else Met(row, c + 1)) == 2 then 1 else row[c + w].width;
    }
  }

  lemma {:induction false} PaintedIsAhead(ambiguous: bool, row: Row, cur: PicRow, c: nat, d: Depth)
    requires c <= |row| == |cur| && WellFormedRow(ambiguous, cur)
    ensures Ahead(PaintedTo(row, cur, c, d), row, cur, c)
  {
    hide Quantized, PutGlyph, WellFormedRow;
    if c == 0 {
      FirstIsGlyph(ambiguous, cur);
    } else {
      PaintedIsAhead(ambiguous, row, cur, c - 1, d);
      var r, cell := PaintedTo(row, cur, c - 1, d), cur[c - 1];
      if cell.width != 0 {
        GlyphPushesAhead(ambiguous, r, row, cur, c - 1, Quantized(cell.style, d));
      } else {
        AfterContinuation(ambiguous, cur, c - 1);
      }
    }
  }

  lemma FirstIsGlyph(ambiguous: bool, cur: PicRow)
    requires WellFormedRow(ambiguous, cur)
    ensures cur != [] ==> cur[0].width != 0
  {
    if cur != [] { assert WellFormedAt(ambiguous, cur, 0); }
  }

  lemma AfterContinuation(ambiguous: bool, cur: PicRow, c: nat)
    requires WellFormedRow(ambiguous, cur) && c < |cur| && cur[c].width == 0
    ensures c + 1 < |cur| ==> cur[c + 1].width != 0
  {
    assert WellFormedAt(ambiguous, cur, c);
    if c + 1 < |cur| { assert WellFormedAt(ambiguous, cur, c + 1); }
  }

  // ---- A receptive line shows every picture.

  ghost predicate ShownTo(r: Row, cur: PicRow, c: nat, d: Depth) {
    |r| == |cur| && forall x :: 0 <= x < c && x < |r| ==> Shows(r[x], cur[x], d)
  }

  lemma GlyphShows(ambiguous: bool, r: Row, cur: PicRow, c: nat, d: Depth)
    requires ShownTo(r, cur, c, d) && c < |r| && WellFormedRow(ambiguous, cur) && cur[c].width != 0
    requires c > 0 ==> r[c].width != 0
    ensures ShownTo(PutGlyph(r, c, Shown(cur[c].ch), cur[c].width, Quantized(cur[c].style, d)), cur, c + 1, d)
  {
    var cp, w, pen := Shown(cur[c].ch), cur[c].width, Quantized(cur[c].style, d);
    assert WellFormedAt(ambiguous, cur, c);
    hide PutGlyph, Quantized, Shown, CharWidth, WellFormedRow;
    PutKeepsLength(r, c, cp, w, pen);
    forall x | 0 <= x < c + 1 ensures Shows(PutGlyph(r, c, cp, w, pen)[x], cur[x], d) {
      PutAnywhereAt(r, c, cp, w, pen, x);
    }
  }

  lemma {:induction false} PaintedShows(ambiguous: bool, row: Row, cur: PicRow, c: nat, d: Depth)
    requires c <= |row| == |cur| && WellFormedRow(ambiguous, cur) && Receptive(row)
    ensures ShownTo(PaintedTo(row, cur, c, d), cur, c, d)
  {
    hide Quantized, PutGlyph, WellFormedRow, Shows;
    if c > 0 {
      PaintedShows(ambiguous, row, cur, c - 1, d);
      PaintedIsAhead(ambiguous, row, cur, c - 1, d);
      var r := PaintedTo(row, cur, c - 1, d);
      if cur[c - 1].width != 0 {
        GlyphShows(ambiguous, r, cur, c - 1, d);
      } else {
        ContinuationIsShown(r[c - 1], cur[c - 1], d);
      }
    }
  }

  lemma ContinuationIsShown(sc: SCell, c: Cell, d: Depth)
    requires sc.width == c.width == 0
    ensures Shows(sc, c, d)
  {
  }

  /** Erasing a tail of a line whose border holds no second half. */
  lemma EraseAfter(r: Row, ts: nat, i: nat)
    requires ts + 2 <= |r| && i < |r| && (ts > 0 ==> r[ts].width != 0)
    ensures EraseSpan(r, ts, |r| - 1, EMPTY)[i] == if i < ts then r[i] else EMPTY
  {
  }

  /** A full frame shows any picture on a receptive line. */
  lemma ReceptiveShows(ambiguous: bool, row: Row, cur: PicRow, d: Depth)
    requires |row| == |cur| && WellFormedRow(ambiguous, cur) && Receptive(row)
    ensures RowIs(FullRow(row, cur, d), cur, d)
  {
    var ts := ContentEnd(cur);
    PaintedShows(ambiguous, row, cur, ts, d);
    hide PaintedTo, EraseSpan, Met, Quantized;
    if ErasesTail(cur) {
      ErasedTailShows(ambiguous, row, cur, d);
    }
  }

  lemma ErasedTailShows(ambiguous: bool, row: Row, cur: PicRow, d: Depth)
    requires |row| == |cur| && WellFormedRow(ambiguous, cur) && Receptive(row) && ErasesTail(cur)
    ensures RowIs(FullRow(row, cur, d), cur, d)
  {
    hide PaintedTo, EraseSpan, Met, Quantized, WellFormedRow, Receptive;
    var ts := ContentEnd(cur);
    PaintedShows(ambiguous, row, cur, ts, d);
    TailIsBlank(cur, |cur|);
    PaintedIsAhead(ambiguous, row, cur, ts, d);
    hide ContentEnd, TailStart;
    TailIsErased(row, PaintedTo(row, cur, ts, d), cur, ts, d);
  }

  lemma TailIsErased(row: Row, painted: Row, cur: PicRow, ts: nat, d: Depth)
    requires |row| == |painted| == |cur| && ts + 2 <= |cur| && ShownTo(painted, cur, ts, d) && Ahead(painted, row, cur, ts)
    requires Receptive(row) && forall x :: ts <= x < |cur| ==> cur[x] == BLANK
    ensures RowIs(EraseSpan(painted, ts, |cur| - 1, EMPTY), cur, d)
  {
    EraseKeepsLength(painted, ts, |cur| - 1, EMPTY);
    assert cur[ts] == BLANK && Shows(EMPTY, BLANK, d);
    assert ts > 0 ==> painted[ts].width == Met(row, ts) != 0;
    hide EraseSpan, Shows, Met;
    var r := EraseSpan(painted, ts, |cur| - 1, EMPTY);
    forall x | 0 <= x < |r| ensures Shows(r[x], cur[x], d) {
      EraseAfter(painted, ts, x);
    }
  }

  // ---- Any other line spoils some picture.

  const LETTER := Cell(65, PLAIN, 1)

  function Letters(n: nat): (r: PicRow)
    ensures |r| == n && forall x :: 0 <= x < n ==> r[x] == LETTER
  {
    seq(n, _ => LETTER)
  }

  lemma LettersAreWellFormed(ambiguous: bool, n: nat)
    ensures WellFormedRow(ambiguous, Letters(n))
    ensures ContentEnd(Letters(n)) == n && !ErasesTail(Letters(n))
  {
    AsciiIsNarrow(ambiguous, 65);
    hide CharWidth;
    assert TailStart(Letters(n), n) == n;
  }

  lemma LetterPut(r: Row, x: nat, i: nat)
    requires x < |r| && i < |r|
    ensures var now := PutGlyph(r, x, 65, 1, PLAIN);
      && (i + 1 == x && r[x].width == 0 ==> now[i].ch == 32)
      && (i + 1 < x ==> now[i] == r[i])
  {
    PutAnywhereAt(r, x, 65, 1, PLAIN, i);
  }

  lemma LetterStep(row: Row, c: nat, d: Depth)
    requires 0 < c <= |row|
    ensures var cur := Letters(|row|);
      PaintedTo(row, cur, c, d) == PutGlyph(PaintedTo(row, cur, c - 1, d), c - 1, 65, 1, PLAIN)
  {
    assert Quantized(PLAIN, d) == PLAIN;
    hide PutGlyph;
  }

  /** The column before a second half that is met stays blank from then on. */
  lemma {:induction false} SpoiltColumn(row: Row, x: nat, c: nat, d: Depth)
    requires 0 < x < c <= |row| && Met(row, x) == 0
    ensures PaintedTo(row, Letters(|row|), c, d)[x - 1].ch == 32
    decreases c
  {
    hide PutGlyph, PaintedTo, Met;
    LetterStep(row, c, d);
    var r := PaintedTo(row, Letters(|row|), c - 1, d);
    LetterPut(r, c - 1, x - 1);
    if c == x + 1 {
      LettersAreWellFormed(false, |row|);
      PaintedIsAhead(false, row, Letters(|row|), x, d);
    } else {
      SpoiltColumn(row, x, c - 1, d);
    }
  }

  lemma LettersAreSpoilt(row: Row, d: Depth)
    requires !Receptive(row)
    ensures !RowIs(FullRow(row, Letters(|row|), d), Letters(|row|), d)
  {
    var x :| 0 < x < |row| && Met(row, x) == 0;
    LettersAreWellFormed(false, |row|);
    SpoiltColumn(row, x, |row|, d);
    hide PaintedTo, Met, ContentEnd, ErasesTail;
    assert !Shows(FullRow(row, Letters(|row|), d)[x - 1], LETTER, d);
  }

  ghost predicate ShowsEveryRow(ambiguous: bool, row: Row, d: Depth) {
    forall cur: PicRow :: |cur| == |row| && WellFormedRow(ambiguous, cur) ==> RowIs(FullRow(row, cur, d), cur, d)
  }

  /** A full frame shows every picture on a line exactly if no second half is met on it. */
  lemma FullRowShowsIff(ambiguous: bool, row: Row, d: Depth)
    ensures ShowsEveryRow(ambiguous, row, d) <==> Receptive(row)
  {
    hide FullRow, RowIs, Met, WellFormedRow;
    if Receptive(row) {
      forall cur: PicRow | |cur| == |row| && WellFormedRow(ambiguous, cur) ensures RowIs(FullRow(row, cur, d), cur, d) {
        ReceptiveShows(ambiguous, row, cur, d);
      }
    } else {
      LettersAreWellFormed(ambiguous, |row|);
      LettersAreSpoilt(row, d);
    }
  }

  /** A line whose glyphs are whole is receptive: a second half always has its first before it. */
  lemma {:induction false} PairedIsMet(row: Row, x: nat)
    requires Paired(row) && x < |row|
    ensures Met(row, x) == if x > 0 && row[x - 1].width == 2 then 1 else row[x].width
  {
    assert PairedAt(row, x);
    if x > 0 {
      PairedIsMet(row, x - 1);
      assert PairedAt(row, x - 1);
      if x > 1 { assert PairedAt(row, x - 2); }
    }
  }

  lemma PairedIsReceptive(row: Row)
    requires Paired(row)
    ensures Receptive(row)
  {
    forall x | 0 < x < |row| ensures Met(row, x) != 0 {
      PairedIsMet(row, x);
      assert PairedAt(row, x);
    }
  }

  /** A guest can leave a line on which a full frame fails: one deleted cell, one wide glyph, and
      the letters ABCD come out with a hole. */
  lemma FullFrameLeavesAHole(d: Depth)
    ensures var wide, half := SCell(0x4E16, 2, PLAIN), SCell(32, 0, PLAIN);
      var row := PutGlyph(DeleteChars([EMPTY, EMPTY, wide, half], 0, 1, EMPTY), 2, 0x4E16, 2, PLAIN);
      var cur := [Cell(65, PLAIN, 1), Cell(66, PLAIN, 1), Cell(67, PLAIN, 1), Cell(68, PLAIN, 1)];
      row == [EMPTY, wide, wide, half] && FullRow(row, cur, d)[2] == EMPTY
  {
    var wide, half := SCell(0x4E16, 2, PLAIN), SCell(32, 0, PLAIN);
    var cur := [Cell(65, PLAIN, 1), Cell(66, PLAIN, 1), Cell(67, PLAIN, 1), Cell(68, PLAIN, 1)];
    DeletedHalf();
    var row := [EMPTY, wide, wide, half];
    assert !ErasesTail(cur) && ContentEnd(cur) == 4;
    FourLetters(row, cur, d);
  }

  lemma DeletedHalf()
    ensures var wide, half := SCell(0x4E16, 2, PLAIN), SCell(32, 0, PLAIN);
      PutGlyph(DeleteChars([EMPTY, EMPTY, wide, half], 0, 1, EMPTY), 2, 0x4E16, 2, PLAIN) == [EMPTY, wide, wide, half]
  {
    var wide, half := SCell(0x4E16, 2, PLAIN), SCell(32, 0, PLAIN);
    var row := [EMPTY, EMPTY, wide, half];
    assert Cut(row, 0, 1, EMPTY) == row;
    assert ShiftLeft(row, 0, 1) == [EMPTY, wide, half, half];
    assert EraseSpan([EMPTY, wide, half, half], 3, 3, EMPTY) == [EMPTY, wide, EMPTY, EMPTY];
  }

  lemma FourLetters(row: Row, cur: PicRow, d: Depth)
    requires var wide, half := SCell(0x4E16, 2, PLAIN), SCell(32, 0, PLAIN); row == [EMPTY, wide, wide, half]
    requires cur == [Cell(65, PLAIN, 1), Cell(66, PLAIN, 1), Cell(67, PLAIN, 1), Cell(68, PLAIN, 1)]
    ensures PaintedTo(row, cur, 4, d)[2] == EMPTY
  {
    var half := SCell(32, 0, PLAIN);
    assert Quantized(PLAIN, d) == PLAIN;
    var a, b := SCell(65, 1, PLAIN), SCell(66, 1, PLAIN);
    assert PaintedTo(row, cur, 1, d) == [a, row[1], row[2], half];
    assert PaintedTo(row, cur, 2, d) == [a, b, EMPTY, half];
    assert PaintedTo(row, cur, 3, d) == [a, b, SCell(67, 1, PLAIN), half];
  }
}
