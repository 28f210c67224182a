// One line of the emulator's grid and the edits that stay within it (vt/screen.cpp).

module ScreenRow {
  import opened Bytes
  import opened Cells

  /** A grid cell: width 2 on the first half of a wide glyph, 0 on the second. */
  datatype SCell = SCell(ch: nat, width: nat, style: Style)

  type Row = seq<SCell>

  const EMPTY := SCell(32, 1, PLAIN)

  /** What an erasure leaves: nothing, painted with the current background only. */
  function Erased(pen: Style): (e: SCell)
    ensures e.width == 1
  {
    SCell(32, 1, PLAIN.(bg := pen.bg))
  }

  predicate PairedAt(row: Row, x: nat)
    requires x < |row|
  {
    && row[x].width <= 2
    && (row[x].width == 2 ==> x + 1 < |row| && row[x + 1].width == 0)
    && (row[x].width == 0 ==> x > 0 && row[x - 1].width == 2)
  }

  /** Every first half is followed by a second half, and conversely. */
  ghost predicate Paired(row: Row) {
    forall x :: 0 <= x < |row| ==> PairedAt(row, x)
  }

  function Fill(row: Row, x0: nat, x1: nat, e: SCell): (r: Row)
    requires x0 <= x1 <= |row|
    ensures |r| == |row|
    ensures forall i :: 0 <= i < |row| ==> r[i] == if x0 <= i < x1 then e else row[i]
  {
    row[..x0] + seq(x1 - x0, _ => e) + row[x1..]
  }

  /** Blanks the other half of the wide glyph at column x. */
  function ClearWideAt(row: Row, x: int, e: SCell): (r: Row)
    ensures |r| == |row|
  {
    if x < 0 || x >= |row| then row
    else if row[x].width == 2 && x + 1 < |row| then row[x + 1 := e]
    else if row[x].width == 0 && x > 0 then row[x - 1 := e]
    else row
  }

  /** Blanks both halves of the wide glyph at column x. */
  function BreakWideAt(row: Row, x: int, e: SCell): (r: Row)
    ensures |r| == |row|
  {
    if x < 0 || x >= |row| then row
    else if row[x].width == 2 && x + 1 < |row| then row[x := e][x + 1 := e]
    else if row[x].width == 0 && x > 0 then row[x := e][x - 1 := e]
    else row
  }

  /** Writes a glyph of width w, both clearings before any write. */
  function PutGlyph(row: Row, x: nat, cp: nat, w: nat, pen: Style): (r: Row)
    requires x < |row|
    ensures |r| == |row|
  {
    var e, wide := Erased(pen), w == 2 && x + 1 < |row|;
    var r1 := ClearWideAt(row, x, e);
    var r2 := if wide then ClearWideAt(r1, x + 1, e) else r1;
    var r3 := r2[x := SCell(cp, w, pen)];
    if wide then r3[x + 1 := SCell(32, 0, pen)] else r3
  }

  function EraseSpan(row: Row, from: int, to: int, e: SCell): (r: Row)
    ensures |r| == |row|
  {
    var x0, x1 := Max(0, from), Min(|row| - 1, to);
    if x0 > x1 then row
    else Fill(ClearWideAt(ClearWideAt(row, x0, e), x1, e), x0, x1 + 1, e)
  }

  /** The shift of ICH: columns from x + n on receive their left neighbours, the rest is stale. */
  function ShiftRight(row: Row, x: nat, n: nat): (r: Row)
    requires x + n <= |row|
    ensures |r| == |row|
    ensures forall i :: 0 <= i < |row| ==> r[i] == if x + n <= i then row[i - n] else row[i]
  {
    row[..x + n] + row[x..|row| - n]
  }

  /** The shift of DCH: columns from x on receive their right neighbours, the last n are stale. */
  function ShiftLeft(row: Row, x: nat, n: nat): (r: Row)
    requires x + n <= |row|
    ensures |r| == |row|
    ensures forall i :: 0 <= i < |row| ==> r[i] == if x <= i < |row| - n then row[i + n] else row[i]
  {
    row[..x] + row[x + n..] + row[|row| - n..]
  }

  function InsertChars(row: Row, x: nat, n: int, e: SCell): (r: Row)
    requires x < |row|
    ensures |r| == |row|
  {
    if n <= 0 then row
    else
      var k := Min(n, |row| - x);
      var r1 := EraseSpan(ShiftRight(BreakWideAt(row, x, e), x, k), x, x + k - 1, e);
      if r1[|row| - 1].width == 2 then r1[|row| - 1 := e] else r1
  }

  /** The line after both cuts of DCH have broken the wide glyphs they fall on. */
  function Cut(row: Row, x: nat, k: nat, e: SCell): (r: Row)
    ensures |r| == |row|
  {
    BreakWideAt(BreakWideAt(row, x, e), x + k, e)
  }

  function DeleteChars(row: Row, x: nat, n: int, e: SCell): (r: Row)
    requires x < |row|
    ensures |r| == |row|
  {
    if n <= 0 then row
    else
      var k := Min(n, |row| - x);
      EraseSpan(ShiftLeft(Cut(row, x, k, e), x, k), |row| - k, |row| - 1, e)
  }

  // ---- Pairing.

  lemma BreakKeepsPairs(row: Row, x: int, e: SCell)
    requires Paired(row) && e.width == 1
    ensures Paired(BreakWideAt(row, x, e))
    ensures 0 <= x < |row| ==> BreakWideAt(row, x, e)[x].width == 1
  {
    var r := BreakWideAt(row, x, e);
    if 0 <= x < |row| {
      assert PairedAt(row, x);
    }
    forall i | 0 <= i < |row|
      ensures PairedAt(r, i)
    {
      assert PairedAt(row, i);
      assert i + 1 < |row| ==> PairedAt(row, i + 1);
      assert i > 0 ==> PairedAt(row, i - 1);
    }
  }

  /** Column i after a glyph of width w at column x: its own columns, and the orphans it makes. */
  function PutCell(row: Row, x: nat, cp: nat, w: nat, pen: Style, i: nat): SCell
    requires x < |row| && i < |row| && (w == 2 ==> x + 1 < |row|)
  {
    if i == x then SCell(cp, w, pen)
    else if w == 2 && i == x + 1 then SCell(32, 0, pen)
    else if i == x - 1 && row[x].width == 0 then Erased(pen)
    else if w == 1 && i == x + 1 && row[x].width == 2 then Erased(pen)
    else if w == 2 && i == x + 2 && row[x + 1].width == 2 then Erased(pen)
    else row[i]
  }

  lemma PutGlyphAt(row: Row, x: nat, cp: nat, w: nat, pen: Style, i: nat)
    requires Paired(row) && x < |row| && i < |row| && 1 <= w <= 2 && (w == 2 ==> x + 1 < |row|)
    ensures PutGlyph(row, x, cp, w, pen)[i] == PutCell(row, x, cp, w, pen, i)
  {
    assert PairedAt(row, x);
    if w == 2 { assert PairedAt(row, x + 1); }
  }

  /** Writing a glyph keeps every other glyph whole or blanks it whole. */
  lemma PutGlyphKeepsPairs(row: Row, x: nat, cp: nat, w: nat, pen: Style)
    requires Paired(row) && x < |row| && 1 <= w <= 2 && (w == 2 ==> x + 1 < |row|)
    ensures Paired(PutGlyph(row, x, cp, w, pen))
  {
    hide PutGlyph, Erased;
    var r := PutGlyph(row, x, cp, w, pen);
    forall i | 0 <= i < |row|
      ensures PairedAt(r, i)
    {
      assert PairedAt(row, i) && PairedAt(row, x);
      PutGlyphAt(row, x, cp, w, pen, i);
      if w == 2 { assert PairedAt(row, x + 1); }
      if i + 1 < |row| { PutGlyphAt(row, x, cp, w, pen, i + 1); assert PairedAt(row, i + 1); }
      if i > 0 { PutGlyphAt(row, x, cp, w, pen, i - 1); assert PairedAt(row, i - 1); }
    }
  }

  /** On a line of one column a wide glyph is written without its second half. */
  lemma OneColumnTearsAGlyph()
    ensures Paired([EMPTY]) && !Paired(PutGlyph([EMPTY], 0, 0x4E00, 2, PLAIN))
  {
    var r := PutGlyph([EMPTY], 0, 0x4E00, 2, PLAIN);
    assert r == [SCell(0x4E00, 2, PLAIN)];
    assert !PairedAt(r, 0);
  }

  /** Column i after a span is erased: the span takes the halves left outside with it. */
  function ErasedCell(row: Row, x0: nat, x1: nat, e: SCell, i: nat): SCell
    requires x0 <= x1 < |row| && i < |row|
  {
    if x0 <= i <= x1 then e
    else if i == x0 - 1 && row[x0].width == 0 then e
    else if i == x1 + 1 && row[x1].width == 2 then e
    else row[i]
  }

  /** Only the two border cells have to be paired with their neighbours for this. */
  lemma EraseSpanAt(row: Row, x0: nat, x1: nat, e: SCell, i: nat)
    requires x0 <= x1 < |row| && i < |row| && e.width == 1
    requires row[x0].width == 2 && x1 == x0 + 1 ==> row[x1].width == 0
    ensures EraseSpan(row, x0, x1, e)[i] == ErasedCell(row, x0, x1, e, i)
  {
    var r := ClearWideAt(row, x0, e);
    if x1 == x0 - 1 { } else { assert r[x1] == row[x1] || x1 == x0 + 1; }
  }

  lemma EraseSpanPairedAt(row: Row, x0: nat, x1: nat, e: SCell, i: nat)
    requires Paired(row) && x0 <= x1 < |row| && e.width == 1 && i < |row|
    ensures PairedAt(EraseSpan(row, x0, x1, e), i)
  {
    hide EraseSpan;
    assert PairedAt(row, x0) && PairedAt(row, x1) && PairedAt(row, i);
    EraseSpanAt(row, x0, x1, e, i);
    if i + 1 < |row| { EraseSpanAt(row, x0, x1, e, i + 1); assert PairedAt(row, i + 1); }
    if i > 0 { EraseSpanAt(row, x0, x1, e, i - 1); assert PairedAt(row, i - 1); }
  }

  lemma EraseSpanKeepsPairs(row: Row, from: int, to: int, e: SCell)
    requires Paired(row) && e.width == 1
    ensures Paired(EraseSpan(row, from, to, e))
  {
    var x0, x1 := Max(0, from), Min(|row| - 1, to);
    if x0 <= x1 {
      assert EraseSpan(row, from, to, e) == EraseSpan(row, x0, x1, e);
      hide EraseSpan, PairedAt;
      forall i | 0 <= i < |row|
        ensures PairedAt(EraseSpan(row, from, to, e), i)
      {
        EraseSpanPairedAt(row, x0, x1, e, i);
      }
    }
  }

  /** Column i after ICH, r1 being the line once the glyph at x is broken: a stale head under the
      gap's right edge also blanks the first shifted cell, a head pushed to the edge is blanked. */
  function InsertedCell(r1: Row, x: nat, k: nat, e: SCell, i: nat): SCell
    requires x < |r1| && 1 <= k <= |r1| - x && i < |r1|
  {
    if i < x then r1[i]
    else if i < x + k then e
    else if i == x + k && r1[x + k - 1].width == 2 then e
    else if i == |r1| - 1 && r1[i - k].width == 2 then e
    else r1[i - k]
  }

  lemma InsertCharsAt(row: Row, x: nat, k: nat, e: SCell, i: nat)
    requires Paired(row) && x < |row| && 1 <= k <= |row| - x && e.width == 1 && i < |row|
    ensures InsertChars(row, x, k, e)[i] == InsertedCell(BreakWideAt(row, x, e), x, k, e, i)
  {
    hide BreakWideAt, EraseSpan;
    var r1 := BreakWideAt(row, x, e);
    BreakKeepsPairs(row, x, e);
    var r2 := ShiftRight(r1, x, k);
    assert r2[x] == r1[x] && r2[x + k - 1] == r1[x + k - 1];
    var last := |row| - 1;
    EraseSpanAt(r2, x, x + k - 1, e, i);
    EraseSpanAt(r2, x, x + k - 1, e, last);
    assert PairedAt(r1, x + k - 1);
  }

  /** ICH keeps every glyph whole. */
  lemma InsertCharsKeepsPairs(row: Row, x: nat, n: int, e: SCell)
    requires Paired(row) && x < |row| && e.width == 1
    ensures Paired(InsertChars(row, x, n, e))
  {
    if n > 0 {
      var k := Min(n, |row| - x);
      var r := InsertChars(row, x, k, e);
      assert InsertChars(row, x, n, e) == r;
      forall i | 0 <= i < |row|
        ensures PairedAt(r, i)
      {
        InsertCharsPairedAt(row, x, k, i, e);
      }
    }
  }

  lemma InsertCharsPairedAt(row: Row, x: nat, k: nat, i: nat, e: SCell)
    requires Paired(row) && x < |row| && 1 <= k <= |row| - x && e.width == 1 && i < |row|
    ensures PairedAt(InsertChars(row, x, k, e), i)
  {
    hide BreakWideAt, InsertChars;
    var r1 := BreakWideAt(row, x, e);
    BreakKeepsPairs(row, x, e);
    InsertCharsAt(row, x, k, e, i);
    if i + 1 < |row| { InsertCharsAt(row, x, k, e, i + 1); assert PairedAt(r1, i + 1); }
    if i > 0 { InsertCharsAt(row, x, k, e, i - 1); assert PairedAt(r1, i - 1); }
    assert PairedAt(r1, i) && PairedAt(r1, x);
    if i >= k {
      assert PairedAt(r1, i - k);
      if i >= k + 1 { assert PairedAt(r1, i - k - 1); }
    }
  }

  lemma CutStart(row: Row, x: nat, k: nat, e: SCell)
    requires Paired(row) && x < |row| && 1 <= k <= |row| - x && e.width == 1
    ensures Paired(Cut(row, x, k, e)) && Cut(row, x, k, e)[x].width == 1
    ensures x + k < |row| ==> Cut(row, x, k, e)[x + k].width == 1
  {
    var r0 := BreakWideAt(row, x, e);
    BreakKeepsPairs(row, x, e);
    BreakKeepsPairs(r0, x + k, e);
    assert PairedAt(r0, x);
    if x + 1 < |row| { assert PairedAt(r0, x + 1); }
  }

  /** Column i after DCH, r1 being the line after both cuts: a second half left stale at the first
      erased column also blanks the last cell that was just moved. */
  function DeletedCell(r1: Row, x: nat, k: nat, e: SCell, i: nat): SCell
    requires x < |r1| && 1 <= k <= |r1| - x && i < |r1|
  {
    if i < x then r1[i]
    else if i >= |r1| - k then e
    else if i == |r1| - k - 1 && r1[|r1| - k].width == 0 then e
    else r1[i + k]
  }

  /** Deleting the first of two narrow cells before a wide glyph tears the glyph. */
  lemma DeleteTearsAGlyph()
    ensures var row := [EMPTY, EMPTY, SCell(0x4E00, 2, PLAIN), SCell(32, 0, PLAIN)];
      Paired(row) && !Paired(DeleteChars(row, 0, 1, EMPTY))
  {
    var row := [EMPTY, EMPTY, SCell(0x4E00, 2, PLAIN), SCell(32, 0, PLAIN)];
    assert Paired(row);
    var cut := Cut(row, 0, 1, EMPTY);
    assert cut == row;
    DeleteCharsKeepsPairsIff(row, 0, 1, EMPTY);
  }

  lemma DeletedFrom(r1: Row, x: nat, k: nat, e: SCell, i: nat)
    requires Paired(r1) && x < |r1| && 1 <= k <= |r1| - x && e.width == 1 && i < |r1| && r1[x].width == 1
    ensures EraseSpan(ShiftLeft(r1, x, k), |r1| - k, |r1| - 1, e)[i] == DeletedCell(r1, x, k, e, i)
  {
    hide EraseSpan;
    var r2, n := ShiftLeft(r1, x, k), |r1|;
    assert r2[n - k] == r1[n - k] && r2[n - 1] == r1[n - 1];
    assert PairedAt(r1, n - k) && PairedAt(r1, n - 1);
    hide Paired;
    EraseSpanAt(r2, n - k, n - 1, e, i);
  }

  lemma DeleteCharsAt(row: Row, x: nat, k: nat, e: SCell, i: nat)
    requires Paired(row) && x < |row| && 1 <= k <= |row| - x && e.width == 1 && i < |row|
    ensures DeleteChars(row, x, k, e)[i] == DeletedCell(Cut(row, x, k, e), x, k, e, i)
  {
    hide Cut, EraseSpan, DeletedCell, ShiftLeft;
    var r1 := Cut(row, x, k, e);
    CutStart(row, x, k, e);
    DeletedFrom(r1, x, k, e, i);
  }

  /** DCH keeps every glyph whole exactly when, after both cuts, the columns |row|-k and |row|-1
      do not both hold second halves: the stale one then blanks the moved one's partner. */
  lemma DeleteCharsKeepsPairsIff(row: Row, x: nat, n: int, e: SCell)
    requires Paired(row) && x < |row| && e.width == 1 && n > 0
    ensures var k := Min(n, |row| - x); var r1 := Cut(row, x, k, e);
      Paired(DeleteChars(row, x, n, e)) <==> !(r1[|row| - k].width == 0 && r1[|row| - 1].width == 0)
  {
    var k := Min(n, |row| - x);
    var r1, r := Cut(row, x, k, e), DeleteChars(row, x, k, e);
    assert DeleteChars(row, x, n, e) == r;
    if r1[|row| - k].width == 0 && r1[|row| - 1].width == 0 {
      DeleteCharsOrphan(row, x, k, e);
    } else {
      forall i | 0 <= i < |row|
        ensures PairedAt(r, i)
      {
        DeleteCharsPairedAt(row, x, k, i, e);
      }
    }
  }

  lemma DeleteCharsOrphan(row: Row, x: nat, k: nat, e: SCell)
    requires Paired(row) && x < |row| && 1 <= k <= |row| - x && e.width == 1
    requires var r1 := Cut(row, x, k, e); r1[|row| - k].width == 0 && r1[|row| - 1].width == 0
    ensures !Paired(DeleteChars(row, x, k, e))
  {
    hide DeleteChars, Cut;
    var r1, r := Cut(row, x, k, e), DeleteChars(row, x, k, e);
    CutStart(row, x, k, e);
    assert PairedAt(r1, |row| - 1);
    var head := |row| - k - 2;
    assert head >= x;
    DeleteCharsAt(row, x, k, e, head);
    DeleteCharsAt(row, x, k, e, head + 1);
    assert !PairedAt(r, head);
  }

  lemma DeleteCharsPairedAt(row: Row, x: nat, k: nat, i: nat, e: SCell)
    requires Paired(row) && x < |row| && 1 <= k <= |row| - x && e.width == 1 && i < |row|
    requires var r1 := Cut(row, x, k, e); !(r1[|row| - k].width == 0 && r1[|row| - 1].width == 0)
    ensures PairedAt(DeleteChars(row, x, k, e), i)
  {
    hide Cut, DeleteChars;
    var r1 := Cut(row, x, k, e);
    CutStart(row, x, k, e);
    DeleteCharsAt(row, x, k, e, i);
    if i + 1 < |row| { DeleteCharsAt(row, x, k, e, i + 1); assert PairedAt(r1, i + 1); }
    if i > 0 { DeleteCharsAt(row, x, k, e, i - 1); assert PairedAt(r1, i - 1); }
    assert PairedAt(r1, i) && PairedAt(r1, |row| - 1);
    if i + k < |row| {
      assert PairedAt(r1, i + k);
    }
  }
}
