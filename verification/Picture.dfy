// The contents of a renderer surface, as a value (render/surface.cpp).

module Picture {
  import opened Cells
  import opened Width

  type PicRow = seq<Cell>

  datatype Picture = Picture(w: nat, h: nat, rows: seq<PicRow>)

  predicate SizedPicture(p: Picture) {
    |p.rows| == p.h && forall y :: 0 <= y < |p.rows| ==> |p.rows[y]| == p.w
  }

  function Blank(w: nat, h: nat): (p: Picture)
    ensures SizedPicture(p)
  {
    Picture(w, h, seq(h, _ => seq(w, _ => BLANK)))
  }

  /** Cell x is a narrow glyph, or a wide head followed by its continuation, or a continuation
      preceded by its head; and a glyph's cell is as wide as the glyph. */
  predicate WellFormedAt(ambiguous: bool, row: PicRow, x: nat)
    requires x < |row|
  {
    && row[x].width <= 2
    && (row[x].width == 2 ==> x + 1 < |row| && row[x + 1].width == 0)
    && (row[x].width == 0 ==> x > 0 && row[x - 1].width == 2)
    && (row[x].width != 0 ==> CharWidth(ambiguous, row[x].ch) == row[x].width)
  }

  ghost predicate WellFormedRow(ambiguous: bool, row: PicRow) {
    forall x :: 0 <= x < |row| ==> WellFormedAt(ambiguous, row, x)
  }

  ghost predicate WellFormed(ambiguous: bool, p: Picture) {
    SizedPicture(p) && forall y :: 0 <= y < |p.rows| ==> WellFormedRow(ambiguous, p.rows[y])
  }
}
