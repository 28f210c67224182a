// Drawing on a shared surface through clipped views (render/surface.cpp), as values: every drawing
// operation is a list of glyphs put one after the other.

module Drawing {
  import opened Cells
  import opened Width
  import opened Picture

  datatype Put = Put(x: int, y: int, ch: nat, st: Style)

  function Continuation(st: Style): Cell { Cell(0, Style(Default, st.bg, {}), 0) }

  // ---- One row.

  /** Whatever wide glyph the cell at x belongs to loses its other half. */
  function Cleanup(row: PicRow, x: nat): (r: PicRow)
    requires x < |row|
    ensures |r| == |row|
  {
    var r := if x > 0 && row[x - 1].width == 2 then row[x - 1 := BLANK] else row;
    if x + 1 < |row| && r[x + 1].width == 0 then r[x + 1 := BLANK] else r
  }

  function PutInRow(row: PicRow, x: nat, ch: nat, st: Style, cw: nat): (r: PicRow)
    requires 1 <= cw <= 2 && x + cw <= |row|
    ensures |r| == |row|
  {
    var r := Cleanup(row, x);
    var r := if cw == 2 then Cleanup(r, x + 1) else r;
    var r := r[x := Cell(ch, st, cw)];
    if cw == 2 then r[x + 1 := Continuation(st)] else r
  }

  lemma PutInRowAt(row: PicRow, x: nat, ch: nat, st: Style, cw: nat, j: nat)
    requires 1 <= cw <= 2 && x + cw <= |row| && j < |row|
    ensures PutInRow(row, x, ch, st, cw)[j] ==
      if j == x then Cell(ch, st, cw)
      else if cw == 2 && j == x + 1 then Continuation(st)
      else if (j == x - 1 && row[j].width == 2) || (j == x + cw && row[j].width == 0) then BLANK
      else row[j]
  {
  }

  lemma PutInRowIsWellFormed(ambiguous: bool, row: PicRow, x: nat, ch: nat, st: Style)
    requires WellFormedRow(ambiguous, row)
    requires CharWidth(ambiguous, ch) > 0 && x + CharWidth(ambiguous, ch) <= |row|
    ensures WellFormedRow(ambiguous, PutInRow(row, x, ch, st, CharWidth(ambiguous, ch)))
  {
    var cw := CharWidth(ambiguous, ch);
    var now := PutInRow(row, x, ch, st, cw);
    forall j | 0 <= j < |row| ensures WellFormedAt(ambiguous, now, j) {
      hide PutInRow;
      assert WellFormedAt(ambiguous, row, j);
      if j > 0 {
        assert WellFormedAt(ambiguous, row, j - 1);
        PutInRowAt(row, x, ch, st, cw, j - 1);
      }
      PutInRowAt(row, x, ch, st, cw, j);
      if j + 1 < |row| {
        assert WellFormedAt(ambiguous, row, j + 1);
        PutInRowAt(row, x, ch, st, cw, j + 1);
      }
      BlankIsNarrow(ambiguous);
      hide CharWidth;
    }
  }

  lemma BlankIsNarrow(ambiguous: bool)
    ensures CharWidth(ambiguous, BLANK.ch) == 1
  {
    AsciiIsNarrow(ambiguous, 32);
  }

  // ---- One glyph through a view.

  predicate Within(clip: Rect, x: int, y: int) {
    clip.x <= x < clip.x + clip.w && clip.y <= y < clip.y + clip.h
  }

  predicate OnPicture(p: Picture, x: int, y: int) {
    0 <= x < p.w && 0 <= y < p.h
  }

  /** A glyph that occupies columns, inside the clip and the surface, and not cut by either. */
  predicate Placed(ambiguous: bool, p: Picture, clip: Rect, g: Put) {
    var cw := CharWidth(ambiguous, g.ch);
    && 0 <= g.x < clip.w && 0 <= g.y < clip.h
    && OnPicture(p, clip.x + g.x, clip.y + g.y)
    && cw > 0 && (cw == 2 ==> g.x + 1 < clip.w && clip.x + g.x + 1 < p.w)
  }

  function PutPic(ambiguous: bool, p: Picture, clip: Rect, g: Put): (r: Picture)
    requires SizedPicture(p)
    ensures SizedPicture(r) && r.w == p.w && r.h == p.h
  {
    if !Placed(ambiguous, p, clip, g) then p
    else
      var y := clip.y + g.y;
      p.(rows := p.rows[y := PutInRow(p.rows[y], clip.x + g.x, g.ch, g.st, CharWidth(ambiguous, g.ch))])
  }

  function PutAll(ambiguous: bool, p: Picture, clip: Rect, gs: seq<Put>): (r: Picture)
    requires SizedPicture(p)
    ensures SizedPicture(r) && r.w == p.w && r.h == p.h
    decreases |gs|
  {
    if gs == [] then p else PutAll(ambiguous, PutPic(ambiguous, p, clip, gs[0]), clip, gs[1..])
  }

  lemma PutPicIsSized(ambiguous: bool, p: Picture, clip: Rect, g: Put)
    requires SizedPicture(p)
    ensures SizedPicture(PutPic(ambiguous, p, clip, g))
    ensures PutPic(ambiguous, p, clip, g).w == p.w && PutPic(ambiguous, p, clip, g).h == p.h
  {
  }

  lemma PutIsWellFormed(ambiguous: bool, p: Picture, clip: Rect, g: Put)
    requires WellFormed(ambiguous, p)
    ensures WellFormed(ambiguous, PutPic(ambiguous, p, clip, g))
  {
    if Placed(ambiguous, p, clip, g) {
      PutInRowIsWellFormed(ambiguous, p.rows[clip.y + g.y], clip.x + g.x, g.ch, g.st);
      hide PutInRow, WellFormedRow, CharWidth;
    }
  }

  // ---- What drawing leaves alone.

  /** A cell outside the clip that lost the half of its wide glyph that was inside. */
  predicate Torn(p: Picture, clip: Rect, x: nat, y: nat)
    requires SizedPicture(p) && OnPicture(p, x, y)
  {
    || (p.rows[y][x].width == 2 && Within(clip, x + 1, y))
    || (p.rows[y][x].width == 0 && Within(clip, x - 1, y))
  }

  predicate KeptAt(p: Picture, q: Picture, clip: Rect, x: nat, y: nat)
    requires SizedPicture(p) && SizedPicture(q) && q.w == p.w && q.h == p.h && OnPicture(p, x, y)
  {
    || Within(clip, x, y)
    || q.rows[y][x] == p.rows[y][x]
    || (q.rows[y][x] == BLANK && Torn(p, clip, x, y))
  }

  /** Outside the clip, q is p but for torn cells, which are blank. */
  ghost predicate KeepsOutside(p: Picture, q: Picture, clip: Rect)
    requires SizedPicture(p) && SizedPicture(q)
  {
    q.w == p.w && q.h == p.h && forall x: nat, y: nat :: OnPicture(p, x, y) ==> KeptAt(p, q, clip, x, y)
  }

  lemma PutKeepsOutside(ambiguous: bool, p: Picture, clip: Rect, g: Put)
    requires SizedPicture(p)
    ensures KeepsOutside(p, PutPic(ambiguous, p, clip, g), clip)
  {
    var q := PutPic(ambiguous, p, clip, g);
    forall x: nat, y: nat | OnPicture(p, x, y) ensures KeptAt(p, q, clip, x, y) {
      if Placed(ambiguous, p, clip, g) && y == clip.y + g.y {
        PutInRowAt(p.rows[y], clip.x + g.x, g.ch, g.st, CharWidth(ambiguous, g.ch), x);
      }
    }
  }

  lemma KeepsOutsideTwice(p: Picture, q: Picture, r: Picture, clip: Rect)
    requires SizedPicture(p) && SizedPicture(q) && SizedPicture(r)
    requires KeepsOutside(p, q, clip) && KeepsOutside(q, r, clip)
    ensures KeepsOutside(p, r, clip)
  {
    forall x: nat, y: nat | OnPicture(p, x, y) ensures KeptAt(p, r, clip, x, y) {
      assert KeptAt(p, q, clip, x, y) && KeptAt(q, r, clip, x, y);
    }
  }

  /** Any list of glyphs keeps the surface well formed and, outside the clip, changes nothing but
      the other halves of the glyphs it breaks. */
  lemma {:induction false} PutAllIsSafe(ambiguous: bool, p: Picture, clip: Rect, gs: seq<Put>)
    requires WellFormed(ambiguous, p)
    ensures WellFormed(ambiguous, PutAll(ambiguous, p, clip, gs))
    ensures KeepsOutside(p, PutAll(ambiguous, p, clip, gs), clip)
    decreases |gs|
  {
    hide PutPic;
    if gs != [] {
      hide KeptAt, WellFormedRow;
      PutPicIsSized(ambiguous, p, clip, gs[0]);
      PutIsWellFormed(ambiguous, p, clip, gs[0]);
      PutKeepsOutside(ambiguous, p, clip, gs[0]);
      var q := PutPic(ambiguous, p, clip, gs[0]);
      PutAllIsSafe(ambiguous, q, clip, gs[1..]);
      KeepsOutsideTwice(p, q, PutAll(ambiguous, q, clip, gs[1..]), clip);
    }
  }

  // ---- What drawing shows.

  /** The glyph is on the picture, whole. */
  predicate Shows(ambiguous: bool, p: Picture, clip: Rect, g: Put)
    requires SizedPicture(p)
  {
    Placed(ambiguous, p, clip, g) ==>
      var row, x, cw := p.rows[clip.y + g.y], clip.x + g.x, CharWidth(ambiguous, g.ch);
      row[x] == Cell(g.ch, g.st, cw) && (cw == 2 ==> row[x + 1] == Continuation(g.st))
  }

  /** Two glyphs that share no column. */
  predicate Apart(ambiguous: bool, g: Put, h: Put) {
    || g.y != h.y
    || g.x + CharWidth(ambiguous, g.ch) <= h.x
    || h.x + CharWidth(ambiguous, h.ch) <= g.x
  }

  lemma PutShows(ambiguous: bool, p: Picture, clip: Rect, g: Put)
    requires SizedPicture(p)
    ensures Shows(ambiguous, PutPic(ambiguous, p, clip, g), clip, g)
  {
    if Placed(ambiguous, p, clip, g) {
      var row, x, cw := p.rows[clip.y + g.y], clip.x + g.x, CharWidth(ambiguous, g.ch);
      PutInRowAt(row, x, g.ch, g.st, cw, x);
      if cw == 2 {
        PutInRowAt(row, x, g.ch, g.st, cw, x + 1);
      }
      hide PutInRow, CharWidth;
    }
  }

  lemma PutKeepsShown(ambiguous: bool, p: Picture, clip: Rect, g: Put, h: Put)
    requires SizedPicture(p) && Shows(ambiguous, p, clip, g) && Apart(ambiguous, g, h)
    ensures Shows(ambiguous, PutPic(ambiguous, p, clip, h), clip, g)
  {
    if Placed(ambiguous, p, clip, g) && Placed(ambiguous, p, clip, h) && g.y == h.y {
      var row, x := p.rows[clip.y + g.y], clip.x + g.x;
      var cw, hw := CharWidth(ambiguous, g.ch), CharWidth(ambiguous, h.ch);
      PutInRowAt(row, clip.x + h.x, h.ch, h.st, hw, x);
      if cw == 2 {
        PutInRowAt(row, clip.x + h.x, h.ch, h.st, hw, x + 1);
      }
      hide PutInRow, CharWidth;
    }
  }

  /** Glyphs that are equal or share no column: the order they are put in does not matter. */
  ghost predicate Harmonious(ambiguous: bool, gs: seq<Put>) {
    forall g, h :: g in gs && h in gs ==> g == h || Apart(ambiguous, g, h)
  }

  lemma {:induction false} StaysShown(ambiguous: bool, p: Picture, clip: Rect, gs: seq<Put>, g: Put)
    requires SizedPicture(p) && (Shows(ambiguous, p, clip, g) || g in gs)
    requires forall h :: h in gs ==> g == h || Apart(ambiguous, g, h)
    ensures Shows(ambiguous, PutAll(ambiguous, p, clip, gs), clip, g)
    decreases |gs|
  {
    hide PutPic, Shows, Apart;
    if gs != [] {
      PutPicIsSized(ambiguous, p, clip, gs[0]);
      assert gs[0] in gs;
      if g == gs[0] {
        PutShows(ambiguous, p, clip, g);
      } else if Shows(ambiguous, p, clip, g) {
        PutKeepsShown(ambiguous, p, clip, g, gs[0]);
      }
      StaysShown(ambiguous, PutPic(ambiguous, p, clip, gs[0]), clip, gs[1..], g);
    }
  }

  /** Every glyph of a harmonious list ends up on the surface. */
  lemma AllShown(ambiguous: bool, p: Picture, clip: Rect, gs: seq<Put>)
    requires SizedPicture(p) && Harmonious(ambiguous, gs)
    ensures forall g :: g in gs ==> Shows(ambiguous, PutAll(ambiguous, p, clip, gs), clip, g)
  {
    forall g | g in gs ensures Shows(ambiguous, PutAll(ambiguous, p, clip, gs), clip, g) {
      StaysShown(ambiguous, p, clip, gs, g);
    }
  }
}
