// The surface and its views as the program keeps them (render/surface.cpp): every view writes in
// place to one shared grid.

module SurfaceObject {
  import opened Bytes
  import opened Cells
  import opened Utf8
  import opened Width
  import opened Picture
  import opened Drawing
  import opened Views

  class Surface {
    var w: nat
    var h: nat
    var rows: seq<PicRow>

    predicate Valid()
      reads this
    {
      SizedPicture(Picture(w, h, rows))
    }

    function Model(): Picture
      reads this
    {
      Picture(w, h, rows)
    }

    constructor (w: int, h: int)
      ensures Valid() && Model() == Blank(Max(0, w), Max(0, h))
    {
      this.w, this.h := Max(0, w), Max(0, h);
      rows := seq(Max(0, h), _ => seq(Max(0, w), _ => BLANK));
    }

    method Resize(w: int, h: int)
      modifies this
      ensures Valid() && Model() == Blank(Max(0, w), Max(0, h))
    {
      this.w, this.h := Max(0, w), Max(0, h);
      rows := Blank(this.w, this.h).rows;
    }

    /** Every cell blank in the given style: well formed whatever was there. */
    method Clear(ambiguous: bool, st: Style)
      requires Valid()
      modifies this`rows
      ensures WellFormed(ambiguous, Model()) && w == old(w) && h == old(h)
      ensures forall x: nat, y: nat :: OnPicture(Model(), x, y) ==> rows[y][x] == Cell(32, st, 1)
    {
      AsciiIsNarrow(ambiguous, 32);
      hide CharWidth;
      var width, c := w, Cell(32, st, 1);
      rows := seq(h, _ => seq(width, _ => c));
      BlankIsWellFormed(ambiguous, seq(width, _ => c), c);
    }

    method Set(x: nat, y: nat, c: Cell)
      requires Valid() && OnPicture(Model(), x, y)
      modifies this`rows
      ensures Valid() && rows == old(rows)[y := old(rows)[y][x := c]]
    {
      rows := rows[y := rows[y][x := c]];
    }
  }

  /** A clipped, translated rectangle of a surface. */
  class View {
    const s: Surface
    const clip: Rect

    constructor (s: Surface, clip: Rect)
      ensures this.s == s && this.clip == clip
    {
      this.s, this.clip := s, clip;
    }

    /** Where a position of the view is on the surface, if it is. */
    method Map(x: int, y: int) returns (on: bool, ox: int, oy: int)
      ensures on <==> 0 <= x < clip.w && 0 <= y < clip.h && OnPicture(s.Model(), clip.x + x, clip.y + y)
      ensures on ==> ox == clip.x + x && oy == clip.y + y
    {
      on, ox, oy := false, 0, 0;
      if x < 0 || y < 0 || x >= clip.w || y >= clip.h {
        return;
      }
      ox := clip.x + x;
      oy := clip.y + y;
      on := ox >= 0 && oy >= 0 && ox < s.w && oy < s.h;
    }

    method CleanupOrphan(ox: nat, oy: nat)
      requires s.Valid() && OnPicture(s.Model(), ox, oy)
      modifies s`rows
      ensures s.Valid() && s.rows == old(s.rows)[oy := Cleanup(old(s.rows)[oy], ox)]
    {
      if ox > 0 && s.rows[oy][ox - 1].width == 2 {
        s.Set(ox - 1, oy, BLANK);
      }
      if ox + 1 < s.w && s.rows[oy][ox + 1].width == 0 {
        s.Set(ox + 1, oy, BLANK);
      }
    }

    method PutGlyph(ambiguous: bool, x: int, y: int, ch: nat, st: Style)
      requires s.Valid()
      modifies s`rows
      ensures s.Valid() && s.Model() == PutPic(ambiguous, old(s.Model()), clip, Put(x, y, ch, st))
    {
      hide CharWidth, Cleanup;
      var on, ox, oy := Map(x, y);
      if !on {
        return;
      }
      var cw := CharWidth(ambiguous, ch);
      WidthIsSmall(ambiguous, ch);
      if cw == 0 {
        return;
      }
      if cw == 2 && (x + 1 >= clip.w || ox + 1 >= s.w) {
        return;
      }
      CleanupOrphan(ox, oy);
      if cw == 2 {
        CleanupOrphan(ox + 1, oy);
      }
      s.Set(ox, oy, Cell(ch, st, cw));
      if cw == 2 {
        s.Set(ox + 1, oy, Continuation(st));
      }
    }

    /** Draws a line of text and tells how many columns it took. */
    method Text(ambiguous: bool, x: int, y: int, text: bytes, st: Style) returns (columns: int)
      requires s.Valid()
      modifies s`rows
      ensures s.Valid() && columns == TextEnd(ambiguous, clip.w, text, 0, x) - x
      ensures s.Model() == PutAll(ambiguous, old(s.Model()), clip, TextPuts(ambiguous, clip.w, text, 0, x, y, st))
    {
      hide CharWidth, DecodeUtf8, PutPic;
      var col := x;
      var i := 0;
      while i < |text|
        invariant i <= |text| && s.Valid()
        invariant TextEnd(ambiguous, clip.w, text, i, col) == TextEnd(ambiguous, clip.w, text, 0, x)
        invariant PutAll(ambiguous, s.Model(), clip, TextPuts(ambiguous, clip.w, text, i, col, y, st))
               == PutAll(ambiguous, old(s.Model()), clip, TextPuts(ambiguous, clip.w, text, 0, x, y, st))
        decreases |text| - i
      {
        DecodeTakes(text, i);
        var cp, used := Utf8Decode(text, i);
        var cw := CharWidth(ambiguous, cp);
        WidthIsSmall(ambiguous, cp);
        if cw != 0 {
          if col + cw > clip.w {
            break;
          }
          ghost var rest := TextPuts(ambiguous, clip.w, text, i + used, col + cw, y, st);
          assert ([Put(col, y, cp, st)] + rest)[1..] == rest;
          PutGlyph(ambiguous, col, y, cp, st);
        }
        i := i + used;
        col := col + cw;
      }
      return col - x;
    }

    method FillRow(ambiguous: bool, x0: int, x1: int, y1: int, y: int, st: Style)
      requires s.Valid() && y < y1
      modifies s`rows
      ensures s.Valid()
      ensures PutAll(ambiguous, s.Model(), clip, FillFrom(x0, x1, y1, x0, y + 1, st))
           == PutAll(ambiguous, old(s.Model()), clip, FillFrom(x0, x1, y1, x0, y, st))
    {
      hide PutPic;
      var x := x0;
      while x < x1
        invariant s.Valid() && x0 <= x
        invariant PutAll(ambiguous, s.Model(), clip, FillFrom(x0, x1, y1, x, y, st))
               == PutAll(ambiguous, old(s.Model()), clip, FillFrom(x0, x1, y1, x0, y, st))
        decreases x1 - x
      {
        ghost var rest := FillFrom(x0, x1, y1, x + 1, y, st);
        assert ([Put(x, y, 32, st)] + rest)[1..] == rest;
        FillCell(ambiguous, x, y, st);
        x := x + 1;
      }
    }

    method Fill(ambiguous: bool, r: Rect, st: Style)
      requires s.Valid()
      modifies s`rows
      ensures s.Valid() && s.Model() == PutAll(ambiguous, old(s.Model()), clip, FillPuts(clip, r, st))
    {
      hide PutPic;
      var x0, y0 := Max(0, r.x), Max(0, r.y);
      var x1, y1 := Min(clip.w, r.x + r.w), Min(clip.h, r.y + r.h);
      var y := y0;
      while y < y1
        invariant s.Valid() && y0 <= y
        invariant PutAll(ambiguous, s.Model(), clip, FillFrom(x0, x1, y1, x0, y, st))
               == PutAll(ambiguous, old(s.Model()), clip, FillPuts(clip, r, st))
        decreases y1 - y
      {
        FillRow(ambiguous, x0, x1, y1, y, st);
        y := y + 1;
      }
    }

    /** Blanking a cell is putting a space there. */
    method FillCell(ambiguous: bool, x: int, y: int, st: Style)
      requires s.Valid()
      modifies s`rows
      ensures s.Valid() && s.Model() == PutPic(ambiguous, old(s.Model()), clip, Put(x, y, 32, st))
    {
      AsciiIsNarrow(ambiguous, 32);
      hide CharWidth, Cleanup;
      var on, ox, oy := Map(x, y);
      if on {
        CleanupOrphan(ox, oy);
        s.Set(ox, oy, Cell(32, st, 1));
      }
    }

    /** One glyph of a list. */
    method Next(ambiguous: bool, x: int, y: int, ch: nat, st: Style, ghost rest: seq<Put>)
      requires s.Valid()
      modifies s`rows
      ensures s.Valid()
      ensures PutAll(ambiguous, s.Model(), clip, rest)
           == PutAll(ambiguous, old(s.Model()), clip, [Put(x, y, ch, st)] + rest)
    {
      hide PutPic;
      assert ([Put(x, y, ch, st)] + rest)[1..] == rest;
      PutGlyph(ambiguous, x, y, ch, st);
    }

    method Box(ambiguous: bool, r: Rect, b: Border, st: Style)
      requires s.Valid()
      modifies s`rows
      ensures s.Valid() && s.Model() == PutAll(ambiguous, old(s.Model()), clip, BoxPuts(r, b, st))
    {
      hide PutPic, Corner, Horizontal, Vertical;
      if r.w <= 0 || r.h <= 0 {
        return;
      }
      if r.h == 1 {
        for x := 0 to r.w
          invariant s.Valid() && PutAll(ambiguous, s.Model(), clip, Across(r, r.y, Horizontal(b), st, x))
                 == PutAll(ambiguous, old(s.Model()), clip, BoxPuts(r, b, st))
        {
          Next(ambiguous, r.x + x, r.y, Horizontal(b), st, Across(r, r.y, Horizontal(b), st, x + 1));
        }
        return;
      }
      if r.w == 1 {
        for y := 0 to r.h
          invariant s.Valid() && PutAll(ambiguous, s.Model(), clip, Down(r, r.x, Vertical(b), st, y))
                 == PutAll(ambiguous, old(s.Model()), clip, BoxPuts(r, b, st))
        {
          Next(ambiguous, r.x, r.y + y, Vertical(b), st, Down(r, r.x, Vertical(b), st, y + 1));
        }
        return;
      }
      BoxEdges(ambiguous, r, b, st);
      BoxSides(ambiguous, r, b, st);
      BoxCorners(ambiguous, r, b, st);
    }

    method BoxEdges(ambiguous: bool, r: Rect, b: Border, st: Style)
      requires s.Valid() && r.w >= 2 && r.h >= 2
      modifies s`rows
      ensures s.Valid()
      ensures PutAll(ambiguous, s.Model(), clip, Sides(r, b, st, 1, Corners(r, b, st)))
           == PutAll(ambiguous, old(s.Model()), clip, BoxPuts(r, b, st))
    {
      hide PutPic, Sides, Corners, Horizontal, PutAll;
      ghost var more := Sides(r, b, st, 1, Corners(r, b, st));
      for x := 1 to r.w - 1
        invariant s.Valid() && PutAll(ambiguous, s.Model(), clip, Edges(r, b, st, x, more))
               == PutAll(ambiguous, old(s.Model()), clip, BoxPuts(r, b, st))
      {
        ghost var rest := Edges(r, b, st, x + 1, more);
        var bottom := Put(r.x + x, r.y + r.h - 1, Horizontal(b), st);
        assert Edges(r, b, st, x, more) == [Put(r.x + x, r.y, Horizontal(b), st)] + ([bottom] + rest);
        Next(ambiguous, r.x + x, r.y, Horizontal(b), st, [bottom] + rest);
        Next(ambiguous, bottom.x, bottom.y, bottom.ch, st, rest);
      }
    }

    method BoxSides(ambiguous: bool, r: Rect, b: Border, st: Style)
      requires s.Valid() && r.w >= 2 && r.h >= 2
      modifies s`rows
      ensures s.Valid()
      ensures PutAll(ambiguous, s.Model(), clip, Corners(r, b, st))
           == PutAll(ambiguous, old(s.Model()), clip, Sides(r, b, st, 1, Corners(r, b, st)))
    {
      hide PutPic, Corners, Vertical, PutAll;
      ghost var more := Corners(r, b, st);
      for y := 1 to r.h - 1
        invariant s.Valid() && PutAll(ambiguous, s.Model(), clip, Sides(r, b, st, y, more))
               == PutAll(ambiguous, old(s.Model()), clip, Sides(r, b, st, 1, more))
      {
        ghost var rest := Sides(r, b, st, y + 1, more);
        var right := Put(r.x + r.w - 1, r.y + y, Vertical(b), st);
        assert Sides(r, b, st, y, more) == [Put(r.x, r.y + y, Vertical(b), st)] + ([right] + rest);
        Next(ambiguous, r.x, r.y + y, Vertical(b), st, [right] + rest);
        Next(ambiguous, right.x, right.y, right.ch, st, rest);
      }
    }

    method BoxCorners(ambiguous: bool, r: Rect, b: Border, st: Style)
      requires s.Valid()
      modifies s`rows
      ensures s.Valid() && s.Model() == PutAll(ambiguous, old(s.Model()), clip, Corners(r, b, st))
    {
      hide PutPic, Corner;
      ghost var c := Corners(r, b, st);
      assert c == [c[0]] + c[1..] && c[1..] == [c[1]] + c[2..] && c[2..] == [c[2]] + c[3..] && c[3..] == [c[3]] + [];
      Next(ambiguous, r.x, r.y, Corner(b, true, true), st, c[1..]);
      Next(ambiguous, r.x + r.w - 1, r.y, Corner(b, false, true), st, c[2..]);
      Next(ambiguous, r.x, r.y + r.h - 1, Corner(b, true, false), st, c[3..]);
      Next(ambiguous, r.x + r.w - 1, r.y + r.h - 1, Corner(b, false, false), st, []);
    }

    /** The part of a rectangle that is inside this view, on the same surface. */
    method SubView(r: Rect) returns (v: View)
      ensures fresh(v) && v.s == s && v.clip == Sub(clip, r)
    {
      var x0, y0 := clip.x + Max(0, r.x), clip.y + Max(0, r.y);
      var x1 := Min(clip.x + clip.w, clip.x + r.x + r.w);
      var y1 := Min(clip.y + clip.h, clip.y + r.y + r.h);
      v := new View(s, Rect(x0, y0, Max(0, x1 - x0), Max(0, y1 - y0)));
    }
  }

  lemma BlankIsWellFormed(ambiguous: bool, row: PicRow, c: Cell)
    requires c.width == 1 && CharWidth(ambiguous, c.ch) == 1 && forall x :: 0 <= x < |row| ==> row[x] == c
    ensures WellFormedRow(ambiguous, row)
  {
  }

  lemma WidthIsSmall(ambiguous: bool, ch: nat)
    ensures CharWidth(ambiguous, ch) <= 2
  {
  }

  lemma DecodeTakes(s: bytes, i: nat)
    requires i < |s|
    ensures DecodeUtf8(s, i).1 >= 1 && i + DecodeUtf8(s, i).1 <= |s|
  {
  }
}
