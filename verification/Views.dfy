// The drawing operations of a view and its nested sub-views (render/surface.cpp), and the objects
// that carry them out on one shared surface.

module Views {
  import opened Bytes
  import opened Cells
  import opened Utf8
  import opened Width
  import opened Picture
  import opened Drawing

  // ---- Each operation as a list of glyphs.

  /** A line of text: what takes no column is skipped, and the first glyph that does not fit ends it. */
  function TextPuts(ambiguous: bool, w: int, s: bytes, i: nat, col: int, y: int, st: Style): seq<Put>
    requires i <= |s|
    decreases |s| - i
  {
    if i == |s| then []
    else
      var (cp, used) := DecodeUtf8(s, i);
      var cw := CharWidth(ambiguous, cp);
      if cw == 0 then TextPuts(ambiguous, w, s, i + used, col, y, st)
      else if col + cw > w then []
      else [Put(col, y, cp, st)] + TextPuts(ambiguous, w, s, i + used, col + cw, y, st)
  }

  function TextEnd(ambiguous: bool, w: int, s: bytes, i: nat, col: int): int
    requires i <= |s|
    decreases |s| - i
  {
    if i == |s| then col
    else
      var (cp, used) := DecodeUtf8(s, i);
      var cw := CharWidth(ambiguous, cp);
      if col + cw > w && cw != 0 then col else TextEnd(ambiguous, w, s, i + used, col + cw)
  }

  /** The cells of a rectangle from (x, y) on, left to right and top to bottom. */
  function FillFrom(x0: int, x1: int, y1: int, x: int, y: int, st: Style): seq<Put>
    decreases y1 - y, x1 - x
  {
    if y >= y1 then []
    else if x >= x1 then FillFrom(x0, x1, y1, x0, y + 1, st)
    else [Put(x, y, 32, st)] + FillFrom(x0, x1, y1, x + 1, y, st)
  }

  function FillPuts(clip: Rect, r: Rect, st: Style): seq<Put> {
    FillFrom(Max(0, r.x), Min(clip.w, r.x + r.w), Min(clip.h, r.y + r.h), Max(0, r.x), Max(0, r.y), st)
  }

  datatype Border = Unicode | Ascii

  function Horizontal(b: Border): nat { if b.Unicode? then 0x2500 else 45 }
  function Vertical(b: Border): nat { if b.Unicode? then 0x2502 else 124 }
  function Corner(b: Border, left: bool, top: bool): nat {
    if b.Ascii? then 43
    else if top then (if left then 0x250C else 0x2510) else (if left then 0x2514 else 0x2518)
  }

  function Across(r: Rect, y: int, ch: nat, st: Style, k: int): seq<Put>
    decreases r.w - k
  {
    if k >= r.w then [] else [Put(r.x + k, y, ch, st)] + Across(r, y, ch, st, k + 1)
  }

  function Down(r: Rect, x: int, ch: nat, st: Style, k: int): seq<Put>
    decreases r.h - k
  {
    if k >= r.h then [] else [Put(x, r.y + k, ch, st)] + Down(r, x, ch, st, k + 1)
  }

  function Edges(r: Rect, b: Border, st: Style, k: int, more: seq<Put>): seq<Put>
    decreases r.w - k
  {
    if k >= r.w - 1 then more
    else
      [Put(r.x + k, r.y, Horizontal(b), st), Put(r.x + k, r.y + r.h - 1, Horizontal(b), st)]
      + Edges(r, b, st, k + 1, more)
  }

  function Sides(r: Rect, b: Border, st: Style, k: int, more: seq<Put>): seq<Put>
    decreases r.h - k
  {
    if k >= r.h - 1 then more
    else
      [Put(r.x, r.y + k, Vertical(b), st), Put(r.x + r.w - 1, r.y + k, Vertical(b), st)]
      + Sides(r, b, st, k + 1, more)
  }

  function Corners(r: Rect, b: Border, st: Style): seq<Put> {
    [Put(r.x, r.y, Corner(b, true, true), st), Put(r.x + r.w - 1, r.y, Corner(b, false, true), st),
     Put(r.x, r.y + r.h - 1, Corner(b, true, false), st),
     Put(r.x + r.w - 1, r.y + r.h - 1, Corner(b, false, false), st)]
  }

  function BoxPuts(r: Rect, b: Border, st: Style): seq<Put> {
    if r.w <= 0 || r.h <= 0 then []
    else if r.h == 1 then Across(r, r.y, Horizontal(b), st, 0)
    else if r.w == 1 then Down(r, r.x, Vertical(b), st, 0)
    else Edges(r, b, st, 1, Sides(r, b, st, 1, Corners(r, b, st)))
  }

  // ---- What they show.

  /** Glyphs of one style on one line, from a column on. */
  predicate AllFrom(gs: seq<Put>, col: int, y: int, st: Style) {
    forall g :: g in gs ==> g.y == y && g.x >= col && g.st == st
  }

  lemma HarmoniousCons(ambiguous: bool, g: Put, gs: seq<Put>)
    requires Harmonious(ambiguous, gs)
    requires AllFrom(gs, g.x + CharWidth(ambiguous, g.ch), g.y, g.st)
    ensures Harmonious(ambiguous, [g] + gs) && AllFrom([g] + gs, g.x, g.y, g.st)
  {
    hide CharWidth;
  }

  lemma NothingClashes(ambiguous: bool, col: int, y: int, st: Style)
    ensures Harmonious(ambiguous, []) && AllFrom([], col, y, st)
  {
  }

  lemma {:induction false} TextAdvances(ambiguous: bool, w: int, s: bytes, i: nat, col: int, y: int, st: Style)
    requires i <= |s|
    ensures Harmonious(ambiguous, TextPuts(ambiguous, w, s, i, col, y, st))
    ensures AllFrom(TextPuts(ambiguous, w, s, i, col, y, st), col, y, st)
    decreases |s| - i
  {
    hide TextPuts, Harmonious, AllFrom, CharWidth, DecodeUtf8;
    NothingClashes(ambiguous, col, y, st);
    var used, cw, g := TextStep(ambiguous, w, s, i, col, y, st);
    if i < |s| && cw == 0 {
      TextAdvances(ambiguous, w, s, i + used, col, y, st);
    } else if i < |s| && col + cw <= w {
      TextAdvances(ambiguous, w, s, i + used, col + cw, y, st);
      HarmoniousCons(ambiguous, g, TextPuts(ambiguous, w, s, i + used, col + cw, y, st));
    }
  }

  /** What the character at i adds. */
  lemma TextStep(ambiguous: bool, w: int, s: bytes, i: nat, col: int, y: int, st: Style)
    returns (used: nat, cw: nat, g: Put)
    requires i <= |s|
    ensures g.x == col && g.y == y && g.st == st && cw == CharWidth(ambiguous, g.ch)
    ensures i < |s| ==> used >= 1 && i + used <= |s|
    ensures TextPuts(ambiguous, w, s, i, col, y, st) ==
      if i == |s| then []
      else if cw == 0 then TextPuts(ambiguous, w, s, i + used, col, y, st)
      else if col + cw > w then []
      else [g] + TextPuts(ambiguous, w, s, i + used, col + cw, y, st)
  {
    hide CharWidth;
    used, cw, g := 0, CharWidth(ambiguous, 0), Put(col, y, 0, st);
    if i < |s| {
      var (cp, n) := DecodeUtf8(s, i);
      hide DecodeUtf8;
      used, cw, g := n, CharWidth(ambiguous, cp), Put(col, y, cp, st);
    }
  }

  /** Text is on the surface, whole glyph by whole glyph, after it was drawn. */
  lemma TextIsShown(ambiguous: bool, p: Picture, clip: Rect, s: bytes, x: int, y: int, st: Style)
    requires SizedPicture(p)
    ensures var gs := TextPuts(ambiguous, clip.w, s, 0, x, y, st);
      forall g :: g in gs ==> Shows(ambiguous, PutAll(ambiguous, p, clip, gs), clip, g)
  {
    TextAdvances(ambiguous, clip.w, s, 0, x, y, st);
    AllShown(ambiguous, p, clip, TextPuts(ambiguous, clip.w, s, 0, x, y, st));
  }

  /** The cells of a rectangle, all of them and no other. */
  lemma {:induction false} FillIsTheRectangle(x0: int, x1: int, y1: int, x: int, y: int, st: Style, g: Put)
    requires x0 <= x
    ensures g in FillFrom(x0, x1, y1, x, y, st) <==>
      && g == Put(g.x, g.y, 32, st) && g.x < x1 && y <= g.y < y1
      && if g.y == y then x <= g.x else x0 <= g.x
    decreases y1 - y, x1 - x
  {
    if y < y1 {
      if x >= x1 {
        FillIsTheRectangle(x0, x1, y1, x0, y + 1, st, g);
      } else {
        FillIsTheRectangle(x0, x1, y1, x + 1, y, st, g);
      }
    }
  }

  /** A filled rectangle is blank in the given style, and wholly so within the view. */
  lemma FillIsShown(ambiguous: bool, p: Picture, clip: Rect, r: Rect, st: Style, x: int, y: int)
    requires SizedPicture(p)
    requires Within(r, x, y) && 0 <= x < clip.w && 0 <= y < clip.h
    ensures Shows(ambiguous, PutAll(ambiguous, p, clip, FillPuts(clip, r, st)), clip, Put(x, y, 32, st))
  {
    AsciiIsNarrow(ambiguous, 32);
    hide CharWidth;
    var gs := FillPuts(clip, r, st);
    var x0, x1, y0, y1 := Max(0, r.x), Min(clip.w, r.x + r.w), Max(0, r.y), Min(clip.h, r.y + r.h);
    forall g ensures g in gs ==> g == Put(g.x, g.y, 32, st) {
      FillIsTheRectangle(x0, x1, y1, x0, y0, st, g);
    }
    FillIsTheRectangle(x0, x1, y1, x0, y0, st, Put(x, y, 32, st));
    hide FillFrom;
    StaysShown(ambiguous, p, clip, gs, Put(x, y, 32, st));
  }

  predicate OnBorder(r: Rect, x: int, y: int) {
    Within(r, x, y) && (x == r.x || x == r.x + r.w - 1 || y == r.y || y == r.y + r.h - 1)
  }

  /** What belongs at a position of the border. */
  function EdgeOf(r: Rect, b: Border, x: int, y: int): nat {
    if r.h == 1 then Horizontal(b)
    else if r.w == 1 then Vertical(b)
    else if (x == r.x || x == r.x + r.w - 1) && (y == r.y || y == r.y + r.h - 1) then Corner(b, x == r.x, y == r.y)
    else if x == r.x || x == r.x + r.w - 1 then Vertical(b)
    else Horizontal(b)
  }

  lemma {:induction false} AcrossIs(r: Rect, y: int, ch: nat, st: Style, k: int, g: Put)
    ensures g in Across(r, y, ch, st, k) <==> g == Put(g.x, y, ch, st) && r.x + k <= g.x < r.x + r.w
    decreases r.w - k
  {
    if k < r.w {
      AcrossIs(r, y, ch, st, k + 1, g);
    }
  }

  lemma {:induction false} DownIs(r: Rect, x: int, ch: nat, st: Style, k: int, g: Put)
    ensures g in Down(r, x, ch, st, k) <==> g == Put(x, g.y, ch, st) && r.y + k <= g.y < r.y + r.h
    decreases r.h - k
  {
    if k < r.h {
      DownIs(r, x, ch, st, k + 1, g);
    }
  }

  lemma {:induction false} EdgesAre(r: Rect, b: Border, st: Style, k: int, more: seq<Put>, g: Put)
    ensures g in Edges(r, b, st, k, more) <==>
      || g in more
      || (g == Put(g.x, g.y, Horizontal(b), st) && r.x + k <= g.x < r.x + r.w - 1
          && (g.y == r.y || g.y == r.y + r.h - 1))
    decreases r.w - k
  {
    if k < r.w - 1 {
      EdgesAre(r, b, st, k + 1, more, g);
    }
  }

  lemma {:induction false} SidesAre(r: Rect, b: Border, st: Style, k: int, more: seq<Put>, g: Put)
    ensures g in Sides(r, b, st, k, more) <==>
      || g in more
      || (g == Put(g.x, g.y, Vertical(b), st) && r.y + k <= g.y < r.y + r.h - 1
          && (g.x == r.x || g.x == r.x + r.w - 1))
    decreases r.h - k
  {
    if k < r.h - 1 {
      SidesAre(r, b, st, k + 1, more, g);
    }
  }

  /** A box is its border: every position once, with what belongs there. */
  lemma BoxIsTheBorder(r: Rect, b: Border, st: Style, g: Put)
    ensures g in BoxPuts(r, b, st) <==>
      OnBorder(r, g.x, g.y) && g == Put(g.x, g.y, EdgeOf(r, b, g.x, g.y), st)
  {
    if r.w > 0 && r.h > 0 {
      AcrossIs(r, r.y, Horizontal(b), st, 0, g);
      DownIs(r, r.x, Vertical(b), st, 0, g);
      SidesAre(r, b, st, 1, Corners(r, b, st), g);
      EdgesAre(r, b, st, 1, Sides(r, b, st, 1, Corners(r, b, st)), g);
    }
  }

  /** A border of narrow glyphs is on the surface after it was drawn; nothing else belongs to it. */
  lemma BoxIsShown(ambiguous: bool, p: Picture, clip: Rect, r: Rect, b: Border, st: Style, x: int, y: int)
    requires SizedPicture(p) && OnBorder(r, x, y) && (b.Ascii? || !ambiguous)
    ensures Shows(ambiguous, PutAll(ambiguous, p, clip, BoxPuts(r, b, st)), clip, Put(x, y, EdgeOf(r, b, x, y), st))
  {
    var gs, g := BoxPuts(r, b, st), Put(x, y, EdgeOf(r, b, x, y), st);
    forall h ensures h in gs ==> h == Put(h.x, h.y, EdgeOf(r, b, h.x, h.y), st) {
      BoxIsTheBorder(r, b, st, h);
    }
    BoxIsTheBorder(r, b, st, g);
    hide BoxPuts, OnBorder;
    forall h | h in gs ensures h == g || Apart(ambiguous, g, h) {
      EdgeIsNarrow(ambiguous, r, b, h.x, h.y);
      EdgeIsNarrow(ambiguous, r, b, x, y);
      hide CharWidth, EdgeOf;
    }
    StaysShown(ambiguous, p, clip, gs, g);
  }

  lemma EdgeIsNarrow(ambiguous: bool, r: Rect, b: Border, x: int, y: int)
    requires b.Ascii? || !ambiguous
    ensures CharWidth(ambiguous, EdgeOf(r, b, x, y)) == 1
  {
  }

  // ---- Nested views.

  function Sub(clip: Rect, r: Rect): Rect {
    var x0, y0 := clip.x + Max(0, r.x), clip.y + Max(0, r.y);
    var x1 := Min(clip.x + clip.w, clip.x + r.x + r.w);
    var y1 := Min(clip.y + clip.h, clip.y + r.y + r.h);
    Rect(x0, y0, Max(0, x1 - x0), Max(0, y1 - y0))
  }

  function Nested(clip: Rect, path: seq<Rect>): Rect
    decreases |path|
  {
    if path == [] then clip else Nested(Sub(clip, path[0]), path[1..])
  }

  /** A sub-view is the part of the rectangle that is inside its parent. */
  lemma SubIsTheOverlap(clip: Rect, r: Rect, x: int, y: int)
    ensures Within(Sub(clip, r), x, y) <==> Within(clip, x, y) && Within(r, x - clip.x, y - clip.y)
  {
  }

  lemma {:induction false} NestedIsInside(clip: Rect, path: seq<Rect>, x: int, y: int)
    requires Within(Nested(clip, path), x, y)
    ensures Within(clip, x, y)
    decreases |path|
  {
    if path != [] {
      NestedIsInside(Sub(clip, path[0]), path[1..], x, y);
      SubIsTheOverlap(clip, path[0], x, y);
    }
  }

  datatype Op =
    | PutOp(g: Put)
    | TextOp(x: int, y: int, text: bytes, st: Style)
    | FillOp(r: Rect, st: Style)
    | BoxOp(r: Rect, b: Border, st: Style)

  /** An operation on the sub-view at the end of a path of rectangles. */
  datatype Draw = Draw(path: seq<Rect>, op: Op)

  function PutsOf(ambiguous: bool, clip: Rect, op: Op): seq<Put> {
    match op
    case PutOp(g) => [g]
    case TextOp(x, y, text, st) => TextPuts(ambiguous, clip.w, text, 0, x, y, st)
    case FillOp(r, st) => FillPuts(clip, r, st)
    case BoxOp(r, b, st) => BoxPuts(r, b, st)
  }

  function DrawOne(ambiguous: bool, p: Picture, clip: Rect, d: Draw): (r: Picture)
    requires SizedPicture(p)
    ensures SizedPicture(r) && r.w == p.w && r.h == p.h
  {
    var inner := Nested(clip, d.path);
    PutAll(ambiguous, p, inner, PutsOf(ambiguous, inner, d.op))
  }

  function DrawAll(ambiguous: bool, p: Picture, clip: Rect, ds: seq<Draw>): (r: Picture)
    requires SizedPicture(p)
    ensures SizedPicture(r) && r.w == p.w && r.h == p.h
    decreases |ds|
  {
    if ds == [] then p else DrawAll(ambiguous, DrawOne(ambiguous, p, clip, ds[0]), clip, ds[1..])
  }

  lemma KeepsMoreOutside(p: Picture, q: Picture, clip: Rect, path: seq<Rect>)
    requires SizedPicture(p) && SizedPicture(q) && KeepsOutside(p, q, Nested(clip, path))
    ensures KeepsOutside(p, q, clip)
  {
    var inner := Nested(clip, path);
    forall x: nat, y: nat | OnPicture(p, x, y) ensures KeptAt(p, q, clip, x, y) {
      assert KeptAt(p, q, inner, x, y);
      forall u, v | Within(inner, u, v) ensures Within(clip, u, v) {
        NestedIsInside(clip, path, u, v);
      }
      hide Within;
    }
  }

  /** Any sequence of drawing operations through any nested sub-views of a view keeps the shared
      surface well formed; outside the view it only blanks the other halves of broken glyphs. */
  lemma {:induction false} DrawingIsSafe(ambiguous: bool, p: Picture, clip: Rect, ds: seq<Draw>)
    requires WellFormed(ambiguous, p)
    ensures WellFormed(ambiguous, DrawAll(ambiguous, p, clip, ds))
    ensures KeepsOutside(p, DrawAll(ambiguous, p, clip, ds), clip)
    decreases |ds|
  {
    if ds != [] {
      hide KeptAt, WellFormedRow, PutsOf, PutAll, Nested;
      var inner := Nested(clip, ds[0].path);
      PutAllIsSafe(ambiguous, p, inner, PutsOf(ambiguous, inner, ds[0].op));
      var q := DrawOne(ambiguous, p, clip, ds[0]);
      KeepsMoreOutside(p, q, clip, ds[0].path);
      DrawingIsSafe(ambiguous, q, clip, ds[1..]);
      KeepsOutsideTwice(p, q, DrawAll(ambiguous, q, clip, ds[1..]), clip);
    }
  }
}
