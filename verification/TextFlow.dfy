// Where printed text goes: from column to column and from line to line (vt/screen.cpp).

module TextFlow {
  import opened Bytes
  import opened Cells
  import opened Width
  import opened ScreenRow
  import opened Screen
  import opened ScreenOrders

  /** A place on the page; column `cols` is the end of a full line, where a wrap is pending. */
  datatype Slot = Slot(y: nat, x: nat)

  /** Where a glyph of width w goes from p on: here if it fits, else to the start of the next line. */
  function Fit(p: Slot, w: nat, cols: nat): Slot {
    if p.x + w <= cols then p else Slot(p.y + 1, 0)
  }

  function Past(p: Slot, w: nat, cols: nat): Slot {
    var q := Fit(p, w, cols);
    Slot(q.y, q.x + w)
  }

  /** The place after glyphs of these widths. */
  function EndOf(p: Slot, ws: seq<nat>, cols: nat): Slot
    decreases |ws|
  {
    if ws == [] then p else EndOf(Past(p, ws[0], cols), ws[1..], cols)
  }

  /** The place of glyph k. */
  function SlotOf(p: Slot, ws: seq<nat>, cols: nat, k: nat): Slot
    requires k < |ws|
    decreases k
  {
    if k == 0 then Fit(p, ws[0], cols) else SlotOf(Past(p, ws[0], cols), ws[1..], cols, k - 1)
  }

  predicate Before(y: int, x: int, p: Slot) { y < p.y || (y == p.y && x < p.x) }

  predicate Covers(q: Slot, w: nat, y: int, x: int) { y == q.y && q.x <= x < q.x + w }

  /** What is printed for a code in the current set, and how wide it is. */
  function Glyphs(codes: seq<nat>, charset: Charset): (cps: seq<nat>)
    ensures |cps| == |codes|
  {
    seq(|codes|, i requires 0 <= i < |codes| => Translate(codes[i], charset))
  }

  function Widths(cps: seq<nat>, ambiguous: bool): (ws: seq<nat>)
    ensures |ws| == |cps|
  {
    seq(|cps|, i requires 0 <= i < |cps| => CharWidth(ambiguous, cps[i]))
  }

  function Prints(codes: seq<nat>): (os: seq<Order>)
    ensures |os| == |codes|
  {
    seq(|codes|, i requires 0 <= i < |codes| => OPrint(codes[i]))
  }

  ghost predicate CursorAt(s: Scr, p: Slot) {
    s.cy == p.y && (if p.x == s.cols then s.wrap && s.cx == s.cols - 1 else !s.wrap && s.cx == p.x)
  }

  /** From its line to line `last` the cursor can step down without scrolling. */
  predicate Room(s: Scr, last: nat) {
    last < s.rows && (s.cy > s.bottom || last <= s.bottom)
  }

  ghost predicate PairedGrid(g: Grid) {
    forall y :: 0 <= y < |g| ==> Paired(g[y])
  }

  // ---- One glyph.

  lemma StepDown(s: Scr)
    requires Valid(s) && Room(s, s.cy + 1)
    ensures LineFeed(s) == s.(wrap := false, cy := s.cy + 1)
  {
    hide ScrollUp;
  }

  lemma PutIs(s: Scr, cp: nat, w: nat)
    requires Valid(s) && !s.wrap && s.cx + w <= s.cols && w >= 1
    ensures Put(s, cp, w) == Written(s, Slot(s.cy, s.cx), cp, w)
  {
    hide PutGlyph;
  }

  function Written(s: Scr, q: Slot, cp: nat, w: nat): Scr
    requires Valid(s) && q.y < s.rows && q.x + w <= s.cols && w >= 1
  {
    s.(grid := s.grid[q.y := PutGlyph(s.grid[q.y], q.x, cp, w, s.pen)],
       cy := q.y, cx := Min(q.x + w, s.cols - 1), wrap := q.x + w == s.cols)
  }

  lemma Moved(s: Scr, y: nat, x: nat)
    requires Valid(s) && y < s.rows && x < s.cols
    ensures Valid(s.(wrap := false, cy := y, cx := x))
  {
  }

  /** Printed with autowrap on, a glyph goes to the place that fits it. */
  lemma PrintGoesTo(s: Scr, ambiguous: bool, code: nat, p: Slot)
    requires Valid(s) && s.autowrap && CursorAt(s, p) && p.x <= s.cols
    requires var w := CharWidth(ambiguous, Translate(code, s.charset));
      1 <= w <= 2 && w <= s.cols && Room(s, Fit(p, w, s.cols).y)
    ensures var cp := Translate(code, s.charset); var w := CharWidth(ambiguous, cp);
      Screen.Print(s, ambiguous, code) == Written(s, Fit(p, w, s.cols), cp, w)
  {
    hide CharWidth, Translate, Put, Written, LineFeed;
    var cp := Translate(code, s.charset);
    var w := CharWidth(ambiguous, cp);
    UnwrapKeepsBounds(s);
    var home := s.(wrap := false, cx := 0);
    if p.x + w <= s.cols {
      PutIs(s, cp, w);
    } else {
      Moved(s, s.cy + 1, 0);
      Moved(s, s.cy, 0);
      StepDown(home);
      var down := s.(wrap := false, cx := 0, cy := s.cy + 1);
      PutIs(down, cp, w);
      WrittenIgnoresCursor(s, Slot(s.cy + 1, 0), cp, w);
      if !s.wrap { assert s.(cx := 0) == home; }
    }
  }

  lemma WrittenIgnoresCursor(s: Scr, q: Slot, cp: nat, w: nat)
    requires Valid(s) && q.y < s.rows && q.x + w <= s.cols && w >= 1 && q.x < s.cols
    ensures var t := s.(wrap := false, cx := q.x, cy := q.y);
      Valid(t) && Written(t, q, cp, w) == Written(s, q, cp, w)
  {
    hide PutGlyph;
  }

  lemma PrintNothing(s: Scr, ambiguous: bool, code: nat)
    requires Valid(s) && CharWidth(ambiguous, Translate(code, s.charset)) == 0
    ensures Screen.Print(s, ambiguous, code) == s
  {
    hide CharWidth, Translate;
  }

  /** A cell that was half of a wide glyph may have lost it. */
  predicate Kept(was: SCell, now: SCell, pen: Style) {
    now == was || (was.width != 1 && now == Erased(pen))
  }

  /** What was before place p stands, but for a first half whose second half was at p. */
  ghost predicate EarlierStands(g: Grid, h: Grid, p: Slot, pen: Style)
    requires |g| == |h| && forall y :: 0 <= y < |g| ==> |g[y]| == |h[y]|
  {
    forall y, x :: 0 <= y < |g| && 0 <= x < |g[y]| && Before(y, x, p) ==>
      h[y][x] == g[y][x] || (y == p.y && x + 1 == p.x && g[y][x].width == 2 && h[y][x] == Erased(pen))
  }

  ghost predicate GlyphIn(g: Grid, q: Slot, cp: nat, w: nat, pen: Style) {
    w > 0 ==>
      && q.y < |g| && q.x + w <= |g[q.y]| && g[q.y][q.x] == SCell(cp, w, pen)
      && (w == 2 ==> g[q.y][q.x + 1] == SCell(32, 0, pen))
  }

  lemma GlyphOnRow(row: Row, x: nat, cp: nat, w: nat, pen: Style)
    requires Paired(row) && 1 <= w <= 2 && x + w <= |row|
    ensures var r := PutGlyph(row, x, cp, w, pen);
      && Paired(r) && r[x] == SCell(cp, w, pen) && (w == 2 ==> r[x + 1] == SCell(32, 0, pen))
      && (forall i :: 0 <= i < |row| && !(x <= i < x + w) ==> Kept(row[i], r[i], pen))
      && (forall i :: 0 <= i < x ==> r[i] == row[i] || (i + 1 == x && row[i].width == 2 && r[i] == Erased(pen)))
  {
    PutGlyphKeepsPairs(row, x, cp, w, pen);
    hide PutGlyph, Erased;
    PutGlyphAt(row, x, cp, w, pen, x);
    if w == 2 { PutGlyphAt(row, x, cp, w, pen, x + 1); }
    forall i | 0 <= i < |row| && !(x <= i < x + w)
      ensures Kept(row[i], PutGlyph(row, x, cp, w, pen)[i], pen)
      ensures i < x ==>
        (PutGlyph(row, x, cp, w, pen)[i] == row[i]
         || (i + 1 == x && row[i].width == 2 && PutGlyph(row, x, cp, w, pen)[i] == Erased(pen)))
    {
      PutGlyphAt(row, x, cp, w, pen, i);
      assert PairedAt(row, x) && PairedAt(row, x + w - 1);
    }
  }

  /** One written glyph on the page. */
  lemma WrittenPage(s: Scr, q: Slot, cp: nat, w: nat)
    requires Valid(s) && q.y < s.rows && q.x + w <= s.cols && 1 <= w <= 2 && PairedGrid(s.grid)
    ensures var r := Written(s, q, cp, w);
      && Valid(r) && PairedGrid(r.grid) && GlyphIn(r.grid, q, cp, w, s.pen)
      && EarlierStands(s.grid, r.grid, q, s.pen)
      && (forall y, x :: 0 <= y < s.rows && 0 <= x < s.cols && !Covers(q, w, y, x) ==>
            Kept(s.grid[y][x], r.grid[y][x], s.pen))
  {
    GlyphOnRow(s.grid[q.y], q.x, cp, w, s.pen);
    hide PutGlyph, Paired, Erased;
  }

  // ---- A text.

  lemma {:induction false} EndIsLater(p: Slot, ws: seq<nat>, cols: nat)
    requires p.x <= cols && forall i :: 0 <= i < |ws| ==> ws[i] <= cols
    ensures p.y <= EndOf(p, ws, cols).y && EndOf(p, ws, cols).x <= cols
    decreases |ws|
  {
    if ws != [] { EndIsLater(Past(p, ws[0], cols), ws[1..], cols); }
  }

  /** Every glyph stands at its place. */
  ghost predicate AllIn(g: Grid, p: Slot, cps: seq<nat>, ws: seq<nat>, cols: nat, pen: Style)
    requires |ws| == |cps|
  {
    forall k :: 0 <= k < |cps| ==> GlyphIn(g, SlotOf(p, ws, cols, k), cps[k], ws[k], pen)
  }

  ghost predicate Untouched(p: Slot, ws: seq<nat>, cols: nat, y: int, x: int) {
    forall k :: 0 <= k < |ws| ==> !Covers(SlotOf(p, ws, cols, k), ws[k], y, x)
  }

  ghost predicate RestStands(g: Grid, h: Grid, p: Slot, ws: seq<nat>, cols: nat, pen: Style)
    requires |g| == |h| && forall y :: 0 <= y < |g| ==> |g[y]| == |h[y]|
  {
    forall y, x :: 0 <= y < |g| && 0 <= x < |g[y]| && Untouched(p, ws, cols, y, x) ==> Kept(g[y][x], h[y][x], pen)
  }

  /** Text printed from place p on with autowrap on, while nothing scrolls: the screen after it. */
  ghost predicate Flowed(s: Scr, r: Scr, p: Slot, cps: seq<nat>, ws: seq<nat>)
    requires Valid(s) && Valid(r) && |ws| == |cps|
  {
    && r == s.(grid := r.grid, cx := r.cx, cy := r.cy, wrap := r.wrap)
    && CursorAt(r, EndOf(p, ws, s.cols)) && PairedGrid(r.grid)
    && AllIn(r.grid, p, cps, ws, s.cols, s.pen) && EarlierStands(s.grid, r.grid, p, s.pen)
    && RestStands(s.grid, r.grid, p, ws, s.cols, s.pen)
  }

  lemma FlowedNothing(s: Scr, p: Slot)
    requires Valid(s) && CursorAt(s, p) && PairedGrid(s.grid)
    ensures Flowed(s, s, p, [], [])
  {
  }

  /** A glyph written stays when text goes on after it. */
  lemma GlyphStays(g: Grid, h: Grid, q: Slot, cp: nat, w: nat, pen: Style, after: Slot)
    requires |g| == |h| && (forall y :: 0 <= y < |g| ==> |g[y]| == |h[y]|) && 1 <= w <= 2
    requires GlyphIn(g, q, cp, w, pen) && EarlierStands(g, h, after, pen)
    requires after == Slot(q.y, q.x + w)
    ensures GlyphIn(h, q, cp, w, pen)
  {
    hide Erased;
    assert Before(q.y, q.x, after);
    if w == 2 { assert Before(q.y, q.x + 1, after); }
  }

  lemma EarlierThrough(g: Grid, m: Grid, h: Grid, p: Slot, q: Slot, w: nat, pen: Style)
    requires |g| == |m| == |h| && forall y :: 0 <= y < |g| ==> |g[y]| == |m[y]| == |h[y]|
    requires w >= 1 && (q == p || q == Slot(p.y + 1, 0))
    requires EarlierStands(g, m, q, pen) && EarlierStands(m, h, Slot(q.y, q.x + w), pen)
    ensures EarlierStands(g, h, p, pen)
  {
    hide Erased;
    forall y, x | 0 <= y < |g| && 0 <= x < |g[y]| && Before(y, x, p)
      ensures h[y][x] == g[y][x] || (y == p.y && x + 1 == p.x && g[y][x].width == 2 && h[y][x] == Erased(pen))
    {
      assert Before(y, x, q) && Before(y, x, Slot(q.y, q.x + w));
    }
  }

  lemma AllThrough(h: Grid, p: Slot, cps: seq<nat>, ws: seq<nat>, cols: nat, pen: Style)
    requires |ws| == |cps| && cps != [] && GlyphIn(h, Fit(p, ws[0], cols), cps[0], ws[0], pen)
    requires AllIn(h, Past(p, ws[0], cols), cps[1..], ws[1..], cols, pen)
    ensures AllIn(h, p, cps, ws, cols, pen)
  {
    hide GlyphIn, Fit, Past;
    forall k | 0 <= k < |cps| ensures GlyphIn(h, SlotOf(p, ws, cols, k), cps[k], ws[k], pen) {
      if k > 0 { assert cps[k] == cps[1..][k - 1] && ws[k] == ws[1..][k - 1]; }
    }
  }

  lemma UntouchedParts(p: Slot, ws: seq<nat>, cols: nat, y: int, x: int)
    requires ws != [] && Untouched(p, ws, cols, y, x)
    ensures !Covers(Fit(p, ws[0], cols), ws[0], y, x) && Untouched(Past(p, ws[0], cols), ws[1..], cols, y, x)
  {
    hide Fit, Past, Covers;
    assert SlotOf(p, ws, cols, 0) == Fit(p, ws[0], cols);
    forall k | 0 <= k < |ws[1..]| ensures !Covers(SlotOf(Past(p, ws[0], cols), ws[1..], cols, k), ws[1..][k], y, x) {
      assert SlotOf(p, ws, cols, k + 1) == SlotOf(Past(p, ws[0], cols), ws[1..], cols, k);
    }
  }

  lemma RestThrough(g: Grid, m: Grid, h: Grid, p: Slot, ws: seq<nat>, cols: nat, pen: Style)
    requires |g| == |m| == |h| && forall y :: 0 <= y < |g| ==> |g[y]| == |m[y]| == |h[y]|
    requires ws != [] && RestStands(m, h, Past(p, ws[0], cols), ws[1..], cols, pen)
    requires forall y, x :: 0 <= y < |g| && 0 <= x < |g[y]| && !Covers(Fit(p, ws[0], cols), ws[0], y, x) ==>
      Kept(g[y][x], m[y][x], pen)
    ensures RestStands(g, h, p, ws, cols, pen)
  {
    hide Fit, Past, Covers, Untouched, SlotOf;
    forall y, x | 0 <= y < |g| && 0 <= x < |g[y]| && Untouched(p, ws, cols, y, x)
      ensures Kept(g[y][x], h[y][x], pen)
    {
      UntouchedParts(p, ws, cols, y, x);
      assert Kept(g[y][x], m[y][x], pen) && Kept(m[y][x], h[y][x], pen);
    }
  }

  /** One glyph and then the rest. */
  lemma FlowedMore(s: Scr, r: Scr, p: Slot, cps: seq<nat>, ws: seq<nat>)
    requires Valid(s) && Valid(r) && |ws| == |cps| && cps != [] && 1 <= ws[0] <= 2 && ws[0] <= s.cols
    requires PairedGrid(s.grid) && p.x <= s.cols && Fit(p, ws[0], s.cols).y < s.rows
    requires var m := Written(s, Fit(p, ws[0], s.cols), cps[0], ws[0]);
      Valid(m) && Flowed(m, r, Past(p, ws[0], s.cols), cps[1..], ws[1..])
    ensures Flowed(s, r, p, cps, ws)
  {
    var q := Fit(p, ws[0], s.cols);
    WrittenPage(s, q, cps[0], ws[0]);
    var m := Written(s, q, cps[0], ws[0]);
    SameShape(s, m);
    SameShape(s, r);
    assert m.pen == s.pen && m.cols == s.cols && m == s.(grid := m.grid, cx := m.cx, cy := m.cy, wrap := m.wrap);
    assert EndOf(p, ws, s.cols) == EndOf(Past(p, ws[0], s.cols), ws[1..], s.cols);
    hide Written, Valid, PairedGrid, CursorAt, EarlierStands, RestStands, AllIn, EndOf, GlyphIn, Kept;
    GlyphStays(m.grid, r.grid, q, cps[0], ws[0], s.pen, Past(p, ws[0], s.cols));
    EarlierThrough(s.grid, m.grid, r.grid, p, q, ws[0], s.pen);
    AllThrough(r.grid, p, cps, ws, s.cols, s.pen);
    RestThrough(s.grid, m.grid, r.grid, p, ws, s.cols, s.pen);
  }

  lemma SameShape(s: Scr, r: Scr)
    requires Valid(s) && Valid(r) && r.cols == s.cols && r.rows == s.rows
    ensures |s.grid| == |r.grid| == s.rows && forall y :: 0 <= y < s.rows ==> |s.grid[y]| == |r.grid[y]| == s.cols
  {
  }

  lemma FlowedBlank(s: Scr, r: Scr, p: Slot, cps: seq<nat>, ws: seq<nat>)
    requires Valid(s) && Valid(r) && |ws| == |cps| && cps != [] && ws[0] == 0 && p.x <= s.cols
    requires Flowed(s, r, p, cps[1..], ws[1..])
    ensures Flowed(s, r, p, cps, ws)
  {
    SameShape(s, r);
    assert Past(p, 0, s.cols) == p;
    assert EndOf(p, ws, s.cols) == EndOf(p, ws[1..], s.cols);
    hide Valid, PairedGrid, CursorAt, EarlierStands, RestStands, AllIn, EndOf, Erased;
    AllThrough(r.grid, p, cps, ws, s.cols, s.pen);
    RestThrough(s.grid, s.grid, r.grid, p, ws, s.cols, s.pen);
  }

  /** Autowrap on, the cursor at p, every glyph narrow enough for the page, and nothing to scroll. */
  ghost predicate CanFlow(s: Scr, p: Slot, ws: seq<nat>) {
    && s.autowrap && p.x <= s.cols && CursorAt(s, p) && PairedGrid(s.grid)
    && (forall k :: 0 <= k < |ws| ==> ws[k] <= Min(2, s.cols))
    && Room(s, EndOf(p, ws, s.cols).y)
  }

  lemma FlowGoesOn(s: Scr, p: Slot, cp: nat, ws: seq<nat>)
    requires Valid(s) && CanFlow(s, p, ws) && ws != [] && ws[0] > 0
    ensures var q := Fit(p, ws[0], s.cols);
      && q.x + ws[0] <= s.cols && Room(s, q.y)
      && Valid(Written(s, q, cp, ws[0])) && CanFlow(Written(s, q, cp, ws[0]), Past(p, ws[0], s.cols), ws[1..])
  {
    var q := Fit(p, ws[0], s.cols);
    EndIsLater(Past(p, ws[0], s.cols), ws[1..], s.cols);
    WrittenPage(s, q, cp, ws[0]);
    hide PutGlyph, PairedGrid, Valid, EndOf;
    assert EndOf(p, ws, s.cols) == EndOf(Past(p, ws[0], s.cols), ws[1..], s.cols) by { EndUnfolds(p, ws, s.cols); }
  }

  lemma EndUnfolds(p: Slot, ws: seq<nat>, cols: nat)
    requires ws != []
    ensures EndOf(p, ws, cols) == EndOf(Past(p, ws[0], cols), ws[1..], cols)
  {
  }

  lemma PrintsUnfold(s: Scr, ambiguous: bool, codes: seq<nat>)
    requires Valid(s) && codes != []
    ensures Valid(Screen.Print(s, ambiguous, codes[0]))
    ensures Run(s, ambiguous, Prints(codes))
         == Run(Screen.Print(s, ambiguous, codes[0]), ambiguous, Prints(codes[1..]))
  {
    PrintKeepsBounds(s, ambiguous, codes[0]);
    hide Screen.Print, Valid;
    assert Prints(codes)[1..] == Prints(codes[1..]);
    assert Prints(codes)[0] == OPrint(codes[0]);
  }

  lemma GlyphsUnfold(codes: seq<nat>, charset: Charset, ambiguous: bool)
    requires codes != []
    ensures var cps := Glyphs(codes, charset); var ws := Widths(cps, ambiguous);
      && cps[0] == Translate(codes[0], charset) && ws[0] == CharWidth(ambiguous, cps[0])
      && cps[1..] == Glyphs(codes[1..], charset) && ws[1..] == Widths(cps[1..], ambiguous)
  {
    hide Translate, CharWidth;
  }

  /** Text flows: printed from place p on, each glyph is on the screen at its place, the cursor stands
      after the last, and every other cell is as it was, up to the halves of broken glyphs. */
  lemma {:induction false} TextFlows(s: Scr, ambiguous: bool, codes: seq<nat>, p: Slot)
    requires Valid(s) && CanFlow(s, p, Widths(Glyphs(codes, s.charset), ambiguous))
    ensures Valid(Run(s, ambiguous, Prints(codes)))
    ensures var cps := Glyphs(codes, s.charset);
      Flowed(s, Run(s, ambiguous, Prints(codes)), p, cps, Widths(cps, ambiguous))
    decreases |codes|
  {
    var cps := Glyphs(codes, s.charset);
    var ws := Widths(cps, ambiguous);
    hide Glyphs, Widths, Prints, Fit, Past, CharWidth, Translate;
    if codes == [] {
      FlowedNothing(s, p);
    } else {
      PrintsUnfold(s, ambiguous, codes);
      GlyphsUnfold(codes, s.charset, ambiguous);
      hide Flowed, Valid, CanFlow, Run, Screen.Print;
      if ws[0] == 0 {
        SkipBlank(s, ambiguous, codes, p, ws);
        TextFlows(s, ambiguous, codes[1..], p);
        PlaceFits(s, p, ws);
        FlowedBlank(s, Run(s, ambiguous, Prints(codes[1..])), p, cps, ws);
      } else {
        TextFlowsOn(s, ambiguous, codes, p, cps, ws);
      }
    }
  }

  lemma PlaceFits(s: Scr, p: Slot, ws: seq<nat>)
    requires CanFlow(s, p, ws)
    ensures p.x <= s.cols && PairedGrid(s.grid) && s.autowrap && CursorAt(s, p)
    ensures ws != [] ==> ws[0] <= 2 && ws[0] <= s.cols
  {
  }

  lemma SkipBlank(s: Scr, ambiguous: bool, codes: seq<nat>, p: Slot, ws: seq<nat>)
    requires Valid(s) && codes != [] && ws != [] && ws[0] == 0 && CanFlow(s, p, ws)
    requires ws[0] == CharWidth(ambiguous, Translate(codes[0], s.charset))
    ensures Screen.Print(s, ambiguous, codes[0]) == s && CanFlow(s, p, ws[1..])
  {
    PrintNothing(s, ambiguous, codes[0]);
    hide CharWidth, Translate, PairedGrid;
  }

  lemma {:induction false} TextFlowsOn(s: Scr, ambiguous: bool, codes: seq<nat>, p: Slot, cps: seq<nat>, ws: seq<nat>)
    requires Valid(s) && codes != [] && CanFlow(s, p, ws)
    requires cps == Glyphs(codes, s.charset) && ws == Widths(cps, ambiguous) && ws[0] > 0
    ensures Valid(Run(s, ambiguous, Prints(codes))) && Flowed(s, Run(s, ambiguous, Prints(codes)), p, cps, ws)
    decreases |codes|, 0
  {
    hide Glyphs, Widths, Prints, Fit, Past, CharWidth, Translate, Flowed, Valid, CanFlow, Run, Screen.Print, Written;
    GlyphsUnfold(codes, s.charset, ambiguous);
    PlaceFits(s, p, ws);
    FlowGoesOn(s, p, cps[0], ws);
    PrintGoesTo(s, ambiguous, codes[0], p);
    PrintsUnfold(s, ambiguous, codes);
    var m := Written(s, Fit(p, ws[0], s.cols), cps[0], ws[0]);
    SameCharset(s, Fit(p, ws[0], s.cols), cps[0], ws[0]);
    TextFlows(m, ambiguous, codes[1..], Past(p, ws[0], s.cols));
    FlowedMore(s, Run(m, ambiguous, Prints(codes[1..])), p, cps, ws);
  }

  lemma SameCharset(s: Scr, q: Slot, cp: nat, w: nat)
    requires Valid(s) && q.y < s.rows && q.x + w <= s.cols && w >= 1
    ensures Written(s, q, cp, w).charset == s.charset && Written(s, q, cp, w).cols == s.cols
  {
  }

  // ---- Narrow text, counted.

  lemma RowsUp(cols: nat, k: nat)
    requires cols >= 1
    ensures (cols + k) / cols == 1 + k / cols && (cols + k) % cols == k % cols
  {
    var q, r := k / cols, k % cols;
    assert cols + k == (1 + q) * cols + r;
    Quotient(cols + k, 1 + q, r, cols);
  }

  lemma Quotient(n: nat, q: nat, r: nat, cols: nat)
    requires n == q * cols + r && r < cols
    ensures n / cols == q && n % cols == r
  {
    Multiples(n / cols + 1, q, cols);
    Multiples(q + 1, n / cols, cols);
  }

  lemma Multiples(a: nat, b: nat, c: nat)
    ensures a <= b ==> a * c <= b * c
  {
  }

  lemma InRow(x: nat, cols: nat)
    requires x < cols
    ensures x / cols == 0 && x % cols == x
  {
    Quotient(x, 0, x, cols);
  }

  /** The place k cells further than p, line after line. */
  function Further(p: Slot, k: nat, cols: nat): Slot
    requires cols >= 1
  {
    Slot(p.y + (p.x + k) / cols, (p.x + k) % cols)
  }

  /** Glyph k of a narrow text stands k cells further. */
  lemma {:induction false} NarrowSlot(p: Slot, ws: seq<nat>, cols: nat, k: nat)
    requires k < |ws| && p.x <= cols && cols >= 1 && forall i :: 0 <= i < |ws| ==> ws[i] == 1
    ensures SlotOf(p, ws, cols, k) == Further(p, k, cols)
    decreases k
  {
    if k == 0 {
      if p.x < cols { InRow(p.x, cols); } else { RowsUp(cols, 0); InRow(0, cols); }
    } else {
      NarrowSlot(Past(p, 1, cols), ws[1..], cols, k - 1);
      if p.x == cols { RowsUp(cols, k); }
    }
  }

  lemma {:induction false} EndIsPastLast(p: Slot, ws: seq<nat>, cols: nat)
    requires ws != []
    ensures var q := SlotOf(p, ws, cols, |ws| - 1); EndOf(p, ws, cols) == Slot(q.y, q.x + ws[|ws| - 1])
    decreases |ws|
  {
    if |ws| > 1 { EndIsPastLast(Past(p, ws[0], cols), ws[1..], cols); }
  }

  /** Narrow text from column x of line y, x being `cols` if a wrap is pending: glyph k is at line
      y + (x + k) / cols, column (x + k) % cols, and the cursor just after the last glyph. */
  lemma NarrowTextFlows(s: Scr, ambiguous: bool, codes: seq<nat>, p: Slot)
    requires Valid(s) && CanFlow(s, p, Widths(Glyphs(codes, s.charset), ambiguous)) && codes != []
    requires forall k :: 0 <= k < |codes| ==> CharWidth(ambiguous, Translate(codes[k], s.charset)) == 1
    ensures var r := Run(s, ambiguous, Prints(codes)); var last := Further(p, |codes| - 1, s.cols);
      && r.cols == s.cols && r.rows == s.rows && CursorAt(r, Slot(last.y, last.x + 1))
      && forall k :: 0 <= k < |codes| ==>
           GlyphIn(r.grid, Further(p, k, s.cols), Translate(codes[k], s.charset), 1, s.pen)
  {
    hide CharWidth, Translate, Prints, Flowed, CanFlow, Run, EndOf, Further, GlyphIn, Valid;
    var cps := Glyphs(codes, s.charset);
    var ws := Widths(cps, ambiguous);
    GlyphsAt(codes, s.charset, ambiguous);
    assert forall i :: 0 <= i < |ws| ==> ws[i] == CharWidth(ambiguous, Translate(codes[i], s.charset)) == 1;
    TextFlows(s, ambiguous, codes, p);
    PlaceFits(s, p, ws);
    NarrowIs(s, Run(s, ambiguous, Prints(codes)), p, cps, ws);
  }

  lemma GlyphsAt(codes: seq<nat>, charset: Charset, ambiguous: bool)
    ensures var cps := Glyphs(codes, charset); var ws := Widths(cps, ambiguous);
      forall i :: 0 <= i < |codes| ==> cps[i] == Translate(codes[i], charset) && ws[i] == CharWidth(ambiguous, cps[i])
  {
    hide CharWidth, Translate;
  }

  lemma NarrowIs(s: Scr, r: Scr, p: Slot, cps: seq<nat>, ws: seq<nat>)
    requires Valid(s) && Valid(r) && |ws| == |cps| && cps != [] && Flowed(s, r, p, cps, ws) && p.x <= s.cols
    requires forall i :: 0 <= i < |ws| ==> ws[i] == 1
    ensures var last := Further(p, |cps| - 1, s.cols);
      && r.cols == s.cols && r.rows == s.rows && CursorAt(r, Slot(last.y, last.x + 1))
      && forall k :: 0 <= k < |cps| ==> GlyphIn(r.grid, Further(p, k, s.cols), cps[k], 1, s.pen)
  {
    NarrowParts(s, r, p, cps, ws);
    EndIsPastLast(p, ws, s.cols);
    NarrowSlot(p, ws, s.cols, |cps| - 1);
    hide Flowed, EndOf, Further, GlyphIn, SlotOf, CursorAt;
    forall k | 0 <= k < |cps|
      ensures SlotOf(p, ws, s.cols, k) == Further(p, k, s.cols)
    {
      NarrowSlot(p, ws, s.cols, k);
    }
  }

  lemma NarrowParts(s: Scr, r: Scr, p: Slot, cps: seq<nat>, ws: seq<nat>)
    requires Valid(s) && Valid(r) && |ws| == |cps| && Flowed(s, r, p, cps, ws)
    ensures r.cols == s.cols && r.rows == s.rows && CursorAt(r, EndOf(p, ws, s.cols))
    ensures forall k :: 0 <= k < |cps| ==> GlyphIn(r.grid, SlotOf(p, ws, s.cols, k), cps[k], ws[k], s.pen)
  {
    hide EarlierStands, RestStands, PairedGrid, EndOf, SlotOf, GlyphIn;
  }

  /** A wide glyph that does not fit on its line starts the next one, the last column left as it was. */
  lemma WideGoesDown(s: Scr, ambiguous: bool, code: nat)
    requires Valid(s) && s.autowrap && s.cx == s.cols - 1 && s.cols >= 2 && PairedGrid(s.grid)
    requires CharWidth(ambiguous, Translate(code, s.charset)) == 2 && Room(s, s.cy + 1)
    ensures var cp := Translate(code, s.charset); var r := Screen.Print(s, ambiguous, code);
      && Valid(r) && r.grid[s.cy] == s.grid[s.cy]
      && r.grid[s.cy + 1][0] == SCell(cp, 2, s.pen) && r.grid[s.cy + 1][1] == SCell(32, 0, s.pen)
      && r.cy == s.cy + 1 && r.cx == Min(2, s.cols - 1) && (r.wrap <==> s.cols == 2)
  {
    var p := Slot(s.cy, if s.wrap then s.cols else s.cx);
    hide CharWidth, Translate, Screen.Print, PutGlyph;
    PrintGoesTo(s, ambiguous, code, p);
    WrittenPage(s, Slot(s.cy + 1, 0), Translate(code, s.charset), 2);
  }

  /** With autowrap off no text leaves its line. */
  lemma {:induction false} TextStaysOnLine(s: Scr, ambiguous: bool, codes: seq<nat>)
    requires Valid(s) && !s.autowrap
    ensures var r := Run(s, ambiguous, Prints(codes));
      && r.cy == s.cy && r.rows == s.rows && |r.grid| == |s.grid| && !r.autowrap
      && forall y :: 0 <= y < s.rows && y != s.cy ==> r.grid[y] == s.grid[y]
    decreases |codes|
  {
    hide Screen.Print, Prints;
    if codes != [] {
      PrintsUnfold(s, ambiguous, codes);
      PrintStaysOnLine(s, ambiguous, codes[0]);
      hide Run, Valid;
      TextStaysOnLine(Screen.Print(s, ambiguous, codes[0]), ambiguous, codes[1..]);
    } else {
      assert Prints(codes) == [];
    }
  }

  lemma PrintStaysOnLine(s: Scr, ambiguous: bool, code: nat)
    requires Valid(s) && !s.autowrap
    ensures var r := Screen.Print(s, ambiguous, code);
      && r.cy == s.cy && r.rows == s.rows && |r.grid| == |s.grid| && !r.autowrap
      && forall y :: 0 <= y < s.rows && y != s.cy ==> r.grid[y] == s.grid[y]
  {
    hide CharWidth, Translate, PutGlyph, LineFeed;
  }

  /** With autowrap off and a wrap pending, a narrow glyph replaces the last of its line. */
  lemma LastColumnIsReplaced(s: Scr, ambiguous: bool, code: nat)
    requires Valid(s) && !s.autowrap && s.wrap && s.cx == s.cols - 1 && PairedGrid(s.grid)
    requires CharWidth(ambiguous, Translate(code, s.charset)) == 1
    ensures var r := Screen.Print(s, ambiguous, code);
      && Valid(r) && r.grid[s.cy][s.cols - 1] == SCell(Translate(code, s.charset), 1, s.pen)
      && r.wrap && r.cx == s.cx && r.cy == s.cy
  {
    PrintKeepsBounds(s, ambiguous, code);
    hide CharWidth, Translate, LineFeed;
    GlyphOnRow(s.grid[s.cy], s.cx, Translate(code, s.charset), 1, s.pen);
    hide PutGlyph;
  }
}
