// Which glyphs a line of text puts where, and the glyphs of a frame (render/surface.cpp).

module DrawnText {
  import opened Bytes
  import opened Cells
  import opened Utf8
  import opened Width
  import opened Picture
  import opened Drawing
  import opened Views

  function EncodeAll(cps: seq<nat>): bytes {
    if cps == [] then [] else EncodeUtf8(cps[0]) + EncodeAll(cps[1..])
  }

  /** Columns taken by code points, as they are shown. */
  function Columns(ambiguous: bool, cps: seq<nat>): nat {
    if cps == [] then 0 else CharWidth(ambiguous, Shown(cps[0])) + Columns(ambiguous, cps[1..])
  }

  /** How many code points are drawn in `room` columns: up to the first that takes a column too many. */
  function Drawn(ambiguous: bool, cps: seq<nat>, room: int): (n: nat)
    ensures n <= |cps|
  {
    if cps == [] then 0
    else
      var cw := CharWidth(ambiguous, Shown(cps[0]));
      if cw > 0 && cw > room then 0 else 1 + Drawn(ambiguous, cps[1..], room - cw)
  }

  /** They fill the room as far as they can, and no further. */
  lemma {:induction false} DrawnFits(ambiguous: bool, cps: seq<nat>, room: int)
    ensures var n := Drawn(ambiguous, cps, room);
      && (room >= 0 ==> Columns(ambiguous, cps[..n]) <= room)
      && (n < |cps| ==> CharWidth(ambiguous, Shown(cps[n])) > 0
                        && Columns(ambiguous, cps[..n]) + CharWidth(ambiguous, Shown(cps[n])) > room)
    decreases |cps|
  {
    hide CharWidth, Shown;
    var n := Drawn(ambiguous, cps, room);
    if cps != [] && n > 0 {
      var cw := CharWidth(ambiguous, Shown(cps[0]));
      DrawnFits(ambiguous, cps[1..], room - cw);
      assert cps[..n][1..] == cps[1..][..n - 1];
      assert cps[..n][0] == cps[0];
    }
  }

  /** The glyphs of the first n code points, each where those before it end. */
  function Line(ambiguous: bool, cps: seq<nat>, col: int, y: int, st: Style): seq<Put> {
    if cps == [] then []
    else
      var cw := CharWidth(ambiguous, Shown(cps[0]));
      (if cw == 0 then [] else [Put(col, y, Shown(cps[0]), st)]) + Line(ambiguous, cps[1..], col + cw, y, st)
  }

  /** Glyph k stands after the columns of the k before it. */
  lemma {:induction false} LineAt(ambiguous: bool, cps: seq<nat>, col: int, y: int, st: Style, k: nat)
    requires k < |cps| && CharWidth(ambiguous, Shown(cps[k])) > 0
    ensures Put(col + Columns(ambiguous, cps[..k]), y, Shown(cps[k]), st) in Line(ambiguous, cps, col, y, st)
    decreases k
  {
    hide CharWidth, Shown;
    if k == 0 {
      assert cps[..0] == [];
    } else {
      LineAt(ambiguous, cps[1..], col + CharWidth(ambiguous, Shown(cps[0])), y, st, k - 1);
      assert cps[..k][1..] == cps[1..][..k - 1];
      assert cps[..k][0] == cps[0];
    }
  }

  /** Decoding at a position is decoding what starts there. */
  lemma DecodeAt(s: bytes, i: nat)
    requires i < |s|
    ensures DecodeUtf8(s, i) == DecodeUtf8(s[i..], 0)
  {
    var need := Need(s[i]);
    if 0 < need && i + need < |s| { DecodeFromAt(s, i, need, 1, LeadBits(s[i])); }
  }

  lemma {:induction false} DecodeFromAt(s: bytes, i: nat, need: nat, k: nat, cp: nat)
    requires i + need < |s| && 1 <= k <= need + 1
    ensures DecodeFrom(s, i, need, k, cp) == DecodeFrom(s[i..], 0, need, k, cp)
    decreases need + 1 - k
  {
    if k <= need {
      assert s[i..][k] == s[i + k];
      if 0x80 <= s[i + k] < 0xC0 { DecodeFromAt(s, i, need, k + 1, cp * 64 + s[i + k] % 64); }
    }
  }

  lemma FirstDecoded(s: bytes, i: nat, cps: seq<nat>)
    requires i <= |s| && cps != [] && s[i..] == EncodeAll(cps)
    ensures i < |s| && var n := |EncodeUtf8(cps[0])|;
      DecodeUtf8(s, i) == (Shown(cps[0]), n) && i + n <= |s| && s[i + n..] == EncodeAll(cps[1..])
  {
    EncodedIsLong(cps[0]);
    var e, rest := EncodeUtf8(cps[0]), EncodeAll(cps[1..]);
    hide DecodeUtf8, EncodeUtf8, Shown;
    assert s[i..] == e + rest;
    DecodeAt(s, i);
    DecodeInvertsEncode(cps[0], rest);
    assert s[i + |e|..] == s[i..][|e|..];
  }

  lemma EncodedIsLong(cp: nat)
    ensures |EncodeUtf8(cp)| >= 1
  {
  }

  /** The code points that are drawn. */
  function DrawnPart(ambiguous: bool, cps: seq<nat>, room: int): seq<nat> { cps[..Drawn(ambiguous, cps, room)] }

  function Head(cw: nat, col: int, y: int, ch: nat, st: Style): seq<Put> {
    if cw == 0 then [] else [Put(col, y, ch, st)]
  }

  lemma OnePut(ambiguous: bool, w: int, s: bytes, i: nat, col: int, y: int, st: Style, ch: nat, n: nat)
    requires i < |s| && DecodeUtf8(s, i) == (ch, n) && i + n <= |s|
    ensures var cw := CharWidth(ambiguous, ch);
      TextPuts(ambiguous, w, s, i, col, y, st)
      == if cw > 0 && col + cw > w then []
         else Head(cw, col, y, ch, st) + TextPuts(ambiguous, w, s, i + n, col + cw, y, st)
  {
    hide DecodeUtf8, CharWidth;
    assert [] + TextPuts(ambiguous, w, s, i + n, col, y, st) == TextPuts(ambiguous, w, s, i + n, col, y, st);
  }

  lemma OneEnd(ambiguous: bool, w: int, s: bytes, i: nat, col: int, ch: nat, n: nat)
    requires i < |s| && DecodeUtf8(s, i) == (ch, n) && i + n <= |s|
    ensures var cw := CharWidth(ambiguous, ch);
      TextEnd(ambiguous, w, s, i, col)
      == if cw > 0 && col + cw > w then col else TextEnd(ambiguous, w, s, i + n, col + cw)
  {
    hide DecodeUtf8, CharWidth;
  }

  lemma OneDrawn(ambiguous: bool, cps: seq<nat>, room: int, col: int, y: int, st: Style)
    requires cps != []
    ensures var cw, part := CharWidth(ambiguous, Shown(cps[0])), DrawnPart(ambiguous, cps, room);
      if cw > 0 && cw > room then part == []
      else
        var rest := DrawnPart(ambiguous, cps[1..], room - cw);
        && Line(ambiguous, part, col, y, st) == Head(cw, col, y, Shown(cps[0]), st) + Line(ambiguous, rest, col + cw, y, st)
        && Columns(ambiguous, part) == cw + Columns(ambiguous, rest)
  {
    hide CharWidth, Shown;
    var cw, d := CharWidth(ambiguous, Shown(cps[0])), Drawn(ambiguous, cps, room);
    if cw > 0 && cw > room {
      assert cps[..d] == [];
    } else {
      assert cps[..d][0] == cps[0] && cps[..d][1..] == cps[1..][..d - 1];
    }
  }

  lemma NothingEncoded()
    ensures EncodeAll([]) == []
  {
  }

  lemma NothingToDraw(ambiguous: bool, w: int, s: bytes, i: nat, col: int, y: int, st: Style)
    requires i <= |s| && s[i..] == []
    ensures TextPuts(ambiguous, w, s, i, col, y, st) == [] && TextEnd(ambiguous, w, s, i, col) == col
  {
  }

  lemma EmptyLine(ambiguous: bool, room: int, col: int, y: int, st: Style)
    ensures DrawnPart(ambiguous, [], room) == [] && Line(ambiguous, [], col, y, st) == [] && Columns(ambiguous, []) == 0
  {
  }

  /** The glyphs of a text are those of its code points that fit, one after the other, and it ends
      after them. */
  lemma {:induction false} TextSpells(ambiguous: bool, w: int, s: bytes, i: nat, cps: seq<nat>, col: int, y: int,
                                      st: Style)
    requires i <= |s| && s[i..] == EncodeAll(cps)
    ensures TextPuts(ambiguous, w, s, i, col, y, st)
         == Line(ambiguous, DrawnPart(ambiguous, cps, w - col), col, y, st)
    ensures TextEnd(ambiguous, w, s, i, col) == col + Columns(ambiguous, DrawnPart(ambiguous, cps, w - col))
    decreases |cps|
  {
    hide CharWidth, EncodeUtf8, DecodeUtf8, Shown, TextPuts, TextEnd, Line, Columns, DrawnPart, Head, EncodeAll, Drawn;
    EmptyLine(ambiguous, w - col, col, y, st);
    if cps == [] {
      NothingEncoded();
      NothingToDraw(ambiguous, w, s, i, col, y, st);
    } else {
      FirstDecoded(s, i, cps);
      var ch, n := Shown(cps[0]), |EncodeUtf8(cps[0])|;
      var cw := CharWidth(ambiguous, ch);
      OnePut(ambiguous, w, s, i, col, y, st, ch, n);
      OneEnd(ambiguous, w, s, i, col, ch, n);
      OneDrawn(ambiguous, cps, w - col, col, y, st);
      if !(cw > 0 && col + cw > w) {
        TextSpells(ambiguous, w, s, i + n, cps[1..], col + cw, y, st);
      }
    }
  }

  /** A text drawn at (x, y): every code point that fits is on its columns, in order, and the answer is the
      number of columns drawn. */
  lemma TextIsDrawn(ambiguous: bool, w: int, cps: seq<nat>, x: int, y: int, st: Style, k: nat)
    requires k < |DrawnPart(ambiguous, cps, w - x)| && CharWidth(ambiguous, Shown(DrawnPart(ambiguous, cps, w - x)[k])) > 0
    ensures var part := DrawnPart(ambiguous, cps, w - x);
      && Put(x + Columns(ambiguous, part[..k]), y, Shown(part[k]), st)
         in TextPuts(ambiguous, w, EncodeAll(cps), 0, x, y, st)
      && TextEnd(ambiguous, w, EncodeAll(cps), 0, x) - x == Columns(ambiguous, part)
  {
    hide CharWidth, Shown, TextPuts, TextEnd, Line, Columns, DrawnPart, EncodeAll;
    var s := EncodeAll(cps);
    assert s[0..] == s;
    TextSpells(ambiguous, w, s, 0, cps, x, y, st);
    LineAt(ambiguous, DrawnPart(ambiguous, cps, w - x), x, y, st, k);
  }

  /** The second half of a wide glyph has no character, and of the style only the background. */
  lemma SecondHalf(row: PicRow, x: nat, ch: nat, st: Style)
    requires x + 2 <= |row|
    ensures var r := PutInRow(row, x, ch, st, 2);
      r[x] == Cell(ch, st, 2) && r[x + 1] == Cell(0, PLAIN.(bg := st.bg), 0)
  {
  }

  /** The corners of a frame of at least two lines and columns, and its sides. */
  lemma FrameGlyphs(r: Rect, b: Border)
    requires r.w >= 3 && r.h >= 3
    ensures b.Unicode? ==> EdgeOf(r, b, r.x, r.y) == 0x250C && EdgeOf(r, b, r.x + r.w - 1, r.y) == 0x2510
    ensures b.Unicode? ==>
      EdgeOf(r, b, r.x, r.y + r.h - 1) == 0x2514 && EdgeOf(r, b, r.x + r.w - 1, r.y + r.h - 1) == 0x2518
    ensures b.Unicode? ==> EdgeOf(r, b, r.x + 1, r.y) == 0x2500 && EdgeOf(r, b, r.x, r.y + 1) == 0x2502
    ensures b.Ascii? ==> EdgeOf(r, b, r.x, r.y) == EdgeOf(r, b, r.x + r.w - 1, r.y + r.h - 1) == 43
    ensures b.Ascii? ==> EdgeOf(r, b, r.x + 1, r.y) == 45 && EdgeOf(r, b, r.x, r.y + 1) == 124
  {
  }
}
