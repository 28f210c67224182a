// Colour reduction and the SGR compiler (render/profile.cpp).

module Profile {
  import opened Bytes
  import opened Cells

  datatype Depth = Mono16 | Indexed256 | TrueColor

  const STEPS: seq<byte> := [0, 95, 135, 175, 215, 255]

  function IndexedToRgb(idx: byte): Color {
    if idx < 16 then
      var lo: byte := if idx / 8 % 2 == 1 then 255 else 128;
      Rgb(if idx % 2 == 1 then lo else 0, if idx / 2 % 2 == 1 then lo else 0, if idx / 4 % 2 == 1 then lo else 0)
    else if idx < 232 then
      var v := idx - 16;
      Rgb(STEPS[v / 36 % 6], STEPS[v / 6 % 6], STEPS[v % 6])
    else
      var v: byte := 8 + (idx - 232) * 10;
      Rgb(v, v, v)
  }

  function AsRgb(c: Color): Color
    requires !c.Default?
  {
    if c.Indexed? then IndexedToRgb(c.idx) else c
  }

  function Cube(v: byte): (q: nat)
    ensures q <= 5
  {
    v * 5 / 255
  }

  /** The entry of the 6x6x6 cube, one level per channel. */
  function Quantize256(c: Color): byte
    requires c.Rgb?
  {
    16 + 36 * Cube(c.r) + 6 * Cube(c.g) + Cube(c.b)
  }

  /** Bit 0 red, bit 1 green, bit 2 blue. */
  function Quantize16(c: Color): (q: byte)
    requires c.Rgb?
    ensures q <= 7
  {
    (if c.r > 127 then 1 else 0) + (if c.g > 127 then 2 else 0) + (if c.b > 127 then 4 else 0)
  }

  function QuantizeColor(c: Color, d: Depth): Color {
    if c.Default? || d.TrueColor? then c
    else if d.Indexed256? then (if c.Indexed? then c else Indexed(Quantize256(c)))
    else Indexed(Quantize16(AsRgb(c)))
  }

  /** The parameters of the one SGR sequence that selects colour c. */
  function ColorCode(c: Color, foreground: bool, d: Depth): seq<nat> {
    if c.Default? then [if foreground then 39 else 49]
    else
      var base := if foreground then 38 else 48;
      match d
      case TrueColor => var t := AsRgb(c); [base, 2, t.r, t.g, t.b]
      case Indexed256 => [base, 5, QuantizeColor(c, d).idx]
      case Mono16 => [(if foreground then 30 else 40) + QuantizeColor(c, d).idx]
  }

  const CODES: seq<(Attr, nat)> := [
    (Bold, 1), (Dim, 2), (Italic, 3), (Underline, 4), (Blink, 5), (Reverse, 7), (Hidden, 8), (Strike, 9)
  ]

  /** The sequences that switch on, from table entry k on, what `to` has and `base` lacks. */
  function AttrCodes(base: set<Attr>, to: set<Attr>, k: nat): seq<seq<nat>>
    requires k <= |CODES|
    decreases |CODES| - k
  {
    if k == |CODES| then []
    else (if CODES[k].0 in to && CODES[k].0 !in base then [[CODES[k].1]] else []) + AttrCodes(base, to, k + 1)
  }

  /** No code switches a single attribute off portably: losing one starts from a reset. */
  function BaseOf(from: Style, to: Style): Style {
    if from.attrs - to.attrs != {} then PLAIN else from
  }

  function ColorLists(base: Style, to: Style, d: Depth): seq<seq<nat>> {
    (if base.fg != to.fg then [ColorCode(to.fg, true, d)] else [])
    + (if base.bg != to.bg then [ColorCode(to.bg, false, d)] else [])
  }

  function ResetLists(from: Style, to: Style): seq<seq<nat>> {
    if from.attrs - to.attrs != {} then [[0]] else []
  }

  /** The parameter lists of the sequences that take pen `from` to pen `to`. */
  function SgrLists(from: Style, to: Style, d: Depth): seq<seq<nat>> {
    if from == to then []
    else
      var base := BaseOf(from, to);
      ResetLists(from, to) + (AttrCodes(base.attrs, to.attrs, 0) + ColorLists(base, to, d))
  }

  /** One `ESC [ ... m` per list. */
  function SgrBytes(lists: seq<seq<nat>>): bytes {
    if lists == [] then [] else CsiBytes(lists[0], 109) + SgrBytes(lists[1..])
  }

  function Transition(from: Style, to: Style, d: Depth): bytes {
    SgrBytes(SgrLists(from, to, d))
  }

  lemma {:induction false} SgrBytesConcat(a: seq<seq<nat>>, b: seq<seq<nat>>)
    ensures SgrBytes(a + b) == SgrBytes(a) + SgrBytes(b)
  {
    if a == [] {
      assert a + b == b;
    } else {
      assert (a + b)[1..] == a[1..] + b;
      SgrBytesConcat(a[1..], b);
    }
  }

  lemma SgrBytesOne(l: seq<nat>)
    ensures SgrBytes([l]) == CsiBytes(l, 109)
  {
    assert SgrBytes([l][1..]) == [];
  }

  lemma AppendList(lists: seq<seq<nat>>, l: seq<nat>)
    ensures SgrBytes(lists + [l]) == SgrBytes(lists) + CsiBytes(l, 109)
  {
    SgrBytesConcat(lists, [l]);
    SgrBytesOne(l);
  }

  /** The bytes of one table entry come before those of the entries after it. */
  lemma AttrStep(base: set<Attr>, to: set<Attr>, k: nat)
    requires k < |CODES|
    ensures SgrBytes(AttrCodes(base, to, k)) ==
      (if CODES[k].0 in to && CODES[k].0 !in base then CsiBytes([CODES[k].1], 109) else [])
      + SgrBytes(AttrCodes(base, to, k + 1))
  {
    var rest := AttrCodes(base, to, k + 1);
    if CODES[k].0 in to && CODES[k].0 !in base {
      SgrBytesConcat([[CODES[k].1]], rest);
      SgrBytesOne([CODES[k].1]);
    } else {
      assert [] + rest == rest;
      assert [] + SgrBytes(rest) == SgrBytes(rest);
    }
  }

  lemma NoMoreCodes(base: set<Attr>, to: set<Attr>)
    ensures SgrBytes(AttrCodes(base, to, |CODES|)) == []
  {
  }

  /** The emitter's first half: the attributes the pen lacks, in table order. */
  method AppendAttrs(prefix: bytes, base: set<Attr>, to: set<Attr>) returns (out: bytes)
    ensures out == prefix + SgrBytes(AttrCodes(base, to, 0))
  {
    out := prefix;
    NoMoreCodes(base, to);
    hide SgrBytes, CsiBytes, AttrCodes;
    for k := 0 to |CODES|
      invariant out + SgrBytes(AttrCodes(base, to, k)) == prefix + SgrBytes(AttrCodes(base, to, 0))
    {
      var (bit, code) := CODES[k];
      AttrStep(base, to, k);
      ghost var rest := SgrBytes(AttrCodes(base, to, k + 1));
      if bit in to && bit !in base {
        assert out + (CsiBytes([code], 109) + rest) == (out + CsiBytes([code], 109)) + rest;
        out := out + CsiBytes([code], 109);
      } else {
        assert out + ([] + rest) == out + rest;
      }
    }
    assert out + [] == out;
  }

  /** The emitter's second half: the colours that change. */
  method AppendColors(prefix: bytes, base: Style, to: Style, d: Depth) returns (out: bytes)
    ensures out == prefix + SgrBytes(ColorLists(base, to, d))
  {
    assert SgrBytes([]) == [];
    hide SgrBytes, CsiBytes, ColorCode;
    out := prefix;
    ghost var lists: seq<seq<nat>> := [];
    if base.fg != to.fg {
      AppendAfter(prefix, lists, ColorCode(to.fg, true, d));
      out := out + CsiBytes(ColorCode(to.fg, true, d), 109);
      lists := lists + [ColorCode(to.fg, true, d)];
    }
    if base.bg != to.bg {
      AppendAfter(prefix, lists, ColorCode(to.bg, false, d));
      out := out + CsiBytes(ColorCode(to.bg, false, d), 109);
      lists := lists + [ColorCode(to.bg, false, d)];
    }
    assert lists == ColorLists(base, to, d);
  }

  lemma AppendAfter(prefix: bytes, lists: seq<seq<nat>>, l: seq<nat>)
    ensures (prefix + SgrBytes(lists)) + CsiBytes(l, 109) == prefix + SgrBytes(lists + [l])
  {
    AppendList(lists, l);
    hide SgrBytes, CsiBytes;
    assert (prefix + SgrBytes(lists)) + CsiBytes(l, 109) == prefix + (SgrBytes(lists) + CsiBytes(l, 109));
  }

  lemma SgrBytesParts(a: seq<seq<nat>>, b: seq<seq<nat>>, c: seq<seq<nat>>)
    ensures SgrBytes(a + (b + c)) == (SgrBytes(a) + SgrBytes(b)) + SgrBytes(c)
  {
    SgrBytesConcat(a, b + c);
    SgrBytesConcat(b, c);
  }

  /** The emitter: text appended to `out`: a reset if needed, the attributes, the two colours. */
  method SgrTransition(from: Style, to: Style, d: Depth) returns (out: bytes)
    ensures out == Transition(from, to, d)
  {
    if from == to {
      return [];
    }
    out := [];
    var base := from;
    if from.attrs - to.attrs != {} {
      out := CsiBytes([0], 109);
      base := PLAIN;
      SgrBytesOne([0]);
    }
    assert out == SgrBytes(ResetLists(from, to)) && base == BaseOf(from, to);
    SgrBytesParts(ResetLists(from, to), AttrCodes(base.attrs, to.attrs, 0), ColorLists(base, to, d));
    out := AppendAttrs(out, base.attrs, to.attrs);
    out := AppendColors(out, base, to, d);
  }
}
