// The SGR compiler and the SGR interpreter are inverse, up to the colours the depth can show.

module SgrInverse {
  import opened Bytes
  import opened Cells
  import opened VtParserProofs
  import opened Profile
  import opened Attrs

  /** The colour a terminal of depth d ends up with when asked for c. */
  function Displayed(c: Color, d: Depth): Color {
    if d.TrueColor? && c.Indexed? then IndexedToRgb(c.idx) else QuantizeColor(c, d)
  }

  function Quantized(s: Style, d: Depth): Style {
    Style(Displayed(s.fg, d), Displayed(s.bg, d), s.attrs)
  }

  /** Every sequence in turn, as the emulator's `m` handler does. */
  function ApplyLists(lists: seq<seq<nat>>, s: Style): Style {
    if lists == [] then s else ApplyLists(lists[1..], Apply(Plain(lists[0]), s))
  }

  /** "One reduction rule in the whole program": true of the emitter exactly away from
      palette colours on a true-colour terminal, which it sends as RGB triples. */
  lemma EmitterAgreesWithTheme(c: Color, d: Depth)
    ensures Displayed(c, d) == QuantizeColor(c, d) <==> !(d.TrueColor? && c.Indexed?)
  {
  }

  /** Palette red on a true-colour terminal. */
  lemma EmitterDisagrees()
    ensures Displayed(Indexed(1), TrueColor) != QuantizeColor(Indexed(1), TrueColor)
  {
  }

  lemma {:induction false} ApplyConcat(a: seq<seq<nat>>, b: seq<seq<nat>>, s: Style)
    ensures ApplyLists(a + b, s) == ApplyLists(b, ApplyLists(a, s))
    decreases |a|
  {
    if a == [] {
      assert a + b == b;
    } else {
      assert (a + b)[1..] == a[1..] + b;
      ApplyConcat(a[1..], b, Apply(Plain(a[0]), s));
    }
  }

  lemma ApplyOne(l: seq<nat>, s: Style)
    ensures ApplyLists([l], s) == Apply(Plain(l), s)
  {
    var t := Apply(Plain(l), s);
    assert ApplyLists([l][1..], t) == t;
  }

  lemma ApplySimple(n: nat, s: Style)
    requires !IsExtended(n)
    ensures Apply(Plain([n]), s) == Simple(n, false, s)
  {
    var p, t := Plain([n]), Simple(n, false, s);
    assert GroupEnd(p, 1) == 1;
    assert ApplyFrom(p, 1, t) == t;
    assert CodeAt(p, 0) == n;
    assert ApplyFrom(p, 0, s) == ApplyFrom(p, 1, t);
  }

  lemma ApplyIndexed(n: byte, foreground: bool, s: Style)
    ensures Apply(Plain([if foreground then 38 else 48, 5, n]), s) ==
      if foreground then s.(fg := Indexed(n)) else s.(bg := Indexed(n))
  {
    var p := Plain([if foreground then 38 else 48, 5, n]);
    assert GroupEnd(p, 1) == 1;
    assert ExtendedEnd(p, 0) == 3;
    assert ReadExtended(p, 1, 3) == Some(Indexed(n));
    var t := SetColor(CodeAt(p, 0), Some(Indexed(n)), s);
    assert ApplyFrom(p, 0, s) == ApplyFrom(p, 3, t);
    assert ApplyFrom(p, 3, t) == t;
  }

  lemma ApplyRgb(r: byte, g: byte, b: byte, foreground: bool, s: Style)
    ensures Apply(Plain([if foreground then 38 else 48, 2, r, g, b]), s) ==
      if foreground then s.(fg := Rgb(r, g, b)) else s.(bg := Rgb(r, g, b))
  {
    var p := Plain([if foreground then 38 else 48, 2, r, g, b]);
    assert GroupEnd(p, 1) == 1;
    assert ExtendedEnd(p, 0) == 5;
    assert ReadExtended(p, 1, 5) == Some(Rgb(r, g, b));
    var t := SetColor(CodeAt(p, 0), Some(Rgb(r, g, b)), s);
    assert ApplyFrom(p, 0, s) == ApplyFrom(p, 5, t);
    assert ApplyFrom(p, 5, t) == t;
  }

  /** A colour code sets its own ground to the colour this depth can show, and nothing else. */
  lemma ApplyColor(c: Color, foreground: bool, d: Depth, s: Style)
    ensures Apply(Plain(ColorCode(c, foreground, d)), s) ==
      if foreground then s.(fg := Displayed(c, d)) else s.(bg := Displayed(c, d))
  {
    if c.Default? {
      ApplySimple(if foreground then 39 else 49, s);
    } else {
      match d
      case TrueColor => var t := AsRgb(c); ApplyRgb(t.r, t.g, t.b, foreground, s);
      case Indexed256 => ApplyIndexed(QuantizeColor(c, d).idx, foreground, s);
      case Mono16 => ApplySimple((if foreground then 30 else 40) + QuantizeColor(c, d).idx, s);
    }
  }

  /** The attributes of table entries k and above. */
  function FromEntry(k: nat): set<Attr>
    requires k <= |CODES|
  {
    set i | k <= i < |CODES| :: CODES[i].0
  }

  lemma ApplyAttr(k: nat, s: Style)
    requires k < |CODES|
    ensures Apply(Plain([CODES[k].1]), s) == s.(attrs := s.attrs + {CODES[k].0})
  {
    ApplySimple(CODES[k].1, s);
  }

  lemma OneMoreAttr(base: set<Attr>, to: set<Attr>, k: nat, have: set<Attr>)
    requires k < |CODES| && base <= have
    ensures have + to * (FromEntry(k) - base)
         == (if CODES[k].0 in to && CODES[k].0 !in base then have + {CODES[k].0} else have)
            + to * (FromEntry(k + 1) - base)
  {
    assert FromEntry(k) == FromEntry(k + 1) + {CODES[k].0};
  }

  lemma ApplyFirst(k: nat, rest: seq<seq<nat>>, s: Style)
    requires k < |CODES|
    ensures ApplyLists([[CODES[k].1]] + rest, s) == ApplyLists(rest, s.(attrs := s.attrs + {CODES[k].0}))
  {
    hide ApplyLists, Apply;
    ApplyConcat([[CODES[k].1]], rest, s);
    ApplyOne([CODES[k].1], s);
    ApplyAttr(k, s);
  }

  lemma {:induction false} ApplyAttrs(base: set<Attr>, to: set<Attr>, k: nat, s: Style)
    requires k <= |CODES| && base <= s.attrs
    ensures ApplyLists(AttrCodes(base, to, k), s) == s.(attrs := s.attrs + to * (FromEntry(k) - base))
    decreases |CODES| - k
  {
    if k == |CODES| {
      assert s.attrs + to * (FromEntry(k) - base) == s.attrs;
    } else {
      var a := CODES[k].0;
      var rest := AttrCodes(base, to, k + 1);
      OneMoreAttr(base, to, k, s.attrs);
      hide FromEntry;
      if a in to && a !in base {
        hide ApplyLists;
        ApplyFirst(k, rest, s);
        ApplyAttrs(base, to, k + 1, s.(attrs := s.attrs + {a}));
      } else {
        hide ApplyLists;
        ApplyAttrs(base, to, k + 1, s);
        assert [] + rest == rest;
      }
    }
  }

  lemma AllAttrs(to: set<Attr>)
    ensures to <= FromEntry(0)
  {
    assert CODES[0].0 == Bold && CODES[1].0 == Dim && CODES[2].0 == Italic && CODES[3].0 == Underline;
    assert CODES[4].0 == Blink && CODES[5].0 == Reverse && CODES[6].0 == Hidden && CODES[7].0 == Strike;
    forall a | a in to
      ensures a in FromEntry(0)
    {
      match a {
        case Bold => case Dim => case Italic => case Underline =>
        case Blink => case Reverse => case Hidden => case Strike =>
      }
    }
  }

  /** Attributes only: from the base pen to the target's attributes. */
  lemma ApplyAllAttrs(base: Style, to: Style, d: Depth)
    requires base.attrs <= to.attrs
    ensures ApplyLists(AttrCodes(base.attrs, to.attrs, 0), Quantized(base, d))
      == Quantized(base, d).(attrs := to.attrs)
  {
    ApplyAttrs(base.attrs, to.attrs, 0, Quantized(base, d));
    AllAttrs(to.attrs);
    assert base.attrs + to.attrs * (FromEntry(0) - base.attrs) == to.attrs;
  }

  lemma ApplyColors(base: Style, to: Style, d: Depth)
    ensures ApplyLists(ColorLists(base, to, d), Quantized(base, d).(attrs := to.attrs)) == Quantized(to, d)
  {
    var s := Quantized(base, d).(attrs := to.attrs);
    var fg := if base.fg != to.fg then [ColorCode(to.fg, true, d)] else [];
    var bg := if base.bg != to.bg then [ColorCode(to.bg, false, d)] else [];
    var t := s.(fg := Displayed(to.fg, d));
    ApplyConcat(fg, bg, s);
    if base.fg != to.fg {
      ApplyOne(fg[0], s);
      ApplyColor(to.fg, true, d, s);
    }
    assert ApplyLists(fg, s) == t;
    if base.bg != to.bg {
      ApplyOne(bg[0], t);
      ApplyColor(to.bg, false, d, t);
    }
  }

  /** From the base the compiler starts from, the sequences reach the target. */
  lemma ApplyFromBase(base: Style, to: Style, d: Depth)
    requires base.attrs <= to.attrs
    ensures ApplyLists(AttrCodes(base.attrs, to.attrs, 0) + ColorLists(base, to, d), Quantized(base, d))
      == Quantized(to, d)
  {
    ApplyConcat(AttrCodes(base.attrs, to.attrs, 0), ColorLists(base, to, d), Quantized(base, d));
    ApplyAllAttrs(base, to, d);
    ApplyColors(base, to, d);
  }

  /** The reset, if any, leaves the pen the rest of the compilation starts from. */
  lemma ApplyReset(from: Style, to: Style, d: Depth)
    ensures BaseOf(from, to).attrs <= to.attrs
    ensures ApplyLists(ResetLists(from, to), Quantized(from, d)) == Quantized(BaseOf(from, to), d)
  {
    if from.attrs - to.attrs != {} {
      ApplyOne([0], Quantized(from, d));
      ApplySimple(0, Quantized(from, d));
    } else {
      assert forall a :: a in from.attrs ==> a in to.attrs || a in from.attrs - to.attrs;
    }
  }

  /** Whatever the two pens and the depth, a terminal whose pen shows `from` ends up showing `to`. */
  lemma SgrRoundTrip(from: Style, to: Style, d: Depth)
    ensures ApplyLists(SgrLists(from, to, d), Quantized(from, d)) == Quantized(to, d)
  {
    if from != to {
      var base := BaseOf(from, to);
      ApplyReset(from, to, d);
      ApplyConcat(ResetLists(from, to), AttrCodes(base.attrs, to.attrs, 0) + ColorLists(base, to, d),
                  Quantized(from, d));
      ApplyFromBase(base, to, d);
    }
  }
}
