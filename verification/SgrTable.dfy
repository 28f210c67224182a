// The meaning of every rendition code a guest may send, one by one and in sequence (vt/attrs.cpp;
// ECMA-48, section 8.3.117).

module SgrTable {
  import opened Bytes
  import opened Cells
  import opened VtParser
  import opened VtParserProofs
  import opened Attrs
  import opened SgrInverse

  function With(s: Style, a: Attr): Style { s.(attrs := s.attrs + {a}) }

  function Less(s: Style, off: set<Attr>): Style { s.(attrs := s.attrs - off) }

  /** One code on its own, sent as `ESC [ n m`. */
  function Code(n: nat, s: Style): Style { Apply(Plain([n]), s) }

  lemma CodeIs(n: nat, s: Style)
    requires !IsExtended(n)
    ensures Code(n, s) == Simple(n, false, s)
  {
    ApplySimple(n, s);
  }

  lemma SwitchesOn(s: Style)
    ensures Code(1, s) == With(s, Bold) && Code(2, s) == With(s, Dim) && Code(3, s) == With(s, Italic)
    ensures Code(4, s) == Code(21, s) == With(s, Underline) && Code(5, s) == Code(6, s) == With(s, Blink)
    ensures Code(7, s) == With(s, Reverse) && Code(8, s) == With(s, Hidden) && Code(9, s) == With(s, Strike)
  {
    hide Code;
    CodeIs(1, s); CodeIs(2, s); CodeIs(3, s); CodeIs(4, s); CodeIs(5, s);
    CodeIs(6, s); CodeIs(7, s); CodeIs(8, s); CodeIs(9, s); CodeIs(21, s);
  }

  /** Each switch has its own opposite, but for Bold and Dim, which share one. */
  lemma SwitchesOff(s: Style)
    ensures Code(22, s) == Less(s, {Bold, Dim}) && Code(23, s) == Less(s, {Italic}) && Code(24, s) == Less(s, {Underline})
    ensures Code(25, s) == Less(s, {Blink}) && Code(27, s) == Less(s, {Reverse})
    ensures Code(28, s) == Less(s, {Hidden}) && Code(29, s) == Less(s, {Strike})
    ensures Code(0, s) == PLAIN && Apply([], s) == PLAIN
    ensures Code(39, s) == s.(fg := Default) && Code(49, s) == s.(bg := Default)
  {
    hide Code;
    CodeIs(22, s); CodeIs(23, s); CodeIs(24, s); CodeIs(25, s); CodeIs(27, s);
    CodeIs(28, s); CodeIs(29, s); CodeIs(0, s); CodeIs(39, s); CodeIs(49, s);
  }

  /** The eight colours and their bright forms, on either ground. */
  lemma PaletteCodes(i: nat, s: Style)
    requires i < 8
    ensures Code(30 + i, s) == s.(fg := Indexed(i)) && Code(40 + i, s) == s.(bg := Indexed(i))
    ensures Code(90 + i, s) == s.(fg := Indexed(i + 8)) && Code(100 + i, s) == s.(bg := Indexed(i + 8))
  {
    hide Code;
    CodeIs(30 + i, s);
    CodeIs(40 + i, s);
    CodeIs(90 + i, s);
    CodeIs(100 + i, s);
  }

  /** A code without a meaning here changes nothing. */
  lemma OtherCodes(n: nat, s: Style)
    requires 10 <= n <= 20 || n == 26 || 50 <= n <= 57 || 59 <= n <= 89 || n == 98 || n == 99 || n > 107
    ensures Code(n, s) == s
  {
    hide Code;
    CodeIs(n, s);
  }

  // ---- Sub-parameters.

  /** `4:0` switches the underline off; any other kind of underline, `4:n`, switches it on. */
  lemma UnderlineKinds(n: nat, s: Style)
    ensures Apply([Param(4, false), Param(n, true)], s) == if n == 0 then Less(s, {Underline}) else With(s, Underline)
  {
    var p := [Param(4, false), Param(n, true)];
    assert GroupEnd(p, 2) == 2 && GroupEnd(p, 1) == 2;
    var t := Simple(4, n == 0, s);
    assert ApplyFrom(p, 2, t) == t;
    assert ApplyFrom(p, 0, s) == ApplyFrom(p, 2, t);
  }

  function Ground(foreground: bool, c: Color, s: Style): Style { if foreground then s.(fg := c) else s.(bg := c) }

  /** A palette colour written with colons: `38:5:n`. */
  lemma ColonIndexed(n: byte, foreground: bool, s: Style)
    ensures Apply([Param(if foreground then 38 else 48, false), Param(5, true), Param(n, true)], s)
         == Ground(foreground, Indexed(n), s)
  {
    var p := [Param(if foreground then 38 else 48, false), Param(5, true), Param(n, true)];
    assert GroupEnd(p, 3) == 3 && GroupEnd(p, 2) == 3 && GroupEnd(p, 1) == 3;
    assert ReadExtended(p, 1, 3) == Some(Indexed(n));
    var t := SetColor(CodeAt(p, 0), Some(Indexed(n)), s);
    assert ApplyFrom(p, 3, t) == t;
    assert ApplyFrom(p, 0, s) == ApplyFrom(p, 3, t);
  }

  /** A direct colour written with colons and an empty colour space: `38:2::r:g:b`. */
  lemma ColonRgb(r: byte, g: byte, b: byte, foreground: bool, s: Style)
    ensures Apply([Param(if foreground then 38 else 48, false), Param(2, true), Param(-1, true),
                   Param(r, true), Param(g, true), Param(b, true)], s) == Ground(foreground, Rgb(r, g, b), s)
  {
    var p := [Param(if foreground then 38 else 48, false), Param(2, true), Param(-1, true),
              Param(r, true), Param(g, true), Param(b, true)];
    assert GroupEnd(p, 6) == 6 && GroupEnd(p, 5) == 6 && GroupEnd(p, 4) == 6 && GroupEnd(p, 3) == 6;
    assert GroupEnd(p, 2) == 6 && GroupEnd(p, 1) == 6;
    assert ReadExtended(p, 1, 6) == Some(Rgb(r, g, b));
    var t := SetColor(CodeAt(p, 0), Some(Rgb(r, g, b)), s);
    assert ApplyFrom(p, 6, t) == t;
    assert ApplyFrom(p, 0, s) == ApplyFrom(p, 6, t);
  }

  /** The underline's own colour is read over and dropped. */
  lemma UnderlineColour(n: byte, s: Style)
    ensures Apply(Plain([58, 5, n]), s) == s
  {
    var p := Plain([58, 5, n]);
    assert GroupEnd(p, 1) == 1;
    assert ExtendedEnd(p, 0) == 3;
    assert ApplyFrom(p, 3, s) == s;
    assert ApplyFrom(p, 0, s) == ApplyFrom(p, 3, SetColor(58, ReadExtended(p, 1, 3), s));
  }

  // ---- In sequence.

  /** Codes that select no extended colour act one after the other, the last one last. */
  lemma {:induction false} InSequence(ns: seq<nat>, i: nat, s: Style)
    requires i < |ns| && forall k :: 0 <= k < |ns| ==> !IsExtended(ns[k])
    ensures ApplyFrom(Plain(ns), i, s) == ApplyFrom(Plain(ns), i + 1, Code(ns[i], s))
  {
    var p := Plain(ns);
    assert GroupEnd(p, i + 1) == i + 1;
    assert CodeAt(p, i) == ns[i];
    CodeIs(ns[i], s);
  }

  function CodesInTurn(ns: seq<nat>, s: Style): Style
    decreases |ns|
  {
    if ns == [] then s else CodesInTurn(ns[1..], Code(ns[0], s))
  }

  lemma {:induction false} FromHere(ns: seq<nat>, i: nat, s: Style)
    requires i <= |ns| && forall k :: 0 <= k < |ns| ==> !IsExtended(ns[k])
    ensures ApplyFrom(Plain(ns), i, s) == CodesInTurn(ns[i..], s)
    decreases |ns| - i
  {
    hide Code;
    if i < |ns| {
      InSequence(ns, i, s);
      FromHere(ns, i + 1, Code(ns[i], s));
      assert ns[i..] == [ns[i]] + ns[i + 1..];
      assert ns[i..][1..] == ns[i + 1..];
    }
  }

  /** `ESC [ a ; b ; ... m` is `ESC [ a m`, `ESC [ b m`, and so on. */
  lemma CodesActInTurn(ns: seq<nat>, s: Style)
    requires ns != [] && forall k :: 0 <= k < |ns| ==> !IsExtended(ns[k])
    ensures Apply(Plain(ns), s) == CodesInTurn(ns, s)
  {
    FromHere(ns, 0, s);
    assert ns[0..] == ns;
  }

  /** What follows an extended colour written flat is read as it would be on its own. */
  lemma AfterColour(n: byte, foreground: bool, code: nat, s: Style)
    requires !IsExtended(code)
    ensures Apply(Plain([if foreground then 38 else 48, 5, n, code]), s) == Code(code, Ground(foreground, Indexed(n), s))
  {
    var p := Plain([if foreground then 38 else 48, 5, n, code]);
    assert GroupEnd(p, 1) == 1 && GroupEnd(p, 4) == 4;
    assert ExtendedEnd(p, 0) == 3;
    assert ReadExtended(p, 1, 3) == Some(Indexed(n));
    var t := SetColor(CodeAt(p, 0), Some(Indexed(n)), s);
    assert ApplyFrom(p, 0, s) == ApplyFrom(p, 3, t);
    assert CodeAt(p, 3) == code;
    var u := Simple(code, false, t);
    assert ApplyFrom(p, 4, u) == u;
    CodeIs(code, t);
  }

  /** A colour whose numbers are no bytes, or of a kind not known here, is read over and changes nothing. */
  lemma BadColours(n: nat, foreground: bool, s: Style)
    ensures n > 255 ==> Apply(Plain([if foreground then 38 else 48, 5, n]), s) == s
    ensures n != 5 && n != 2 ==> Apply(Plain([if foreground then 38 else 48, n]), s) == s
  {
    var p := Plain([if foreground then 38 else 48, 5, n]);
    assert GroupEnd(p, 1) == 1;
    assert ExtendedEnd(p, 0) == 3;
    assert ApplyFrom(p, 3, s) == s;
    if n > 255 {
      assert ReadExtended(p, 1, 3) == None;
      assert ApplyFrom(p, 0, s) == ApplyFrom(p, 3, SetColor(CodeAt(p, 0), None, s));
    }
    if n != 5 && n != 2 {
      UnknownKind(n, foreground, s);
    }
  }

  lemma UnknownKind(n: nat, foreground: bool, s: Style)
    requires n != 5 && n != 2
    ensures Apply(Plain([if foreground then 38 else 48, n]), s) == s
  {
    var p := Plain([if foreground then 38 else 48, n]);
    assert GroupEnd(p, 1) == 1;
    assert ExtendedEnd(p, 0) == 2;
    assert ReadExtended(p, 1, 2) == None;
    assert ApplyFrom(p, 2, s) == s;
    assert ApplyFrom(p, 0, s) == ApplyFrom(p, 2, SetColor(CodeAt(p, 0), None, s));
  }
}
