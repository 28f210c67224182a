// The SGR interpreter of the emulator (vt/attrs.cpp).

module Attrs {
  import opened Cells
  import opened VtParser

  predicate IsByte(v: int) { 0 <= v <= 255 }

  /** The colour described by p[first..last): the mode, then its arguments read from the end. */
  function ReadExtended(p: seq<Param>, first: nat, last: nat): Option<Color>
    requires last <= |p|
  {
    if first >= last then None
    else
      var mode, args := p[first].value, last - first - 1;
      if mode == 5 && args >= 1 && IsByte(p[last - 1].value) then Some(Indexed(p[last - 1].value))
      else if mode == 2 && args >= 3
        && IsByte(p[last - 3].value) && IsByte(p[last - 2].value) && IsByte(p[last - 1].value)
      then Some(Rgb(p[last - 3].value, p[last - 2].value, p[last - 1].value))
      else None
  }

  /** The end of a colour written flat (`38;5;n`). */
  function FlatExtent(p: seq<Param>, first: nat): (last: nat)
    requires first <= |p|
    ensures first <= last <= |p|
  {
    if first >= |p| then first
    else
      var mode := p[first].value;
      var want := if mode == 5 then first + 2 else if mode == 2 then first + 4 else first + 1;
      if want < |p| then want else |p|
  }

  /** The end of the group of sub-parameters that follows position i. */
  function GroupEnd(p: seq<Param>, i: nat): (end: nat)
    requires i <= |p|
    ensures i <= end <= |p|
    decreases |p| - i
  {
    if i < |p| && p[i].sub then GroupEnd(p, i + 1) else i
  }

  /** The effect of a code that selects no extended colour; `off` is true for `4:0`. */
  function Simple(code: int, off: bool, s: Style): Style {
    match code
    case 0 => PLAIN
    case 1 => s.(attrs := s.attrs + {Bold})
    case 2 => s.(attrs := s.attrs + {Dim})
    case 3 => s.(attrs := s.attrs + {Italic})
    case 4 => if off then s.(attrs := s.attrs - {Underline}) else s.(attrs := s.attrs + {Underline})
    case 5 => s.(attrs := s.attrs + {Blink})
    case 6 => s.(attrs := s.attrs + {Blink})
    case 7 => s.(attrs := s.attrs + {Reverse})
    case 8 => s.(attrs := s.attrs + {Hidden})
    case 9 => s.(attrs := s.attrs + {Strike})
    case 21 => s.(attrs := s.attrs + {Underline})
    case 22 => s.(attrs := s.attrs - {Bold, Dim})
    case 23 => s.(attrs := s.attrs - {Italic})
    case 24 => s.(attrs := s.attrs - {Underline})
    case 25 => s.(attrs := s.attrs - {Blink})
    case 27 => s.(attrs := s.attrs - {Reverse})
    case 28 => s.(attrs := s.attrs - {Hidden})
    case 29 => s.(attrs := s.attrs - {Strike})
    case 39 => s.(fg := Default)
    case 49 => s.(bg := Default)
    case _ =>
      if 30 <= code <= 37 then s.(fg := Indexed(code - 30))
      else if 40 <= code <= 47 then s.(bg := Indexed(code - 40))
      else if 90 <= code <= 97 then s.(fg := Indexed(code - 90 + 8))
      else if 100 <= code <= 107 then s.(bg := Indexed(code - 100 + 8))
      else s
  }

  function CodeAt(p: seq<Param>, i: nat): int
    requires i < |p|
  {
    if p[i].value < 0 then 0 else p[i].value
  }

  predicate IsExtended(code: int) { code == 38 || code == 48 || code == 58 }

  /** 58, the underline colour, is read and dropped. */
  function SetColor(code: int, c: Option<Color>, s: Style): Style {
    if c.None? then s else if code == 38 then s.(fg := c.value) else if code == 48 then s.(bg := c.value) else s
  }

  /** A colour's extent: its sub-parameters if it has any, its flat arguments otherwise. */
  function ExtendedEnd(p: seq<Param>, i: nat): (last: nat)
    requires i < |p|
    ensures i < last <= |p|
  {
    var end := GroupEnd(p, i + 1);
    if end > i + 1 then end else FlatExtent(p, i + 1)
  }

  /** Interprets the groups from position i on, each consumed whole. */
  function ApplyFrom(p: seq<Param>, i: nat, s: Style): Style
    requires i <= |p|
    decreases |p| - i
  {
    if i == |p| then s
    else
      var code, end := CodeAt(p, i), GroupEnd(p, i + 1);
      if IsExtended(code) then
        var last := ExtendedEnd(p, i);
        ApplyFrom(p, last, SetColor(code, ReadExtended(p, i + 1, last), s))
      else
        ApplyFrom(p, end, Simple(code, end > i + 1 && ParamOr(p, i + 1, 1) == 0, s))
  }

  function Apply(p: seq<Param>, s: Style): Style {
    if p == [] then PLAIN else ApplyFrom(p, 0, s)
  }

  method ApplySgr(params: seq<Param>, style: Style) returns (s: Style)
    ensures s == Apply(params, style)
  {
    s := style;
    if params == [] {
      return PLAIN;
    }
    var i := 0;
    while i < |params|
      invariant i <= |params|
      invariant ApplyFrom(params, i, s) == ApplyFrom(params, 0, style)
    {
      var end := i + 1;
      while end < |params| && params[end].sub
        invariant i + 1 <= end <= |params|
        invariant GroupEnd(params, end) == GroupEnd(params, i + 1)
      {
        end := end + 1;
      }
      var code := if params[i].value < 0 then 0 else params[i].value;
      if code == 38 || code == 48 || code == 58 {
        var last := if end > i + 1 then end else FlatExtent(params, i + 1);
        var c := ReadExtended(params, i + 1, last);
        if c.Some? {
          if code == 38 { s := s.(fg := c.value); }
          if code == 48 { s := s.(bg := c.value); }
        }
        i := last;
      } else {
        s := Simple(code, end > i + 1 && ParamOr(params, i + 1, 1) == 0, s);
        i := end;
      }
    }
  }
}
