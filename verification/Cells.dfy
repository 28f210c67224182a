// Colours, attributes and cells, shared by the renderer and the emulator (render/cell.hpp).

module Cells {
  import opened Bytes

  /** Default is neither indexed colour 7 nor any RGB triple: SGR 39/49 must stay distinguishable. */
  datatype Color = Default | Indexed(idx: byte) | Rgb(r: byte, g: byte, b: byte)

  /** One value per attribute bit of the renderer. */
  datatype Attr = Bold | Dim | Italic | Underline | Reverse | Strike | Blink | Hidden

  datatype Style = Style(fg: Color, bg: Color, attrs: set<Attr>)

  const PLAIN := Style(Default, Default, {})

  /** A renderer cell: width 1 is narrow, 2 the head of a wide glyph, 0 its continuation. */
  datatype Cell = Cell(ch: nat, style: Style, width: nat)

  const BLANK := Cell(32, PLAIN, 1)

  datatype Pos = Pos(x: int, y: int)

  datatype Rect = Rect(x: int, y: int, w: int, h: int)

  datatype Option<T> = None | Some(value: T)

  predicate IsScalar(cp: nat) {
    cp < 0xD800 || 0xDFFF < cp <= 0x10FFFF
  }

  /** What a terminal can show of a code point: U+FFFD stands for anything that is not a scalar. */
  function Shown(cp: nat): nat {
    if IsScalar(cp) then cp else 0xFFFD
  }
}
