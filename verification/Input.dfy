// The user's keyboard, mouse and pastes, read from a byte stream (input/parser.cpp).

module Input {
  import opened Bytes
  import opened Utf8

  datatype Key =
    | NoKey | Unknown | Char | Enter | Tab | BackTab | Backspace | Escape
    | Up | Down | Right | Left | Home | End | PgUp | PgDn | Insert | Delete
    | F1 | F2 | F3 | F4 | F5 | F6 | F7 | F8 | F9 | F10 | F11 | F12

  const SHIFT := 1
  const ALT := 2
  const CTRL := 4

  datatype MouseAction = Press | Release | Motion | WheelUp | WheelDown

  datatype Event =
    | KeyEvent(key: Key, ch: nat, mods: nat)
    | MouseEvent(action: MouseAction, button: nat, x: int, y: int, mods: nat)
    | PasteEvent(text: bytes, complete: bool)
    | FocusEvent(focused: bool)

  const PASTE_END: bytes := [ESC, 91, 50, 48, 49, 126]
  const MAX_PASTE_CHUNK := 1024 * 1024
  const MAX_CSI_PARAMS := 128
  const MAX_CSI_PARAM := 65535

  // ---- Tables.

  function KeyFromTilde(n: int): Key {
    match n
    case 1 => Home
    case 2 => Insert
    case 3 => Delete
    case 4 => End
    case 5 => PgUp
    case 6 => PgDn
    case 15 => F5
    case 17 => F6
    case 18 => F7
    case 19 => F8
    case 20 => F9
    case 21 => F10
    case 23 => F11
    case 24 => F12
    case _ => Unknown
  }

  function KeyFromFinal(f: byte): Key {
    match f
    case 65 => Up
    case 66 => Down
    case 67 => Right
    case 68 => Left
    case 72 => Home
    case 70 => End
    case 90 => BackTab
    case 80 => F1
    case 81 => F2
    case 82 => F3
    case 83 => F4
    case _ => Unknown
  }

  /** 1 plus a mask of Shift, Alt, Ctrl and Meta; anything else says nothing about modifiers. */
  function ModsFromParam(p: int): nat {
    if p <= 1 || p > 16 then 0 else (p - 1) % 8
  }

  // ---- Parameters.

  /** One more digit, saturating instead of overflowing; -1 is an omitted parameter. */
  function WithDigit(cur: int, digit: nat): int
    requires digit <= 9
  {
    var base := if cur < 0 then 0 else cur;
    if base > (MAX_CSI_PARAM - digit) / 10 then MAX_CSI_PARAM else base * 10 + digit
  }

  function SplitFrom(s: bytes, cur: int): (r: seq<int>)
    ensures r != []
    decreases |s|
  {
    if s == [] then [cur]
    else if 48 <= s[0] <= 57 then SplitFrom(s[1..], WithDigit(cur, s[0] - 48))
    else if s[0] == 59 then [cur] + SplitFrom(s[1..], -1)
    else SplitFrom(s[1..], cur)
  }

  function SplitParams(s: bytes): (r: seq<int>)
    ensures r != []
  {
    SplitFrom(s, -1)
  }

  method Split(s: bytes) returns (out: seq<int>)
    ensures out == SplitParams(s)
  {
    out := [];
    var cur := -1;
    assert s[0..] == s;
    for k := 0 to |s|
      invariant out + SplitFrom(s[k..], cur) == SplitParams(s)
    {
      assert s[k..][1..] == s[k + 1..];
      if 48 <= s[k] <= 57 {
        cur := WithDigit(cur, s[k] - 48);
      } else if s[k] == 59 {
        assert out + ([cur] + SplitFrom(s[k + 1..], -1)) == (out + [cur]) + SplitFrom(s[k + 1..], -1);
        out := out + [cur];
        cur := -1;
      }
    }
    out := out + [cur];
  }

  // ---- One piece of input outside a paste.

  /** What the head of the buffer is: not decidable yet, or `used` bytes that stand for `events`
      and perhaps open a paste. */
  datatype Piece = Wait | Took(used: nat, events: seq<Event>, paste: bool)

  function Keyed(used: nat, key: Key, mods: nat): Piece { Took(used, [KeyEvent(key, 0, mods)], false) }

  function SecondMods(p: seq<int>): nat {
    if |p| > 1 then ModsFromParam(p[1]) else 0
  }

  function Bit(n: int, weight: nat): bool
    requires n >= 0 && weight > 0
  {
    n / weight % 2 == 1
  }

  /** An SGR mouse report; one with a missing or impossible coordinate is dropped. */
  function MousePiece(p: seq<int>, final: byte, used: nat): Piece {
    if |p| < 3 || p[0] < 0 || p[1] < 1 || p[2] < 1 then Took(used, [], false)
    else
      var cb := p[0];
      var mods := (if Bit(cb, 4) then SHIFT else 0) + (if Bit(cb, 8) then ALT else 0) + (if Bit(cb, 16) then CTRL else 0);
      var action :=
        if Bit(cb, 64) then (if Bit(cb, 1) then WheelDown else WheelUp)
        else if Bit(cb, 32) then Motion
        else if final == 109 then Release else Press;
      var button := if Bit(cb, 64) then 0 else cb % 4;
      Took(used, [MouseEvent(action, button, p[1] - 1, p[2] - 1, mods)], false)
  }

  function CsiPiece(params: bytes, final: byte, used: nat): Piece {
    if params != [] && params[0] == 60 then MousePiece(SplitParams(params[1..]), final, used)
    else if final == 73 || final == 79 then Took(used, [FocusEvent(final == 73)], false)
    else
      var p := SplitParams(params);
      if final == 126 then
        var n := if p[0] < 0 then 0 else p[0];
        if n == 200 then Took(used, [], true) else Keyed(used, KeyFromTilde(n), SecondMods(p))
      else Keyed(used, KeyFromFinal(final), SecondMods(p))
  }

  predicate IsCsiFinal(b: byte) { 0x40 <= b <= 0x7E }

  /** The position of the final byte from i on; where the search gives up; or the buffer's end. */
  function ScanCsi(buf: bytes, i: nat): (r: nat)
    requires 2 <= i <= |buf|
    ensures i <= r <= |buf|
    ensures i <= MAX_CSI_PARAMS + 2 ==> r <= MAX_CSI_PARAMS + 2
    decreases |buf| - i
  {
    if i < |buf| && i - 2 < MAX_CSI_PARAMS && !IsCsiFinal(buf[i]) then ScanCsi(buf, i + 1) else i
  }

  function EscapePiece(buf: bytes): Piece
    requires |buf| > 0
  {
    if |buf| == 1 then Wait
    else if buf[1] == 79 then
      if |buf| < 3 then Wait else Keyed(3, KeyFromFinal(buf[2]), 0)
    else if buf[1] != 91 then
      Took(2, if 0x20 <= buf[1] < 0x7F then [KeyEvent(Char, buf[1], ALT)] else [], false)
    else
      var i := ScanCsi(buf, 2);
      if i >= |buf| then Wait
      else if i - 2 >= MAX_CSI_PARAMS then Took(i, [], false)
      else CsiPiece(buf[2..i], buf[i], i + 1)
  }

  function TextPiece(buf: bytes): Piece
    requires |buf| > 0 && buf[0] != ESC
  {
    var b := buf[0];
    if b == 13 || b == 10 then Keyed(1, Enter, 0)
    else if b == 9 then Keyed(1, Tab, 0)
    else if b == 0x7F || b == 8 then Keyed(1, Backspace, 0)
    else if b < 0x20 then Took(1, [KeyEvent(Char, if b == 0 then 32 else 96 + b, CTRL)], false)
    else if |buf| <= Need(b) then Wait
    else Took(DecodeUtf8(buf, 0).1, [KeyEvent(Char, DecodeUtf8(buf, 0).0, 0)], false)
  }

  function PieceOf(buf: bytes): Piece
    requires |buf| > 0
  {
    if buf[0] == ESC then EscapePiece(buf) else TextPiece(buf)
  }

  /** A piece takes at least one byte, and no more than there are; an undecided one is short. */
  lemma PieceBounds(buf: bytes)
    requires |buf| > 0
    ensures PieceOf(buf).Took? ==> 1 <= PieceOf(buf).used <= |buf|
    ensures PieceOf(buf).Wait? ==> |buf| <= MAX_CSI_PARAMS + 2
    ensures PieceOf(buf).Took? && PieceOf(buf).paste ==> PieceOf(buf).events == []
    ensures PieceOf(buf).Took? ==> forall e :: e in PieceOf(buf).events ==> !e.PasteEvent?
  {
    hide DecodeFrom, SplitFrom, KeyFromTilde, KeyFromFinal;
  }

  lemma {:induction false} ScanIsLocal(buf: bytes, more: bytes, i: nat)
    requires 2 <= i <= |buf| && ScanCsi(buf, i) < |buf|
    ensures ScanCsi(buf + more, i) == ScanCsi(buf, i)
    decreases |buf| - i
  {
    if i < |buf| && i - 2 < MAX_CSI_PARAMS && !IsCsiFinal(buf[i]) {
      ScanIsLocal(buf, more, i + 1);
    }
  }

  /** A piece that was decided stays what it was when more bytes arrive. */
  lemma PieceIsLocal(buf: bytes, more: bytes)
    requires |buf| > 0 && PieceOf(buf).Took?
    ensures PieceOf(buf + more) == PieceOf(buf)
  {
    hide DecodeFrom, KeyFromTilde, KeyFromFinal, CsiPiece;
    var all := buf + more;
    if buf[0] == ESC {
      if |buf| > 1 && buf[1] == 91 {
        ScanIsLocal(buf, more, 2);
        var i := ScanCsi(buf, 2);
        assert all[2..i] == buf[2..i];
      }
    } else if buf[0] >= 0x80 && Need(buf[0]) >= 0 {
      DecodeIsLocal(buf, more, 0, Need(buf[0]), 1, LeadBits(buf[0]));
    }
  }

  // ---- Pastes.

  predicate EndsAt(s: bytes, i: nat) {
    i + |PASTE_END| <= |s| && s[i..i + |PASTE_END|] == PASTE_END
  }

  /** The first terminator at position `from` or after it; |s| if there is none. */
  function FindEnd(s: bytes, from: nat): (r: nat)
    requires from <= |s|
    ensures from <= r <= |s| && (r < |s| ==> EndsAt(s, r))
    ensures forall i :: from <= i < r ==> !EndsAt(s, i)
    decreases |s| - from
  {
    if from == |s| || EndsAt(s, from) then from else FindEnd(s, from + 1)
  }

  lemma FindIs(s: bytes, from: nat, r: nat)
    requires from <= r <= |s| && (r < |s| ==> EndsAt(s, r)) && forall i :: from <= i < r ==> !EndsAt(s, i)
    ensures FindEnd(s, from) == r
  {
  }
}
