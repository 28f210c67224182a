// Mouse and focus reports, and the keys a terminal writes in more than one way, as the input parser
// reads them (input/parser.cpp).

module Reports {
  import opened Bytes
  import opened Utf8
  import opened Input
  import opened KeyEncode

  // ---- The mouse.

  /** The events a terminal reports: a wheel has no button, and coordinates fit the protocol. */
  predicate Reportable(e: Event) {
    && e.MouseEvent? && e.mods < 8 && 0 <= e.x < MAX_CSI_PARAM && 0 <= e.y < MAX_CSI_PARAM
    && (if e.action.WheelUp? || e.action.WheelDown? then e.button == 0 else e.button < 4)
  }

  /** Button, then 4 for Shift, 8 for Alt, 16 for Ctrl, 32 for motion; 64 and 65 are the wheel. */
  function ReportCode(e: Event): (code: nat)
    requires Reportable(e)
    ensures code < 128
  {
    var held := (if e.mods % 2 == 1 then 4 else 0) + (if e.mods / 2 % 2 == 1 then 8 else 0)
                + (if e.mods / 4 == 1 then 16 else 0);
    match e.action
    case Press => e.button + held
    case Release => e.button + held
    case Motion => e.button + held + 32
    case WheelUp => held + 64
    case WheelDown => held + 65
  }

  /** The SGR report: column before line, both from 1; `m` for a release, `M` for the rest. */
  function ReportParams(e: Event): bytes
    requires Reportable(e)
  {
    Dec(ReportCode(e)) + [59] + (Dec(e.x + 1) + [59] + Dec(e.y + 1))
  }

  function Report(e: Event): bytes
    requires Reportable(e)
  {
    [ESC, 91] + ([60] + ReportParams(e)) + [if e.action.Release? then 109 else 77]
  }

  lemma {:induction false} DecIsShort(n: nat, k: nat)
    requires k >= 1 && n < Power(k)
    ensures |Dec(n)| <= k
    decreases k
  {
    if n >= 10 { DecIsShort(n / 10, k - 1); }
  }

  function Power(k: nat): nat { if k == 0 then 1 else 10 * Power(k - 1) }

  lemma FiveDigits(n: nat)
    requires n <= MAX_CSI_PARAM
    ensures |Dec(n)| <= 5
  {
    assert Power(5) == 100000;
    DecIsShort(n, 5);
  }

  lemma SplitThree(a: nat, b: nat, c: nat)
    requires a <= MAX_CSI_PARAM && b <= MAX_CSI_PARAM && c <= MAX_CSI_PARAM
    ensures SplitParams(Dec(a) + [59] + (Dec(b) + [59] + Dec(c))) == [a, b, c]
  {
    hide Dec;
    var tail := Dec(b) + [59] + Dec(c);
    SplitNumber(a, [59] + tail);
    assert Dec(a) + [59] + tail == Dec(a) + ([59] + tail);
    SplitSemicolon(a, tail);
    SplitTwo(b, c);
  }

  lemma ReportCodeIs(e: Event)
    requires Reportable(e)
    ensures ReportCode(e) == e.button + 4 * e.mods +
      (match e.action case Press => 0 case Release => 0 case Motion => 32 case WheelUp => 64 case WheelDown => 65)
  {
  }

  lemma BitsOf(button: nat, mods: nat, kind: nat)
    requires button < 4 && mods < 8 && kind in {0, 32, 64} && (kind == 64 ==> button < 2)
    ensures var cb := button + 4 * mods + kind;
      && (Bit(cb, 4) <==> mods % 2 == 1) && (Bit(cb, 8) <==> mods / 2 % 2 == 1) && (Bit(cb, 16) <==> mods / 4 == 1)
      && (Bit(cb, 64) <==> kind == 64) && (Bit(cb, 32) <==> kind == 32) && cb % 4 == button
  {
  }

  /** The low bits of a code are its button, the next three the modifiers, the last two its kind. */
  lemma CodeBits(e: Event)
    requires Reportable(e)
    ensures var cb := ReportCode(e); var wheel := e.action.WheelUp? || e.action.WheelDown?;
      && (Bit(cb, 4) <==> e.mods % 2 == 1) && (Bit(cb, 8) <==> e.mods / 2 % 2 == 1) && (Bit(cb, 16) <==> e.mods / 4 == 1)
      && (Bit(cb, 64) <==> wheel) && (!wheel ==> (Bit(cb, 32) <==> e.action.Motion?) && cb % 4 == e.button)
      && (wheel ==> (Bit(cb, 1) <==> e.action.WheelDown?))
  {
    ReportCodeIs(e);
    var low := if e.action.WheelDown? then 1 else e.button;
    BitsOf(low, e.mods, if e.action.Motion? then 32 else if e.action.WheelUp? || e.action.WheelDown? then 64 else 0);
    hide ReportCode;
  }

  lemma ModsAdd(mods: nat)
    requires mods < 8
    ensures mods == (if mods % 2 == 1 then SHIFT else 0) + (if mods / 2 % 2 == 1 then ALT else 0)
                    + (if mods / 4 == 1 then CTRL else 0)
  {
  }

  lemma MouseDecoded(e: Event, used: nat)
    requires Reportable(e)
    ensures MousePiece([ReportCode(e), e.x + 1, e.y + 1], if e.action.Release? then 109 else 77, used)
         == Took(used, [e], false)
  {
    CodeBits(e);
    ModsAdd(e.mods);
    hide ReportCode, Bit;
  }

  lemma ParamsAreShort(e: Event)
    requires Reportable(e)
    ensures |ReportParams(e)| <= 17 && forall b :: b in [60] + ReportParams(e) ==> !IsCsiFinal(b)
  {
    FiveDigits(ReportCode(e));
    FiveDigits(e.x + 1);
    FiveDigits(e.y + 1);
    hide Dec, ReportCode;
  }

  lemma ParamsAreSplit(e: Event)
    requires Reportable(e)
    ensures SplitParams(ReportParams(e)) == [ReportCode(e), e.x + 1, e.y + 1]
  {
    hide Dec, ReportCode, SplitParams;
    SplitThree(ReportCode(e), e.x + 1, e.y + 1);
  }

  lemma MouseIsPiece(e: Event, used: nat)
    requires Reportable(e)
    ensures CsiPiece([60] + ReportParams(e), if e.action.Release? then 109 else 77, used) == Took(used, [e], false)
  {
    ParamsAreSplit(e);
    MouseDecoded(e, used);
    hide ReportParams, ReportCode, SplitParams, MousePiece;
    assert ([60] + ReportParams(e))[1..] == ReportParams(e);
  }

  /** Every report is read as the event it reports, whatever follows: its column as x, its line as y. */
  lemma MouseIsRead(e: Event, rest: bytes)
    requires Reportable(e)
    ensures PieceOf(Report(e) + rest) == Took(|Report(e)|, [e], false)
  {
    ParamsAreShort(e);
    hide ReportParams, PieceOf, CsiPiece;
    var params, final: byte := [60] + ReportParams(e), if e.action.Release? then 109 else 77;
    MouseIsPiece(e, |params| + 3);
    WholeCsi(params, final, rest);
  }

  /** A report whose column or line is 0, where the protocol counts from 1, is dropped. */
  lemma ZeroIsDropped(code: nat, x: nat, y: nat, final: byte, used: nat)
    requires x == 0 || y == 0
    ensures MousePiece([code, x, y], final, used) == Took(used, [], false)
  {
  }

  // ---- Focus.

  lemma FocusIsRead(focused: bool, rest: bytes)
    ensures PieceOf([ESC, 91, if focused then 73 else 79] + rest) == Took(3, [FocusEvent(focused)], false)
  {
    var final: byte := if focused then 73 else 79;
    WholeCsi([], final, rest);
    assert [ESC, 91] + [] + [final] + rest == [ESC, 91, final] + rest;
  }

  // ---- Keys with a second form.

  /** The bytes a terminal may send for a key that is never written that way: line feed and
      backspace, Home and End of the VT220, function keys of either kind. */
  lemma OtherForms(rest: bytes)
    ensures PieceOf([10] + rest) == PieceOf([13] + rest) == Took(1, [KeyEvent(Enter, 0, 0)], false)
    ensures PieceOf([8] + rest) == PieceOf([127] + rest) == Took(1, [KeyEvent(Backspace, 0, 0)], false)
    ensures PieceOf([0] + rest) == Took(1, [KeyEvent(Char, 32, CTRL)], false)
  {
    hide DecodeFrom;
  }

  lemma VtHomeAndEnd(rest: bytes)
    ensures PieceOf([ESC, 91, 49, 126] + rest) == Took(4, [KeyEvent(Home, 0, 0)], false)
    ensures PieceOf([ESC, 91, 52, 126] + rest) == Took(4, [KeyEvent(End, 0, 0)], false)
  {
    TildeForm(1, rest);
    TildeForm(4, rest);
  }

  lemma TildeForm(n: nat, rest: bytes)
    requires n < 10
    ensures PieceOf([ESC, 91, 48 + n, 126] + rest) == Took(4, [KeyEvent(KeyFromTilde(n), 0, 0)], false)
  {
    assert Dec(n) == [48 + n];
    SplitOne(n);
    hide Dec, SplitParams, PieceOf, KeyFromTilde;
    WholeCsi([48 + n], 126, rest);
    assert [ESC, 91] + [48 + n] + [126] + rest == [ESC, 91, 48 + n, 126] + rest;
  }

  /** The bracket that opens a paste, and nothing else, does. */
  lemma PasteOpens(rest: bytes)
    ensures PieceOf([ESC, 91, 50, 48, 48, 126] + rest) == Took(6, [], true)
  {
    assert Dec(200) == [50, 48, 48] by { assert Dec(20) == [50, 48]; assert Dec(2) == [50]; }
    SplitOne(200);
    hide Dec, SplitParams, PieceOf, KeyFromTilde;
    WholeCsi([50, 48, 48], 126, rest);
    assert [ESC, 91] + [50, 48, 48] + [126] + rest == [ESC, 91, 50, 48, 48, 126] + rest;
  }

  /** A modifier parameter is one more than its mask; Meta, the fourth bit, is dropped, and what no
      terminal sends says nothing. */
  lemma ModifierParameter(p: int)
    ensures 2 <= p <= 8 ==> ModsFromParam(p) == p - 1
    ensures 9 <= p <= 16 ==> ModsFromParam(p) == p - 9
    ensures p < 2 || p > 16 ==> ModsFromParam(p) == 0
  {
  }

  /** The bytes of the cursor keys: the short form with O exactly if the application has asked for it. */
  lemma CursorKeyBytes(application: bool)
    ensures var mid: byte := if application then 79 else 91;
      && EncodeKey(Up, 0, 0, application) == [ESC, mid, 65] && EncodeKey(Down, 0, 0, application) == [ESC, mid, 66]
      && EncodeKey(Right, 0, 0, application) == [ESC, mid, 67] && EncodeKey(Left, 0, 0, application) == [ESC, mid, 68]
  {
    hide EncodeFinal;
    PlainForm(application);
  }

  lemma HomeKeyBytes(application: bool)
    ensures var mid: byte := if application then 79 else 91;
      EncodeKey(Home, 0, 0, application) == [ESC, mid, 72] && EncodeKey(End, 0, 0, application) == [ESC, mid, 70]
    ensures EncodeKey(F1, 0, 0, application) == [ESC, 79, 80] && EncodeKey(F4, 0, 0, application) == [ESC, 79, 83]
    ensures EncodeKey(BackTab, 0, 0, application) == [ESC, 91, 90]
  {
    hide EncodeFinal;
    PlainForm(application);
  }

  lemma PlainForm(application: bool)
    ensures forall f: byte :: EncodeFinal(f, Ss3WhenApplication, 0, application) == [ESC, if application then 79 else 91, f]
    ensures forall f: byte :: EncodeFinal(f, Ss3Always, 0, application) == [ESC, 79, f]
    ensures forall f: byte :: EncodeFinal(f, Form.Csi, 0, application) == [ESC, 91, f]
  {
  }

  /** Alt puts an escape before the bytes of a character or of a key that is one byte, and takes nothing
      away. */
  lemma AltPrefixes(key: Key, ch: nat, mods: nat, application: bool)
    requires key == Char || AsciiOf(key).Found?
    requires Bit(mods, ALT)
    ensures EncodeKey(key, ch, mods, application) == [ESC] + EncodeKey(key, ch, mods - ALT, application)
  {
    assert Bit(mods, CTRL) <==> Bit(mods - ALT, CTRL) by { AltApart(mods); }
    hide EncodeUtf8, EncodeFinal, EncodeTilde;
    AltApart(mods);
  }

  lemma AltApart(mods: nat)
    requires Bit(mods, ALT)
    ensures mods >= ALT && !Bit(mods - ALT, ALT) && (Bit(mods, CTRL) <==> Bit(mods - ALT, CTRL))
  {
  }

  /** Ctrl gives a letter, in either case, and the space their control byte; another character is itself. */
  lemma ControlBytes(ch: nat, application: bool)
    ensures 97 <= ch <= 122 ==> EncodeKey(Char, ch, CTRL, application) == [ch - 96]
    ensures 65 <= ch <= 90 ==> EncodeKey(Char, ch, CTRL, application) == [ch - 64]
    ensures EncodeKey(Char, 32, CTRL, application) == [0]
    ensures !(97 <= ch <= 122) && !(65 <= ch <= 90) && ch != 32 ==>
      EncodeKey(Char, ch, CTRL, application) == EncodeKey(Char, ch, 0, application) == EncodeUtf8(ch)
  {
    hide EncodeUtf8;
  }

  /** Enter, Tab, Backspace and Escape are one byte each. */
  lemma AsciiKeys(application: bool)
    ensures EncodeKey(Enter, 0, 0, application) == [13] && EncodeKey(Tab, 0, 0, application) == [9]
    ensures EncodeKey(Backspace, 0, 0, application) == [127] && EncodeKey(Escape, 0, 0, application) == [27]
    ensures EncodeKey(NoKey, 0, 0, application) == [] && EncodeKey(Unknown, 0, 0, application) == []
  {
  }
}
