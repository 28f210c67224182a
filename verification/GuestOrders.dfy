// From the bytes a guest writes to what its screen does, sequence by sequence (apps/terminal.cpp,
// vt/modes.cpp; ECMA-48, section 8.3, and the DEC private sequences).

module GuestOrders {
  import opened Bytes
  import opened VtParser
  import opened VtParserProofs
  import opened VtStrings
  import opened ScreenRow
  import opened Screen
  import opened ScreenOrders
  import opened Terminal
  import opened FrameSteps

  /** Only the screen changed, by one order. */
  ghost predicate Did(t: Emulator, r: Emulator, ambiguous: bool, o: Order)
    requires Valid(t.term.screen)
  {
    Idle(r.parser) && Valid(r.term.screen) && r.term == Term(Do(t.term.screen, ambiguous, o), t.term.modes)
  }

  lemma CsiDoes(t: Emulator, ambiguous: bool, ns: seq<nat>, f: byte, o: Order)
    requires Ready(t) && IsFinal(f) && |ns| <= MAX_PARAMS && forall i :: 0 <= i < |ns| ==> ns[i] <= MAX_PARAM_VALUE
    requires CallOrders(t.term, Csi(Plain(ns), [], f)) == [o]
    ensures Did(t, Receive(t, ambiguous, CsiBytes(ns, f)), ambiguous, o)
  {
    hide CallOrders, CsiBytes, Receive, Feed, Do;
    ParseCsi(t.parser, ns, f);
    ReceiveOrder(t, ambiguous, CsiBytes(ns, f), Csi(Plain(ns), [], f), o);
  }

  lemma EscDoes(t: Emulator, ambiguous: bool, intermediates: bytes, f: byte, o: Order)
    requires Ready(t) && 0x30 <= f <= 0x7E && AllIntermediate(intermediates) && |intermediates| <= MAX_INTERMEDIATES
    requires (intermediates == [] ==> !Opens(f)) && CallOrders(t.term, Esc(intermediates, f)) == [o]
    ensures Did(t, Receive(t, ambiguous, [ESC] + (intermediates + [f])), ambiguous, o)
  {
    hide CallOrders, Receive, Feed, Do;
    EscapeIsRead(t.parser, intermediates, f);
    ReceiveOrder(t, ambiguous, [ESC] + (intermediates + [f]), Esc(intermediates, f), o);
  }

  lemma ControlDoes(t: Emulator, ambiguous: bool, b: byte, o: Order)
    requires Ready(t) && b < 0x20 && b != ESC && CallOrders(t.term, Execute(b)) == [o]
    ensures Did(t, Receive(t, ambiguous, [b]), ambiguous, o)
  {
    hide CallOrders, Receive, Do;
    FeedOne(t.parser, b);
    ReceiveOrder(t, ambiguous, [b], Execute(b), o);
  }

  // ---- The cursor.

  /** Moved to a place on the page, a pending wrap forgotten. */
  function At(t: Term, x: nat, y: nat): Term {
    t.(screen := t.screen.(wrap := false, cx := x, cy := y))
  }

  lemma MoveIs(s: Scr, x: int, y: int)
    requires Valid(s)
    ensures MoveTo(s, x, y)
         == s.(wrap := false, cx := Max(0, Min(x, s.cols - 1)), cy := Max(0, Min(y, s.rows - 1)))
  {
  }

  /** CUU, CUD, CUF and CUB: n lines or columns, one if n is 0, as far as the page goes; a pending wrap
      costs a move left its first step. */
  lemma CursorMoves(t: Emulator, ambiguous: bool, n: nat)
    requires Ready(t) && n <= MAX_PARAM_VALUE
    ensures var s, k := t.term.screen, Max(1, n);
      && Receive(t, ambiguous, CsiBytes([n], 65)).term == At(t.term, s.cx, Max(0, s.cy - k))
      && Receive(t, ambiguous, CsiBytes([n], 66)).term == At(t.term, s.cx, Min(s.rows - 1, s.cy + k))
      && Receive(t, ambiguous, CsiBytes([n], 67)).term == At(t.term, Min(s.cols - 1, s.cx + k), s.cy)
      && Receive(t, ambiguous, CsiBytes([n], 68)).term == At(t.term, Max(0, s.cx - (if s.wrap then k - 1 else k)), s.cy)
  {
    var s, k := t.term.screen, Max(1, n);
    MoveOrders(t.term, n);
    ReadyIsValid(t);
    CursorInside(s);
    hide CallOrders, CsiBytes, Receive, Ready, Valid, At;
    CsiMoves(t, ambiguous, [n], 65, s.cx, s.cy - k);
    CsiMoves(t, ambiguous, [n], 66, s.cx, s.cy + k);
    CsiMoves(t, ambiguous, [n], 67, s.cx + k, s.cy);
    CsiMovesLeft(t, ambiguous, n);
  }

  lemma CursorInside(s: Scr)
    requires Valid(s)
    ensures s.cx < s.cols && s.cy < s.rows
  {
  }

  lemma CsiMoves(t: Emulator, ambiguous: bool, ns: seq<nat>, f: byte, x: int, y: int)
    requires Ready(t) && IsFinal(f) && |ns| <= MAX_PARAMS && forall i :: 0 <= i < |ns| ==> ns[i] <= MAX_PARAM_VALUE
    requires CallOrders(t.term, Csi(Plain(ns), [], f)) == [OMoveTo(x, y)]
    ensures var s := t.term.screen;
      && s.cols >= 1 && s.rows >= 1
      && Receive(t, ambiguous, CsiBytes(ns, f)).term
         == At(t.term, Max(0, Min(x, s.cols - 1)), Max(0, Min(y, s.rows - 1)))
  {
    hide CallOrders, CsiBytes, Receive, MoveTo;
    CsiDoes(t, ambiguous, ns, f, OMoveTo(x, y));
    MoveIs(t.term.screen, x, y);
  }

  lemma CsiMovesLeft(t: Emulator, ambiguous: bool, n: nat)
    requires Ready(t) && n <= MAX_PARAM_VALUE
    ensures var s, k := t.term.screen, Max(1, n);
      Receive(t, ambiguous, CsiBytes([n], 68)).term == At(t.term, Max(0, s.cx - (if s.wrap then k - 1 else k)), s.cy)
  {
    var s, k := t.term.screen, Max(1, n);
    MoveOrders(t.term, n);
    hide CallOrders, CsiBytes, Receive, MoveTo;
    CsiDoes(t, ambiguous, [n], 68, OMoveLeft(k));
    MoveIs(s, s.cx - (k - (if s.wrap then 1 else 0)), s.cy);
  }

  lemma MoveOrders(t: Term, n: nat)
    ensures var s, k := t.screen, Max(1, n);
      && CallOrders(t, Csi(Plain([n]), [], 65)) == [OMoveTo(s.cx, s.cy - k)]
      && CallOrders(t, Csi(Plain([n]), [], 66)) == [OMoveTo(s.cx, s.cy + k)]
      && CallOrders(t, Csi(Plain([n]), [], 67)) == [OMoveTo(s.cx + k, s.cy)]
      && CallOrders(t, Csi(Plain([n]), [], 68)) == [OMoveLeft(k)]
  {
  }

  /** CHA, VPA, CUP and HVP: lines and columns count from 1, the line first, as far as the page goes. */
  lemma CursorGoes(t: Emulator, ambiguous: bool, line: nat, column: nat)
    requires Ready(t) && 1 <= line <= MAX_PARAM_VALUE && 1 <= column <= MAX_PARAM_VALUE
    ensures var s := t.term.screen; var x, y := Min(s.cols - 1, column - 1), Min(s.rows - 1, line - 1);
      && Receive(t, ambiguous, CsiBytes([line, column], 72)).term == At(t.term, x, y)
      && Receive(t, ambiguous, CsiBytes([line, column], 102)).term == At(t.term, x, y)
      && Receive(t, ambiguous, CsiBytes([column], 71)).term == At(t.term, x, s.cy)
      && Receive(t, ambiguous, CsiBytes([line], 100)).term == At(t.term, s.cx, y)
      && Receive(t, ambiguous, CsiBytes([], 72)).term == At(t.term, 0, 0)
  {
    var s := t.term.screen;
    GoOrders(t.term, line, column);
    ReadyIsValid(t);
    CursorInside(s);
    hide CallOrders, CsiBytes, Receive, Ready, Valid, At;
    CsiMoves(t, ambiguous, [line, column], 72, column - 1, line - 1);
    CsiMoves(t, ambiguous, [line, column], 102, column - 1, line - 1);
    CsiMoves(t, ambiguous, [column], 71, column - 1, s.cy);
    CsiMoves(t, ambiguous, [line], 100, s.cx, line - 1);
    CsiMoves(t, ambiguous, [], 72, 0, 0);
  }

  lemma GoOrders(t: Term, line: nat, column: nat)
    requires 1 <= line && 1 <= column
    ensures CallOrders(t, Csi(Plain([line, column]), [], 72)) == [OMoveTo(column - 1, line - 1)]
    ensures CallOrders(t, Csi(Plain([line, column]), [], 102)) == [OMoveTo(column - 1, line - 1)]
    ensures CallOrders(t, Csi(Plain([column]), [], 71)) == [OMoveTo(column - 1, t.screen.cy)]
    ensures CallOrders(t, Csi(Plain([line]), [], 100)) == [OMoveTo(t.screen.cx, line - 1)]
    ensures CallOrders(t, Csi(Plain([]), [], 72)) == [OMoveTo(0, 0)]
  {
  }

  /** CR, BS and HT. A backspace only forgets a pending wrap if there is one; a tab goes to the next stop,
      or to the last column. */
  lemma ControlsMove(t: Emulator, ambiguous: bool)
    requires Ready(t)
    ensures var s := t.term.screen; var x := NextTab(s, s.cx + 1);
      && Receive(t, ambiguous, [13]).term == At(t.term, 0, s.cy)
      && Receive(t, ambiguous, [8]).term == At(t.term, if s.wrap || s.cx == 0 then s.cx else s.cx - 1, s.cy)
      && Receive(t, ambiguous, [9]).term == At(t.term, x, s.cy)
  {
    ControlOrders(t.term);
    hide CallOrders, Receive;
    ControlDoes(t, ambiguous, 13, OCarriageReturn);
    ControlDoes(t, ambiguous, 8, OBackspace);
    ControlDoes(t, ambiguous, 9, OTab);
  }

  lemma ControlOrders(t: Term)
    ensures CallOrders(t, Execute(13)) == [OCarriageReturn] && CallOrders(t, Execute(8)) == [OBackspace]
    ensures CallOrders(t, Execute(9)) == [OTab] && CallOrders(t, Execute(10)) == [OLineFeed]
    ensures CallOrders(t, Execute(11)) == CallOrders(t, Execute(12)) == [OLineFeed]
  {
  }

  /** The next stop: the first one right of the cursor, or the last column if there is none. */
  lemma {:induction false} NextTabIsFirst(s: Scr, x: nat)
    requires Valid(s) && x <= s.cols
    ensures var r := NextTab(s, x);
      && (x < s.cols ==> x <= r) && (r < s.cols - 1 ==> s.tabs[r])
      && forall i :: x <= i < r ==> !s.tabs[i]
    decreases s.cols - x
  {
    if x < s.cols && !s.tabs[x] { NextTabIsFirst(s, x + 1); }
  }

  // ---- Line feeds, and what ESC orders.

  /** LF, VT and FF, IND, RI, NEL, HTS, DECSC and DECRC, and the two character sets. */
  lemma ShortSequences(t: Emulator, ambiguous: bool)
    requires Ready(t)
    ensures Did(t, Receive(t, ambiguous, [10]), ambiguous, OLineFeed)
    ensures Did(t, Receive(t, ambiguous, [11]), ambiguous, OLineFeed)
    ensures Did(t, Receive(t, ambiguous, [12]), ambiguous, OLineFeed)
    ensures Did(t, Receive(t, ambiguous, [ESC] + ([] + [68])), ambiguous, OLineFeed)
    ensures Did(t, Receive(t, ambiguous, [ESC] + ([] + [77])), ambiguous, OReverseIndex)
    ensures Did(t, Receive(t, ambiguous, [ESC] + ([] + [69])), ambiguous, ONextLine)
    ensures Did(t, Receive(t, ambiguous, [ESC] + ([] + [72])), ambiguous, OSetTab)
    ensures Did(t, Receive(t, ambiguous, [ESC] + ([] + [55])), ambiguous, OSave)
    ensures Did(t, Receive(t, ambiguous, [ESC] + ([] + [56])), ambiguous, ORestore)
    ensures Did(t, Receive(t, ambiguous, [ESC] + ([40] + [48])), ambiguous, OSetCharset(Graphics))
    ensures Did(t, Receive(t, ambiguous, [ESC] + ([40] + [66])), ambiguous, OSetCharset(Ascii))
  {
    ControlOrders(t.term);
    EscOrders(t.term);
    hide CallOrders, Receive, Did;
    ControlDoes(t, ambiguous, 10, OLineFeed);
    ControlDoes(t, ambiguous, 11, OLineFeed);
    ControlDoes(t, ambiguous, 12, OLineFeed);
    EscDoes(t, ambiguous, [], 68, OLineFeed);
    EscDoes(t, ambiguous, [], 77, OReverseIndex);
    EscDoes(t, ambiguous, [], 69, ONextLine);
    EscDoes(t, ambiguous, [], 72, OSetTab);
    EscDoes(t, ambiguous, [], 55, OSave);
    EscDoes(t, ambiguous, [], 56, ORestore);
    EscDoes(t, ambiguous, [40], 48, OSetCharset(Graphics));
    EscDoes(t, ambiguous, [40], 66, OSetCharset(Ascii));
  }

  lemma EscOrders(t: Term)
    ensures CallOrders(t, Esc([], 68)) == [OLineFeed] && CallOrders(t, Esc([], 77)) == [OReverseIndex]
    ensures CallOrders(t, Esc([], 69)) == [ONextLine] && CallOrders(t, Esc([], 72)) == [OSetTab]
    ensures CallOrders(t, Esc([], 55)) == [OSave] && CallOrders(t, Esc([], 56)) == [ORestore]
    ensures CallOrders(t, Esc([40], 48)) == [OSetCharset(Graphics)]
    ensures CallOrders(t, Esc([40], 66)) == [OSetCharset(Ascii)]
  {
  }

  // ---- Editing.

  /** ED and EL with their mode, ECH, ICH, DCH, IL and DL with their count. */
  lemma EditSequences(t: Emulator, ambiguous: bool, n: nat)
    requires Ready(t) && n <= MAX_PARAM_VALUE
    ensures var k := Max(1, n);
      && Did(t, Receive(t, ambiguous, CsiBytes([n], 74)), ambiguous, OEraseDisplay(n))
      && Did(t, Receive(t, ambiguous, CsiBytes([n], 75)), ambiguous, OEraseLine(n))
      && Did(t, Receive(t, ambiguous, CsiBytes([n], 88)), ambiguous, OEraseChars(k))
      && Did(t, Receive(t, ambiguous, CsiBytes([n], 64)), ambiguous, OInsert(k))
      && Did(t, Receive(t, ambiguous, CsiBytes([n], 80)), ambiguous, ODelete(k))
      && Did(t, Receive(t, ambiguous, CsiBytes([n], 76)), ambiguous, OInsertLines(k))
      && Did(t, Receive(t, ambiguous, CsiBytes([n], 77)), ambiguous, ODeleteLines(k))
  {
    var k := Max(1, n);
    EditOrders(t.term, n);
    hide CallOrders, CsiBytes, Receive, Did;
    CsiDoes(t, ambiguous, [n], 74, OEraseDisplay(n));
    CsiDoes(t, ambiguous, [n], 75, OEraseLine(n));
    CsiDoes(t, ambiguous, [n], 88, OEraseChars(k));
    CsiDoes(t, ambiguous, [n], 64, OInsert(k));
    CsiDoes(t, ambiguous, [n], 80, ODelete(k));
    CsiDoes(t, ambiguous, [n], 76, OInsertLines(k));
    CsiDoes(t, ambiguous, [n], 77, ODeleteLines(k));
  }

  lemma EditOrders(t: Term, n: nat)
    ensures CallOrders(t, Csi(Plain([n]), [], 74)) == [OEraseDisplay(n)]
    ensures CallOrders(t, Csi(Plain([n]), [], 75)) == [OEraseLine(n)]
    ensures CallOrders(t, Csi(Plain([n]), [], 88)) == [OEraseChars(Max(1, n))]
    ensures CallOrders(t, Csi(Plain([n]), [], 64)) == [OInsert(Max(1, n))]
    ensures CallOrders(t, Csi(Plain([n]), [], 80)) == [ODelete(Max(1, n))]
    ensures CallOrders(t, Csi(Plain([n]), [], 76)) == [OInsertLines(Max(1, n))]
    ensures CallOrders(t, Csi(Plain([n]), [], 77)) == [ODeleteLines(Max(1, n))]
  {
  }

  /** Without a number a count is 1 and a mode 0. */
  lemma Defaults(t: Term)
    ensures forall f: byte :: f in {65, 66, 67, 68, 71, 100, 88, 64, 80, 76, 77} ==>
      CallOrders(t, Csi([], [], f)) == CallOrders(t, Csi(Plain([1]), [], f))
    ensures forall f: byte :: f in {74, 75, 103} ==> CallOrders(t, Csi([], [], f)) == CallOrders(t, Csi(Plain([0]), [], f))
  {
  }

  // ---- The region and the tab stops.

  /** DECSTBM: lines top to bottom, counted from 1; without parameters the whole page. */
  lemma RegionIsSet(t: Emulator, ambiguous: bool, top: nat, bottom: nat)
    requires Ready(t) && 1 <= top <= MAX_PARAM_VALUE && 1 <= bottom <= MAX_PARAM_VALUE
    ensures Did(t, Receive(t, ambiguous, CsiBytes([top, bottom], 114)), ambiguous, OSetRegion(top - 1, bottom - 1))
    ensures Did(t, Receive(t, ambiguous, CsiBytes([], 114)), ambiguous, OResetRegion)
  {
    RegionOrders(t.term, top, bottom);
    hide CallOrders, CsiBytes, Receive, Did;
    CsiDoes(t, ambiguous, [top, bottom], 114, OSetRegion(top - 1, bottom - 1));
    CsiDoes(t, ambiguous, [], 114, OResetRegion);
  }

  /** A region of at least two lines is taken, as far as the page goes, and the cursor goes home; one of
      fewer is refused. */
  lemma RegionIs(s: Scr, top: nat, bottom: nat)
    requires Valid(s) && 1 <= top && 1 <= bottom
    ensures var last := Min(s.rows, bottom);
      SetRegion(s, top - 1, bottom - 1)
      == if top < last then s.(top := top - 1, bottom := last - 1, cx := 0, cy := 0, wrap := false) else s
    ensures ResetRegion(s) == s.(top := 0, bottom := s.rows - 1, cx := 0, cy := 0, wrap := false)
  {
  }

  lemma RegionOrders(t: Term, top: nat, bottom: nat)
    requires 1 <= top && 1 <= bottom
    ensures CallOrders(t, Csi(Plain([top, bottom]), [], 114)) == [OSetRegion(top - 1, bottom - 1)]
    ensures CallOrders(t, Csi(Plain([]), [], 114)) == [OResetRegion]
  {
  }

  /** HTS sets a stop under the cursor, TBC 0 takes it away, TBC 3 takes all, another TBC none. */
  lemma TabStops(t: Emulator, ambiguous: bool, n: nat)
    requires Ready(t) && n <= MAX_PARAM_VALUE
    ensures var s := t.term.screen; var r := Receive(t, ambiguous, CsiBytes([n], 103)).term;
      && r == t.term.(screen := s.(tabs := r.screen.tabs)) && |r.screen.tabs| == s.cols
      && forall x :: 0 <= x < s.cols ==>
           (r.screen.tabs[x] <==> s.tabs[x] && n != 3 && (n == 0 ==> x != s.cx))
  {
    TabOrders(t.term, n);
    var c := Csi(Plain([n]), [], 103);
    if n == 0 {
      hide CallOrders, CsiBytes, Receive;
      CsiDoes(t, ambiguous, [n], 103, OClearTab);
    } else if n == 3 {
      hide CallOrders, CsiBytes, Receive;
      CsiDoes(t, ambiguous, [n], 103, OClearAllTabs);
    } else {
      CsiIgnored(t, ambiguous, [n], 103);
    }
  }

  lemma TabOrders(t: Term, n: nat)
    ensures CallOrders(t, Csi(Plain([n]), [], 103)) == if n == 0 then [OClearTab] else if n == 3 then [OClearAllTabs] else []
  {
  }

  /** A sequence that orders nothing changes nothing. */
  lemma CsiIgnored(t: Emulator, ambiguous: bool, ns: seq<nat>, f: byte)
    requires Ready(t) && IsFinal(f) && |ns| <= MAX_PARAMS && forall i :: 0 <= i < |ns| ==> ns[i] <= MAX_PARAM_VALUE
    requires CallOrders(t.term, Csi(Plain(ns), [], f)) == []
    ensures Receive(t, ambiguous, CsiBytes(ns, f)).term == t.term
  {
    ReadyIsValid(t);
    ParseCsi(t.parser, ns, f);
    hide CallOrders, CsiBytes, Receive, Feed;
    ReceiveOneCall(t, ambiguous, CsiBytes(ns, f), Csi(Plain(ns), [], f));
  }

  /** A question to the terminal changes nothing on it: device attributes and status reports. */
  lemma QuestionsChangeNothing(t: Emulator, ambiguous: bool, n: nat)
    requires Ready(t) && n in {5, 6}
    ensures Receive(t, ambiguous, CsiBytes([n], 110)).term == t.term
    ensures Receive(t, ambiguous, CsiBytes([], 99)).term == t.term
  {
    assert CallOrders(t.term, Csi(Plain([n]), [], 110)) == [];
    assert CallOrders(t.term, Csi(Plain([]), [], 99)) == [];
    hide CallOrders, CsiBytes, Receive;
    CsiIgnored(t, ambiguous, [n], 110);
    CsiIgnored(t, ambiguous, [], 99);
  }

  // ---- Saving the cursor.

  /** DECRC brings back place, pen and character set of the last DECSC, whatever was printed or moved since,
      on a page of the same size. */
  lemma SavedComesBack(s: Scr, t: Scr)
    requires Valid(s) && Valid(t) && t.saved == SaveCursor(s).saved && t.cols == s.cols && t.rows == s.rows
    ensures RestoreCursor(t)
         == t.(cx := s.cx, cy := s.cy, wrap := s.wrap && s.cx == s.cols - 1, pen := s.pen, charset := s.charset)
  {
  }

  /** On a smaller page it stays on it, a pending wrap only in the last column. */
  lemma SavedIsClamped(t: Scr)
    requires Valid(t)
    ensures var r := RestoreCursor(t);
      && r.cx == Max(0, Min(t.saved.x, t.cols - 1)) && r.cy == Max(0, Min(t.saved.y, t.rows - 1))
      && (r.wrap <==> t.saved.wrap && r.cx == t.cols - 1) && r.grid == t.grid
  {
  }

  // ---- Modes.

  /** DECSET and DECRST: each number its mode, and nothing else. */
  lemma ModeNumbers(m: Modes, on: bool)
    ensures SetMode(m, 1, on) == m.(cursorKeys := on) && SetMode(m, 7, on) == m.(autowrap := on)
    ensures SetMode(m, 25, on) == m.(cursorVisible := on) && SetMode(m, 1049, on) == m.(altScreen := on)
    ensures SetMode(m, 2004, on) == m.(bracketedPaste := on)
  {
  }

  lemma MouseModeNumbers(m: Modes, on: bool)
    ensures SetMode(m, 1000, on) == m.(mouseClick := on) && SetMode(m, 1002, on) == m.(mouseDrag := on)
    ensures SetMode(m, 1003, on) == m.(mouseAny := on) && SetMode(m, 1006, on) == m.(mouseSgr := on)
    ensures SetMode(m, 1004, on) == m && SetMode(m, 47, on) == m
  {
  }

  /** A list of modes is set in turn, and the screen then follows: autowrap first, then the page. */
  lemma ModesAreSet(t: Emulator, ambiguous: bool, ps: seq<Param>, on: bool)
    requires Ready(t) && Writable(ps)
    ensures var r := Receive(t, ambiguous, Control([63], ps, [], if on then 104 else 108)).term;
      var m := SetModes(t.term.modes, ps, on);
      r == Term(Run(t.term.screen, ambiguous, SyncOrders(t.term.screen.alt, m)), m)
  {
    var f: byte := if on then 104 else 108;
    ReadyIsValid(t);
    hide Receive, Feed, Run, Valid, SetModes, Control;
    ControlIsRead(t.parser, [63], ps, [], f);
    assert [63] + [] == [63];
    ReceiveOneCall(t, ambiguous, Control([63], ps, [], f), Csi(ps, [63], f));
  }

  // ---- The character set.

  /** Line drawing: the corners, lines and crossings of a frame, where VT100 has them; any code outside
      0x5F to 0x7E, and every code in the ASCII set, is itself. */
  lemma LineDrawing(cp: nat)
    ensures Translate(0x6A, Graphics) == 0x2518 && Translate(0x6B, Graphics) == 0x2510
    ensures Translate(0x6C, Graphics) == 0x250C && Translate(0x6D, Graphics) == 0x2514
    ensures Translate(0x6E, Graphics) == 0x253C && Translate(0x71, Graphics) == 0x2500
    ensures Translate(0x74, Graphics) == 0x251C && Translate(0x75, Graphics) == 0x2524
    ensures Translate(0x76, Graphics) == 0x2534 && Translate(0x77, Graphics) == 0x252C
    ensures Translate(0x78, Graphics) == 0x2502 && Translate(0x61, Graphics) == 0x2592
    ensures Translate(0x60, Graphics) == 0x25C6 && Translate(0x7E, Graphics) == 0x00B7 && Translate(0x5F, Graphics) == 0x20
    ensures cp < 0x5F || cp > 0x7E ==> Translate(cp, Graphics) == cp
    ensures Translate(cp, Ascii) == cp
  {
  }

  // ---- The alternate page.

  /** Entering it: a page of erased cells, the cursor where it was, nothing saved on it yet; entering it again
      changes nothing, nor does leaving it from outside. */
  lemma AlternateIsFresh(s: Scr)
    requires Valid(s)
    ensures s.alt ==> EnterAlt(s) == s
    ensures !s.alt ==> LeaveAlt(s) == s
    ensures !s.alt ==> var r := EnterAlt(s);
      && r.alt && r.cx == s.cx && r.cy == s.cy && r.wrap == s.wrap && r.pen == s.pen && r.saved == FRESH
      && r.parked == s.grid && r.history == s.history && |r.grid| == s.rows
      && forall y :: 0 <= y < s.rows ==> |r.grid[y]| == s.cols && forall x :: 0 <= x < s.cols ==> r.grid[y][x] == Erased(s.pen)
  {
  }

  /** NEL: to the first column of the next line, the region going up if there is none. */
  lemma NextLineIs(s: Scr)
    requires Valid(s)
    ensures Valid(s.(cx := 0)) && NextLine(s) == LineFeed(s.(cx := 0)) && NextLine(s).cx == 0
  {
    HomeKeepsBounds(s);
    hide ScrollUp;
    ScrollUpKeepsBounds(s.(cx := 0, wrap := false));
  }

  /** HTS: a stop under the cursor, the others as they were. */
  lemma TabIsSet(s: Scr, ambiguous: bool)
    requires Valid(s)
    ensures var r := Do(s, ambiguous, OSetTab);
      && r == s.(tabs := r.tabs) && |r.tabs| == s.cols
      && forall x :: 0 <= x < s.cols ==> (r.tabs[x] <==> s.tabs[x] || x == s.cx)
  {
  }
}
