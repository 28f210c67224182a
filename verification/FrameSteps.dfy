// What the emulator does with each kind of byte string the repaint compiler writes.

module FrameSteps {
  import opened Bytes
  import opened Cells
  import opened Utf8
  import opened VtParser
  import opened VtParserProofs
  import opened Profile
  import opened Attrs
  import opened SgrInverse
  import opened ScreenRow
  import opened Screen
  import opened ScreenOrders
  import opened Terminal
  import opened Frame

  /** The largest grid the wire protocol can ask for: its sizes are 16-bit. */
  const MAX_SIZE := 65535

  /** Between two frames, or between two sequences of one: the parser is idle, the screen in
      bounds and in the ASCII set. */
  ghost predicate Ready(t: Emulator) {
    Idle(t.parser) && ValidTerm(t.term) && t.term.screen.charset.Ascii?
  }

  /** One call that stands for one order. */
  lemma ReceiveOrder(t: Emulator, ambiguous: bool, s: bytes, c: Call, o: Order)
    requires Ready(t) && Idle(Feed(t.parser, s).0) && Feed(t.parser, s).1 == [c]
    requires CallOrders(t.term, c) == [o] && !ChangesModes(c)
    ensures var r := Receive(t, ambiguous, s);
      Idle(r.parser) && Valid(r.term.screen)
      && r.term == Term(Do(t.term.screen, ambiguous, o), t.term.modes)
  {
    hide Valid, Do, Receive, Run, Feed, CallOrders;
    ReceiveOneCall(t, ambiguous, s, c);
    RunOne(t.term.screen, ambiguous, o);
    OrderKeepsBounds(t.term.screen, ambiguous, o);
  }

  lemma CupIsCsi(x: nat, y: nat)
    ensures Cup(x, y) == CsiBytes([y + 1, x + 1], 72)
  {
    assert Join([y + 1, x + 1][1..]) == Dec(x + 1);
    assert Join([y + 1, x + 1]) == Dec(y + 1) + [59] + Dec(x + 1);
  }

  /** CUP (ECMA-48, section 8.3.21): the cursor goes exactly there. */
  lemma ReceiveCup(t: Emulator, ambiguous: bool, x: nat, y: nat)
    requires Ready(t) && x < MAX_SIZE && y < MAX_SIZE
    ensures var r := Receive(t, ambiguous, Cup(x, y));
      Ready(r) && r.term == t.term.(screen := MoveTo(t.term.screen, x, y))
  {
    var c := Csi(Plain([y + 1, x + 1]), [], 72);
    CupIsCsi(x, y);
    ParseCsi(t.parser, [y + 1, x + 1], 72);
    assert CallOrders(t.term, c) == [OMoveTo(x, y)];
    hide CallOrders, Cup, CsiBytes, Receive, Feed;
    ReceiveOrder(t, ambiguous, Cup(x, y), c, OMoveTo(x, y));
  }

  /** EL with no parameter (ECMA-48, section 8.3.41). */
  lemma ReceiveErase(t: Emulator, ambiguous: bool)
    requires Ready(t)
    ensures var r := Receive(t, ambiguous, ERASE_TO_END);
      Ready(r) && r.term == t.term.(screen := EraseLine(t.term.screen, 0))
  {
    var c := Csi([], [], 75);
    assert ERASE_TO_END == CsiBytes([], 75);
    ParseCsi(t.parser, [], 75);
    assert Plain([]) == [];
    assert CallOrders(t.term, c) == [OEraseLine(0)];
    hide CallOrders, CsiBytes, Receive, Feed, EraseSpan;
    ReceiveOrder(t, ambiguous, ERASE_TO_END, c, OEraseLine(0));
  }

  /** A glyph written in UTF-8 is printed. */
  lemma ReceiveGlyph(t: Emulator, ambiguous: bool, cp: nat)
    requires Ready(t) && 0x20 <= cp != 0x7F
    ensures var r := Receive(t, ambiguous, EncodeUtf8(cp));
      Idle(r.parser) && Valid(r.term.screen)
      && r.term == t.term.(screen := Screen.Print(t.term.screen, ambiguous, Shown(cp)))
  {
    var c := Call.Print(Shown(cp));
    ParseGlyph(t.parser, cp);
    assert CallOrders(t.term, c) == [OPrint(Shown(cp))];
    hide CallOrders, EncodeUtf8, Receive, Feed, Screen.Print, Shown;
    ReceiveOrder(t, ambiguous, EncodeUtf8(cp), c, OPrint(Shown(cp)));
  }

  predicate Small(l: seq<nat>) {
    |l| <= 5 && forall i :: 0 <= i < |l| ==> l[i] <= MAX_PARAM_VALUE
  }

  /** SGR (ECMA-48, section 8.3.117): only the pen changes. */
  lemma ReceiveSgr(t: Emulator, ambiguous: bool, l: seq<nat>)
    requires Ready(t) && Small(l)
    ensures var r := Receive(t, ambiguous, CsiBytes(l, 109));
      Ready(r) && r.term == t.term.(screen := t.term.screen.(pen := Apply(Plain(l), t.term.screen.pen)))
  {
    hide Apply, CsiBytes, Receive, Feed;
    var c := Csi(Plain(l), [], 109);
    ParseCsi(t.parser, l, 109);
    var o := OSetPen(Apply(Plain(l), t.term.screen.pen));
    assert CallOrders(t.term, c) == [o];
    hide CallOrders;
    ReceiveOrder(t, ambiguous, CsiBytes(l, 109), c, o);
  }

  lemma {:induction false} ReceiveLists(t: Emulator, ambiguous: bool, ls: seq<seq<nat>>)
    requires Ready(t) && forall i :: 0 <= i < |ls| ==> Small(ls[i])
    ensures var r := Receive(t, ambiguous, SgrBytes(ls));
      Ready(r) && r.term == t.term.(screen := t.term.screen.(pen := ApplyLists(ls, t.term.screen.pen)))
    decreases |ls|
  {
    hide Apply, CsiBytes, Feed, Small, Ready;
    if ls == [] {
      ReceiveNothing(t, ambiguous);
    } else {
      ReceiveSgr(t, ambiguous, ls[0]);
      ReadyIsValid(t);
      ReceiveConcat(t, ambiguous, CsiBytes(ls[0], 109), SgrBytes(ls[1..]));
      ReceiveLists(Receive(t, ambiguous, CsiBytes(ls[0], 109)), ambiguous, ls[1..]);
    }
  }

  lemma ReadyIsValid(t: Emulator)
    requires Ready(t)
    ensures Valid(t.term.screen)
  {
  }

  lemma ReceiveNothing(t: Emulator, ambiguous: bool)
    requires Ready(t)
    ensures Receive(t, ambiguous, []) == t
  {
  }

  lemma ColorCodeIsSmall(c: Color, foreground: bool, d: Depth)
    ensures Small(ColorCode(c, foreground, d))
  {
  }

  lemma {:induction false} AttrCodesAreSmall(base: set<Attr>, to: set<Attr>, k: nat)
    requires k <= |CODES|
    ensures forall i :: 0 <= i < |AttrCodes(base, to, k)| ==> Small(AttrCodes(base, to, k)[i])
    decreases |CODES| - k
  {
    hide Small;
    if k < |CODES| {
      AttrCodesAreSmall(base, to, k + 1);
      CodeIsSmall(k);
      var head := if CODES[k].0 in to && CODES[k].0 !in base then [[CODES[k].1]] else [];
      PrependSmall(head, AttrCodes(base, to, k + 1));
    }
  }

  lemma CodeIsSmall(k: nat)
    requires k < |CODES|
    ensures Small([CODES[k].1])
  {
  }

  lemma PrependSmall(a: seq<seq<nat>>, b: seq<seq<nat>>)
    requires |a| <= 1 && (a != [] ==> Small(a[0])) && forall i :: 0 <= i < |b| ==> Small(b[i])
    ensures forall i :: 0 <= i < |a + b| ==> Small((a + b)[i])
  {
    hide Small;
  }

  lemma SgrListsAreSmall(from: Style, to: Style, d: Depth)
    ensures forall i :: 0 <= i < |SgrLists(from, to, d)| ==> Small(SgrLists(from, to, d)[i])
  {
    hide ColorCode, AttrCodes, Small;
    if from != to {
      var base := BaseOf(from, to);
      AttrCodesAreSmall(base.attrs, to.attrs, 0);
      ColorCodeIsSmall(to.fg, true, d);
      ColorCodeIsSmall(to.bg, false, d);
      ResetIsSmall();
    }
  }

  lemma ResetIsSmall()
    ensures Small([0])
  {
  }

  /** A transition takes a terminal showing pen `from` to one showing pen `to`. */
  lemma ReceiveTransition(t: Emulator, ambiguous: bool, from: Style, to: Style, d: Depth)
    requires Ready(t) && t.term.screen.pen == Quantized(from, d)
    ensures var r := Receive(t, ambiguous, Transition(from, to, d));
      Ready(r) && r.term == t.term.(screen := t.term.screen.(pen := Quantized(to, d)))
  {
    hide Ready, Quantized, SgrLists, Small, Receive;
    SgrListsAreSmall(from, to, d);
    ReceiveLists(t, ambiguous, SgrLists(from, to, d));
    SgrRoundTrip(from, to, d);
  }

  lemma OnlyTheCursor(m: Modes, on: bool)
    ensures SetModes(m, [Param(25, false)], on) == m.(cursorVisible := on)
  {
    var u := SetMode(m, 25, on);
    assert u == m.(cursorVisible := on);
    hide SetMode;
    assert SetModes(u, [Param(25, false)][1..], on) == u;
  }

  lemma CursorModeOrders(t: Term, on: bool)
    requires t.modes.autowrap == t.screen.autowrap && t.modes.altScreen == t.screen.alt
    ensures var c := Csi([Param(25, false)], [63], if on then 104 else 108);
      && ModesAfter(t.modes, c) == t.modes.(cursorVisible := on)
      && CallOrders(t, c) == [OSetAutowrap(t.screen.autowrap)]
  {
    OnlyTheCursor(t.modes, on);
    hide SetModes, CsiOrder;
  }

  /** DECTCEM: hiding or showing the cursor touches one mode and nothing of the screen. */
  lemma ReceiveCursorMode(t: Emulator, ambiguous: bool, on: bool)
    requires Ready(t)
    ensures var r := Receive(t, ambiguous, if on then SHOW_CURSOR else HIDE_CURSOR);
      Ready(r) && r.term == t.term.(modes := t.term.modes.(cursorVisible := on))
  {
    var f: byte := if on then 104 else 108;
    var s := if on then SHOW_CURSOR else HIDE_CURSOR;
    var c := Csi([Param(25, false)], [63], f);
    CursorModeOrders(t.term, on);
    hide CallOrders, Receive, Feed, ModesAfter, Run, Valid;
    ParsePrivate(t.parser, 25, f);
    hide Do;
    AutowrapAgain(t.term.screen, ambiguous);
    ReceiveOneCall(t, ambiguous, s, c);
  }

  /** Setting the mode it has changes nothing of the screen. */
  lemma AutowrapAgain(s: Scr, ambiguous: bool)
    requires Valid(s)
    ensures Run(s, ambiguous, [OSetAutowrap(s.autowrap)]) == s
  {
    hide Valid;
    RunOne(s, ambiguous, OSetAutowrap(s.autowrap));
  }
}
