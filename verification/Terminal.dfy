// The parser's sink: from decoded calls to screen orders (apps/terminal.cpp, vt/modes.cpp), and the
// emulator as a whole, bytes in and screen out.

module Terminal {
  import opened Bytes
  import opened Cells
  import opened VtParser
  import opened VtParserProofs
  import opened Attrs
  import opened Screen
  import opened ScreenOrders

  datatype Modes = Modes(
    cursorKeys: bool, autowrap: bool, cursorVisible: bool,
    mouseClick: bool, mouseDrag: bool, mouseAny: bool, mouseSgr: bool,
    altScreen: bool, bracketedPaste: bool)

  function SetMode(m: Modes, mode: int, on: bool): Modes {
    match mode
    case 1 => m.(cursorKeys := on)
    case 7 => m.(autowrap := on)
    case 25 => m.(cursorVisible := on)
    case 1000 => m.(mouseClick := on)
    case 1002 => m.(mouseDrag := on)
    case 1003 => m.(mouseAny := on)
    case 1006 => m.(mouseSgr := on)
    case 1049 => m.(altScreen := on)
    case 2004 => m.(bracketedPaste := on)
    case _ => m
  }

  function SetModes(m: Modes, params: seq<Param>, on: bool): Modes
    decreases |params|
  {
    if params == [] then m else SetModes(SetMode(m, params[0].value, on), params[1..], on)
  }

  datatype Term = Term(screen: Scr, modes: Modes)

  /** The screen is in bounds and agrees with the modes that it mirrors. */
  ghost predicate ValidTerm(t: Term) {
    Valid(t.screen) && t.modes.autowrap == t.screen.autowrap && t.modes.altScreen == t.screen.alt
  }

  /** The sequences that are questions: they are answered and do nothing else. */
  predicate IsQuestion(params: seq<Param>, intermediates: bytes, final: byte) {
    var first := ParamOr(params, 0, 0);
    || (final == 99 && (intermediates == [] || intermediates == [62]))
    || (final == 110 && intermediates == [] && (first == 5 || first == 6))
    || (final == 110 && intermediates == [63] && first == 6)
    || (final == 112 && ParamOr(params, 0, -1) >= 0 && (intermediates == [63, 36] || intermediates == [36]))
  }

  function CountOf(params: seq<Param>, index: nat): int { Max(1, ParamOr(params, index, 1)) }

  /** The order an unmarked control sequence stands for, by its final byte. */
  function CsiOrder(s: Scr, params: seq<Param>, final: byte): Option<Order> {
    var n, first := CountOf(params, 0), ParamOr(params, 0, 0);
    match final
    case 65 => Some(OMoveTo(s.cx, s.cy - n))
    case 66 => Some(OMoveTo(s.cx, s.cy + n))
    case 67 => Some(OMoveTo(s.cx + n, s.cy))
    case 68 => Some(OMoveLeft(n))
    case 71 => Some(OMoveTo(n - 1, s.cy))
    case 100 => Some(OMoveTo(s.cx, n - 1))
    case 72 => Some(OMoveTo(CountOf(params, 1) - 1, n - 1))
    case 102 => Some(OMoveTo(CountOf(params, 1) - 1, n - 1))
    case 74 => Some(OEraseDisplay(first))
    case 75 => Some(OEraseLine(first))
    case 88 => Some(OEraseChars(n))
    case 64 => Some(OInsert(n))
    case 80 => Some(ODelete(n))
    case 76 => Some(OInsertLines(n))
    case 77 => Some(ODeleteLines(n))
    case 114 =>
      if params == [] then Some(OResetRegion) else Some(OSetRegion(n - 1, ParamOr(params, 1, s.rows) - 1))
    case 103 => if first == 0 then Some(OClearTab) else if first == 3 then Some(OClearAllTabs) else None
    case 109 => Some(OSetPen(Apply(params, s.pen)))
    case _ => None
  }

  function ExecuteOrder(b: byte): Option<Order> {
    if 10 <= b <= 12 then Some(OLineFeed)
    else if b == 13 then Some(OCarriageReturn)
    else if b == 8 then Some(OBackspace)
    else if b == 9 then Some(OTab)
    else None
  }

  function EscOrder(intermediates: bytes, final: byte): Option<Order> {
    if intermediates == [40] then Some(OSetCharset(if final == 48 then Graphics else Ascii))
    else if intermediates != [] then None
    else
      match final
      case 55 => Some(OSave)
      case 56 => Some(ORestore)
      case 68 => Some(OLineFeed)
      case 77 => Some(OReverseIndex)
      case 69 => Some(ONextLine)
      case 72 => Some(OSetTab)
      case _ => None
  }

  predicate ChangesModes(c: Call) {
    c.Csi? && c.intermediates == [63] && (c.final == 104 || c.final == 108)
    && !IsQuestion(c.params, c.intermediates, c.final)
  }

  function ModesAfter(m: Modes, c: Call): Modes {
    if ChangesModes(c) then SetModes(m, c.params, c.final == 104) else m
  }

  /** The screen follows the modes it mirrors. */
  function SyncOrders(alt: bool, m: Modes): seq<Order> {
    [OSetAutowrap(m.autowrap)] +
    (if m.altScreen && !alt then [OEnterAlt] else if !m.altScreen && alt then [OLeaveAlt] else [])
  }

  function Maybe(o: Option<Order>): seq<Order> { if o.Some? then [o.value] else [] }

  /** The orders one call of the parser gives the screen. Questions, marked sequences, window
      titles and device control strings give none. */
  function CallOrders(t: Term, c: Call): seq<Order> {
    match c
    case Print(cp) => [OPrint(cp)]
    case Execute(b) => Maybe(ExecuteOrder(b))
    case Esc(intermediates, final) => Maybe(EscOrder(intermediates, final))
    case Csi(params, intermediates, final) =>
      if ChangesModes(c) then SyncOrders(t.screen.alt, ModesAfter(t.modes, c))
      else if IsQuestion(params, intermediates, final) || intermediates != [] then []
      else Maybe(CsiOrder(t.screen, params, final))
    case _ => []
  }

  function Handle(t: Term, ambiguous: bool, c: Call): Term
    requires Valid(t.screen)
  {
    Term(Run(t.screen, ambiguous, CallOrders(t, c)), ModesAfter(t.modes, c))
  }

  function HandleAll(t: Term, ambiguous: bool, cs: seq<Call>): Term
    requires Valid(t.screen)
    decreases |cs|
  {
    if cs == [] then t
    else
      RunKeepsBounds(t.screen, ambiguous, CallOrders(t, cs[0]));
      HandleAll(Handle(t, ambiguous, cs[0]), ambiguous, cs[1..])
  }

  lemma {:induction false} HandleAllKeepsBounds(t: Term, ambiguous: bool, cs: seq<Call>)
    requires Valid(t.screen)
    ensures Valid(HandleAll(t, ambiguous, cs).screen)
    decreases |cs|
  {
    hide Valid, CallOrders, Run;
    if cs != [] {
      RunKeepsBounds(t.screen, ambiguous, CallOrders(t, cs[0]));
      HandleAllKeepsBounds(Handle(t, ambiguous, cs[0]), ambiguous, cs[1..]);
    }
  }

  lemma {:induction false} HandleConcat(t: Term, ambiguous: bool, a: seq<Call>, b: seq<Call>)
    requires Valid(t.screen)
    ensures Valid(HandleAll(t, ambiguous, a).screen)
    ensures HandleAll(t, ambiguous, a + b) == HandleAll(HandleAll(t, ambiguous, a), ambiguous, b)
    decreases |a|
  {
    hide Valid, CallOrders, Run;
    HandleAllKeepsBounds(t, ambiguous, a);
    if a == [] {
      assert a + b == b;
    } else {
      assert (a + b)[1..] == a[1..] + b;
      RunKeepsBounds(t.screen, ambiguous, CallOrders(t, a[0]));
      HandleConcat(Handle(t, ambiguous, a[0]), ambiguous, a[1..], b);
    }
  }

  lemma HandleOne(t: Term, ambiguous: bool, c: Call)
    requires Valid(t.screen)
    ensures HandleAll(t, ambiguous, [c]) == Handle(t, ambiguous, c)
  {
    hide Valid, CallOrders, Run;
    RunKeepsBounds(t.screen, ambiguous, CallOrders(t, c));
    var u := Handle(t, ambiguous, c);
    assert HandleAll(u, ambiguous, [c][1..]) == u;
  }

  lemma RunOne(s: Scr, ambiguous: bool, o: Order)
    requires Valid(s)
    ensures Run(s, ambiguous, [o]) == Do(s, ambiguous, o)
  {
    hide Do, Valid;
    OrderKeepsBounds(s, ambiguous, o);
    var u := Do(s, ambiguous, o);
    assert Run(u, ambiguous, [o][1..]) == u;
  }

  /** The screen after the modes it mirrors have been set: only the switch to the alternate page
      touches a cell, and it gives a blank one. */
  lemma SyncRun(s: Scr, ambiguous: bool, m: Modes)
    requires Valid(s) && (s.alt ==> m.altScreen)
    ensures var r := Run(s, ambiguous, SyncOrders(s.alt, m));
      r == (if m.altScreen then EnterAlt(s.(autowrap := m.autowrap)) else s.(autowrap := m.autowrap))
  {
    hide Valid, EnterAlt;
    var u, o := s.(autowrap := m.autowrap), OSetAutowrap(m.autowrap);
    OrderKeepsBounds(s, ambiguous, o);
    assert Do(s, ambiguous, o) == u;
    if m.altScreen && !s.alt {
      RunTwo(s, ambiguous, o, OEnterAlt);
    } else {
      RunOne(s, ambiguous, o);
      if s.alt { EnterTwice(u); }
    }
  }

  lemma RunTwo(s: Scr, ambiguous: bool, a: Order, b: Order)
    requires Valid(s)
    ensures Valid(Do(s, ambiguous, a)) && Run(s, ambiguous, [a] + [b]) == Do(Do(s, ambiguous, a), ambiguous, b)
  {
    hide Do, Valid;
    OrderKeepsBounds(s, ambiguous, a);
    assert ([a] + [b])[1..] == [b];
    RunOne(Do(s, ambiguous, a), ambiguous, b);
  }

  lemma EnterTwice(s: Scr)
    requires Valid(s) && s.alt
    ensures EnterAlt(s) == s
  {
  }

  // ---- The whole emulator.

  datatype Emulator = Emulator(parser: Machine, term: Term)

  function Receive(e: Emulator, ambiguous: bool, s: bytes): Emulator
    requires Valid(e.term.screen)
  {
    var (p, cs) := Feed(e.parser, s);
    Emulator(p, HandleAll(e.term, ambiguous, cs))
  }

  /** Whatever bytes a guest writes, the screen stays in bounds. */
  lemma ReceiveKeepsBounds(e: Emulator, ambiguous: bool, s: bytes)
    requires Valid(e.term.screen)
    ensures Valid(Receive(e, ambiguous, s).term.screen)
  {
    hide Valid;
    HandleAllKeepsBounds(e.term, ambiguous, Feed(e.parser, s).1);
  }

  /** How the bytes are cut into reads does not matter. */
  lemma ReceiveConcat(e: Emulator, ambiguous: bool, a: bytes, b: bytes)
    requires Valid(e.term.screen)
    ensures Valid(Receive(e, ambiguous, a).term.screen)
    ensures Receive(e, ambiguous, a + b) == Receive(Receive(e, ambiguous, a), ambiguous, b)
  {
    hide Valid;
    FeedConcat(e.parser, a, b);
    ReceiveKeepsBounds(e, ambiguous, a);
    HandleConcat(e.term, ambiguous, Feed(e.parser, a).1, Feed(Feed(e.parser, a).0, b).1);
  }

  lemma ReceiveOneCall(e: Emulator, ambiguous: bool, s: bytes, c: Call)
    requires Valid(e.term.screen) && Feed(e.parser, s).1 == [c]
    ensures Receive(e, ambiguous, s).term == Handle(e.term, ambiguous, c)
    ensures Receive(e, ambiguous, s).parser == Feed(e.parser, s).0
  {
    hide Valid, Handle, HandleAll;
    HandleOne(e.term, ambiguous, c);
  }
}
