// The parser's sink as the program keeps it (apps/terminal.cpp): calls dispatched to the screen,
// and the whole emulator as connected objects.

module TerminalObject {
  import opened Bytes
  import opened Cells
  import opened VtParser
  import opened Attrs
  import opened Scrollback
  import opened Screen
  import opened ScreenOrders
  import opened ScreenObject
  import opened Terminal

  /** The screen after an order that may not be there. */
  function Obeyed(s: Scr, ambiguous: bool, o: Option<Order>): Scr
    requires Valid(s)
  {
    if o.Some? then Do(s, ambiguous, o.value) else s
  }

  lemma ObeyedIsRun(s: Scr, ambiguous: bool, o: Option<Order>)
    requires Valid(s)
    ensures Obeyed(s, ambiguous, o) == Run(s, ambiguous, Maybe(o))
  {
    hide Do, Valid;
    if o.Some? {
      RunOne(s, ambiguous, o.value);
    }
  }

  class Tty {
    const screen: TextScreen
    var modes: Modes

    ghost predicate Ok()
      reads this, screen, screen.ring
    {
      screen.Ok()
    }

    ghost function Model(): Term
      reads this, screen, screen.ring
      requires screen.HasHistory()
    {
      Term(screen.Model(), modes)
    }

    constructor (screen: TextScreen, modes: Modes)
      requires screen.Ok()
      ensures this.screen == screen && Ok() && Model() == Term(screen.Model(), modes)
    {
      this.screen, this.modes := screen, modes;
    }

    method OnPrint(ambiguous: bool, cp: nat)
      requires Ok()
      modifies screen, screen.ring
      ensures Ok() && Model() == Handle(old(Model()), ambiguous, Call.Print(cp))
    {
      ghost var s := screen.Model();
      RunOne(s, ambiguous, OPrint(cp));
      hide Run, Valid, Screen.Print;
      screen.PrintGlyph(ambiguous, cp);
    }

    method OnExecute(ambiguous: bool, b: byte)
      requires Ok()
      modifies screen, screen.ring
      ensures Ok() && Model() == Handle(old(Model()), ambiguous, Execute(b))
    {
      ObeyedIsRun(screen.Model(), ambiguous, ExecuteOrder(b));
      hide Run, Valid, LineFeed, Tab;
      if 10 <= b <= 12 {
        screen.FeedLine();
      } else if b == 13 {
        screen.ReturnCarriage();
      } else if b == 8 {
        screen.StepBack();
      } else if b == 9 {
        screen.ToNextTab();
      }
    }

    /** The cursor saved and restored, a tab stop set. */
    method OnSaving(ambiguous: bool, final: byte)
      requires Ok() && final in {55, 56, 72}
      modifies screen
      ensures Ok() && modes == old(modes)
      ensures screen.Model() == Obeyed(old(screen.Model()), ambiguous, EscOrder([], final))
    {
      hide Valid, RestoreCursor, SaveCursor;
      if final == 55 {
        screen.SaveHere();
      } else if final == 56 {
        screen.RestoreHere();
      } else {
        screen.SetTabHere(true);
      }
    }

    /** The cursor moved a line down or up, with scrolling. */
    method OnIndex(ambiguous: bool, final: byte)
      requires Ok() && final in {68, 77, 69}
      modifies screen, screen.ring
      ensures Ok() && modes == old(modes)
      ensures screen.Model() == Obeyed(old(screen.Model()), ambiguous, EscOrder([], final))
    {
      hide Valid, LineFeed, ReverseIndex, NextLine;
      if final == 68 {
        screen.FeedLine();
      } else if final == 77 {
        screen.IndexReverse();
      } else {
        screen.ToNextLine();
      }
    }

    method OnEsc(ambiguous: bool, intermediates: bytes, final: byte)
      requires Ok()
      modifies screen, screen.ring
      ensures Ok() && Model() == Handle(old(Model()), ambiguous, Esc(intermediates, final))
    {
      ObeyedIsRun(screen.Model(), ambiguous, EscOrder(intermediates, final));
      if intermediates == [40] {
        assert EscOrder(intermediates, final) == Some(OSetCharset(if final == 48 then Graphics else Ascii));
        hide Run, Valid, EscOrder;
        screen.SetCharset(if final == 48 then Graphics else Ascii);
        return;
      }
      hide Run, Valid, Do, Obeyed;
      if intermediates != [] {
        NothingObeyed(screen.Model(), ambiguous);
        return;
      }
      if final in {55, 56, 72} {
        OnSaving(ambiguous, final);
      } else if final in {68, 77, 69} {
        OnIndex(ambiguous, final);
      } else {
        NothingObeyed(screen.Model(), ambiguous);
      }
    }

    /** Cursor movements. */
    method OnMove(ambiguous: bool, params: seq<Param>, final: byte)
      requires Ok() && final in {65, 66, 67, 68, 71, 100, 72, 102}
      modifies screen
      ensures Ok() && modes == old(modes)
      ensures screen.Model() == Obeyed(old(screen.Model()), ambiguous, CsiOrder(old(screen.Model()), params, final))
    {
      hide Valid, MoveTo, MoveLeft, ParamOr;
      var n := CountOf(params, 0);
      match final {
        case 65 => screen.GoTo(screen.cx, screen.cy - n);
        case 66 => screen.GoTo(screen.cx, screen.cy + n);
        case 67 => screen.GoTo(screen.cx + n, screen.cy);
        case 68 => screen.GoLeft(n);
        case 71 => screen.GoTo(n - 1, screen.cy);
        case 100 => screen.GoTo(screen.cx, n - 1);
        case _ => screen.GoTo(CountOf(params, 1) - 1, n - 1);
      }
    }

    /** Erasing. */
    method OnErase(ambiguous: bool, params: seq<Param>, final: byte)
      requires Ok() && final in {74, 75, 88}
      modifies screen
      ensures Ok() && modes == old(modes)
      ensures screen.Model() == Obeyed(old(screen.Model()), ambiguous, CsiOrder(old(screen.Model()), params, final))
    {
      hide Valid, EraseDisplay, EraseLine, EraseChars, ParamOr;
      var n, first := CountOf(params, 0), ParamOr(params, 0, 0);
      match final {
        case 74 => screen.EraseOnDisplay(first);
        case 75 => screen.EraseOnLine(first);
        case _ => screen.EraseSome(n);
      }
    }

    /** Cells inserted and deleted. */
    method OnCells(ambiguous: bool, params: seq<Param>, final: byte)
      requires Ok() && final in {64, 80}
      modifies screen
      ensures Ok() && modes == old(modes)
      ensures screen.Model() == Obeyed(old(screen.Model()), ambiguous, CsiOrder(old(screen.Model()), params, final))
    {
      hide Valid, Insert, Delete, ParamOr;
      if final == 64 {
        screen.InsertSome(CountOf(params, 0));
      } else {
        screen.DeleteSome(CountOf(params, 0));
      }
    }

    /** Lines inserted and deleted. */
    method OnLines(ambiguous: bool, params: seq<Param>, final: byte)
      requires Ok() && final in {76, 77}
      modifies screen
      ensures Ok() && modes == old(modes)
      ensures screen.Model() == Obeyed(old(screen.Model()), ambiguous, CsiOrder(old(screen.Model()), params, final))
    {
      hide Valid, InsertLines, DeleteLines, ParamOr;
      if final == 76 {
        screen.InsertSomeLines(CountOf(params, 0));
      } else {
        screen.DeleteSomeLines(CountOf(params, 0));
      }
    }

    method OnRegion(ambiguous: bool, params: seq<Param>)
      requires Ok()
      modifies screen
      ensures Ok() && modes == old(modes)
      ensures screen.Model() == Obeyed(old(screen.Model()), ambiguous, CsiOrder(old(screen.Model()), params, 114))
    {
      hide Valid, SetRegion, ResetRegion, ParamOr;
      if params == [] {
        screen.ResetScrollRegion();
      } else {
        screen.SetScrollRegion(CountOf(params, 0) - 1, ParamOr(params, 1, screen.rows) - 1);
      }
    }

    method OnTabs(ambiguous: bool, params: seq<Param>)
      requires Ok()
      modifies screen
      ensures Ok() && modes == old(modes)
      ensures screen.Model() == Obeyed(old(screen.Model()), ambiguous, CsiOrder(old(screen.Model()), params, 103))
    {
      hide Valid, ParamOr;
      if ParamOr(params, 0, 0) == 0 {
        screen.SetTabHere(false);
      } else if ParamOr(params, 0, 0) == 3 {
        screen.ClearTabs();
      }
    }

    method OnSgr(ambiguous: bool, params: seq<Param>)
      requires Ok()
      modifies screen
      ensures Ok() && modes == old(modes)
      ensures screen.Model() == Obeyed(old(screen.Model()), ambiguous, CsiOrder(old(screen.Model()), params, 109))
    {
      hide Valid, Apply;
      var pen := ApplySgr(params, screen.pen);
      screen.SetPen(pen);
    }

    /** The screen follows the modes. */
    method Sync(ambiguous: bool)
      requires Ok()
      modifies screen
      ensures Ok() && modes == old(modes)
      ensures screen.Model() == Run(old(screen.Model()), ambiguous, SyncOrders(old(screen.alt), modes))
    {
      SyncIsRun(screen.Model(), ambiguous, modes);
      hide Run, Valid, EnterAlt, LeaveAlt;
      screen.SetAutowrap(modes.autowrap);
      if modes.altScreen && !screen.alt {
        screen.EnterAlternate();
      } else if !modes.altScreen && screen.alt {
        screen.LeaveAlternate();
      }
    }

    /** A question is answered elsewhere and has no other effect; modes come next; any other marked
        sequence is ignored. */
    method OnCsi(ambiguous: bool, params: seq<Param>, intermediates: bytes, final: byte)
      requires Ok()
      modifies this, screen
      ensures Ok() && Model() == Handle(old(Model()), ambiguous, Csi(params, intermediates, final))
    {
      NothingIsRun(screen.Model(), ambiguous);
      ObeyedIsRun(screen.Model(), ambiguous, CsiOrder(screen.Model(), params, final));
      hide Run, Valid, IsQuestion, CsiOrder, Obeyed;
      if IsQuestion(params, intermediates, final) {
        return;
      }
      if intermediates == [63] {
        if final == 104 || final == 108 {
          var m := modes;
          for i := 0 to |params|
            invariant SetModes(m, params[i..], final == 104) == SetModes(modes, params, final == 104)
          {
            assert params[i..][1..] == params[i + 1..];
            m := SetMode(m, params[i].value, final == 104);
          }
          modes := m;
          Sync(ambiguous);
        }
        return;
      }
      if intermediates != [] {
        return;
      }
      if final in {65, 66, 67, 68, 71, 100, 72, 102} {
        OnMove(ambiguous, params, final);
      } else if final in {74, 75, 88} {
        OnErase(ambiguous, params, final);
      } else if final in {64, 80} {
        OnCells(ambiguous, params, final);
      } else if final in {76, 77} {
        OnLines(ambiguous, params, final);
      } else if final == 114 {
        OnRegion(ambiguous, params);
      } else if final == 103 {
        OnTabs(ambiguous, params);
      } else if final == 109 {
        OnSgr(ambiguous, params);
      } else {
        OtherFinals(screen.Model(), ambiguous, params, final);
      }
    }

    /** One call of the parser. Titles and device control strings do not reach the screen. */
    method OnCall(ambiguous: bool, c: Call)
      requires Ok()
      modifies this, screen, screen.ring
      ensures Ok() && Model() == Handle(old(Model()), ambiguous, c)
    {
      NothingIsRun(screen.Model(), ambiguous);
      hide Run, Valid, ExecuteOrder, EscOrder, CsiOrder;
      match c {
        case Print(cp) => OnPrint(ambiguous, cp);
        case Execute(b) => OnExecute(ambiguous, b);
        case Csi(params, intermediates, final) => OnCsi(ambiguous, params, intermediates, final);
        case Esc(intermediates, final) => OnEsc(ambiguous, intermediates, final);
        case _ =>
      }
    }
  }

  lemma NothingObeyed(s: Scr, ambiguous: bool)
    requires Valid(s)
    ensures Obeyed(s, ambiguous, None) == s
  {
  }

  /** Any other final byte is read and ignored. */
  lemma OtherFinals(s: Scr, ambiguous: bool, params: seq<Param>, final: byte)
    requires Valid(s)
    requires final !in {65, 66, 67, 68, 71, 100, 72, 102, 74, 75, 88, 64, 80, 76, 77, 114, 103, 109}
    ensures Obeyed(s, ambiguous, CsiOrder(s, params, final)) == s
  {
  }

  lemma NothingIsRun(s: Scr, ambiguous: bool)
    requires Valid(s)
    ensures Run(s, ambiguous, []) == s
  {
  }

  lemma AutowrapOrder(s: Scr, ambiguous: bool, on: bool)
    requires Valid(s)
    ensures Valid(s.(autowrap := on)) && Do(s, ambiguous, OSetAutowrap(on)) == s.(autowrap := on)
  {
  }

  lemma PageOrders(t: Scr, ambiguous: bool)
    requires Valid(t)
    ensures Do(t, ambiguous, OEnterAlt) == EnterAlt(t) && Do(t, ambiguous, OLeaveAlt) == LeaveAlt(t)
  {
    hide Valid, EnterAlt, LeaveAlt;
  }

  lemma SyncIsRun(s: Scr, ambiguous: bool, m: Modes)
    requires Valid(s)
    ensures var t := s.(autowrap := m.autowrap);
      Valid(t) && Run(s, ambiguous, SyncOrders(s.alt, m)) ==
        if m.altScreen && !s.alt then EnterAlt(t) else if !m.altScreen && s.alt then LeaveAlt(t) else t
  {
    var t := s.(autowrap := m.autowrap);
    AutowrapOrder(s, ambiguous, m.autowrap);
    PageOrders(t, ambiguous);
    hide Valid, EnterAlt, LeaveAlt, Do;
    var os := SyncOrders(s.alt, m);
    var rest := os[1..];
    assert Run(s, ambiguous, os) == Run(t, ambiguous, rest);
    hide Run;
    NothingIsRun(t, ambiguous);
    if |rest| == 1 {
      assert rest == [rest[0]];
      RunOne(t, ambiguous, rest[0]);
    }
  }
}
