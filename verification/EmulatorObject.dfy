// The emulator as connected objects: bytes into the parser, its calls to the terminal, the
// terminal's orders to the screen (apps/terminal.cpp).

module EmulatorObject {
  import opened Bytes
  import opened VtParser
  import opened VtParserObject
  import opened Screen
  import opened Scrollback
  import opened ScreenObject
  import ScreenOrders
  import opened Terminal
  import opened TerminalObject

  class Guest {
    const parser: Parser
    const tty: Tty

    /** The terminal and its screen are in order; the parser always is. */
    ghost predicate Ok()
      reads this, tty, tty.screen, tty.screen.ring
    {
      tty.Ok()
    }

    ghost function Model(): Emulator
      reads this, parser, tty, tty.screen, tty.screen.ring
      requires tty.screen.HasHistory()
    {
      Emulator(parser.Model(), tty.Model())
    }

    constructor (parser: Parser, tty: Tty)
      ensures this.parser == parser && this.tty == tty
    {
      this.parser, this.tty := parser, tty;
    }

    /** One read from the guest: the screen is what the specification makes of the bytes. */
    method Read(ambiguous: bool, s: bytes)
      requires Ok()
      modifies parser, parser.sink, tty, tty.screen, tty.screen.ring
      ensures Ok() && Model() == Receive(old(Model()), ambiguous, s)
    {
      hide Valid, Feed, Handle, HandleAll;
      ghost var before, cs := tty.Model(), Feed(parser.Model(), s).1;
      var told := |parser.sink.calls|;
      parser.FeedBytes(s);
      var calls := parser.sink.calls[told..];
      assert calls == cs;
      assert calls[0..] == calls;
      for i := 0 to |calls|
        invariant Ok() && parser.Model() == old(Receive(Model(), ambiguous, s)).parser
        invariant HandleAll(tty.Model(), ambiguous, calls[i..]) == HandleAll(before, ambiguous, calls)
      {
        HandleAllStep(tty.Model(), ambiguous, calls[i..]);
        assert calls[i..][1..] == calls[i + 1..];
        tty.OnCall(ambiguous, calls[i]);
      }
      assert calls[|calls|..] == [];
      HandleNothing(tty.Model(), ambiguous);
    }
  }

  lemma HandleAllStep(t: Term, ambiguous: bool, cs: seq<Call>)
    requires Valid(t.screen) && cs != []
    ensures Valid(Handle(t, ambiguous, cs[0]).screen)
    ensures HandleAll(t, ambiguous, cs) == HandleAll(Handle(t, ambiguous, cs[0]), ambiguous, cs[1..])
  {
    hide Valid, CallOrders;
    ScreenOrders.RunKeepsBounds(t.screen, ambiguous, CallOrders(t, cs[0]));
  }

  lemma HandleNothing(t: Term, ambiguous: bool)
    requires Valid(t.screen)
    ensures HandleAll(t, ambiguous, []) == t
  {
  }
}
