// What holds of the parser on any byte stream whatever (vt/parser.cpp).

module VtTraces {
  import opened Bytes
  import opened Cells
  import opened Utf8
  import opened VtParser
  import opened VtParserProofs

  // ---- Limits.

  predicate GoodParams(ps: seq<Param>) {
    |ps| <= MAX_PARAMS && forall i :: 0 <= i < |ps| ==> -1 <= ps[i].value <= MAX_PARAM_VALUE
  }

  /** A UTF-8 sequence is only ever open in the ground state. */
  predicate Bounded(p: Machine) {
    && GoodParams(p.params) && |p.intermediates| <= MAX_INTERMEDIATES && |p.osc| <= MAX_OSC
    && (p.need > 0 ==> p.state.Ground? && p.seen < p.need <= 3)
    && (p.need == 0 ==> p.seen == p.acc == p.min == 0)
  }

  /** What the sink may be told: only scalars are printed, and every list is within its limit. */
  predicate GoodCall(c: Call) {
    match c
    case Print(cp) => IsScalar(cp)
    case Csi(ps, inter, final) => GoodParams(ps) && |inter| <= MAX_INTERMEDIATES && IsFinal(final)
    case Esc(inter, _) => |inter| <= MAX_INTERMEDIATES
    case Osc(data) => |data| <= MAX_OSC
    case DcsStart(ps, inter, final) => GoodParams(ps) && |inter| <= MAX_INTERMEDIATES && IsFinal(final)
    case _ => true
  }

  predicate GoodResult(r: Result) {
    Bounded(r.0) && forall i :: 0 <= i < |r.1| ==> GoodCall(r.1[i])
  }

  lemma DigitIsBounded(p: Machine, b: byte)
    requires Bounded(p) && IsDigit(b)
    ensures Bounded(PushDigit(p, b))
  {
    var ps := if p.params == [] then [Param(-1, false)] else p.params;
    assert -1 <= ps[|ps| - 1].value <= MAX_PARAM_VALUE;
    assert AddDigit(ps[|ps| - 1].value, b - 48) <= MAX_PARAM_VALUE;
  }

  lemma SeparatorIsBounded(p: Machine, b: byte)
    requires Bounded(p)
    ensures Bounded(Separate(p, b))
  {
  }

  lemma FreshIsBounded(p: Machine, b: byte)
    requires Bounded(p) && p.need == 0 && p.state.Ground?
    ensures GoodResult(Fresh(p, b))
    ensures b == ESC ==> Fresh(p, b).1 == []
  {
  }

  lemma GroundIsBounded(p: Machine, b: byte)
    requires Bounded(p) && p.state.Ground?
    ensures GoodResult(StateByte(p, b))
  {
    FreshIsBounded(Flush(p).0, b);
    hide Fresh, GoodParams;
  }

  lemma EscapeIsBounded(p: Machine, b: byte)
    requires Bounded(p) && (p.state.Escape? || p.state.EscapeIntermediate?) && b != ESC && !IsCancel(b)
    ensures GoodResult(StateByte(p, b))
  {
  }

  lemma CsiIsBounded(p: Machine, b: byte)
    requires Bounded(p) && b != ESC && !IsCancel(b)
    requires p.state.CsiEntry? || p.state.CsiParam? || p.state.CsiIntermediate? || p.state.CsiIgnore?
    ensures GoodResult(StateByte(p, b))
  {
    if IsDigit(b) {
      DigitIsBounded(p, b);
    }
    SeparatorIsBounded(p, b);
    hide GoodParams, PushDigit, Separate;
    PushedFields(p, b);
  }

  lemma DcsIsBounded(p: Machine, b: byte)
    requires Bounded(p) && b != ESC && !IsCancel(b)
    requires p.state.DcsEntry? || p.state.DcsParam? || p.state.DcsIntermediate?
    ensures GoodResult(StateByte(p, b))
  {
    if IsDigit(b) {
      DigitIsBounded(p, b);
    }
    SeparatorIsBounded(p, b);
    hide GoodParams, PushDigit, Separate;
    PushedFields(p, b);
  }

  lemma PushedFields(p: Machine, b: byte)
    ensures Separate(p, b) == p.(params := Separate(p, b).params)
    ensures IsDigit(b) ==> PushDigit(p, b) == p.(params := PushDigit(p, b).params)
  {
  }

  lemma StepIsBounded(p: Machine, b: byte)
    requires Bounded(p)
    ensures GoodResult(Step(p, b))
  {
    if p.state.Ground? {
      GroundIsBounded(p, b);
    } else if b == ESC || IsCancel(b) {
    } else if p.state.Escape? || p.state.EscapeIntermediate? {
      EscapeIsBounded(p, b);
    } else if p.state.CsiEntry? || p.state.CsiParam? || p.state.CsiIntermediate? || p.state.CsiIgnore? {
      CsiIsBounded(p, b);
    } else if p.state.DcsEntry? || p.state.DcsParam? || p.state.DcsIntermediate? {
      DcsIsBounded(p, b);
    }
  }

  /** No byte stream makes the parser keep, or report, more than its limits allow. */
  lemma {:induction false} FeedIsBounded(p: Machine, s: bytes)
    requires Bounded(p)
    ensures GoodResult(Feed(p, s))
    decreases |s|
  {
    if s != [] {
      StepIsBounded(p, s[0]);
      FeedIsBounded(Step(p, s[0]).0, s[1..]);
      hide Step, Bounded, GoodCall;
    }
  }

  // ---- Device control strings are bracketed.

  /** Reads the calls with a DCS open or not: None if one is out of place, else whether one is open. */
  function Brackets(open: bool, cs: seq<Call>): Option<bool>
    decreases |cs|
  {
    if cs == [] then Some(open)
    else if cs[0].DcsStart? then (if open then None else Brackets(true, cs[1..]))
    else if cs[0].DcsData? then (if open then Brackets(true, cs[1..]) else None)
    else if cs[0].DcsEnd? then (if open then Brackets(false, cs[1..]) else None)
    else if open then None
    else Brackets(false, cs[1..])
  }

  lemma {:induction false} BracketsConcat(open: bool, cs: seq<Call>, ds: seq<Call>)
    requires Brackets(open, cs).Some?
    ensures Brackets(open, cs + ds) == Brackets(Brackets(open, cs).value, ds)
    decreases |cs|
  {
    if cs == [] {
      assert cs + ds == ds;
    } else {
      assert (cs + ds)[1..] == cs[1..] + ds;
      BracketsConcat(cs[0].DcsStart? || cs[0].DcsData?, cs[1..], ds);
    }
  }

  lemma StepIsBracketed(p: Machine, b: byte)
    requires Bounded(p)
    ensures Brackets(p.state.DcsPassthrough?, Step(p, b).1) == Some(Step(p, b).0.state.DcsPassthrough?)
  {
    hide PushDigit, Separate, GoodParams, Brackets;
    var (q, cs) := Step(p, b);
    ShortTraces(cs);
    if p.state.Ground? {
      GroundStays(p, b);
      hide StateByte;
    } else {
      PushedFields(p, b);
      hide GroundByte;
    }
  }

  /** The ground state leads to itself or to an escape, and prints or executes. */
  lemma GroundStays(p: Machine, b: byte)
    requires Bounded(p) && p.state.Ground?
    ensures var (q, cs) := StateByte(p, b);
      && (q.state.Ground? || q.state.Escape?) && |cs| <= 2
      && (|cs| == 1 ==> cs[0].Print? || cs[0].Execute?)
      && (|cs| == 2 ==> cs[0].Print? && (cs[1].Print? || cs[1].Execute?))
  {
  }

  /** All that one byte can cause: nothing, one call, a replacement character before a call, or the
      end of a DCS before a control character. */
  lemma ShortTraces(cs: seq<Call>)
    ensures cs == [] ==> forall open :: Brackets(open, cs) == Some(open)
    ensures |cs| == 1 && !cs[0].DcsStart? && !cs[0].DcsData? && !cs[0].DcsEnd? ==> Brackets(false, cs) == Some(false)
    ensures |cs| == 1 && cs[0].DcsStart? ==> Brackets(false, cs) == Some(true)
    ensures |cs| == 1 && cs[0].DcsData? ==> Brackets(true, cs) == Some(true)
    ensures |cs| == 1 && cs[0].DcsEnd? ==> Brackets(true, cs) == Some(false)
    ensures |cs| == 2 && cs[0].DcsEnd? && cs[1].Execute? ==> Brackets(true, cs) == Some(false)
    ensures |cs| == 2 && cs[0].Print? && (cs[1].Print? || cs[1].Execute?) ==> Brackets(false, cs) == Some(false)
  {
  }

  /** Over any stream, DCS data and ends lie inside a DCS that was started, nothing else does, and
      one is open at the end exactly if the parser is still passing its data through. */
  lemma {:induction false} FeedIsBracketed(p: Machine, s: bytes)
    requires Bounded(p)
    ensures Brackets(p.state.DcsPassthrough?, Feed(p, s).1) == Some(Feed(p, s).0.state.DcsPassthrough?)
    decreases |s|
  {
    if s != [] {
      StepIsBounded(p, s[0]);
      StepIsBracketed(p, s[0]);
      hide Step, Bounded, Brackets;
      var (q, cs) := Step(p, s[0]);
      FeedIsBracketed(q, s[1..]);
      BracketsConcat(p.state.DcsPassthrough?, cs, Feed(q, s[1..]).1);
    } else {
      assert Brackets(p.state.DcsPassthrough?, []) == Some(p.state.DcsPassthrough?);
    }
  }

  // ---- CAN and SUB.

  /** The same parser, but for what the last sequence left behind in the ground state. */
  predicate Alike(p: Machine, q: Machine) {
    p == q
    || (p.state.Ground? && q == p.(params := q.params, intermediates := q.intermediates, osc := q.osc))
  }

  lemma StepAlike(p: Machine, q: Machine, b: byte)
    requires Alike(p, q)
    ensures Alike(Step(p, b).0, Step(q, b).0) && Step(p, b).1 == Step(q, b).1
  {
    if p.state.Ground? {
      hide PushDigit, Separate;
    }
  }

  lemma {:induction false} FeedAlike(p: Machine, q: Machine, s: bytes)
    requires Alike(p, q)
    ensures Alike(Feed(p, s).0, Feed(q, s).0) && Feed(p, s).1 == Feed(q, s).1
    decreases |s|
  {
    if s != [] {
      StepAlike(p, q, s[0]);
      hide Step, Alike;
      FeedAlike(Step(p, s[0]).0, Step(q, s[0]).0, s[1..]);
    }
  }

  /** After CAN or SUB, whatever came before, the parser behaves as a fresh one. */
  lemma CancelResets(p: Machine, b: byte, s: bytes)
    requires Bounded(p) && IsCancel(b)
    ensures Feed(Step(p, b).0, s).1 == Feed(INITIAL, s).1
  {
    FeedAlike(INITIAL, Step(p, b).0, s);
  }

  // ---- Text.

  function Printed(cps: seq<nat>): seq<Call> {
    seq(|cps|, i requires 0 <= i < |cps| => Call.Print(Shown(cps[i])))
  }

  function EncodedText(cps: seq<nat>): bytes {
    if cps == [] then [] else EncodeUtf8(cps[0]) + EncodedText(cps[1..])
  }

  /** Printable text is printed back, code point by code point. */
  lemma {:induction false} TextIsPrinted(p: Machine, cps: seq<nat>)
    requires Idle(p) && forall i :: 0 <= i < |cps| ==> cps[i] >= 0x20 && cps[i] != 0x7F
    ensures Idle(Feed(p, EncodedText(cps)).0) && Feed(p, EncodedText(cps)).1 == Printed(cps)
    decreases |cps|
  {
    if cps != [] {
      ParseGlyph(p, cps[0]);
      hide Idle, Step, EncodeUtf8, Shown;
      var q := Feed(p, EncodeUtf8(cps[0])).0;
      FeedConcat(p, EncodeUtf8(cps[0]), EncodedText(cps[1..]));
      TextIsPrinted(q, cps[1..]);
      assert Printed(cps) == [Call.Print(Shown(cps[0]))] + Printed(cps[1..]);
    }
  }

  function Joined(pieces: seq<bytes>): bytes {
    if pieces == [] then [] else pieces[0] + Joined(pieces[1..])
  }

  function FeedAll(p: Machine, pieces: seq<bytes>): Result
    decreases |pieces|
  {
    if pieces == [] then (p, [])
    else
      var (q, cs) := Feed(p, pieces[0]);
      var (r, ds) := FeedAll(q, pieces[1..]);
      (r, cs + ds)
  }

  /** How the stream is cut into reads does not matter. */
  lemma {:induction false} CutsDoNotMatter(p: Machine, pieces: seq<bytes>)
    ensures FeedAll(p, pieces) == Feed(p, Joined(pieces))
    decreases |pieces|
  {
    if pieces != [] {
      hide Step;
      FeedConcat(p, pieces[0], Joined(pieces[1..]));
      CutsDoNotMatter(Feed(p, pieces[0]).0, pieces[1..]);
    }
  }
}
