// What a guest writes reaches the sink as it was written: parameter lists of every kind, escape
// sequences and strings (vt/parser.cpp).

module VtStrings {
  import opened Bytes
  import opened VtParser
  import opened VtParserProofs

  // ---- Parameter lists, with omitted values and sub-parameters.

  function Number(v: int): bytes { if v < 0 then [] else Dec(v) }

  /** The parameters as they are written: each but the first after `;`, or `:` if it is a
      sub-parameter; an omitted value is written with no digit. */
  function Params(ps: seq<Param>): bytes {
    if ps == [] then []
    else if |ps| == 1 then Number(ps[0].value)
    else Number(ps[0].value) + ([if ps[1].sub then 58 else 59] + Params(ps[1..]))
  }

  /** What can be written: the first is no sub-parameter, and one alone has a value. */
  predicate Writable(ps: seq<Param>) {
    && |ps| <= MAX_PARAMS && (forall i :: 0 <= i < |ps| ==> -1 <= ps[i].value <= MAX_PARAM_VALUE)
    && (ps != [] ==> !ps[0].sub) && (|ps| == 1 ==> ps[0].value >= 0)
  }

  /** A parameter is open and has no digit yet. */
  predicate Opened(p: Machine, sub: bool) {
    p.state.CsiParam? && p.params != [] && p.params[|p.params| - 1] == Param(-1, sub)
  }

  lemma NumberRead(p: Machine, v: int, sub: bool)
    requires Opened(p, sub) && -1 <= v <= MAX_PARAM_VALUE
    ensures Feed(p, Number(v)) == (p.(params := Before(p.params) + [Param(v, sub)]), [])
  {
    var last := p.params[|p.params| - 1];
    assert Before(p.params) + [last] == p.params;
    if v < 0 {
      assert v == -1;
    } else {
      FeedNumber(p, v);
      assert WithLast(p.params, v) == Before(p.params) + [Param(v, sub)];
    }
  }

  lemma SeparatorRead(p: Machine, sub: bool, s: bytes)
    requires p.state.CsiParam? && p.params != [] && |p.params| < MAX_PARAMS
    ensures Feed(p, [if sub then 58 else 59] + s) == Feed(p.(params := p.params + [Param(-1, sub)]), s)
  {
    var b: byte := if sub then 58 else 59;
    FeedThen(p, b, s);
    var q := p.(params := p.params + [Param(-1, sub)]);
    assert Step(p, b) == (q, []);
    assert [] + Feed(q, s).1 == Feed(q, s).1;
  }

  /** The machine reads a, and then nothing is told; then it reads b. */
  lemma Silently(p: Machine, a: bytes, q: Machine, b: bytes)
    requires Feed(p, a) == (q, [])
    ensures Feed(p, a + b) == Feed(q, b)
  {
    hide Feed;
    FeedConcat(p, a, b);
    assert [] + Feed(q, b).1 == Feed(q, b).1;
  }

  lemma {:induction false} ParamsRead(p: Machine, ps: seq<Param>)
    requires ps != [] && Opened(p, ps[0].sub) && |Before(p.params)| + |ps| <= MAX_PARAMS
    requires forall i :: 0 <= i < |ps| ==> -1 <= ps[i].value <= MAX_PARAM_VALUE
    ensures Feed(p, Params(ps)) == (p.(params := Before(p.params) + ps), [])
    decreases |ps|
  {
    hide Feed, Number;
    NumberRead(p, ps[0].value, ps[0].sub);
    var q := p.(params := Before(p.params) + [ps[0]]);
    assert q == p.(params := Before(p.params) + [Param(ps[0].value, ps[0].sub)]);
    if |ps| == 1 {
      assert [ps[0]] == ps;
    } else {
      var sep, rest: bytes := [if ps[1].sub then 58 else 59], Params(ps[1..]);
      Silently(p, Number(ps[0].value), q, sep + rest);
      SeparatorRead(q, ps[1].sub, rest);
      var r := q.(params := q.params + [Param(-1, ps[1].sub)]);
      assert Before(r.params) == q.params;
      ParamsRead(r, ps[1..]);
      assert q.params + ps[1..] == Before(p.params) + ps;
    }
  }

  /** Just after `ESC [`, or after the marker that may follow it. */
  predicate Fresh(p: Machine) {
    (p.state.CsiEntry? || p.state.CsiParam?) && p.params == []
  }

  lemma FirstNumberRead(p: Machine, v: nat)
    requires Fresh(p) && v <= MAX_PARAM_VALUE
    ensures Feed(p, Number(v)) == (p.(state := CsiParam, params := [Param(v, false)]), [])
  {
    FeedNumber(p, v);
  }

  lemma FirstSeparatorRead(p: Machine, sub: bool, s: bytes)
    requires Fresh(p)
    ensures Feed(p, [if sub then 58 else 59] + s)
         == Feed(p.(state := CsiParam, params := [Param(-1, false), Param(-1, sub)]), s)
  {
    var b: byte := if sub then 58 else 59;
    FeedThen(p, b, s);
    var q := p.(state := CsiParam, params := [Param(-1, false), Param(-1, sub)]);
    assert [Param(-1, false)] + [Param(-1, sub)] == q.params;
    assert Step(p, b) == (q, []);
    assert [] + Feed(q, s).1 == Feed(q, s).1;
  }

  /** Any writable list is read as it is. */
  lemma ListRead(p: Machine, ps: seq<Param>)
    requires Fresh(p) && Writable(ps)
    ensures Feed(p, Params(ps)) == (p.(state := if ps == [] then p.state else CsiParam, params := ps), [])
  {
    hide Feed, Number;
    if ps == [] {
      FeedNothing(p);
    } else if |ps| == 1 {
      FirstNumberRead(p, ps[0].value);
      assert [Param(ps[0].value, false)] == ps;
    } else {
      var sep, rest: bytes := [if ps[1].sub then 58 else 59], Params(ps[1..]);
      var r := p.(state := CsiParam, params := [ps[0], Param(-1, ps[1].sub)]);
      if ps[0].value >= 0 {
        var q := p.(state := CsiParam, params := [ps[0]]);
        FirstNumberRead(p, ps[0].value);
        assert [Param(ps[0].value, false)] == [ps[0]];
        Silently(p, Number(ps[0].value), q, sep + rest);
        SeparatorRead(q, ps[1].sub, rest);
        assert r == q.(params := q.params + [Param(-1, ps[1].sub)]);
      } else {
        assert Number(ps[0].value) + (sep + rest) == sep + rest by { NoNumber(ps[0].value); }
        FirstSeparatorRead(p, ps[1].sub, rest);
        assert ps[0] == Param(-1, false);
      }
      assert Before(r.params) == [ps[0]];
      ParamsRead(r, ps[1..]);
      assert [ps[0]] + ps[1..] == ps;
    }
  }

  lemma NoNumber(v: int)
    requires v < 0
    ensures Number(v) == []
  {
  }

  lemma FeedNothing(p: Machine)
    ensures Feed(p, []) == (p, [])
  {
  }

  // ---- Control sequences.

  predicate AllIntermediate(s: bytes) { forall b :: b in s ==> IsIntermediate(b) }

  predicate InCsi(p: Machine) { p.state.CsiEntry? || p.state.CsiParam? || p.state.CsiIntermediate? }

  lemma {:induction false} IntermediatesRead(p: Machine, s: bytes)
    requires InCsi(p) && AllIntermediate(s) && |p.intermediates| + |s| <= MAX_INTERMEDIATES
    ensures Feed(p, s)
         == (p.(state := if s == [] then p.state else CsiIntermediate, intermediates := p.intermediates + s), [])
    decreases |s|
  {
    if s == [] {
      assert p.intermediates + s == p.intermediates;
    } else {
      var q := p.(state := CsiIntermediate, intermediates := p.intermediates + [s[0]]);
      assert s[0] in s && forall b :: b in s[1..] ==> b in s;
      assert Step(p, s[0]) == (q, []);
      assert s == [s[0]] + s[1..];
      FeedThen(p, s[0], s[1..]);
      hide Step;
      IntermediatesRead(q, s[1..]);
      NoCalls();
      assert p.intermediates + [s[0]] + s[1..] == p.intermediates + s;
    }
  }

  lemma FinalRead(p: Machine, f: byte)
    requires InCsi(p) && IsFinal(f)
    ensures Feed(p, [f]) == (p.(state := Ground), [Csi(p.params, p.intermediates, f)])
  {
    FeedOne(p, f);
  }

  /** A control sequence: perhaps a marker, parameters, intermediates, a final byte. */
  function Control(marker: bytes, ps: seq<Param>, intermediates: bytes, f: byte): bytes {
    [ESC, 91] + (marker + (Params(ps) + (intermediates + [f])))
  }

  lemma MarkerRead(p: Machine, marker: bytes)
    requires p.state.CsiEntry? && p.params == [] && p.intermediates == []
    requires |marker| <= 1 && forall b :: b in marker ==> IsPrivate(b)
    ensures Feed(p, marker) == (p.(state := if marker == [] then CsiEntry else CsiParam, intermediates := marker), [])
  {
    if marker != [] {
      assert marker[0] in marker && p.intermediates + [marker[0]] == marker;
      FeedOne(p, marker[0]);
    }
  }

  /** Every control sequence of at most 32 parameters, written in any way, is told to the sink once, as
      it was written: omitted values, sub-parameters, marker and intermediates. */
  lemma ControlIsRead(p: Machine, marker: bytes, ps: seq<Param>, intermediates: bytes, f: byte)
    requires Idle(p) && Writable(ps) && IsFinal(f) && |marker| <= 1 && AllIntermediate(intermediates)
    requires (forall b :: b in marker ==> IsPrivate(b)) && |marker| + |intermediates| <= MAX_INTERMEDIATES
    ensures var (q, calls) := Feed(p, Control(marker, ps, intermediates, f));
      Idle(q) && calls == [Csi(ps, marker + intermediates, f)]
  {
    hide Feed, Params, Step;
    var q0 := Clear(p).(state := CsiEntry);
    EnterCsi(p, marker + (Params(ps) + (intermediates + [f])));
    MarkerRead(q0, marker);
    var q1 := q0.(state := if marker == [] then CsiEntry else CsiParam, intermediates := marker);
    Silently(q0, marker, q1, Params(ps) + (intermediates + [f]));
    ListRead(q1, ps);
    var q2 := q1.(state := if ps == [] then q1.state else CsiParam, params := ps);
    Silently(q1, Params(ps), q2, intermediates + [f]);
    IntermediatesRead(q2, intermediates);
    var q3 := q2.(state := if intermediates == [] then q2.state else CsiIntermediate,
                  intermediates := q2.intermediates + intermediates);
    Silently(q2, intermediates, q3, [f]);
    FinalRead(q3, f);
  }

  // ---- Escape sequences.

  /** The bytes that open something longer after ESC: CSI, OSC, DCS, SOS, PM and APC. */
  predicate Opens(b: byte) { b in {91, 93, 80, 88, 94, 95} }

  lemma {:induction false} EscIntermediatesRead(p: Machine, s: bytes)
    requires (p.state.Escape? || p.state.EscapeIntermediate?) && AllIntermediate(s)
    requires |p.intermediates| + |s| <= MAX_INTERMEDIATES
    ensures Feed(p, s)
         == (p.(state := if s == [] then p.state else EscapeIntermediate, intermediates := p.intermediates + s), [])
    decreases |s|
  {
    if s == [] {
      assert p.intermediates + s == p.intermediates;
    } else {
      var q := p.(state := EscapeIntermediate, intermediates := p.intermediates + [s[0]]);
      assert s[0] in s && forall b :: b in s[1..] ==> b in s;
      assert Step(p, s[0]) == (q, []);
      assert s == [s[0]] + s[1..];
      FeedThen(p, s[0], s[1..]);
      hide Step;
      EscIntermediatesRead(q, s[1..]);
      NoCalls();
      assert p.intermediates + [s[0]] + s[1..] == p.intermediates + s;
    }
  }

  /** An escape sequence is told once, with its intermediates, and resets what came before. */
  lemma EscapeIsRead(p: Machine, intermediates: bytes, f: byte)
    requires Idle(p) && AllIntermediate(intermediates) && |intermediates| <= MAX_INTERMEDIATES
    requires 0x30 <= f <= 0x7E && (intermediates == [] ==> !Opens(f))
    ensures var (q, calls) := Feed(p, [ESC] + (intermediates + [f]));
      Idle(q) && calls == [Esc(intermediates, f)]
  {
    var q0 := Clear(p).(state := Escape);
    EscapeEntered(p, intermediates + [f]);
    EscIntermediatesRead(q0, intermediates);
    assert q0.intermediates + intermediates == intermediates;
    var q1 := q0.(state := if intermediates == [] then Escape else EscapeIntermediate, intermediates := intermediates);
    Silently(q0, intermediates, q1, [f]);
    FeedOne(q1, f);
  }

  lemma NoCalls()
    ensures var none: seq<Call> := []; none + none == none
  {
  }

  lemma EscapeEntered(p: Machine, s: bytes)
    requires Idle(p)
    ensures Feed(p, [ESC] + s) == Feed(Clear(p).(state := Escape), s)
  {
    var q := Clear(p).(state := Escape);
    FeedThen(p, ESC, s);
    assert Step(p, ESC) == (q, []);
    assert [] + Feed(q, s).1 == Feed(q, s).1;
  }

  // ---- Operating system commands.

  /** The string so far, up to the ceiling. */
  function Bounded(s: bytes): bytes { if |s| <= MAX_OSC then s else s[..MAX_OSC] }

  predicate IsText(s: bytes) { forall b :: b in s ==> b >= 0x20 }

  lemma {:induction false} OscTextRead(p: Machine, s: bytes)
    requires p.state.OscString? && IsText(s) && |p.osc| <= MAX_OSC
    ensures Feed(p, s) == (p.(osc := Bounded(p.osc + s)), [])
    decreases |s|
  {
    if s == [] {
      assert p.osc + s == p.osc;
    } else {
      assert s[0] in s && forall b :: b in s[1..] ==> b in s;
      var q := p.(osc := Bounded(p.osc + [s[0]]));
      if |p.osc| == MAX_OSC { assert q.osc == p.osc; }
      assert Step(p, s[0]) == (q, []);
      assert s == [s[0]] + s[1..];
      FeedThen(p, s[0], s[1..]);
      hide Step;
      OscTextRead(q, s[1..]);
      NoCalls();
      OscGrows(p.osc, s);
    }
  }

  lemma OscGrows(osc: bytes, s: bytes)
    requires s != [] && |osc| <= MAX_OSC
    ensures Bounded(Bounded(osc + [s[0]]) + s[1..]) == Bounded(osc + s)
  {
    assert osc + [s[0]] + s[1..] == osc + s;
    if |osc| == MAX_OSC {
      assert Bounded(osc + [s[0]]) == osc && (osc + s)[..MAX_OSC] == osc && (osc + s[1..])[..MAX_OSC] == osc;
    }
  }

  lemma OscEntered(p: Machine, s: bytes)
    requires Idle(p)
    ensures Feed(p, [ESC, 93] + s) == Feed(Clear(p).(state := OscString), s)
  {
    assert [ESC, 93] + s == [ESC] + ([93] + s);
    EscapeEntered(p, [93] + s);
    var e, q := Clear(p).(state := Escape), Clear(p).(state := OscString);
    FeedThen(e, 93, s);
    assert Step(e, 93) == (q, []);
    assert [] + Feed(q, s).1 == Feed(q, s).1;
  }

  /** A command ended by BEL is told once, cut to 4096 bytes. */
  lemma OscIsRead(p: Machine, text: bytes)
    requires Idle(p) && IsText(text)
    ensures var (q, calls) := Feed(p, [ESC, 93] + (text + [0x07])); Idle(q) && calls == [Osc(Bounded(text))]
  {
    var q0 := Clear(p).(state := OscString);
    OscEntered(p, text + [0x07]);
    OscTextRead(q0, text);
    assert [] + text == text;
    var q1 := q0.(osc := Bounded(text));
    Silently(q0, text, q1, [0x07]);
    FeedOne(q1, 0x07);
  }

  /** Ended by the string terminator it is told the same, before the terminator itself. */
  lemma OscIsReadToSt(p: Machine, text: bytes)
    requires Idle(p) && IsText(text)
    ensures var (q, calls) := Feed(p, [ESC, 93] + (text + [ESC, 92])); Idle(q) && calls == [Osc(Bounded(text)), Esc([], 92)]
  {
    var q0 := Clear(p).(state := OscString);
    OscEntered(p, text + [ESC, 92]);
    OscTextRead(q0, text);
    assert [] + text == text;
    var q1 := q0.(osc := Bounded(text));
    Silently(q0, text, q1, [ESC, 92]);
    TerminatorRead(q1, [Osc(Bounded(text))]);
  }

  lemma TerminatorRead(q: Machine, closing: seq<Call>)
    requires q.need == 0 && !q.state.Ground? && Step(q, ESC) == (Clear(q).(state := Escape), closing)
    ensures var (r, calls) := Feed(q, [ESC, 92]); Idle(r) && calls == closing + [Esc([], 92)]
  {
    var e := Clear(q).(state := Escape);
    assert [ESC, 92] == [ESC] + [92];
    FeedThen(q, ESC, [92]);
    FeedOne(e, 92);
  }

  // ---- Device control strings.

  predicate IsData(s: bytes) { forall b :: b in s ==> b != ESC && !IsCancel(b) && b != 0x7F }

  function DataCalls(s: bytes): seq<Call> { seq(|s|, i requires 0 <= i < |s| => DcsData(s[i])) }

  lemma DataCallsMore(s: bytes)
    requires s != []
    ensures DataCalls(s) == [DcsData(s[0])] + DataCalls(s[1..])
  {
  }

  lemma {:induction false} DataRead(p: Machine, s: bytes)
    requires p.state.DcsPassthrough? && IsData(s)
    ensures Feed(p, s) == (p, DataCalls(s))
    decreases |s|
  {
    if s == [] {
      assert DataCalls(s) == [];
    } else {
      assert s[0] in s && forall b :: b in s[1..] ==> b in s;
      assert Step(p, s[0]) == (p, [DcsData(s[0])]);
      assert s == [s[0]] + s[1..];
      FeedThen(p, s[0], s[1..]);
      hide Step;
      DataRead(p, s[1..]);
      DataCallsMore(s);
    }
  }

  lemma DcsEntered(p: Machine, f: byte, s: bytes)
    requires Idle(p) && IsFinal(f)
    ensures var q := Clear(p).(state := DcsPassthrough);
      Feed(p, [ESC, 80, f] + s) == (Feed(q, s).0, [DcsStart([], [], f)] + Feed(q, s).1)
  {
    assert [ESC, 80, f] + s == [ESC] + ([80] + ([f] + s));
    EscapeEntered(p, [80] + ([f] + s));
    var e, d := Clear(p).(state := Escape), Clear(p).(state := DcsEntry);
    FeedOne(e, 80);
    assert Step(e, 80) == (d, []);
    Silently(e, [80], d, [f] + s);
    DcsOpened(d, f);
    hide Step, Feed;
    FeedThen(d, f, s);
  }

  lemma DcsOpened(d: Machine, f: byte)
    requires d.state.DcsEntry? && d.params == [] && d.intermediates == [] && IsFinal(f)
    ensures Step(d, f) == (d.(state := DcsPassthrough), [DcsStart([], [], f)])
  {
  }

  /** A device control string: its opening, its data byte by byte, its end. */
  lemma DcsIsRead(p: Machine, f: byte, data: bytes)
    requires Idle(p) && IsFinal(f) && IsData(data)
    ensures var (q, calls) := Feed(p, [ESC, 80, f] + (data + [ESC, 92]));
      Idle(q) && calls == [DcsStart([], [], f)] + DataCalls(data) + [DcsEnd, Esc([], 92)]
  {
    var q := Clear(p).(state := DcsPassthrough);
    DcsEntered(p, f, data + [ESC, 92]);
    FeedConcat(q, data, [ESC, 92]);
    DataRead(q, data);
    TerminatorRead(q, [DcsEnd]);
  }

  // ---- What is out of form.

  predicate InsideSequence(p: Machine) { InCsi(p) || p.state.CsiIgnore? || p.state.Escape? || p.state.EscapeIntermediate? }

  /** A control character inside a sequence acts at once, and the sequence goes on; DEL is nothing. */
  lemma ControlsActInside(p: Machine, b: byte)
    requires InsideSequence(p) && (IsC0(b) || b == 0x7F)
    ensures Feed(p, [b]) == (p, if b == 0x7F then [] else [Execute(b)])
  {
    FeedOne(p, b);
  }

  /** A marker after a parameter, a digit after an intermediate, or one intermediate too many spoils the
      sequence. */
  lemma Spoils(p: Machine, b: byte)
    requires (p.state.CsiParam? && IsPrivate(b)) || (p.state.CsiIntermediate? && 0x30 <= b <= 0x3F)
      || (InCsi(p) && IsIntermediate(b) && |p.intermediates| == MAX_INTERMEDIATES)
    ensures Feed(p, [b]) == (p.(state := CsiIgnore), [])
  {
    FeedOne(p, b);
  }

  /** A spoilt sequence is read to its final byte and told to nobody. */
  lemma {:induction false} SpoiltIsSilent(p: Machine, s: bytes, f: byte)
    requires p.state.CsiIgnore? && IsFinal(f) && forall b :: b in s ==> 0x20 <= b < 0x40
    ensures Feed(p, s + [f]) == (p.(state := Ground), [])
    decreases |s|
  {
    if s == [] {
      assert s + [f] == [f];
      FeedOne(p, f);
    } else {
      assert s[0] in s && forall b :: b in s[1..] ==> b in s;
      assert Step(p, s[0]) == (p, []);
      assert s + [f] == [s[0]] + (s[1..] + [f]);
      FeedThen(p, s[0], s[1..] + [f]);
      SpoiltIsSilent(p, s[1..], f);
      NoCalls();
    }
  }

  /** The value of decimal digits, up to the ceiling. */
  function Capped(n: nat): nat { Min(n, MAX_PARAM_VALUE) }

  lemma DigitIsCapped(p: Machine, v: nat, d: nat)
    requires (p.state.CsiEntry? || p.state.CsiParam?) && d <= 9 && p.params != []
    requires p.params[|p.params| - 1].value == Capped(v)
    ensures Feed(p, [48 + d]) == (p.(state := CsiParam, params := WithLast(p.params, Capped(10 * v + d))), [])
  {
    FeedOne(p, 48 + d);
    DigitByte(p, d);
    CappedDigit(v, d);
    hide Feed, Step, Capped, AddDigit;
  }

  lemma CappedDigit(v: nat, d: nat)
    requires d <= 9
    ensures AddDigit(Capped(v), d) == Capped(10 * v + d)
  {
  }

  /** A number too large for a parameter is read as the largest there is. */
  lemma {:induction false} LargeNumbersSaturate(p: Machine, n: nat)
    requires Expecting(p)
    ensures Feed(p, Dec(n)) == (p.(state := CsiParam, params := WithLast(p.params, Capped(n))), [])
  {
    if n <= MAX_PARAM_VALUE {
      FeedNumber(p, n);
    } else {
      LargeNumbersSaturate(p, n / 10);
      var q := p.(state := CsiParam, params := WithLast(p.params, Capped(n / 10)));
      FeedConcat(p, Dec(n / 10), [48 + n % 10]);
      WithLastTwice(p.params, Capped(n / 10), Capped(n));
      DigitIsCapped(q, n / 10, n % 10);
      NoCalls();
    }
  }

  /** Past the 32nd a separator opens nothing. */
  lemma NoMoreThan32(p: Machine, b: byte)
    requires p.state.CsiParam? && |p.params| == MAX_PARAMS && IsSeparator(b)
    ensures Feed(p, [b]) == (p, [])
  {
    FeedOne(p, b);
  }

  /** A string of another kind, SOS, PM or APC, is passed over up to the escape that ends it. */
  lemma {:induction false} OtherStringsAreSilent(p: Machine, s: bytes)
    requires p.state.SosPmApcString? && forall b :: b in s ==> b != ESC && !IsCancel(b)
    ensures Feed(p, s) == (p, [])
    decreases |s|
  {
    if s != [] {
      assert s[0] in s && forall b :: b in s[1..] ==> b in s;
      assert Step(p, s[0]) == (p, []);
      assert s == [s[0]] + s[1..];
      FeedThen(p, s[0], s[1..]);
      OtherStringsAreSilent(p, s[1..]);
      NoCalls();
    }
  }
}
