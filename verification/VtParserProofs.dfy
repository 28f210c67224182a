// What the parser makes of the byte strings the renderer writes, and what holds of any input.

module VtParserProofs {
  import opened Bytes
  import opened Cells
  import opened Utf8
  import opened VtParser

  /** Between two sequences: the fields left over from the last one do not matter. */
  predicate Idle(p: Machine) {
    p.state.Ground? && p.need == 0
  }

  lemma {:induction false} FeedConcat(p: Machine, a: bytes, b: bytes)
    ensures Feed(p, a + b) == (Feed(Feed(p, a).0, b).0, Feed(p, a).1 + Feed(Feed(p, a).0, b).1)
    decreases |a|
  {
    if a == [] {
      assert a + b == b;
      assert [] + Feed(p, b).1 == Feed(p, b).1;
    } else {
      var (q, c) := Step(p, a[0]);
      assert (a + b)[1..] == a[1..] + b;
      FeedConcat(q, a[1..], b);
      var (r, d) := Feed(q, a[1..]);
      assert c + (d + Feed(r, b).1) == (c + d) + Feed(r, b).1;
    }
  }

  lemma FeedOne(p: Machine, b: byte)
    ensures Feed(p, [b]) == Step(p, b)
  {
    var (q, c) := Step(p, b);
    assert Feed(q, [b][1..]) == (q, []);
    assert c + [] == c;
  }

  lemma FeedThen(p: Machine, b: byte, s: bytes)
    ensures Feed(p, [b] + s) == (Feed(Step(p, b).0, s).0, Step(p, b).1 + Feed(Step(p, b).0, s).1)
  {
    FeedOne(p, b);
    FeedConcat(p, [b], s);
  }

  // ---- Numbers.

  function LastValue(ps: seq<Param>): int {
    if ps == [] then -1 else ps[|ps| - 1].value
  }

  function WithLast(ps: seq<Param>, v: int): seq<Param> {
    if ps == [] then [Param(v, false)] else ps[..|ps| - 1] + [ps[|ps| - 1].(value := v)]
  }

  /** The machine is about to read a number: no parameter yet, or an empty last one. */
  predicate Expecting(p: Machine) {
    (p.state.CsiEntry? || p.state.CsiParam?) && LastValue(p.params) == -1
  }

  lemma DigitPushed(p: Machine, d: nat, v: int)
    requires d <= 9 && v == Max(LastValue(p.params), 0) * 10 + d <= MAX_PARAM_VALUE
    ensures PushDigit(p, 48 + d) == p.(params := WithLast(p.params, v))
  {
    assert AddDigit(LastValue(p.params), d) == v;
    assert PushDigit(p, 48 + d).params == WithLast(p.params, v);
  }

  lemma DigitStep(p: Machine, d: nat, v: int)
    requires (p.state.CsiEntry? || p.state.CsiParam?) && d <= 9
    requires v == Max(LastValue(p.params), 0) * 10 + d <= MAX_PARAM_VALUE
    ensures Feed(p, [48 + d]) == (p.(state := CsiParam, params := WithLast(p.params, v)), [])
  {
    DigitByte(p, d);
    hide Step, PushDigit, WithLast, LastValue, Feed;
    FeedOne(p, 48 + d);
    DigitPushed(p, d, v);
  }

  lemma DigitByte(p: Machine, d: nat)
    requires (p.state.CsiEntry? || p.state.CsiParam?) && d <= 9
    ensures Step(p, 48 + d) == (PushDigit(p, 48 + d).(state := CsiParam), [])
  {
    hide AddDigit;
  }

  lemma WithLastTwice(ps: seq<Param>, v: int, w: int)
    ensures WithLast(WithLast(ps, v), w) == WithLast(ps, w) && LastValue(WithLast(ps, v)) == v
  {
    if ps != [] {
      assert WithLast(ps, v)[..|ps| - 1] == ps[..|ps| - 1];
    }
  }

  lemma {:induction false} FeedNumber(p: Machine, n: nat)
    requires Expecting(p) && n <= MAX_PARAM_VALUE
    ensures Feed(p, Dec(n)) == (p.(state := CsiParam, params := WithLast(p.params, n)), [])
  {
    if n < 10 {
      DigitStep(p, n, n);
    } else {
      FeedNumber(p, n / 10);
      var q := p.(state := CsiParam, params := WithLast(p.params, n / 10));
      FeedConcat(p, Dec(n / 10), [48 + n % 10]);
      WithLastTwice(p.params, n / 10, n);
      DigitStep(q, n % 10, n);
    }
  }

  function Plain(ns: seq<nat>): seq<Param> {
    seq(|ns|, i requires 0 <= i < |ns| => Param(ns[i], false))
  }

  /** All parameters but the one about to be read. */
  function Before(ps: seq<Param>): seq<Param> {
    if ps == [] then [] else ps[..|ps| - 1]
  }

  lemma SemicolonStep(p: Machine, s: bytes)
    requires p.state.CsiParam? && p.params != [] && |p.params| < MAX_PARAMS
    ensures Feed(p, [59] + s) == Feed(p.(params := p.params + [Param(-1, false)]), s)
  {
    FeedThen(p, 59, s);
    var q := p.(params := p.params + [Param(-1, false)]);
    assert Step(p, 59) == (q, []);
    assert [] + Feed(q, s).1 == Feed(q, s).1;
  }

  lemma {:induction false} FeedNumbers(p: Machine, ns: seq<nat>)
    requires Expecting(p) && (p.params == [] || !p.params[|p.params| - 1].sub)
    requires ns != [] && |Before(p.params)| + |ns| <= MAX_PARAMS
    requires forall i :: 0 <= i < |ns| ==> ns[i] <= MAX_PARAM_VALUE
    ensures Feed(p, Join(ns)) == (p.(state := CsiParam, params := Before(p.params) + Plain(ns)), [])
    decreases |ns|
  {
    FeedNumber(p, ns[0]);
    var q := p.(state := CsiParam, params := WithLast(p.params, ns[0]));
    assert q.params == Before(p.params) + [Param(ns[0], false)];
    if |ns| == 1 {
      assert Plain(ns) == [Param(ns[0], false)];
    } else {
      FeedMoreNumbers(p, q, ns);
    }
  }

  lemma PlainCons(ps: seq<Param>, ns: seq<nat>)
    requires ns != []
    ensures ps + Plain(ns) == (ps + [Param(ns[0], false)]) + Plain(ns[1..])
  {
  }

  lemma JoinMore(ns: seq<nat>)
    requires |ns| >= 2
    ensures Join(ns) == Dec(ns[0]) + ([59] + Join(ns[1..]))
  {
    hide Dec;
    Associate(Dec(ns[0]), [59], Join(ns[1..]));
  }

  lemma {:induction false} FeedMoreNumbers(p: Machine, q: Machine, ns: seq<nat>)
    requires |ns| >= 2 && |Before(p.params)| + |ns| <= MAX_PARAMS
    requires q == p.(state := CsiParam, params := Before(p.params) + [Param(ns[0], false)])
    requires Feed(p, Dec(ns[0])) == (q, [])
    requires forall i :: 0 <= i < |ns| ==> ns[i] <= MAX_PARAM_VALUE
    ensures Feed(p, Join(ns)) == (p.(state := CsiParam, params := Before(p.params) + Plain(ns)), [])
    decreases |ns|, 0
  {
    hide Feed, Dec;
    var rest := ns[1..];
    var r := q.(params := q.params + [Param(-1, false)]);
    assert Before(r.params) == q.params;
    FeedNumbers(r, rest);
    SemicolonStep(q, Join(rest));
    PlainCons(Before(p.params), ns);
    FeedConcat(p, Dec(ns[0]), [59] + Join(rest));
    var none: seq<Call> := [];
    assert none + none == none;
    JoinMore(ns);
  }

  // ---- Whole sequences.

  lemma EnterCsi(p: Machine, s: bytes)
    requires Idle(p)
    ensures var q := Clear(p).(state := CsiEntry); Feed(p, [ESC, 91] + s) == Feed(q, s)
  {
    assert [ESC, 91] + s == [ESC] + ([91] + s);
    FeedThen(p, ESC, [91] + s);
    var q := Step(p, ESC).0;
    assert q == Clear(p).(state := Escape);
    FeedThen(q, 91, s);
    var r := Clear(p).(state := CsiEntry);
    assert Step(q, 91) == (r, []);
    assert [] + ([] + Feed(r, s).1) == Feed(r, s).1;
  }

  /** A control sequence written by the renderer reaches the sink as exactly one call. */
  lemma ParseCsi(p: Machine, ns: seq<nat>, f: byte)
    requires Idle(p) && IsFinal(f) && |ns| <= MAX_PARAMS
    requires forall i :: 0 <= i < |ns| ==> ns[i] <= MAX_PARAM_VALUE
    ensures Idle(Feed(p, CsiBytes(ns, f)).0)
    ensures Feed(p, CsiBytes(ns, f)).1 == [Csi(Plain(ns), [], f)]
  {
    var q := Clear(p).(state := CsiEntry);
    assert CsiBytes(ns, f) == [ESC, 91] + (Join(ns) + [f]);
    EnterCsi(p, Join(ns) + [f]);
    FeedConcat(q, Join(ns), [f]);
    if ns == [] {
      assert Plain(ns) == [];
      FinalStep(q, f);
    } else {
      FeedNumbers(q, ns);
      assert Before(q.params) + Plain(ns) == Plain(ns);
      FinalStep(q.(state := CsiParam, params := Plain(ns)), f);
    }
  }

  lemma FinalStep(q: Machine, f: byte)
    requires (q.state.CsiEntry? || q.state.CsiParam?) && IsFinal(f)
    ensures Feed(q, [f]) == (q.(state := Ground), [Csi(q.params, q.intermediates, f)])
  {
    FeedOne(q, f);
  }

  /** `ESC [ ? n f`: the private marker travels with the intermediates. */
  lemma ParsePrivate(p: Machine, n: nat, f: byte)
    requires Idle(p) && IsFinal(f) && n <= MAX_PARAM_VALUE
    ensures var s := [ESC, 91, 63] + Dec(n) + [f];
      Idle(Feed(p, s).0) && Feed(p, s).1 == [Csi([Param(n, false)], [63], f)]
  {
    var q := Clear(p).(state := CsiEntry);
    assert [ESC, 91, 63] + Dec(n) + [f] == [ESC, 91] + ([63] + (Dec(n) + [f]));
    EnterCsi(p, [63] + (Dec(n) + [f]));
    FeedThen(q, 63, Dec(n) + [f]);
    var r := Step(q, 63).0;
    assert r == q.(state := CsiParam, intermediates := [63]);
    FeedConcat(r, Dec(n), [f]);
    FeedNumber(r, n);
    FinalStep(Feed(r, Dec(n)).0, f);
  }

  // ---- Text.

  /** Printable text comes back as the code point the renderer wrote (RFC 3629, sections 3 and 4). */
  lemma ParseGlyph(p: Machine, cp: nat)
    requires Idle(p) && cp >= 0x20 && cp != 0x7F
    ensures Idle(Feed(p, EncodeUtf8(cp)).0)
    ensures Feed(p, EncodeUtf8(cp)).1 == [Print(Shown(cp))]
  {
    var c, s := Shown(cp), EncodeUtf8(cp);
    if c < 0x80 {
      FeedOne(p, c);
    } else if c < 0x800 {
      ParseGlyph2(p, c);
    } else if c < 0x10000 {
      ParseGlyph3(p, c);
    } else {
      ParseGlyph4(p, c);
    }
  }

  lemma ParseGlyph2(p: Machine, c: nat)
    requires Idle(p) && 0x80 <= c < 0x800
    ensures var r := Feed(p, [0xC0 + c / 64, 0x80 + c % 64]); Idle(r.0) && r.1 == [Print(c)]
  {
    var b0, b1: byte := 0xC0 + c / 64, 0x80 + c % 64;
    assert [b0, b1] == [b0] + [b1];
    FeedThen(p, b0, [b1]);
    var q := p.(acc := c / 64, need := 1, min := 0x80, seen := 0);
    assert Step(p, b0) == (q, []);
    LastByte(q, c);
  }

  /** The last continuation byte of a sequence delivers the code point. */
  lemma LastByte(q: Machine, c: nat)
    requires q.state.Ground? && q.need == q.seen + 1 && q.acc == c / 64 && q.min <= c && IsScalar(c)
    ensures var r := Feed(q, [0x80 + c % 64]); Idle(r.0) && r.1 == [Print(c)]
  {
    var b: byte := 0x80 + c % 64;
    FeedOne(q, b);
    SixBits(q.acc, c);
    assert Continue(q, b) == (DropUtf8(q), [Print(c)]);
  }

  /** An earlier continuation byte accumulates. */
  lemma MiddleByte(q: Machine, hi: nat, s: bytes)
    requires q.state.Ground? && q.seen + 1 < q.need && q.acc == hi / 64
    ensures Feed(q, [0x80 + hi % 64] + s) == Feed(q.(acc := hi, seen := q.seen + 1), s)
  {
    var b: byte := 0x80 + hi % 64;
    FeedThen(q, b, s);
    SixBits(q.acc, hi);
    var r := q.(acc := hi, seen := q.seen + 1);
    assert Step(q, b) == (r, []);
    assert [] + Feed(r, s).1 == Feed(r, s).1;
  }

  lemma LeadByte3(p: Machine, b0: byte, s: bytes)
    requires Idle(p) && 0xE0 <= b0 <= 0xEF
    ensures Feed(p, [b0] + s) == Feed(p.(acc := b0 % 16, need := 2, min := 0x800, seen := 0), s)
  {
    FeedThen(p, b0, s);
    var q := p.(acc := b0 % 16, need := 2, min := 0x800, seen := 0);
    assert Step(p, b0) == (q, []);
    assert [] + Feed(q, s).1 == Feed(q, s).1;
  }

  lemma ParseGlyph3(p: Machine, c: nat)
    requires Idle(p) && 0x800 <= c < 0x10000 && IsScalar(c)
    ensures var r := Feed(p, [0xE0 + c / 4096, 0x80 + c / 64 % 64, 0x80 + c % 64]);
      Idle(r.0) && r.1 == [Print(c)]
  {
    hide Feed;
    var b0, b1, b2: byte := 0xE0 + c / 4096, 0x80 + c / 64 % 64, 0x80 + c % 64;
    assert [b0, b1, b2] == [b0] + ([b1] + [b2]);
    LeadByte3(p, b0, [b1] + [b2]);
    var q := p.(acc := c / 4096, need := 2, min := 0x800, seen := 0);
    MiddleByte(q, c / 64, [b2]);
    LastByte(q.(acc := c / 64, seen := 1), c);
  }

  lemma LeadByte4(p: Machine, b0: byte, s: bytes)
    requires Idle(p) && 0xF0 <= b0 <= 0xF4
    ensures Feed(p, [b0] + s) == Feed(p.(acc := b0 % 8, need := 3, min := 0x10000, seen := 0), s)
  {
    FeedThen(p, b0, s);
    var q := p.(acc := b0 % 8, need := 3, min := 0x10000, seen := 0);
    assert Step(p, b0) == (q, []);
    assert [] + Feed(q, s).1 == Feed(q, s).1;
  }

  /** The four bytes, their bits named. */
  lemma ParseGlyphBits(p: Machine, c: nat, lo: nat, mid: nat, hi: nat)
    requires Idle(p) && 0x10000 <= c <= 0x10FFFF && lo == c / 64 && mid == lo / 64 && hi == mid / 64
    ensures var r := Feed(p, [0xF0 + hi, 0x80 + mid % 64, 0x80 + lo % 64, 0x80 + c % 64]);
      Idle(r.0) && r.1 == [Print(c)]
  {
    hide Feed;
    var b0, b1, b2, b3: byte := 0xF0 + hi, 0x80 + mid % 64, 0x80 + lo % 64, 0x80 + c % 64;
    assert [b0, b1, b2, b3] == [b0] + ([b1] + ([b2] + [b3]));
    LeadByte4(p, b0, [b1] + ([b2] + [b3]));
    var q := p.(acc := hi, need := 3, min := 0x10000, seen := 0);
    MiddleByte(q, mid, [b2] + [b3]);
    var r := q.(acc := mid, seen := 1);
    MiddleByte(r, lo, [b3]);
    LastByte(r.(acc := lo, seen := 2), c);
  }

  lemma ParseGlyph4(p: Machine, c: nat)
    requires Idle(p) && 0x10000 <= c <= 0x10FFFF
    ensures var r := Feed(p, [0xF0 + c / 262144, 0x80 + c / 4096 % 64, 0x80 + c / 64 % 64, 0x80 + c % 64]);
      Idle(r.0) && r.1 == [Print(c)]
  {
    hide Feed, Idle;
    ParseGlyphBits(p, c, c / 64, c / 4096, c / 262144);
  }
}
