// UTF-8 is read strictly, by the common decoder and by the guest's parser alike: nothing but the one
// encoding of a code point is read as it (common/utf8.cpp, vt/parser.cpp; RFC 3629, section 3).

module Utf8Strict {
  import opened Bytes
  import opened Cells
  import opened Utf8
  import opened VtParser
  import opened VtParserProofs

  function Low(b: byte, m: nat): nat
    requires m > 0
  {
    b % m
  }

  /** The code point the bytes of a sequence spell, by the table of RFC 3629, section 3. */
  function Spelt(s: bytes): nat
    requires 1 <= |s| <= 4
  {
    if |s| == 1 then s[0]
    else if |s| == 2 then Low(s[0], 32) * 64 + Low(s[1], 64)
    else if |s| == 3 then Low(s[0], 16) * 4096 + Low(s[1], 64) * 64 + Low(s[2], 64)
    else Low(s[0], 8) * 262144 + Low(s[1], 64) * 4096 + Low(s[2], 64) * 64 + Low(s[3], 64)
  }

  /** A lead byte and as many continuation bytes as it calls for. */
  predicate Formed(s: bytes) {
    && 1 <= |s| <= 4 && Need(s[0]) == |s| - 1 && forall i :: 1 <= i < |s| ==> 0x80 <= s[i] < 0xC0
  }

  /** The code point needs that many bytes. */
  predicate Shortest(c: nat, n: nat) {
    (n == 2 ==> c >= 0x80) && (n == 3 ==> c >= 0x800) && (n == 4 ==> c >= 0x10000)
  }

  lemma TwoBytes(b0: byte, b1: byte)
    requires 0xC0 <= b0 <= 0xDF && 0x80 <= b1 < 0xC0
    ensures var c := b0 % 32 * 64 + b1 % 64; 0xC0 + c / 64 == b0 && 0x80 + c % 64 == b1 && c < 0x800
  {
  }

  lemma SixMore(hi: nat, b: byte)
    requires 0x80 <= b < 0xC0
    ensures var c := hi * 64 + b % 64; c / 64 == hi && 0x80 + c % 64 == b
  {
  }

  lemma ThreeBytes(b0: byte, b1: byte, b2: byte)
    requires 0xE0 <= b0 <= 0xEF && 0x80 <= b1 < 0xC0 && 0x80 <= b2 < 0xC0
    ensures var c := b0 % 16 * 4096 + b1 % 64 * 64 + b2 % 64;
      0xE0 + c / 4096 == b0 && 0x80 + c / 64 % 64 == b1 && 0x80 + c % 64 == b2 && c < 0x10000
  {
    var hi := b0 % 16 * 64 + b1 % 64;
    SixMore(b0 % 16, b1);
    SixMore(hi, b2);
    var c := hi * 64 + b2 % 64;
    assert c / 4096 == hi / 64;
  }

  lemma FourBytes(b0: byte, b1: byte, b2: byte, b3: byte)
    requires 0xF0 <= b0 <= 0xF7 && 0x80 <= b1 < 0xC0 && 0x80 <= b2 < 0xC0 && 0x80 <= b3 < 0xC0
    ensures var c := b0 % 8 * 262144 + b1 % 64 * 4096 + b2 % 64 * 64 + b3 % 64;
      && 0xF0 + c / 262144 == b0 && 0x80 + c / 4096 % 64 == b1 && 0x80 + c / 64 % 64 == b2 && 0x80 + c % 64 == b3
  {
    var mid := b0 % 8 * 64 + b1 % 64;
    var lo := mid * 64 + b2 % 64;
    SixMore(b0 % 8, b1);
    SixMore(mid, b2);
    SixMore(lo, b3);
    var c := lo * 64 + b3 % 64;
    assert c / 4096 == lo / 64 && c / 262144 == mid / 64;
  }

  /** A formed sequence that spells a scalar in the shortest way is that scalar's encoding. */
  lemma SpeltIsEncoded(s: bytes)
    requires Formed(s) && IsScalar(Spelt(s)) && Shortest(Spelt(s), |s|)
    ensures EncodeUtf8(Spelt(s)) == s
  {
    if |s| == 2 {
      TwoBytes(s[0], s[1]);
    } else if |s| == 3 {
      ThreeBytes(s[0], s[1], s[2]);
    } else if |s| == 4 {
      FourBytes(s[0], s[1], s[2], s[3]);
    }
  }

  // ---- The common decoder.

  lemma DecodeSpells(s: bytes, n: nat)
    requires 1 <= n <= |s| && Formed(s[..n])
    ensures DecodeUtf8(s, 0)
         == (if IsScalar(Spelt(s[..n])) && Shortest(Spelt(s[..n]), n) then Spelt(s[..n]) else 0xFFFD, n)
  {
    var need := n - 1;
    assert s[..n][0] == s[0] && forall i :: 0 <= i < n ==> s[..n][i] == s[i];
    var c0 := LeadBits(s[0]);
    if n == 2 {
      assert DecodeFrom(s, 0, 1, 1, c0) == DecodeFrom(s, 0, 1, 2, c0 * 64 + s[1] % 64);
    } else if n == 3 {
      var c1 := c0 * 64 + s[1] % 64;
      assert DecodeFrom(s, 0, 2, 1, c0) == DecodeFrom(s, 0, 2, 2, c1);
      assert DecodeFrom(s, 0, 2, 2, c1) == DecodeFrom(s, 0, 2, 3, c1 * 64 + s[2] % 64);
    } else if n == 4 {
      var c1 := c0 * 64 + s[1] % 64;
      var c2 := c1 * 64 + s[2] % 64;
      assert DecodeFrom(s, 0, 3, 1, c0) == DecodeFrom(s, 0, 3, 2, c1);
      assert DecodeFrom(s, 0, 3, 2, c1) == DecodeFrom(s, 0, 3, 3, c2);
      assert DecodeFrom(s, 0, 3, 3, c2) == DecodeFrom(s, 0, 3, 4, c2 * 64 + s[3] % 64);
    }
  }

  /** A lead byte cut short by a byte that continues nothing: one replacement for what was read. */
  lemma {:induction false} DecodeBreaks(s: bytes, need: nat, k: nat, cp: nat, at: nat)
    requires need < |s| && 1 <= k <= at <= need && !(0x80 <= s[at] < 0xC0)
    requires forall i :: k <= i < at ==> 0x80 <= s[i] < 0xC0
    ensures DecodeFrom(s, 0, need, k, cp) == (0xFFFD, at)
    decreases at - k
  {
    if k < at { DecodeBreaks(s, need, k + 1, cp * 64 + s[k] % 64, at); }
  }

  /** The decoder answers with a code point other than U+FFFD only for the encoding of that very
      code point, which is what it takes. */
  lemma DecodeIsStrict(s: bytes)
    requires s != []
    ensures var (c, n) := DecodeUtf8(s, 0); c != 0xFFFD ==> n <= |s| && s[..n] == EncodeUtf8(c)
  {
    var need := Need(s[0]);
    if need >= 0 && need < |s| {
      if forall i :: 1 <= i <= need ==> 0x80 <= s[i] < 0xC0 {
        var t := s[..need + 1];
        assert t[0] == s[0] && forall i :: 1 <= i < |t| ==> t[i] == s[i];
        DecodeSpells(s, need + 1);
        hide DecodeUtf8, Spelt, EncodeUtf8;
        if IsScalar(Spelt(t)) && Shortest(Spelt(t), |t|) { SpeltIsEncoded(t); }
      } else {
        var at := FirstBreak(s, need);
        DecodeBreaks(s, need, 1, LeadBits(s[0]), at);
      }
    }
  }

  lemma FirstBreak(s: bytes, need: nat) returns (at: nat)
    requires need < |s| && exists i :: 1 <= i <= need && !(0x80 <= s[i] < 0xC0)
    ensures 1 <= at <= need && !(0x80 <= s[at] < 0xC0) && forall i :: 1 <= i < at ==> 0x80 <= s[i] < 0xC0
  {
    at := 1;
    while 0x80 <= s[at] < 0xC0
      invariant 1 <= at <= need && forall i :: 1 <= i < at ==> 0x80 <= s[i] < 0xC0
      decreases need - at
    {
      at := at + 1;
    }
  }

  // ---- The guest's parser.

  lemma LastRead(q: Machine, b: byte)
    requires q.state.Ground? && q.need == q.seen + 1 && 0x80 <= b < 0xC0
    ensures Feed(q, [b]) == (DropUtf8(q), [Print(Validated(q.acc * 64 + b % 64, q.min))])
  {
    FeedOne(q, b);
  }

  lemma MiddleRead(q: Machine, b: byte, s: bytes)
    requires q.state.Ground? && q.seen + 1 < q.need && 0x80 <= b < 0xC0
    ensures Feed(q, [b] + s) == Feed(q.(acc := q.acc * 64 + b % 64, seen := q.seen + 1), s)
  {
    FeedThen(q, b, s);
    var r := q.(acc := q.acc * 64 + b % 64, seen := q.seen + 1);
    assert Step(q, b) == (r, []);
    assert [] + Feed(r, s).1 == Feed(r, s).1;
  }

  lemma LeadRead(p: Machine, b0: byte, s: bytes)
    requires Idle(p) && 0xC2 <= b0 <= 0xF4
    ensures var n := Need(b0);
      1 <= n <= 3 && Feed(p, [b0] + s)
        == Feed(p.(acc := LeadBits(b0), need := n, seen := 0,
                   min := if n == 1 then 0x80 else if n == 2 then 0x800 else 0x10000), s)
  {
    FeedThen(p, b0, s);
    var q := Step(p, b0).0;
    assert [] + Feed(q, s).1 == Feed(q, s).1;
  }

  /** A formed sequence of a lead byte that can be right is printed as what it spells, or as U+FFFD if
      that is no scalar or has a shorter spelling. */
  lemma GuestSpells(p: Machine, s: bytes)
    requires Idle(p) && Formed(s) && 0xC2 <= s[0] <= 0xF4
    ensures var c := Spelt(s);
      var r := Feed(p, s); Idle(r.0) && r.1 == [Print(if IsScalar(c) && Shortest(c, |s|) then c else 0xFFFD)]
  {
    hide Feed, Step;
    var n := |s| - 1;
    var q := p.(acc := LeadBits(s[0]), need := n, seen := 0,
                min := if n == 1 then 0x80 else if n == 2 then 0x800 else 0x10000);
    LeadRead(p, s[0], s[1..]);
    assert s == [s[0]] + s[1..];
    if n == 1 {
      assert s[1..] == [s[1]];
      LastRead(q, s[1]);
    } else if n == 2 {
      assert s[1..] == [s[1]] + [s[2]];
      MiddleRead(q, s[1], [s[2]]);
      LastRead(q.(acc := q.acc * 64 + s[1] % 64, seen := 1), s[2]);
    } else {
      assert s[1..] == [s[1]] + ([s[2]] + [s[3]]);
      MiddleRead(q, s[1], [s[2]] + [s[3]]);
      var r := q.(acc := q.acc * 64 + s[1] % 64, seen := 1);
      MiddleRead(r, s[2], [s[3]]);
      LastRead(r.(acc := r.acc * 64 + s[2] % 64, seen := 2), s[3]);
    }
  }

  /** Of these sequences only the encoding of a code point is printed as it. */
  lemma GuestIsStrict(p: Machine, s: bytes, c: nat)
    requires Idle(p) && Formed(s) && 0xC2 <= s[0] <= 0xF4 && Feed(p, s).1 == [Print(c)] && c != 0xFFFD
    ensures EncodeUtf8(c) == s
  {
    GuestSpells(p, s);
    SpeltIsEncoded(s) by { hide Feed; }
  }

  /** Bytes that can lead nothing are one replacement each. */
  lemma StrayIsReplaced(p: Machine, b: byte)
    requires Idle(p) && (0x80 <= b < 0xC2 || 0xF4 < b)
    ensures Feed(p, [b]) == (p, [Print(0xFFFD)])
  {
    FeedOne(p, b);
  }

  /** A sequence broken off is one replacement, and the byte that broke it is read as if nothing had
      been before. */
  lemma BrokenIsReplaced(q: Machine, b: byte)
    requires q.state.Ground? && q.need > 0 && !(0x80 <= b < 0xC0)
    ensures Feed(q, [b]).0 == Feed(DropUtf8(q), [b]).0
    ensures Feed(q, [b]).1 == [Print(0xFFFD)] + Feed(DropUtf8(q), [b]).1
  {
    FeedOne(q, b);
    FeedOne(DropUtf8(q), b);
  }

  // ---- Known answers.

  /** What stands for a number that is no code point. */
  lemma ShownIs(n: nat)
    ensures Shown(n) == if 0xD800 <= n <= 0xDFFF || n > 0x10FFFF then 0xFFFD else n
  {
  }

  /** A letter, an accented one, the euro sign, an emoji and the replacement character. */
  lemma KnownEncodings()
    ensures EncodeUtf8(0x41) == [0x41] && EncodeUtf8(0xE9) == [0xC3, 0xA9] && EncodeUtf8(0x20AC) == [0xE2, 0x82, 0xAC]
    ensures EncodeUtf8(0x1F600) == [0xF0, 0x9F, 0x98, 0x80]
    ensures EncodeUtf8(0xFFFD) == EncodeUtf8(0xD800) == EncodeUtf8(0x110000) == [0xEF, 0xBF, 0xBD]
  {
  }
}
