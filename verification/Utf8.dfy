// UTF-8 (common/utf8.cpp). Shifts and masks are written as division and remainder:
// `cp >> 6` is `cp / 64`, `b & 0x3F` is `b % 64`.

module Utf8 {
  import opened Bytes
  import opened Cells

  /** Encodes a code point; a non-scalar is replaced by U+FFFD first. */
  function EncodeUtf8(code: nat): (s: bytes) {
    var cp := Shown(code);
    if cp < 0x80 then [cp]
    else if cp < 0x800 then [0xC0 + cp / 64, 0x80 + cp % 64]
    else if cp < 0x10000 then [0xE0 + cp / 4096, 0x80 + cp / 64 % 64, 0x80 + cp % 64]
    else [0xF0 + cp / 262144, 0x80 + cp / 4096 % 64, 0x80 + cp / 64 % 64, 0x80 + cp % 64]
  }

  /** How many continuation bytes a lead byte calls for; -1 for a byte that cannot lead. */
  function Need(b0: byte): int {
    if b0 < 0x80 then 0
    else if 0xC0 <= b0 <= 0xDF then 1
    else if 0xE0 <= b0 <= 0xEF then 2
    else if 0xF0 <= b0 <= 0xF7 then 3
    else -1
  }

  function LeadBits(b0: byte): nat {
    if b0 < 0x80 then b0 else if b0 < 0xE0 then b0 % 32 else if b0 < 0xF0 then b0 % 16 else b0 % 8
  }

  /** Neither a surrogate, nor beyond plane 16, nor encoded in more bytes than it takes. */
  function Checked(cp: nat, need: nat): nat {
    if !IsScalar(cp) || (need == 1 && cp < 0x80) || (need == 2 && cp < 0x800) || (need == 3 && cp < 0x10000)
    then 0xFFFD else cp
  }

  /** From the k-th byte of a sequence on: the code point and the number of bytes it takes. */
  function DecodeFrom(s: bytes, pos: nat, need: nat, k: nat, cp: nat): (nat, nat)
    requires pos + need < |s| && 1 <= k <= need + 1
    decreases need + 1 - k
  {
    if k > need then (Checked(cp, need), need + 1)
    else if !(0x80 <= s[pos + k] < 0xC0) then (0xFFFD, k)
    else DecodeFrom(s, pos, need, k + 1, cp * 64 + s[pos + k] % 64)
  }

  /** The code point at position pos and the bytes it takes, at least one: anything that is not
      UTF-8 is U+FFFD, and a truncated sequence takes what is there. */
  function DecodeUtf8(s: bytes, pos: nat): (r: (nat, nat))
    requires pos < |s|
    ensures 1 <= r.1 && pos + r.1 <= |s|
  {
    var need := Need(s[pos]);
    if need < 0 then (0xFFFD, 1)
    else if need == 0 then (s[pos], 1)
    else if pos + need >= |s| then (0xFFFD, |s| - pos)
    else
      DecodeFromBounds(s, pos, need, 1, LeadBits(s[pos]));
      DecodeFrom(s, pos, need, 1, LeadBits(s[pos]))
  }

  lemma {:induction false} DecodeFromBounds(s: bytes, pos: nat, need: nat, k: nat, cp: nat)
    requires pos + need < |s| && 1 <= k <= need + 1
    ensures 1 <= DecodeFrom(s, pos, need, k, cp).1 <= need + 1
    decreases need + 1 - k
  {
    if k <= need && 0x80 <= s[pos + k] < 0xC0 {
      DecodeFromBounds(s, pos, need, k + 1, cp * 64 + s[pos + k] % 64);
    }
  }

  method Utf8Decode(s: bytes, pos: nat) returns (cp: nat, used: nat)
    requires pos < |s|
    ensures (cp, used) == DecodeUtf8(s, pos)
  {
    var need := Need(s[pos]);
    if need < 0 {
      return 0xFFFD, 1;
    }
    if need == 0 {
      return s[pos], 1;
    }
    if pos + need >= |s| {
      return 0xFFFD, |s| - pos;
    }
    var acc: nat := LeadBits(s[pos]);
    var k := 1;
    while k <= need
      invariant 1 <= k <= need + 1
      invariant DecodeFrom(s, pos, need, k, acc) == DecodeFrom(s, pos, need, 1, LeadBits(s[pos]))
    {
      if !(0x80 <= s[pos + k] < 0xC0) {
        return 0xFFFD, k;
      }
      acc := acc * 64 + s[pos + k] % 64;
      k := k + 1;
    }
    return Checked(acc, need), need + 1;
  }

  /** What the bytes after the sequence are does not matter. */
  lemma {:induction false} DecodeIsLocal(s: bytes, more: bytes, pos: nat, need: nat, k: nat, cp: nat)
    requires pos + need < |s| && 1 <= k <= need + 1
    ensures DecodeFrom(s + more, pos, need, k, cp) == DecodeFrom(s, pos, need, k, cp)
    decreases need + 1 - k
  {
    if k <= need && 0x80 <= s[pos + k] < 0xC0 {
      DecodeIsLocal(s, more, pos, need, k + 1, cp * 64 + s[pos + k] % 64);
    }
  }

  lemma SixBits(hi: nat, c: nat)
    requires hi == c / 64
    ensures hi * 64 + (0x80 + c % 64) % 64 == c
  {
  }

  /** Decoding undoes encoding, whatever follows. */
  lemma DecodeInvertsEncode(cp: nat, rest: bytes)
    ensures DecodeUtf8(EncodeUtf8(cp) + rest, 0) == (Shown(cp), |EncodeUtf8(cp)|)
  {
    var c, s := Shown(cp), EncodeUtf8(cp) + rest;
    if c < 0x80 {
    } else if c < 0x800 {
      assert s[0] == 0xC0 + c / 64 && s[1] == 0x80 + c % 64;
      Decode2(s, c);
    } else if c < 0x10000 {
      assert s[0] == 0xE0 + c / 4096 && s[1] == 0x80 + c / 64 % 64 && s[2] == 0x80 + c % 64;
      Decode3(s, c);
    } else {
      assert s[0] == 0xF0 + c / 262144 && s[1] == 0x80 + c / 4096 % 64;
      assert s[2] == 0x80 + c / 64 % 64 && s[3] == 0x80 + c % 64;
      Decode4(s, c);
    }
  }

  /** One continuation byte read. */
  lemma Continues(s: bytes, need: nat, k: nat, hi: nat, c: nat)
    requires need < |s| && 1 <= k <= need && hi == c / 64 && s[k] == 0x80 + c % 64
    ensures DecodeFrom(s, 0, need, k, hi) == DecodeFrom(s, 0, need, k + 1, c)
  {
    SixBits(hi, c);
  }

  lemma Decode2(s: bytes, c: nat)
    requires |s| >= 2 && 0x80 <= c < 0x800 && s[0] == 0xC0 + c / 64 && s[1] == 0x80 + c % 64
    ensures DecodeUtf8(s, 0) == (c, 2)
  {
    Continues(s, 1, 1, c / 64, c);
    assert LeadBits(s[0]) == c / 64;
  }

  lemma Decode3(s: bytes, c: nat)
    requires |s| >= 3 && 0x800 <= c < 0x10000 && IsScalar(c)
    requires s[0] == 0xE0 + c / 4096 && s[1] == 0x80 + c / 64 % 64 && s[2] == 0x80 + c % 64
    ensures DecodeUtf8(s, 0) == (c, 3)
  {
    Continues(s, 2, 1, c / 4096, c / 64);
    Continues(s, 2, 2, c / 64, c);
    assert LeadBits(s[0]) == c / 4096;
  }

  lemma Decode4(s: bytes, c: nat)
    requires |s| >= 4 && 0x10000 <= c <= 0x10FFFF
    requires s[0] == 0xF0 + c / 262144 && s[1] == 0x80 + c / 4096 % 64
    requires s[2] == 0x80 + c / 64 % 64 && s[3] == 0x80 + c % 64
    ensures DecodeUtf8(s, 0) == (c, 4)
  {
    var hi, mid := c / 262144, c / 4096;
    assert Need(s[0]) == 3 && LeadBits(s[0]) == hi;
    assert DecodeFrom(s, 0, 3, 4, c) == (c, 4);
    hide DecodeFrom;
    Continues(s, 3, 1, hi, mid);
    Continues(s, 3, 2, mid, c / 64);
    Continues(s, 3, 3, c / 64, c);
  }
}
