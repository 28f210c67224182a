// Bytes and the decimal rendering that every escape sequence is built from.

module Bytes {
  type byte = b: int | 0 <= b < 256
  type bytes = seq<byte>

  const ESC: byte := 0x1B

  function Max(a: int, b: int): int { if a < b then b else a }

  function Min(a: int, b: int): int { if a < b then a else b }

  function Clamp(v: int, lo: int, hi: int): int { if v < lo then lo else if hi < v then hi else v }

  /** The decimal digits of n, as `std::to_string` writes a non-negative number. */
  function Dec(n: nat): (s: bytes)
    ensures |s| >= 1
    ensures forall i :: 0 <= i < |s| ==> 48 <= s[i] <= 57
  {
    if n < 10 then [48 + n] else Dec(n / 10) + [48 + n % 10]
  }

  function ToString(n: int): bytes {
    if n < 0 then [45] + Dec(-n) else Dec(n)
  }

  /** The numbers of `ns` in decimal, separated by `;`. */
  function Join(ns: seq<nat>): bytes {
    if |ns| == 0 then [] else if |ns| == 1 then Dec(ns[0]) else Dec(ns[0]) + [59] + Join(ns[1..])
  }

  /** A control sequence `ESC [ n ; n ; ... f`. */
  function CsiBytes(ns: seq<nat>, f: byte): bytes {
    [ESC, 91] + Join(ns) + [f]
  }

  lemma Associate(a: bytes, b: bytes, c: bytes)
    ensures a + b + c == a + (b + c)
  {
  }

  lemma SliceOfTail(s: bytes, from: nat, n: nat)
    requires from + n <= |s|
    ensures s[from..][..n] == s[from..from + n] && s[from..][n..] == s[from + n..]
  {
  }

  lemma TailOfConcat(s: bytes, t: bytes, from: nat)
    requires from <= |s|
    ensures (s + t)[from..] == s[from..] + t
  {
  }
}
