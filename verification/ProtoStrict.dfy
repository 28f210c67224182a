// Which bodies are messages: exactly those a peer could have written, the truth value of Hello being
// any byte (common/proto.cpp).

module ProtoStrict {
  import opened Bytes
  import opened Cells
  import opened Proto

  /** Reading went from r to q over the bytes x, unless it failed. */
  predicate Over(r: Cursor, q: Cursor, x: bytes) {
    q.s == r.s && (q.ok ==> r.ok && r.i <= q.i <= |r.s| && r.s[r.i..q.i] == x)
  }

  predicate Inside(r: Cursor) { r.i <= |r.s| }

  lemma OverBoth(r: Cursor, m: Cursor, q: Cursor, x: bytes, y: bytes)
    requires Inside(r) && Over(r, m, x) && Over(m, q, y)
    ensures Over(r, q, x + y)
  {
    if q.ok {
      assert r.s[r.i..q.i] == r.s[r.i..m.i] + r.s[m.i..q.i];
    }
  }

  lemma U8Over(r: Cursor)
    ensures var (v, q) := U8(r); Over(r, q, [v]) && (Inside(r) ==> Inside(q))
  {
  }

  lemma U16Over(r: Cursor)
    requires Inside(r)
    ensures var (v, q) := U16(r); Over(r, q, PutU16(v)) && Inside(q)
  {
    var (hi, r1) := U8(r);
    var (lo, r2) := U8(r1);
    U8Over(r);
    U8Over(r1);
    OverBoth(r, r1, r2, [hi], [lo]);
    assert PutU16(hi * 256 + lo) == [hi] + [lo];
  }

  lemma U32Over(r: Cursor)
    requires Inside(r)
    ensures var (v, q) := U32(r); Over(r, q, PutU32(v)) && Inside(q)
  {
    hide U16, PutU16, Over;
    var (hi, r1) := U16(r);
    var (lo, r2) := U16(r1);
    U16Over(r);
    U16Over(r1);
    OverBoth(r, r1, r2, PutU16(hi), PutU16(lo));
    HalvesOf(hi, lo);
  }

  lemma HalvesOf(hi: uint16, lo: uint16)
    ensures var v := hi * 0x1_0000 + lo; v < 0x1_0000_0000 && v / 0x1_0000 == hi && v % 0x1_0000 == lo
  {
  }

  lemma StrOver(r: Cursor)
    requires Inside(r)
    ensures var (s, q) := Str(r); Over(r, q, PutStr(s)) && Inside(q)
  {
    hide U32, PutU32;
    U32Over(r);
    var (n, r1) := U32(r);
    if r1.ok && r1.i + n <= |r1.s| {
      var s, q := r1.s[r1.i..r1.i + n], r1.(i := r1.i + n);
      assert Over(r1, q, s);
      OverBoth(r, r1, q, PutU32(n), s);
      assert n % 0x1_0000_0000 == n;
    }
  }

  lemma {:induction false} EnvOver(r: Cursor, n: nat)
    requires Inside(r)
    ensures var (env, q) := Env(r, n); Over(r, q, PutEnv(env)) && Inside(q) && (q.ok ==> |env| == n)
    decreases n
  {
    hide Str, PutStr, Over;
    if n == 0 || !r.ok {
      NothingOver(r);
    } else {
      var (key, r1) := Str(r);
      var (value, r2) := Str(r1);
      StrOver(r);
      StrOver(r1);
      OverBoth(r, r1, r2, PutStr(key), PutStr(value));
      EnvOver(r2, n - 1);
      var (rest, r3) := Env(r2, n - 1);
      OverBoth(r, r2, r3, PutStr(key) + PutStr(value), PutEnv(rest));
      assert ([(key, value)] + rest)[1..] == rest;
    }
  }

  lemma NothingOver(r: Cursor)
    requires Inside(r)
    ensures Over(r, r, [])
  {
  }

  /** The body of a message, its truth value written as `flag`. */
  function BodyWith(m: Msg, flag: byte): bytes {
    if m.Hello? then
      PutU32(m.buildId) + (PutU16(m.cols) + (PutU16(m.rows) + (PutStr(m.term) + (PutStr(m.colorterm) +
      ([flag] + (PutLength(|m.env|) + PutEnv(m.env)))))))
    else Body(m)
  }

  predicate FlagFits(m: Msg, flag: byte) { m.Hello? ==> (m.utf8 <==> flag != 0) }

  lemma BodyIsWith(m: Msg)
    ensures var flag: byte := if m.Hello? && m.utf8 then 1 else 0; Body(m) == BodyWith(m, flag) && FlagFits(m, flag)
  {
    hide PutU32, PutU16, PutStr, PutLength, PutEnv;
  }

  lemma HelloTailOver(r: Cursor) returns (flag: byte)
    requires Inside(r)
    ensures var (t, q) := ReadHelloTail(r);
      && Inside(q) && (t.1 <==> flag != 0)
      && Over(r, q, PutStr(t.0) + ([flag] + (PutLength(|t.2|) + PutEnv(t.2))))
  {
    hide Str, U8, U32, Env, PutStr, PutU32, PutEnv;
    var (colorterm, r5) := Str(r);
    var (b, r6) := U8(r5);
    var (n, r7) := U32(r6);
    var (env, r8) := Env(r7, n);
    StrOver(r);
    U8Over(r5);
    U32Over(r6);
    EnvOver(r7, n);
    flag := b;
    OverBoth(r6, r7, r8, PutU32(n), PutEnv(env));
    OverBoth(r5, r6, r8, [b], PutU32(n) + PutEnv(env));
    OverBoth(r, r5, r8, PutStr(colorterm), [b] + (PutU32(n) + PutEnv(env)));
    if r8.ok { assert n % 0x1_0000_0000 == n && |env| == n; }
  }

  lemma HelloOver(r: Cursor) returns (flag: byte)
    requires Inside(r)
    ensures var (m, q) := ReadHello(r); m.Hello? && FlagFits(m, flag) && Over(r, q, BodyWith(m, flag))
  {
    hide Str, U16, U32, PutStr, PutU16, PutU32, PutEnv, Over, PutLength, ReadHello, ReadHelloTail;
    var (id, r1) := U32(r);
    var (cols, r2) := U16(r1);
    var (rows, r3) := U16(r2);
    var (term, r4) := Str(r3);
    var (t, r8) := ReadHelloTail(r4);
    U32Over(r);
    U16Over(r1);
    U16Over(r2);
    StrOver(r3);
    flag := HelloTailOver(r4);
    ReadHelloParts(r);
    var tail := PutStr(t.0) + ([flag] + (PutLength(|t.2|) + PutEnv(t.2)));
    OverBoth(r3, r4, r8, PutStr(term), tail);
    OverBoth(r2, r3, r8, PutU16(rows), PutStr(term) + tail);
    OverBoth(r1, r2, r8, PutU16(cols), PutU16(rows) + (PutStr(term) + tail));
    OverBoth(r, r1, r8, PutU32(id), PutU16(cols) + (PutU16(rows) + (PutStr(term) + tail)));
  }

  lemma BodyOver(tag: byte, r: Cursor) returns (flag: byte)
    requires KnownTag(tag) && Inside(r)
    ensures var (m, q) := ReadBody(tag, r); TagOf(m) == tag && FlagFits(m, flag) && Over(r, q, BodyWith(m, flag))
  {
    hide Str, U16, PutStr, PutU16, ReadHello;
    flag := 0;
    if tag == 1 {
      flag := HelloOver(r);
    } else if tag == 2 {
      NothingOver(r);
    } else if tag == 6 {
      var (w, r1) := U16(r);
      U16Over(r);
      U16Over(r1);
      OverBoth(r, r1, U16(r1).1, PutU16(w), PutU16(U16(r1).0));
    } else {
      StrOver(r);
    }
  }

  /** A body is accepted as a message only if it is that message's body, to the last byte; the truth value
      of Hello may be any byte that is not 0 for true. */
  lemma DecodeIsStrict(tag: byte, body: bytes) returns (flag: byte)
    requires KnownTag(tag) && Decode(tag, body).Some?
    ensures var m := Decode(tag, body).value; TagOf(m) == tag && FlagFits(m, flag) && body == BodyWith(m, flag)
  {
    hide ReadBody, BodyWith;
    var r := Cursor(body, 0, true);
    flag := BodyOver(tag, r);
    var (m, q) := ReadBody(tag, r);
    assert body[0..|body|] == body;
  }

  /** Big-endian, as written: the byte order of the wire. */
  lemma WireOrder(v: uint32)
    ensures PutU32(v) == [v / 0x100_0000, v / 0x1_0000 % 0x100, v / 0x100 % 0x100, v % 0x100]
  {
    var hi, lo := v / 0x1_0000, v % 0x1_0000;
    assert PutU32(v) == [hi / 256, hi % 256] + [lo / 256, lo % 256];
    BytesOf(v);
  }

  lemma BytesOf(v: uint32)
    ensures var hi, lo := v / 0x1_0000, v % 0x1_0000;
      && hi / 256 == v / 0x100_0000 && hi % 256 == v / 0x1_0000 % 0x100
      && lo / 256 == v / 0x100 % 0x100 && lo % 256 == v % 0x100
  {
  }

  /** A resize to 80 columns and 24 lines, byte by byte. */
  lemma ResizeOnTheWire()
    ensures Encode(Resize(80, 24)) == [6, 0, 0, 0, 4, 0, 80, 0, 24]
  {
    assert Body(Resize(80, 24)) == [0, 80, 0, 24];
    WireOrder(4);
  }

  /** The tag of each message on the wire, before its length. */
  lemma TagsOnTheWire(m: Msg)
    ensures Encode(m) == [if m.Hello? then 1 else if m.Welcome? then 2 else if m.Incompatible? then 3
                          else if m.Detached? then 4 else if m.Input? then 5 else if m.Resize? then 6 else 7]
                         + PutLength(|Body(m)|) + Body(m)
  {
    hide Body, PutLength;
  }

  /** The fields of Hello in order: build, columns, lines, the terminal's name and colours, UTF-8, environment. */
  lemma HelloOnTheWire(term: bytes, colorterm: bytes)
    requires |term| < 256 && |colorterm| < 256
    ensures Body(Hello(7, 80, 24, term, colorterm, true, []))
         == [0, 0, 0, 7] + ([0, 80] + ([0, 24] + (([0, 0, 0, |term|] + term) + (([0, 0, 0, |colorterm|] + colorterm)
            + ([1] + ([0, 0, 0, 0] + []))))))
  {
    WireOrder(7);
    WireOrder(0);
    ShortText(term);
    ShortText(colorterm);
    assert PutU16(80) == [0, 80] && PutU16(24) == [0, 24];
    assert PutLength(0) == PutU32(0) && PutEnv([]) == [];
    hide PutU32, PutU16, PutStr, PutLength, PutEnv;
  }

  lemma ShortText(s: bytes)
    requires |s| < 256
    ensures PutStr(s) == [0, 0, 0, |s|] + s
  {
    WireOrder(|s|);
    hide PutU32;
  }
}
