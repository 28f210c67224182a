// The wire format between daemon and client: encoder and body reader (common/proto.cpp).

module Proto {
  import opened Bytes
  import opened Cells

  type uint16 = v: int | 0 <= v < 0x1_0000
  type uint32 = v: int | 0 <= v < 0x1_0000_0000

  datatype Msg =
    | Hello(buildId: uint32, cols: uint16, rows: uint16, term: bytes, colorterm: bytes, utf8: bool,
            env: seq<(bytes, bytes)>)
    | Welcome
    | Incompatible(reason: bytes)
    | Detached(why: bytes)
    | Input(keys: bytes)
    | Resize(w: uint16, h: uint16)
    | FrameMsg(ansi: bytes)

  const MAX_MESSAGE := 32 * 1024 * 1024
  const HEADER_SIZE := 5
  const MAX_PIECE := 1024 * 1024
  const MAX_BUFFER := MAX_MESSAGE + HEADER_SIZE + MAX_PIECE

  // ---- Encoding.

  function PutU16(v: uint16): bytes { [v / 256, v % 256] }

  function PutU32(v: uint32): bytes { PutU16(v / 0x1_0000) + PutU16(v % 0x1_0000) }

  /** A length field holds 32 bits, whatever the length. */
  function PutLength(n: nat): (s: bytes)
    ensures |s| == 4
  {
    PutU32(n % 0x1_0000_0000)
  }

  function PutStr(s: bytes): bytes { PutLength(|s|) + s }

  function PutEnv(env: seq<(bytes, bytes)>): bytes {
    if env == [] then [] else PutStr(env[0].0) + PutStr(env[0].1) + PutEnv(env[1..])
  }

  function TagOf(m: Msg): byte {
    match m
    case Hello(_, _, _, _, _, _, _) => 1
    case Welcome => 2
    case Incompatible(_) => 3
    case Detached(_) => 4
    case Input(_) => 5
    case Resize(_, _) => 6
    case FrameMsg(_) => 7
  }

  function Body(m: Msg): bytes {
    match m
    case Hello(id, cols, rows, term, colorterm, utf8, env) =>
      PutU32(id) + (PutU16(cols) + (PutU16(rows) + (PutStr(term) + (PutStr(colorterm) +
      ([if utf8 then 1 else 0] + (PutLength(|env|) + PutEnv(env)))))))
    case Welcome => []
    case Incompatible(reason) => PutStr(reason)
    case Detached(why) => PutStr(why)
    case Input(keys) => PutStr(keys)
    case Resize(w, h) => PutU16(w) + PutU16(h)
    case FrameMsg(ansi) => PutStr(ansi)
  }

  function Framed(tag: byte, body: bytes): bytes { [tag] + PutLength(|body|) + body }

  function Encode(m: Msg): bytes { Framed(TagOf(m), Body(m)) }

  // ---- Reading.

  /** A cursor over a body; once a read runs past the end, `ok` stays false. */
  datatype Cursor = Cursor(s: bytes, i: nat, ok: bool)

  function U8(r: Cursor): (byte, Cursor) {
    if r.i + 1 > |r.s| then (0, r.(ok := false)) else (r.s[r.i], r.(i := r.i + 1))
  }

  function U16(r: Cursor): (uint16, Cursor) {
    var (hi, r1) := U8(r);
    var (lo, r2) := U8(r1);
    (hi * 256 + lo, r2)
  }

  function U32(r: Cursor): (uint32, Cursor) {
    var (hi, r1) := U16(r);
    var (lo, r2) := U16(r1);
    (hi * 0x1_0000 + lo, r2)
  }

  function Str(r: Cursor): (bytes, Cursor) {
    var (n, r1) := U32(r);
    if !r1.ok || r1.i + n > |r1.s| then ([], r1.(ok := false))
    else (r1.s[r1.i..r1.i + n], r1.(i := r1.i + n))
  }

  function Env(r: Cursor, n: nat): (seq<(bytes, bytes)>, Cursor)
    decreases n
  {
    if n == 0 || !r.ok then ([], r)
    else
      var (key, r1) := Str(r);
      var (value, r2) := Str(r1);
      var (rest, r3) := Env(r2, n - 1);
      ([(key, value)] + rest, r3)
  }

  function ReadHello(r: Cursor): (Msg, Cursor) {
    var (id, r1) := U32(r);
    var (cols, r2) := U16(r1);
    var (rows, r3) := U16(r2);
    var (term, r4) := Str(r3);
    var (colorterm, r5) := Str(r4);
    var (utf8, r6) := U8(r5);
    var (n, r7) := U32(r6);
    var (env, r8) := Env(r7, n);
    (Hello(id, cols, rows, term, colorterm, utf8 != 0, env), r8)
  }

  predicate KnownTag(tag: byte) { 1 <= tag <= 7 }

  function ReadBody(tag: byte, r: Cursor): (Msg, Cursor)
    requires KnownTag(tag)
  {
    match tag
    case 1 => ReadHello(r)
    case 2 => (Welcome, r)
    case 3 => var (s, q) := Str(r); (Incompatible(s), q)
    case 4 => var (s, q) := Str(r); (Detached(s), q)
    case 5 => var (s, q) := Str(r); (Input(s), q)
    case 6 => var (w, q) := U16(r); var (h, p) := U16(q); (Resize(w, h), p)
    case 7 => var (s, q) := Str(r); (FrameMsg(s), q)
  }

  /** A body is accepted when every field fits and none of it is left over. */
  function Decode(tag: byte, body: bytes): Option<Msg>
    requires KnownTag(tag)
  {
    var (m, r) := ReadBody(tag, Cursor(body, 0, true));
    if r.ok && r.i == |body| then Some(m) else None
  }

  // ---- Reading undoes writing.

  /** The bytes x are next. */
  predicate Has(r: Cursor, x: bytes) {
    r.ok && r.i + |x| <= |r.s| && r.s[r.i..r.i + |x|] == x
  }

  function Skip(r: Cursor, n: nat): Cursor { r.(i := r.i + n) }

  lemma HasParts(r: Cursor, a: bytes, b: bytes)
    requires Has(r, a + b)
    ensures Has(r, a) && Has(Skip(r, |a|), b) && Skip(Skip(r, |a|), |b|) == Skip(r, |a + b|)
  {
    var x := a + b;
    assert r.s[r.i..r.i + |x|][..|a|] == r.s[r.i..r.i + |a|];
    assert r.s[r.i..r.i + |x|][|a|..] == r.s[r.i + |a|..r.i + |x|];
  }

  lemma ReadsU8(r: Cursor, v: byte)
    requires Has(r, [v])
    ensures U8(r) == (v, Skip(r, 1))
  {
    assert r.s[r.i..r.i + 1][0] == r.s[r.i];
  }

  lemma ReadsU16(r: Cursor, v: uint16)
    requires Has(r, PutU16(v))
    ensures U16(r) == (v, Skip(r, 2))
  {
    HasParts(r, [v / 256], [v % 256]);
    ReadsU8(r, v / 256);
    ReadsU8(Skip(r, 1), v % 256);
  }

  lemma ReadsU32(r: Cursor, v: uint32)
    requires Has(r, PutU32(v))
    ensures U32(r) == (v, Skip(r, 4))
  {
    hide U16;
    HasParts(r, PutU16(v / 0x1_0000), PutU16(v % 0x1_0000));
    ReadsU16(r, v / 0x1_0000);
    ReadsU16(Skip(r, 2), v % 0x1_0000);
  }

  lemma ReadsStr(r: Cursor, s: bytes)
    requires Has(r, PutStr(s)) && |s| < 0x1_0000_0000
    ensures Str(r) == (s, Skip(r, |PutStr(s)|))
  {
    hide U32, PutU32;
    HasParts(r, PutLength(|s|), s);
    ReadsU32(r, |s|);
  }

  lemma {:induction false} ReadsEnv(r: Cursor, env: seq<(bytes, bytes)>)
    requires Has(r, PutEnv(env))
    requires forall i :: 0 <= i < |env| ==> |env[i].0| < 0x1_0000_0000 && |env[i].1| < 0x1_0000_0000
    ensures Env(r, |env|) == (env, Skip(r, |PutEnv(env)|))
    decreases |env|
  {
    hide Str, PutStr;
    if env != [] {
      var k, v := env[0].0, env[0].1;
      HasParts(r, PutStr(k) + PutStr(v), PutEnv(env[1..]));
      HasParts(r, PutStr(k), PutStr(v));
      var r1 := Skip(r, |PutStr(k)|);
      ReadsStr(r, k);
      ReadsStr(r1, v);
      var r2 := Skip(r1, |PutStr(v)|);
      ReadsEnv(r2, env[1..]);
      assert env == [(k, v)] + env[1..];
    }
  }

  /** Every length in a body fits its 32-bit field when the body fits a message. */
  lemma {:induction false} EnvFits(env: seq<(bytes, bytes)>)
    ensures |PutEnv(env)| >= 8 * |env|
    ensures forall i :: 0 <= i < |env| ==> |env[i].0| + |env[i].1| <= |PutEnv(env)|
  {
    if env != [] {
      EnvFits(env[1..]);
    }
  }

  function HelloTail(m: Msg): bytes
    requires m.Hello?
  {
    PutStr(m.colorterm) + ([if m.utf8 then 1 else 0] + (PutLength(|m.env|) + PutEnv(m.env)))
  }

  function ReadHelloTail(r4: Cursor): ((bytes, bool, seq<(bytes, bytes)>), Cursor) {
    var (colorterm, r5) := Str(r4);
    var (utf8, r6) := U8(r5);
    var (n, r7) := U32(r6);
    var (env, r8) := Env(r7, n);
    ((colorterm, utf8 != 0, env), r8)
  }

  ghost predicate FieldsFit(m: Msg)
    requires m.Hello?
  {
    && |m.term| < 0x1_0000_0000 && |m.colorterm| < 0x1_0000_0000 && |m.env| < 0x1_0000_0000
    && forall i :: 0 <= i < |m.env| ==> |m.env[i].0| < 0x1_0000_0000 && |m.env[i].1| < 0x1_0000_0000
  }

  lemma ReadsHelloTail(r: Cursor, m: Msg)
    requires m.Hello? && FieldsFit(m) && Has(r, HelloTail(m))
    ensures ReadHelloTail(r) == ((m.colorterm, m.utf8, m.env), Skip(r, |HelloTail(m)|))
  {
    hide Str, U8, U32, Env, PutStr, PutEnv, PutU32, Has;
    var flag: byte := if m.utf8 then 1 else 0;
    var x2 := PutLength(|m.env|) + PutEnv(m.env);
    HasParts(r, PutStr(m.colorterm), [flag] + x2);
    ReadsStr(r, m.colorterm);
    var r1 := Skip(r, |PutStr(m.colorterm)|);
    HasParts(r1, [flag], x2);
    ReadsU8(r1, flag);
    var r2 := Skip(r1, 1);
    HasParts(r2, PutLength(|m.env|), PutEnv(m.env));
    ReadsU32(r2, |m.env|);
    ReadsEnv(Skip(r2, 4), m.env);
  }

  lemma ReadsHello(r: Cursor, m: Msg)
    requires m.Hello? && FieldsFit(m) && Has(r, Body(m))
    ensures ReadHello(r) == (m, Skip(r, |Body(m)|))
  {
    hide Str, U16, U32, Env, PutStr, PutU16, PutU32, HelloTail, Has;
    var tail := HelloTail(m);
    assert Body(m) == PutU32(m.buildId) + (PutU16(m.cols) + (PutU16(m.rows) + (PutStr(m.term) + tail))) by {
      BodyOfHello(m);
    }
    HasParts(r, PutU32(m.buildId), PutU16(m.cols) + (PutU16(m.rows) + (PutStr(m.term) + tail)));
    ReadsU32(r, m.buildId);
    U32Length(m.buildId);
    var r1 := Skip(r, 4);
    HasParts(r1, PutU16(m.cols), PutU16(m.rows) + (PutStr(m.term) + tail));
    ReadsU16(r1, m.cols);
    U16Length(m.cols);
    var r2 := Skip(r1, 2);
    HasParts(r2, PutU16(m.rows), PutStr(m.term) + tail);
    ReadsU16(r2, m.rows);
    U16Length(m.rows);
    var r3 := Skip(r2, 2);
    HasParts(r3, PutStr(m.term), tail);
    ReadsStr(r3, m.term);
    var r4 := Skip(r3, |PutStr(m.term)|);
    ReadsHelloTail(r4, m);
    ReadHelloParts(r);
  }

  lemma BodyOfHello(m: Msg)
    requires m.Hello?
    ensures Body(m) == PutU32(m.buildId) + (PutU16(m.cols) + (PutU16(m.rows) + (PutStr(m.term) + HelloTail(m))))
  {
  }

  lemma ReadHelloParts(r: Cursor)
    ensures
      var (id, r1) := U32(r);
      var (cols, r2) := U16(r1);
      var (rows, r3) := U16(r2);
      var (term, r4) := Str(r3);
      var (tail, r8) := ReadHelloTail(r4);
      ReadHello(r) == (Hello(id, cols, rows, term, tail.0, tail.1, tail.2), r8)
  {
    hide Str, U8, U16, U32, Env;
  }

  lemma U16Length(v: uint16)
    ensures |PutU16(v)| == 2
  {
  }

  lemma U32Length(v: uint32)
    ensures |PutU32(v)| == 4
  {
  }

  lemma FieldsOfSmallBodyFit(m: Msg)
    requires m.Hello? && |Body(m)| <= MAX_MESSAGE
    ensures FieldsFit(m)
  {
    hide PutU16, PutU32;
    EnvFits(m.env);
  }

  lemma ReadsOneStr(body: bytes, s: bytes)
    requires body == PutStr(s) && |body| <= MAX_MESSAGE
    ensures Str(Cursor(body, 0, true)) == (s, Cursor(body, |body|, true))
  {
    var r := Cursor(body, 0, true);
    assert r.s[0..|body|] == body;
    hide Str;
    ReadsStr(r, s);
  }

  /** Decoding undoes encoding: every field of every message whose body fits a message. */
  lemma DecodeBody(m: Msg)
    requires |Body(m)| <= MAX_MESSAGE
    ensures Decode(TagOf(m), Body(m)) == Some(m)
  {
    var r := Cursor(Body(m), 0, true);
    assert r.s[0..|Body(m)|] == Body(m);
    assert Has(r, Body(m));
    hide Str, U16, U32, ReadHello, PutStr, PutU16, PutU32;
    match m
    case Hello(_, _, _, _, _, _, _) =>
      FieldsOfSmallBodyFit(m);
      ReadsHello(r, m);
    case Welcome =>
    case Incompatible(s) => ReadsOneStr(Body(m), s);
    case Detached(s) => ReadsOneStr(Body(m), s);
    case Input(s) => ReadsOneStr(Body(m), s);
    case FrameMsg(s) => ReadsOneStr(Body(m), s);
    case Resize(w, h) => ReadsResize(r, w, h);
  }

  lemma ReadsResize(r: Cursor, w: uint16, h: uint16)
    requires r == Cursor(PutU16(w) + PutU16(h), 0, true)
    ensures |r.s| == 4 && U16(r) == (w, Skip(r, 2)) && U16(Skip(r, 2)) == (h, Skip(r, 4))
  {
    assert r.s[0..|r.s|] == r.s;
    U16Length(w);
    U16Length(h);
    assert Has(r, PutU16(w) + PutU16(h));
    hide U16, PutU16;
    HasParts(r, PutU16(w), PutU16(h));
    ReadsU16(r, w);
    ReadsU16(Skip(r, 2), h);
  }
}
