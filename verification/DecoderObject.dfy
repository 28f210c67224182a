// The decoder as the program keeps it: a buffer whose consumed head is dropped lazily, and a
// reader that walks a body (common/proto.cpp).

module DecoderObject {
  import opened Bytes
  import opened Cells
  import opened Proto
  import opened Decoder

  /** Walks a body; its state is the cursor of the specification. */
  class Reader {
    const s: bytes
    var i: nat
    var ok: bool

    function At(): Cursor
      reads this
    {
      Cursor(s, i, ok)
    }

    constructor (s: bytes)
      ensures this.s == s && At() == Cursor(s, 0, true)
    {
      this.s := s;
      i, ok := 0, true;
    }

    method ReadU8() returns (v: byte)
      modifies this
      ensures (v, At()) == U8(old(At()))
    {
      if i + 1 > |s| {
        ok := false;
        return 0;
      }
      v := s[i];
      i := i + 1;
    }

    method ReadU16() returns (v: uint16)
      modifies this
      ensures (v, At()) == U16(old(At()))
    {
      hide U8;
      var hi: int := ReadU8();
      var lo: int := ReadU8();
      v := hi * 256 + lo;
    }

    method ReadU32() returns (v: uint32)
      modifies this
      ensures (v, At()) == U32(old(At()))
    {
      hide U16;
      var hi: int := ReadU16();
      var lo: int := ReadU16();
      v := hi * 0x1_0000 + lo;
    }

    method ReadStr() returns (v: bytes)
      modifies this
      ensures (v, At()) == Str(old(At()))
    {
      hide U32;
      var n := ReadU32();
      if !ok || i + n > |s| {
        ok := false;
        return [];
      }
      v := s[i..i + n];
      i := i + n;
    }

    method ReadEnv(n: nat) returns (env: seq<(bytes, bytes)>)
      modifies this
      ensures (env, At()) == Env(old(At()), n)
    {
      hide Str;
      env := [];
      var k := 0;
      assert [] + Env(At(), n).0 == Env(At(), n).0;
      while k < n && ok
        invariant k <= n
        invariant Env(old(At()), n) == (env + Env(At(), n - k).0, Env(At(), n - k).1)
      {
        ghost var before := At();
        var key := ReadStr();
        var value := ReadStr();
        assert Env(before, n - k).0 == [(key, value)] + Env(At(), n - k - 1).0;
        assert env + ([(key, value)] + Env(At(), n - k - 1).0) == (env + [(key, value)]) + Env(At(), n - k - 1).0;
        env := env + [(key, value)];
        k := k + 1;
      }
      assert env + [] == env;
    }

    method ReadMessage(tag: byte) returns (m: Msg)
      requires KnownTag(tag)
      modifies this
      ensures (m, At()) == ReadBody(tag, old(At()))
    {
      hide Str, U8, U16, U32, Env;
      match tag {
        case 1 =>
          var id := ReadU32();
          var cols := ReadU16();
          var rows := ReadU16();
          var term := ReadStr();
          var colorterm := ReadStr();
          var utf8 := ReadU8();
          var n := ReadU32();
          var env := ReadEnv(n);
          m := Hello(id, cols, rows, term, colorterm, utf8 != 0, env);
        case 2 => m := Welcome;
        case 3 => var x := ReadStr(); m := Incompatible(x);
        case 4 => var x := ReadStr(); m := Detached(x);
        case 5 => var x := ReadStr(); m := Input(x);
        case 6 => var w := ReadU16(); var h := ReadU16(); m := Resize(w, h);
        case 7 => var x := ReadStr(); m := FrameMsg(x);
      }
    }
  }

  const COMPACT_MIN_SIZE := 4096

  /** `consumed` and `shifted` are the account of the whole run: bytes read past, bytes moved. */
  class Incremental {
    var buf: bytes
    var pos: nat
    var failed: bool
    ghost var consumed: nat
    ghost var shifted: nat

    /** The consumed head is small, or less than half the buffer; moving what is left never costs
        more than what was consumed to earn it. */
    ghost predicate Valid()
      reads this
    {
      && pos <= |buf| && |buf| - pos <= MAX_BUFFER
      && (failed ==> buf == [])
      && (pos < COMPACT_MIN_SIZE || 2 * pos < |buf|)
      && shifted + pos <= consumed
    }

    function Pending(): bytes
      reads this
      requires pos <= |buf|
    {
      buf[pos..]
    }

    ghost function Model(): State
      reads this
      requires pos <= |buf|
    {
      State(Pending(), failed)
    }

    constructor ()
      ensures Valid() && Model() == State([], false) && consumed == shifted == 0
    {
      buf, pos, failed := [], 0, false;
      consumed, shifted := 0, 0;
    }

    method Fail()
      requires Valid()
      modifies this
      ensures Valid() && Model() == DEAD && consumed == old(consumed) && shifted == old(shifted)
    {
      failed := true;
      pos := 0;
      buf := [];
    }

    /** Drops the consumed head, but only once it is at least half of a buffer worth shifting.
        A fully drained buffer may also be released outright: that depends on its capacity. */
    method Compact()
      requires pos <= |buf| && |buf| - pos <= MAX_BUFFER && (failed ==> buf == []) && shifted + pos <= consumed
      modifies this
      ensures Valid() && Model() == old(Model()) && consumed == old(consumed)
    {
      if pos == 0 {
        return;
      }
      var capacityIsLarge: bool := *;
      if pos == |buf| && capacityIsLarge {
        assert buf[pos..] == [];
        buf := [];
        pos := 0;
        return;
      }
      if |buf| < COMPACT_MIN_SIZE || pos * 2 < |buf| {
        return;
      }
      shifted := shifted + (|buf| - pos);
      buf := buf[pos..];
      pos := 0;
    }

    /** The physical buffer stays under twice the ceiling, and bytes moved under bytes consumed. */
    method Feed(piece: bytes)
      requires Valid()
      modifies this
      ensures Valid() && Model() == FeedState(old(Model()), piece)
      ensures |buf| <= 2 * MAX_BUFFER && shifted <= consumed == old(consumed)
    {
      if failed {
        return;
      }
      if piece == [] {
        return;
      }
      if |buf| - pos + |piece| > MAX_BUFFER {
        Fail();
        return;
      }
      assert (buf + piece)[pos..] == buf[pos..] + piece;
      buf := buf + piece;
    }

    /** One message at most: skipped if its tag is unknown, delivered or refused otherwise. */
    method TakeOne() returns (over: bool, m: Option<Msg>)
      requires Valid() && !failed
      modifies this
      ensures Valid()
      ensures !over ==> !failed && |Pending()| < |old(Pending())| && NextOf(Pending()) == NextOf(old(Pending()))
      ensures over ==>
        match NextOf(old(Pending()))
        case Waiting(rest) => m.None? && Model() == State(rest, false)
        case Violation => m.None? && Model() == DEAD
        case Delivered(msg, rest) => m == Some(msg) && Model() == State(rest, false)
    {
      hide Decode, ReadBody, U32, Announced;
      over, m := true, None;
      if |buf| - pos < HEADER_SIZE {
        return;
      }
      ghost var p := Pending();
      var tag, len := Header();
      if len > MAX_MESSAGE {
        Fail();
        return;
      }
      if |buf| - pos < HEADER_SIZE + len {
        return;
      }
      var body := buf[pos + HEADER_SIZE..pos + HEADER_SIZE + len];
      assert body == p[HEADER_SIZE..HEADER_SIZE + len];
      assert buf[pos + (HEADER_SIZE + len)..] == p[HEADER_SIZE + len..];
      if !KnownTag(tag) {
        Advance(HEADER_SIZE + len);
        return false, None;
      }
      var msg, accepted := ReadWhole(tag, body);
      if !accepted {
        Fail();
        return;
      }
      Advance(HEADER_SIZE + len);
      m := Some(msg);
    }

    /** Depends on the unconsumed bytes only, never on how they are laid out in the buffer. */
    method Next() returns (m: Option<Msg>)
      requires Valid()
      modifies this
      ensures Valid() && |buf| <= 2 * MAX_BUFFER && shifted <= consumed
      ensures if old(failed) then m.None? && Model() == old(Model())
        else match NextOf(old(Pending()))
          case Waiting(rest) => m.None? && Model() == State(rest, false)
          case Violation => m.None? && Model() == DEAD
          case Delivered(msg, rest) => m == Some(msg) && Model() == State(rest, false)
    {
      hide NextOf;
      if failed {
        return None;
      }
      while true
        invariant Valid() && !failed
        invariant NextOf(Pending()) == NextOf(old(Pending()))
        decreases |Pending()|
      {
        var over, found := TakeOne();
        if over {
          return found;
        }
      }
    }

    /** The tag and the announced length of the message at hand. */
    method Header() returns (tag: byte, len: uint32)
      requires pos + HEADER_SIZE <= |buf|
      ensures tag == Pending()[0] && len == Announced(Pending())
    {
      HeaderReads(buf[pos..]);
      hide U8, U32;
      var head := new Reader(buf[pos..]);
      tag := head.ReadU8();
      len := head.ReadU32();
    }

    static lemma HeaderReads(p: bytes)
      requires |p| >= HEADER_SIZE
      ensures U8(Cursor(p, 0, true)) == (p[0], Cursor(p, 1, true))
      ensures U32(Cursor(p, 1, true)).0 == Announced(p)
    {
    }

    /** Reads a body to its end; refuses one that runs short or leaves bytes over. */
    method ReadWhole(tag: byte, body: bytes) returns (m: Msg, accepted: bool)
      requires KnownTag(tag)
      ensures Decode(tag, body) == if accepted then Some(m) else None
    {
      hide ReadBody;
      var r := new Reader(body);
      m := r.ReadMessage(tag);
      accepted := r.ok && r.i == |body|;
    }

    method Advance(n: nat)
      requires Valid() && !failed && pos + n <= |buf|
      modifies this
      ensures Valid() && !failed && Pending() == old(buf[pos + n..]) && consumed == old(consumed) + n
    {
      pos := pos + n;
      consumed := consumed + n;
      Compact();
    }
  }
}
