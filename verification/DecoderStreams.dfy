// What the decoder makes of any byte stream whatever, cut anywhere (common/proto.cpp).

module DecoderStreams {
  import opened Bytes
  import opened Cells
  import opened Proto
  import opened ProtoStrict
  import opened Decoder

  /** One framed item. */
  datatype Frame = Frame(tag: byte, body: bytes)

  /** An item the decoder gets past: a message of this version, or an unknown tag. */
  predicate Acceptable(f: Frame) {
    |f.body| <= MAX_MESSAGE && (KnownTag(f.tag) ==> Decode(f.tag, f.body).Some?)
  }

  function Framing(fs: seq<Frame>): bytes {
    if fs == [] then [] else Framed(fs[0].tag, fs[0].body) + Framing(fs[1..])
  }

  function MessageOf(f: Frame): seq<Msg>
    requires Acceptable(f)
  {
    if KnownTag(f.tag) then [Decode(f.tag, f.body).value] else []
  }

  /** The messages among them. */
  function Accepted(fs: seq<Frame>): seq<Msg>
    requires forall i :: 0 <= i < |fs| ==> Acceptable(fs[i])
  {
    if fs == [] then []
    else
      assert Acceptable(fs[0]);
      MessageOf(fs[0]) + Accepted(fs[1..])
  }

  /** The start of an item that is not whole yet. */
  predicate Unfinished(t: bytes) {
    |t| < HEADER_SIZE || (Announced(t) <= MAX_MESSAGE && |t| < HEADER_SIZE + Announced(t))
  }

  /** A length that is too large, or a whole item of a known tag whose body is no message. */
  predicate Malformed(t: bytes) {
    && |t| >= HEADER_SIZE
    && (Announced(t) > MAX_MESSAGE
        || (|t| >= HEADER_SIZE + Announced(t) && KnownTag(t[0])
            && Decode(t[0], t[HEADER_SIZE..HEADER_SIZE + Announced(t)]).None?))
  }

  /** The whole item at the head of p. */
  function HeadOf(p: bytes): Frame
    requires |p| >= HEADER_SIZE && |p| >= HEADER_SIZE + Announced(p)
  {
    Frame(p[0], p[HEADER_SIZE..HEADER_SIZE + Announced(p)])
  }

  lemma HeadIsFramed(p: bytes)
    requires |p| >= HEADER_SIZE && |p| >= HEADER_SIZE + Announced(p)
    ensures p == Framed(HeadOf(p).tag, HeadOf(p).body) + p[HEADER_SIZE + Announced(p)..]
  {
    hide PutU32;
    LengthIsWritten(p);
    var n := Announced(p);
    assert p == [p[0]] + p[1..5] + p[5..5 + n] + p[5 + n..];
  }

  /** What was read as a length is what would be written for it. */
  lemma LengthIsWritten(p: bytes)
    requires |p| >= HEADER_SIZE
    ensures PutLength(Announced(p)) == p[1..5]
  {
    AnnouncedIs(p);
    Quarters(p[1], p[2], p[3], p[4]);
    SmallLength(BigEndian(p[1], p[2], p[3], p[4]));
    hide Announced, PutU32, PutLength, BigEndian;
    assert p[1..5] == [p[1], p[2], p[3], p[4]];
  }

  lemma SmallLength(n: nat)
    requires n < 0x1_0000_0000
    ensures PutLength(n) == PutU32(n)
  {
    hide PutU32;
  }

  function BigEndian(a: int, b: int, c: int, d: int): int { (a * 256 + b) * 0x1_0000 + (c * 256 + d) }

  lemma Half(a: byte, b: byte)
    ensures var v: int := a * 256 + b; 0 <= v < 0x1_0000 && PutU16(v) == [a, b]
  {
    TwoDigits(a, b);
  }

  lemma TwoDigits(a: int, b: int)
    requires 0 <= b < 256
    ensures (a * 256 + b) / 256 == a && (a * 256 + b) % 256 == b
  {
  }

  lemma Quarters(a: byte, b: byte, c: byte, d: byte)
    ensures 0 <= BigEndian(a, b, c, d) < 0x1_0000_0000 && PutU32(BigEndian(a, b, c, d)) == [a, b, c, d]
  {
    Half(a, b);
    Half(c, d);
    var hi: uint16, lo: uint16 := a * 256 + b, c * 256 + d;
    HalvesOf(hi, lo);
    hide PutU16;
    assert PutU32(BigEndian(a, b, c, d)) == PutU16(hi) + PutU16(lo);
  }

  lemma DrainSteps(p: bytes)
    requires |p| >= HEADER_SIZE && Announced(p) <= MAX_MESSAGE && |p| >= HEADER_SIZE + Announced(p)
    requires Acceptable(HeadOf(p))
    ensures var rest := p[HEADER_SIZE + Announced(p)..]; var f := HeadOf(p);
      Drain(p) == (MessageOf(f) + Drain(rest).0, Drain(rest).1)
  {
    hide Decode, Announced;
    var rest := p[HEADER_SIZE + Announced(p)..];
    if !KnownTag(p[0]) {
      assert NextOf(p) == NextOf(rest);
      assert [] + Drain(rest).0 == Drain(rest).0;
    }
  }

  /** Any bytes at all are items the decoder gets past, and then a rest it waits on or fails at; what it
      delivers is the messages among the items. */
  lemma {:induction false} DrainIs(p: bytes) returns (fs: seq<Frame>, t: bytes)
    ensures forall i :: 0 <= i < |fs| ==> Acceptable(fs[i])
    ensures p == Framing(fs) + t && (Unfinished(t) || Malformed(t))
    ensures Drain(p) == (Accepted(fs), if Malformed(t) then DEAD else State(t, false))
    decreases |p|
  {
    hide Decode, Announced, Framed;
    if |p| < HEADER_SIZE || Announced(p) > MAX_MESSAGE || |p| < HEADER_SIZE + Announced(p) || !Acceptable(HeadOf(p)) {
      fs, t := [], p;
    } else {
      var rest, head := p[HEADER_SIZE + Announced(p)..], HeadOf(p);
      HeadIsFramed(p);
      DrainSteps(p);
      hide Drain, HeadOf, MessageOf, Unfinished, Malformed, Framing, Accepted;
      fs, t := DrainIs(rest);
      MoreFrames(head, fs, t);
      fs := [head] + fs;
    }
  }

  lemma MoreFrames(head: Frame, fs: seq<Frame>, t: bytes)
    requires Acceptable(head) && forall i :: 0 <= i < |fs| ==> Acceptable(fs[i])
    ensures forall i :: 0 <= i < |[head] + fs| ==> Acceptable(([head] + fs)[i])
    ensures Framing([head] + fs) + t == Framed(head.tag, head.body) + (Framing(fs) + t)
    ensures Accepted([head] + fs) == MessageOf(head) + Accepted(fs)
  {
    hide Framed, MessageOf, Acceptable;
    assert ([head] + fs)[1..] == fs;
  }

  // ---- Cut anywhere.

  lemma MoreOf(p: bytes, q: bytes)
    requires |p| >= HEADER_SIZE
    ensures Announced(p + q) == Announced(p) && (p + q)[0] == p[0]
    ensures |p| >= HEADER_SIZE + Announced(p) ==>
      HeadOf(p + q) == HeadOf(p) && (p + q)[HEADER_SIZE + Announced(p)..] == p[HEADER_SIZE + Announced(p)..] + q
  {
    AnnouncedIs(p);
    AnnouncedIs(p + q);
    hide Announced;
    var n := Announced(p);
    if |p| >= HEADER_SIZE + n {
      assert (p + q)[HEADER_SIZE..HEADER_SIZE + n] == p[HEADER_SIZE..HEADER_SIZE + n];
    }
  }

  lemma AnnouncedIs(p: bytes)
    requires |p| >= HEADER_SIZE
    ensures Announced(p) == BigEndian(p[1], p[2], p[3], p[4])
  {
  }

  lemma MalformedStays(p: bytes, q: bytes)
    requires Malformed(p)
    ensures Malformed(p + q) && Drain(p + q) == Drain(p) == ([], DEAD)
  {
    MoreOf(p, q);
    hide Decode, Announced;
  }

  /** Draining after each piece delivers what draining the whole does. */
  lemma {:induction false} DrainInTwo(p: bytes, q: bytes)
    ensures Drain(p).1.failed ==> Drain(p + q) == Drain(p)
    ensures !Drain(p).1.failed ==>
      var (ms, s) := Drain(Drain(p).1.pending + q); Drain(p + q) == (Drain(p).0 + ms, s)
    decreases |p|
  {
    hide Decode, Announced;
    if |p| < HEADER_SIZE {
      assert Drain(p) == ([], State(p, false));
      assert [] + Drain(p + q).0 == Drain(p + q).0;
    } else if Malformed(p) {
      MalformedStays(p, q);
    } else if Unfinished(p) {
      assert Drain(p) == ([], State(p, false));
      assert [] + Drain(p + q).0 == Drain(p + q).0;
    } else {
      MoreOf(p, q);
      DrainSteps(p);
      DrainSteps(p + q);
      hide Drain, HeadOf;
      var rest := p[HEADER_SIZE + Announced(p)..];
      DrainInTwo(rest, q);
      Joined(MessageOf(HeadOf(p)), Drain(rest).0, Drain(Drain(rest).1.pending + q).0);
    }
  }

  lemma Joined(a: seq<Msg>, b: seq<Msg>, c: seq<Msg>)
    ensures (a + b) + c == a + (b + c)
  {
  }

  lemma RestIsShort(p: bytes)
    requires !Drain(p).1.failed
    ensures |Drain(p).1.pending| < HEADER_SIZE + MAX_MESSAGE
  {
    var fs, t := DrainIs(p);
  }

  /** Any stream, well-formed or not, cut into pieces of at most one mebibyte in any way, delivers what it
      delivers in one, fails if it does, and keeps the same rest. */
  lemma {:induction false} AnyStream(s: State, pieces: seq<bytes>)
    requires !s.failed && Drain(s.pending) == ([], s) && forall i :: 0 <= i < |pieces| ==> |pieces[i]| <= MAX_PIECE
    ensures Session(s, pieces) == Drain(s.pending + Concat(pieces))
    decreases |pieces|
  {
    hide Drain, Decode, Announced;
    if pieces == [] {
      assert s.pending + Concat(pieces) == s.pending;
    } else {
      RestIsShort(s.pending);
      var fed := FeedState(s, pieces[0]);
      if pieces[0] == [] {
        assert s.pending + [] == s.pending;
      }
      assert fed == State(s.pending + pieces[0], false);
      DrainInTwo(fed.pending, Concat(pieces[1..]));
      assert fed.pending + Concat(pieces[1..]) == s.pending + Concat(pieces);
      var (ms, drained) := Drain(fed.pending);
      if drained.failed {
        DrainFails(fed.pending);
        FailureIsPermanent(pieces[1..]);
        assert ms + [] == ms;
      } else {
        DrainedIsDrained(fed.pending);
        AnyStream(drained, pieces[1..]);
      }
    }
  }

  /** What would make more than one largest message, its header and one piece wait is refused, for good. */
  lemma TooMuchFails(s: State, piece: bytes, more: seq<bytes>)
    requires !s.failed && piece != [] && |s.pending| + |piece| > 32 * 1024 * 1024 + 5 + 1024 * 1024
    ensures Session(s, [piece] + more) == ([], DEAD)
  {
    FailureIsPermanent(more);
    assert ([piece] + more)[1..] == more;
    assert FeedState(s, piece) == DEAD;
    assert [] + Session(DEAD, more).0 == [];
  }

  /** What would not is taken. */
  lemma EnoughIsTaken(s: State, piece: bytes)
    requires !s.failed && |s.pending| + |piece| <= 32 * 1024 * 1024 + 5 + 1024 * 1024
    ensures FeedState(s, piece) == State(s.pending + piece, false)
  {
    assert s.pending + [] == s.pending;
  }

  lemma DrainFails(p: bytes)
    requires Drain(p).1.failed
    ensures Drain(p).1 == DEAD
  {
    var fs, t := DrainIs(p);
  }

  lemma DrainedIsDrained(p: bytes)
    requires !Drain(p).1.failed
    ensures Drain(Drain(p).1.pending) == ([], Drain(p).1)
  {
    var fs, t := DrainIs(p);
    hide Decode, Announced;
    if |t| >= HEADER_SIZE { assert NextOf(t) == Waiting(t); }
  }

  /** The decoder fails on a stream exactly if, after items it gets past, it comes to one with too large a
      length or of a known tag with a body that is no message. */
  lemma FailsIff(p: bytes)
    ensures Drain(p).1.failed <==>
      exists fs: seq<Frame>, t: bytes ::
        (forall i :: 0 <= i < |fs| ==> Acceptable(fs[i])) && p == Framing(fs) + t && Malformed(t)
  {
    var fs0, t0 := DrainIs(p);
    forall fs: seq<Frame>, t: bytes
      | (forall i :: 0 <= i < |fs| ==> Acceptable(fs[i])) && p == Framing(fs) + t && Malformed(t)
      ensures Drain(p).1.failed
    {
      FailsAfter(fs, t);
    }
  }

  lemma {:induction false} FailsAfter(fs: seq<Frame>, t: bytes)
    requires (forall i :: 0 <= i < |fs| ==> Acceptable(fs[i])) && Malformed(t)
    ensures Drain(Framing(fs) + t) == (Accepted(fs), DEAD)
    decreases |fs|
  {
    hide Decode, Announced, Framed;
    if fs == [] {
      assert [] + t == t;
      MalformedStays(t, []);
      assert t + [] == t;
    } else {
      var f, rest := fs[0], Framing(fs[1..]) + t;
      assert Framing(fs) + t == Framed(f.tag, f.body) + rest;
      HeaderIsRead(f.tag, f.body, rest);
      assert HeadOf(Framing(fs) + t) == f;
      DrainSteps(Framing(fs) + t);
      FailsAfter(fs[1..], t);
    }
  }
}
