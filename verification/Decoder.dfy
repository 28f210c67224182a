// The incremental decoder: messages arrive cut anywhere (common/proto.cpp).

module Decoder {
  import opened Bytes
  import opened Cells
  import opened Proto

  // ---- What `next` does, as a function of the bytes not yet consumed.

  /** Waiting: no whole message is there; what was skipped is gone from `rest`. */
  datatype Outcome = Waiting(rest: bytes) | Violation | Delivered(msg: Msg, rest: bytes)

  /** The length announced by a header. */
  function Announced(p: bytes): nat
    requires |p| >= HEADER_SIZE
  {
    U32(Cursor(p, 1, true)).0
  }

  function NextOf(p: bytes): Outcome
    decreases |p|
  {
    if |p| < HEADER_SIZE then Waiting(p)
    else
      var len := Announced(p);
      if len > MAX_MESSAGE then Violation
      else if |p| < HEADER_SIZE + len then Waiting(p)
      else
        var body, rest := p[HEADER_SIZE..HEADER_SIZE + len], p[HEADER_SIZE + len..];
        if !KnownTag(p[0]) then NextOf(rest)
        else
          match Decode(p[0], body)
          case None => Violation
          case Some(m) => Delivered(m, rest)
  }

  lemma {:induction false} NextShrinks(p: bytes)
    ensures NextOf(p).Delivered? ==> |NextOf(p).rest| < |p|
    ensures NextOf(p).Waiting? ==> |NextOf(p).rest| <= |p|
    decreases |p|
  {
    hide Decode, Announced;
    if |p| >= HEADER_SIZE && Announced(p) <= MAX_MESSAGE && |p| >= HEADER_SIZE + Announced(p) && !KnownTag(p[0]) {
      NextShrinks(p[HEADER_SIZE + Announced(p)..]);
    }
  }

  // ---- A connection: pieces received, the decoder drained after each.

  datatype State = State(pending: bytes, failed: bool)

  const DEAD := State([], true)

  function FeedState(s: State, piece: bytes): State {
    if s.failed || piece == [] then s
    else if |s.pending| + |piece| > MAX_BUFFER then DEAD
    else s.(pending := s.pending + piece)
  }

  /** Everything `next` delivers until it has nothing to give. */
  function Drain(p: bytes): (seq<Msg>, State)
    decreases |p|
  {
    NextShrinks(p);
    match NextOf(p)
    case Waiting(rest) => ([], State(rest, false))
    case Violation => ([], DEAD)
    case Delivered(m, rest) => var (ms, s) := Drain(rest); ([m] + ms, s)
  }

  function Session(s: State, pieces: seq<bytes>): (seq<Msg>, State)
    decreases |pieces|
  {
    if pieces == [] then ([], s)
    else
      var fed := FeedState(s, pieces[0]);
      var (ms, drained) := if fed.failed then ([], fed) else Drain(fed.pending);
      var (more, end) := Session(drained, pieces[1..]);
      (ms + more, end)
  }

  /** Failure is permanent and silent. */
  lemma {:induction false} FailureIsPermanent(pieces: seq<bytes>)
    ensures Session(DEAD, pieces) == ([], DEAD)
  {
    if pieces != [] {
      FailureIsPermanent(pieces[1..]);
      assert FeedState(DEAD, pieces[0]) == DEAD;
      assert [] + Session(DEAD, pieces[1..]).0 == [];
    }
  }

  // ---- What the peer sends.

  /** A message of this version, or a well-framed one of a version to come. */
  datatype Item = Known(msg: Msg) | Unknown(tag: byte, body: bytes)

  predicate Fits(it: Item) {
    match it
    case Known(m) => |Body(m)| <= MAX_MESSAGE
    case Unknown(tag, body) => !KnownTag(tag) && |body| <= MAX_MESSAGE
  }

  function Wire(it: Item): bytes {
    match it
    case Known(m) => Encode(m)
    case Unknown(tag, body) => Framed(tag, body)
  }

  function WireAll(items: seq<Item>): bytes {
    if items == [] then [] else Wire(items[0]) + WireAll(items[1..])
  }

  function Messages(items: seq<Item>): seq<Msg> {
    if items == [] then []
    else (if items[0].Known? then [items[0].msg] else []) + Messages(items[1..])
  }

  function Concat(pieces: seq<bytes>): bytes {
    if pieces == [] then [] else pieces[0] + Concat(pieces[1..])
  }

  lemma HeaderIsRead(tag: byte, body: bytes, rest: bytes)
    requires |body| <= MAX_MESSAGE
    ensures var p := Framed(tag, body) + rest;
      |p| >= HEADER_SIZE && p[0] == tag && Announced(p) == |body|
      && |p| == HEADER_SIZE + |body| + |rest|
      && p[HEADER_SIZE..HEADER_SIZE + |body|] == body && p[HEADER_SIZE + |body|..] == rest
  {
    hide PutU32, U32;
    var p := Framed(tag, body) + rest;
    var r := Cursor(p, 1, true);
    assert p[1..5] == PutLength(|body|);
    ReadsU32(r, |body|);
  }

  /** A header alone already announces the length. */
  lemma HeaderIsEnough(tag: byte, body: bytes, p: bytes)
    requires |body| <= MAX_MESSAGE && HEADER_SIZE <= |p| <= |Framed(tag, body)| && p == Framed(tag, body)[..|p|]
    ensures Announced(p) == |body| && p[0] == tag && |Framed(tag, body)| == HEADER_SIZE + |body|
  {
    hide PutU32, U32;
    var r := Cursor(p, 1, true);
    assert p[1..5] == PutLength(|body|);
    ReadsU32(r, |body|);
  }

  lemma WholeItem(it: Item, rest: bytes)
    requires Fits(it)
    ensures NextOf(Wire(it) + rest) == if it.Known? then Delivered(it.msg, rest) else NextOf(rest)
  {
    hide Framed, Announced, Decode, Body;
    var tag := if it.Known? then TagOf(it.msg) else it.tag;
    var body := if it.Known? then Body(it.msg) else it.body;
    assert Wire(it) == Framed(tag, body);
    HeaderIsRead(tag, body, rest);
    if it.Known? {
      assert Decode(tag, body) == Some(it.msg) by { DecodeBody(it.msg); }
    }
  }

  lemma PartialItem(it: Item, p: bytes)
    requires Fits(it) && |p| < |Wire(it)| && p == Wire(it)[..|p|]
    ensures NextOf(p) == Waiting(p)
  {
    hide Framed, Announced, Decode, Body;
    var tag := if it.Known? then TagOf(it.msg) else it.tag;
    var body := if it.Known? then Body(it.msg) else it.body;
    assert Wire(it) == Framed(tag, body);
    if |p| >= HEADER_SIZE {
      HeaderIsEnough(tag, body, p);
    }
  }

  /** What is pending is a strict prefix of the next item, or nothing if there is none. */
  predicate Incomplete(p: bytes, items: seq<Item>) {
    if items == [] then p == [] else |p| < |Wire(items[0])|
  }

  predicate IsPrefix(p: bytes, s: bytes) { |p| <= |s| && s[..|p|] == p }

  /** Draining a prefix of the wire delivers the messages it completes, skips the unknown items it
      completes, and keeps the rest. */
  lemma {:induction false} DrainPrefix(p: bytes, items: seq<Item>) returns (k: nat)
    requires IsPrefix(p, WireAll(items)) && forall i :: 0 <= i < |items| ==> Fits(items[i])
    ensures k <= |items|
    ensures var rest := Drain(p).1.pending;
      Drain(p).0 + Messages(items[k..]) == Messages(items) && !Drain(p).1.failed
      && p + WireAll(items)[|p|..] == WireAll(items)
      && |rest| <= |WireAll(items[k..])|
      && rest + WireAll(items)[|p|..] == WireAll(items[k..])
      && Incomplete(rest, items[k..])
    decreases |items|
  {
    hide NextOf, Wire, Fits;
    if items == [] {
      k := 0;
      NothingPending();
      assert items[0..] == items;
    } else if |p| < |Wire(items[0])| {
      k := 0;
      assert p == Wire(items[0])[..|p|];
      PartialItem(items[0], p);
      assert items[0..] == items;
    } else {
      var w, q := Wire(items[0]), p[|Wire(items[0])|..];
      assert p == w + q by { PrefixSplit(p, w, WireAll(items[1..])); }
      assert IsPrefix(q, WireAll(items[1..])) by { PrefixSplit(p, w, WireAll(items[1..])); }
      k := DrainPrefix(q, items[1..]);
      WholeItem(items[0], q);
      DrainSkips(items[0], q);
      assert WireAll(items)[|p|..] == WireAll(items[1..])[|q|..];
      assert items[1..][k..] == items[k + 1..];
      k := k + 1;
    }
  }

  lemma NothingPending()
    ensures NextOf([]) == Waiting([])
  {
  }

  lemma PrefixSplit(p: bytes, w: bytes, tail: bytes)
    requires IsPrefix(p, w + tail) && |w| <= |p|
    ensures p == w + p[|w|..] && IsPrefix(p[|w|..], tail)
  {
    assert (w + tail)[..|p|] == w + tail[..|p| - |w|];
  }

  lemma DrainSkips(it: Item, q: bytes)
    requires Fits(it)
    ensures Drain(Wire(it) + q) == ((if it.Known? then [it.msg] else []) + Drain(q).0, Drain(q).1)
  {
    hide NextOf, Wire;
    WholeItem(it, q);
    if it.Unknown? {
      assert [] + Drain(q).0 == Drain(q).0;
    }
  }

  lemma WireIsShort(it: Item)
    requires Fits(it)
    ensures |Wire(it)| <= HEADER_SIZE + MAX_MESSAGE
  {
    hide Body;
  }

  lemma {:induction false} SessionFrom(s: State, pieces: seq<bytes>, items: seq<Item>)
    requires !s.failed && Incomplete(s.pending, items) && s.pending + Concat(pieces) == WireAll(items)
    requires forall i :: 0 <= i < |items| ==> Fits(items[i])
    requires forall i :: 0 <= i < |pieces| ==> |pieces[i]| <= MAX_PIECE
    ensures Session(s, pieces) == (Messages(items), State([], false))
    decreases |pieces|
  {
    hide Drain, Wire, Fits;
    if pieces == [] {
      assert s.pending == WireAll(items);
    } else {
      if items != [] { WireIsShort(items[0]); }
      var fed := FeedState(s, pieces[0]);
      assert fed == State(s.pending + pieces[0], false);
      var p := fed.pending;
      assert p + Concat(pieces[1..]) == WireAll(items);
      assert IsPrefix(p, WireAll(items));
      var k := DrainPrefix(p, items);
      assert WireAll(items)[|p|..] == Concat(pieces[1..]);
      SessionFrom(Drain(p).1, pieces[1..], items[k..]);
    }
  }

  /** Any list of messages, with well-framed items of unknown tags in between, cut anywhere into
      pieces of at most one mebibyte, comes out as exactly that list, and nothing is left. */
  lemma WireRoundTrip(items: seq<Item>, pieces: seq<bytes>)
    requires forall i :: 0 <= i < |items| ==> Fits(items[i])
    requires forall i :: 0 <= i < |pieces| ==> |pieces[i]| <= MAX_PIECE
    requires Concat(pieces) == WireAll(items)
    ensures Session(State([], false), pieces) == (Messages(items), State([], false))
  {
    if items != [] {
      hide Body;
      assert |Wire(items[0])| > 0;
    }
    assert [] + Concat(pieces) == WireAll(items);
    SessionFrom(State([], false), pieces, items);
  }
}
