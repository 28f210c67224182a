// The input parser as the program keeps it (input/parser.cpp, input/parser.hpp): bytes not yet
// understood, events not yet collected, and how far an open paste was searched for its end.

module InputObject {
  import opened Bytes
  import opened Cells
  import opened Utf8
  import opened Input
  import opened InputRuns

  /** How much of an open paste is held back at least, in case its end straddles a cut. */
  const KEEP := 5

  predicate NoEnd(s: bytes, upTo: int) {
    forall i: nat :: i < upTo ==> !EndsAt(s, i)
  }

  /** Where the resumed search starts. */
  function From(scanned: nat): nat { if scanned > KEEP then scanned - KEEP else 0 }

  /** The events read, and the first n bytes of the open paste. */
  function Handed(r: Reading, n: nat): seq<Flat>
    requires n <= |r.rest|
  {
    r.flat + Text(r.rest[..n])
  }

  lemma HandedNone(r: Reading)
    ensures Handed(r, 0) == r.flat
  {
    assert r.rest[..0] == [] && Text([]) == [];
  }

  lemma HandedMore(r: Reading, n: nat, m: nat)
    requires n <= m <= |r.rest|
    ensures Handed(r, m) == Handed(r, n) + Text(r.rest[n..m])
  {
    assert r.rest[..m] == r.rest[..n] + r.rest[n..m];
    assert Text(r.rest[..m]) == Text(r.rest[..n]) + Text(r.rest[n..m]);
  }

  lemma PasteMeans(r: Reading, end: nat)
    requires r.paste && FindEnd(r.rest, 0) == end < |r.rest|
    ensures end + |PASTE_END| <= |r.rest|
    ensures Done(r) == Done(Reading(Handed(r, end) + [PasteOver], false, r.rest[end + |PASTE_END|..]))
  {
    assert EndsAt(r.rest, end);
    assert end + |PASTE_END| <= |r.rest|;
    hide EndsAt, Text;
    var text := Text(r.rest[..end]);
    var m := Meaning(false, r.rest[end + |PASTE_END|..]);
    ThenThen(r.flat, text + [PasteOver], m);
    assert r.flat + (text + [PasteOver]) == (r.flat + text) + [PasteOver];
  }

  /** The parser's fields against what the stream so far means: the text of an open paste was
      handed over up to the buffer, and no terminator starts before the resumed search does. */
  ghost predicate Tracks(r: Reading, buf: bytes, inPaste: bool, scanned: nat, events: seq<Event>) {
    && r.paste == inPaste && |buf| <= |r.rest|
    && var out := |r.rest| - |buf|;
    && buf == r.rest[out..]
    && Flatten(events) == Handed(r, out)
    && (!inPaste ==> out == 0)
    && (inPaste ==> scanned <= |buf| && NoEnd(r.rest, out + From(scanned)) && (out == 0 || |buf| >= KEEP))
  }

  /** Nothing more to do before bytes arrive. */
  ghost predicate Waits(r: Reading, buf: bytes, inPaste: bool, scanned: nat) {
    if inPaste then
      && |buf| < MAX_PASTE_CHUNK && NoEnd(r.rest, |r.rest|)
      && scanned == (if |buf| >= KEEP then |buf| - KEEP else 0)
    else buf == [] || PieceOf(buf).Wait?
  }

  lemma WaitsIsDone(r: Reading, buf: bytes, inPaste: bool, scanned: nat, events: seq<Event>)
    requires Tracks(r, buf, inPaste, scanned, events) && Waits(r, buf, inPaste, scanned)
    ensures Done(r) == r
  {
    hide PieceOf, EndsAt, Flatten;
    if inPaste {
      assert FindEnd(r.rest, 0) == |r.rest| by {
        FindIs(r.rest, 0, |r.rest|);
      }
    } else {
      assert buf == r.rest;
    }
  }

  lemma MoreBytes(r: Reading, buf: bytes, inPaste: bool, scanned: nat, events: seq<Event>, more: bytes)
    requires Tracks(r, buf, inPaste, scanned, events) && Waits(r, buf, inPaste, scanned)
    ensures Tracks(r.(rest := r.rest + more), buf + more, inPaste, scanned, events)
  {
    hide PieceOf, Flatten, EndsAt;
    var out := |r.rest| - |buf|;
    var all := r.rest + more;
    assert |all| - |buf + more| == out;
    assert all[out..] == r.rest[out..] + more;
    assert all[..out] == r.rest[..out];
    if inPaste {
      forall i: nat | i < out + From(scanned) ensures !EndsAt(all, i) {
        EndsAtExtends(r.rest, more, i);
      }
    }
  }

  /** The first terminator in the buffer is the first in the whole text. */
  lemma FoundEnd(s: bytes, out: nat, from: nat)
    requires out + from <= |s| && NoEnd(s, out + from)
    ensures var end := FindEnd(s[out..], from);
      && FindEnd(s, 0) == out + end
      && if out + end < |s| then out + end + |PASTE_END| <= |s| else NoEnd(s, |s|)
  {
    var buf := s[out..];
    var end := FindEnd(buf, from);
    assert end < |buf| ==> EndsAt(buf, end);
    assert forall i: nat :: from <= i < end ==> !EndsAt(buf, i);
    SameEnd(s, out, end);
    hide EndsAt;
    forall j: nat | j < out + end ensures !EndsAt(s, j) {
      if j >= out + from {
        SameEnd(s, out, j - out);
      }
    }
    FindIs(s, 0, out + end);
  }

  lemma FindBounds(s: bytes, from: nat)
    requires from <= |s|
    ensures from <= FindEnd(s, from) <= |s|
  {
  }

  lemma NothingFound(s: bytes, out: nat, from: nat, upTo: nat)
    requires out + from <= |s| && NoEnd(s, out + from) && FindEnd(s[out..], from) == |s| - out && upTo <= |s|
    ensures NoEnd(s, upTo)
  {
    hide FindEnd, EndsAt;
    FoundEnd(s, out, from);
  }

  lemma SameEnd(s: bytes, out: nat, i: nat)
    requires out <= |s|
    ensures EndsAt(s, out + i) == EndsAt(s[out..], i)
  {
    if out + i + |PASTE_END| <= |s| {
      assert s[out..][i..i + |PASTE_END|] == s[out + i..out + i + |PASTE_END|];
    }
  }

  /** The next stretch of an open paste goes out. */
  lemma FragmentOut(r: Reading, n: nat, m: nat, events: seq<Event>, complete: bool)
    requires n <= m <= |r.rest| && Flatten(events) == Handed(r, n)
    ensures Flatten(events + [PasteEvent(r.rest[n..m], complete)])
         == Handed(r, m) + (if complete then [PasteOver] else [])
  {
    hide Flatten, Handed, Text;
    var e := PasteEvent(r.rest[n..m], complete);
    FlattenOne(events, e);
    HandedMore(r, n, m);
  }

  /** A paste that ends: its last fragment completes the text. */
  lemma PasteEnds(r: Reading, buf: bytes, scanned: nat, events: seq<Event>) returns (s: Reading)
    requires Tracks(r, buf, true, scanned, events) && FindEnd(buf, From(scanned)) < |buf|
    ensures FindEnd(buf, From(scanned)) + |PASTE_END| <= |buf|
    ensures var end := FindEnd(buf, From(scanned));
      && Tracks(s, buf[end + |PASTE_END|..], false, 0, events + [PasteEvent(buf[..end], true)])
      && Done(s) == Done(r)
  {
    hide Flatten, EndsAt, FindEnd, NoEnd, Done, Text;
    var out := |r.rest| - |buf|;
    FoundEnd(r.rest, out, From(scanned));
    var end := FindEnd(buf, From(scanned));
    assert r.rest[out..out + end] == buf[..end];
    FragmentOut(r, out, out + end, events, true);
    var tail := r.rest[out + end + |PASTE_END|..];
    assert tail == buf[end + |PASTE_END|..];
    PasteMeans(r, out + end);
    s := Reading(Handed(r, out + end) + [PasteOver], false, tail);
    HandedNone(s);
  }

  lemma CutInBoth(rest: bytes, buf: bytes, out: nat, cut: nat)
    requires out <= |rest| && buf == rest[out..] && cut <= |buf|
    ensures rest[out + cut..] == buf[cut..] && rest[out..out + cut] == buf[..cut]
    ensures |rest| - |buf[cut..]| == out + cut
  {
  }

  lemma TracksGives(r: Reading, buf: bytes, scanned: nat, events: seq<Event>)
    requires Tracks(r, buf, true, scanned, events)
    ensures |buf| <= |r.rest| && r.paste && From(scanned) <= |buf|
    ensures var out := |r.rest| - |buf|;
      && buf == r.rest[out..] && Flatten(events) == Handed(r, out) && NoEnd(r.rest, out + From(scanned))
  {
    hide Flatten, Handed, NoEnd;
  }

  lemma MakeTracks(r: Reading, tail: bytes, out: nat, events: seq<Event>)
    requires r.paste && out <= |r.rest| && tail == r.rest[out..] && |tail| >= KEEP
    requires Flatten(events) == Handed(r, out) && NoEnd(r.rest, out)
    ensures Tracks(r, tail, true, 0, events)
  {
    hide Flatten, Handed, NoEnd;
  }

  /** A paste that is too long to hold: all but its last bytes go out as a fragment. */
  lemma PasteGoesOn(r: Reading, buf: bytes, scanned: nat, events: seq<Event>)
    requires Tracks(r, buf, true, scanned, events) && FindEnd(buf, From(scanned)) == |buf| >= MAX_PASTE_CHUNK
    ensures Tracks(r, buf[|buf| - KEEP..], true, 0, events + [PasteEvent(buf[..|buf| - KEEP], false)])
  {
    hide Flatten, EndsAt, FindEnd, Text, Handed, NoEnd, From, Tracks;
    var out, cut := |r.rest| - |buf|, |buf| - KEEP;
    TracksGives(r, buf, scanned, events);
    NothingFound(r.rest, out, From(scanned), out + cut);
    CutInBoth(r.rest, buf, out, cut);
    FragmentOut(r, out, out + cut, events, false);
    MakeTracks(r, buf[cut..], out + cut, events + [PasteEvent(buf[..cut], false)]);
  }

  lemma PasteSearched(r: Reading, buf: bytes, scanned: nat, events: seq<Event>)
    requires Tracks(r, buf, true, scanned, events) && FindEnd(buf, From(scanned)) == |buf|
    ensures NoEnd(r.rest, |r.rest|)
  {
    hide Flatten, EndsAt, FindEnd, Handed, NoEnd;
    NothingFound(r.rest, |r.rest| - |buf|, From(scanned), |r.rest|);
  }

  lemma NoEndBelow(s: bytes, upTo: int, less: int)
    requires NoEnd(s, upTo) && less <= upTo
    ensures NoEnd(s, less)
  {
    hide EndsAt;
  }

  /** The search may be said to have come further, if nothing ends there. */
  lemma Rescanned(r: Reading, buf: bytes, scanned: nat, n: nat, events: seq<Event>)
    requires Tracks(r, buf, true, scanned, events) && n <= |buf| && NoEnd(r.rest, |r.rest| - |buf| + From(n))
    ensures Tracks(r, buf, true, n, events)
  {
    hide Flatten, EndsAt, FindEnd, Handed, NoEnd;
  }

  lemma PasteWaits(r: Reading, buf: bytes, scanned: nat, events: seq<Event>)
    requires Tracks(r, buf, true, scanned, events) && FindEnd(buf, From(scanned)) == |buf| < MAX_PASTE_CHUNK
    ensures var n := if |buf| >= KEEP then |buf| - KEEP else 0;
      Tracks(r, buf, true, n, events) && Waits(r, buf, true, n)
  {
    var n := if |buf| >= KEEP then |buf| - KEEP else 0;
    PasteSearched(r, buf, scanned, events);
    hide FindEnd, NoEnd, Tracks;
    NoEndBelow(r.rest, |r.rest|, |r.rest| - |buf| + From(n));
    Rescanned(r, buf, scanned, n, events);
  }

  /** A piece outside a paste. */
  lemma PieceTaken(r: Reading, buf: bytes, scanned: nat, events: seq<Event>) returns (s: Reading)
    requires Tracks(r, buf, false, scanned, events) && buf != [] && PieceOf(buf).Took?
    ensures 1 <= PieceOf(buf).used <= |buf|
    ensures var p := PieceOf(buf);
      Tracks(s, buf[p.used..], p.paste, 0, events + p.events) && Done(s) == Done(r)
  {
    hide PieceOf, Tracks, Meaning, Flatten, Handed;
    PieceBounds(buf);
    OutsideIsWhole(r, buf, scanned, events);
    MeaningTakes(buf);
    var p := PieceOf(buf);
    s := Reading(r.flat + Flatten(p.events), p.paste, buf[p.used..]);
    FlattenConcat(events, p.events);
    ThenThen(r.flat, Flatten(p.events), Meaning(p.paste, s.rest));
    StartsTracking(s, events + p.events);
  }

  /** Outside a paste the buffer is all that is left to understand. */
  lemma OutsideIsWhole(r: Reading, buf: bytes, scanned: nat, events: seq<Event>)
    requires Tracks(r, buf, false, scanned, events)
    ensures !r.paste && buf == r.rest && Flatten(events) == r.flat
  {
    hide Flatten, Handed;
    HandedNone(r);
  }

  lemma StartsTracking(s: Reading, events: seq<Event>)
    requires Flatten(events) == s.flat
    ensures Tracks(s, s.rest, s.paste, 0, events)
  {
    hide Flatten, Handed;
    HandedNone(s);
  }

  /** Outside a paste the search position means nothing. */
  lemma ScannedIsIdle(r: Reading, buf: bytes, inPaste: bool, scanned: nat, events: seq<Event>)
    requires Tracks(r, buf, inPaste, 0, events) && (inPaste ==> scanned == 0)
    ensures Tracks(r, buf, inPaste, scanned, events)
  {
  }

  /** An emptied buffer waits: a paste keeps bytes back only from a full one. */
  lemma EmptyWaits(r: Reading, inPaste: bool, scanned: nat, events: seq<Event>)
    requires Tracks(r, [], inPaste, scanned, events)
    ensures Waits(r, [], inPaste, scanned)
  {
    hide Flatten, Handed, PieceOf, EndsAt;
  }

  lemma PieceWaits(r: Reading, buf: bytes, scanned: nat)
    requires buf != [] && PieceOf(buf).Wait?
    ensures Waits(r, buf, false, scanned)
  {
    hide PieceOf;
  }

  lemma LoneEscape(buf: bytes)
    requires buf == [ESC]
    ensures PieceOf(buf) == Wait
  {
  }

  lemma WaitsIsShort(r: Reading, buf: bytes, inPaste: bool, scanned: nat)
    requires Waits(r, buf, inPaste, scanned)
    ensures |buf| < if inPaste then MAX_PASTE_CHUNK else MAX_CSI_PARAMS + 3
  {
    if !inPaste && buf != [] {
      PieceBounds(buf);
    }
  }

  function Raw(s: bytes): seq<Event> {
    seq(|s|, i requires 0 <= i < |s| => KeyEvent(Char, s[i], 0))
  }

  /** What an undecided buffer comes to when nothing more arrives: one replacement character for all
      of it, or the Escape key and then every byte as it was typed. */
  function GivenUp(buf: bytes): seq<Event> {
    if buf == [] then []
    else if buf[0] != ESC then [KeyEvent(Char, DecodeUtf8(buf, 0).0, 0)]
    else [KeyEvent(Escape, 0, 0)] + Raw(buf[1..])
  }

  lemma NothingGivenUp(r: Reading)
    ensures Reading(r.flat + Flatten(GivenUp([])), false, []) == r.(paste := false, rest := [])
  {
  }

  /** Without an ESC the buffer is a lead byte and fewer bytes than it calls for; the decoder takes
      them all, continuations or not. */
  lemma TruncatedTakesAll(buf: bytes)
    requires buf != [] && buf[0] != ESC && PieceOf(buf).Wait?
    ensures DecodeUtf8(buf, 0) == (0xFFFD, |buf|)
  {
  }

  predicate IsContinuation(b: byte) { 0x80 <= b < 0xC0 }

  /** Where the character at the head of the buffer is cut short: at the first byte that cannot
      continue it. */
  function CutShort(buf: bytes, k: nat): (r: nat)
    requires k <= |buf|
    ensures k <= r <= |buf| && (r < |buf| ==> !IsContinuation(buf[r]))
    ensures forall i :: k <= i < r ==> IsContinuation(buf[i])
    decreases |buf| - k
  {
    if k < |buf| && IsContinuation(buf[k]) then CutShort(buf, k + 1) else k
  }

  /** Giving up without losing a typed byte: after the Escape key or the truncated character, every
      byte that is no part of it is an event of its own. */
  function NothingLost(buf: bytes): seq<Event>
    requires buf != []
  {
    if buf[0] == ESC then [KeyEvent(Escape, 0, 0)] + Raw(buf[1..])
    else [KeyEvent(Char, 0xFFFD, 0)] + Raw(buf[CutShort(buf, 1)..])
  }

  /** "A typed byte must never disappear": true of a timeout exactly if the buffer starts with ESC or
      every byte after the first continues the character. */
  lemma TimeoutLosesNothingIff(buf: bytes)
    requires buf != [] && PieceOf(buf).Wait?
    ensures GivenUp(buf) == NothingLost(buf) <==>
      buf[0] == ESC || forall i :: 1 <= i < |buf| ==> IsContinuation(buf[i])
  {
    if buf[0] != ESC {
      TruncatedTakesAll(buf);
      hide PieceOf, DecodeUtf8;
      var k := CutShort(buf, 1);
      assert |NothingLost(buf)| == 1 + |buf| - k;
      assert k == |buf| ==> Raw(buf[k..]) == [];
    }
  }

  /** The letter A typed after the first byte of a four-byte character vanishes. */
  lemma TimeoutSwallowsALetter()
    ensures PieceOf([0xF0, 0x41]).Wait? && GivenUp([0xF0, 0x41]) == [KeyEvent(Char, 0xFFFD, 0)]
    ensures NothingLost([0xF0, 0x41]) == [KeyEvent(Char, 0xFFFD, 0), KeyEvent(Char, 0x41, 0)]
  {
    assert CutShort([0xF0, 0x41], 1) == 1;
    assert [0xF0, 0x41][1..] == [0x41];
  }

  /** `given` is what was collected already, `meant` what the stream so far means. */
  class InputParser {
    var buf: bytes
    var ready: seq<Event>
    var inPaste: bool
    var escPending: bool
    var scanned: nat
    ghost var given: seq<Event>
    ghost var meant: Reading

    ghost predicate Tracking()
      reads this
    {
      Tracks(meant, buf, inPaste, scanned, given + ready)
    }

    /** Between calls. The ambiguity timer is wanted exactly while a lone ESC waits. */
    ghost predicate Valid()
      reads this
    {
      && Tracking() && Waits(meant, buf, inPaste, scanned)
      && escPending == (!inPaste && buf == [ESC])
    }

    constructor ()
      ensures Valid() && meant == Reading([], false, []) && given == ready == []
    {
      buf, ready, inPaste, escPending, scanned := [], [], false, false, 0;
      given, meant := [], Reading([], false, []);
    }

    method Push(e: Event)
      modifies `ready
      ensures ready == old(ready) + [e]
    {
      ready := ready + [e];
    }

    method StepText() returns (used: nat)
      requires buf != [] && buf[0] != ESC
      modifies `ready
      ensures match TextPiece(buf)
        case Wait => used == 0 && ready == old(ready)
        case Took(n, events, opens) => used == n && ready == old(ready) + events && !opens
    {
      hide DecodeFrom;
      var b: int := buf[0];
      if b == 13 || b == 10 {
        Push(KeyEvent(Enter, 0, 0));
        return 1;
      }
      if b == 9 {
        Push(KeyEvent(Tab, 0, 0));
        return 1;
      }
      if b == 0x7F || b == 8 {
        Push(KeyEvent(Backspace, 0, 0));
        return 1;
      }
      if b < 0x20 {
        Push(KeyEvent(Char, if b == 0 then 32 else 96 + b, CTRL));
        return 1;
      }
      if |buf| < Need(buf[0]) + 1 {
        return 0;
      }
      var cp, n := Utf8Decode(buf, 0);
      Push(KeyEvent(Char, cp, 0));
      used := n;
    }

    /** A whole control sequence, its final byte at i. */
    method StepCsi(i: nat) returns (used: nat)
      requires 2 <= i < |buf|
      modifies `ready, `inPaste, `scanned
      ensures match CsiPiece(buf[2..i], buf[i], i + 1)
        case Wait => false
        case Took(n, events, opens) =>
          && used == n && ready == old(ready) + events
          && inPaste == (old(inPaste) || opens) && scanned == if opens then 0 else old(scanned)
    {
      hide SplitFrom, SplitParams, KeyFromFinal, KeyFromTilde;
      var final, params := buf[i], buf[2..i];
      used := i + 1;
      if params != [] && params[0] == 60 {
        var p := Split(params[1..]);
        var piece := MousePiece(p, final, used);
        ready := ready + piece.events;
        return;
      }
      if final == 73 || final == 79 {
        Push(FocusEvent(final == 73));
        return;
      }
      var p := Split(params);
      if final == 126 {
        var n := if p[0] < 0 then 0 else p[0];
        if n == 200 {
          inPaste, scanned := true, 0;
          return;
        }
        Push(KeyEvent(KeyFromTilde(n), 0, SecondMods(p)));
        return;
      }
      Push(KeyEvent(KeyFromFinal(final), 0, SecondMods(p)));
    }

    method StepEscape() returns (used: nat)
      requires buf != [] && buf[0] == ESC && !inPaste
      modifies `ready, `inPaste, `scanned, `escPending
      ensures match EscapePiece(buf)
        case Wait => used == 0 && ready == old(ready) && !inPaste && scanned == old(scanned)
        case Took(n, events, opens) =>
          && used == n && ready == old(ready) + events
          && inPaste == opens && scanned == if opens then 0 else old(scanned)
      ensures escPending == (old(escPending) || buf == [ESC])
    {
      hide CsiPiece, KeyFromFinal;
      if |buf| == 1 {
        escPending := true;
        return 0;
      }
      if buf[1] == 79 {
        if |buf| < 3 {
          return 0;
        }
        Push(KeyEvent(KeyFromFinal(buf[2]), 0, 0));
        return 3;
      }
      if buf[1] != 91 {
        if 0x20 <= buf[1] < 0x7F {
          Push(KeyEvent(Char, buf[1], ALT));
        }
        return 2;
      }
      var i := 2;
      while i < |buf|
        invariant 2 <= i <= |buf| && ScanCsi(buf, i) == ScanCsi(buf, 2)
      {
        if i - 2 >= MAX_CSI_PARAMS {
          return i;
        }
        if IsCsiFinal(buf[i]) {
          break;
        }
        i := i + 1;
      }
      if i >= |buf| {
        return 0;
      }
      used := StepCsi(i);
    }

    /** In a paste: the search resumes a little before where the last one stopped. */
    method StepPaste() returns (used: nat)
      requires Tracking() && inPaste && buf != []
      modifies `ready, `inPaste, `scanned, `meant
      ensures used <= |buf| && Done(meant) == old(Done(meant))
      ensures Tracks(meant, buf[used..], inPaste, scanned, given + ready)
      ensures used == 0 ==> meant == old(meant) && inPaste && Waits(meant, buf, inPaste, scanned)
    {
      hide Tracks, FindEnd, EndsAt, Waits, Done;
      assert From(scanned) <= |buf| by {
        TracksGives(meant, buf, scanned, given + ready);
      }
      ghost var was := ready;
      FindBounds(buf, From(scanned));
      var end := FindEnd(buf, From(scanned));
      if end < |buf| {
        ghost var next := PasteEnds(meant, buf, scanned, given + ready);
        ready := ready + [PasteEvent(buf[..end], true)];
        assert given + ready == (given + was) + [PasteEvent(buf[..end], true)];
        inPaste, scanned, meant := false, 0, next;
        return end + |PASTE_END|;
      }
      if |buf| >= MAX_PASTE_CHUNK {
        var flush := |buf| - KEEP;
        PasteGoesOn(meant, buf, scanned, given + ready);
        ready := ready + [PasteEvent(buf[..flush], false)];
        assert given + ready == (given + was) + [PasteEvent(buf[..flush], false)];
        scanned := 0;
        return flush;
      }
      PasteWaits(meant, buf, scanned, given + ready);
      scanned := if |buf| >= KEEP then |buf| - KEEP else 0;
      assert buf[0..] == buf;
      return 0;
    }

    /** One step: the bytes it used, none if more must arrive first. */
    method Step() returns (used: nat)
      requires Tracking() && buf != []
      modifies `ready, `inPaste, `scanned, `escPending, `meant
      ensures used <= |buf| && Done(meant) == old(Done(meant))
      ensures Tracks(meant, buf[used..], inPaste, scanned, given + ready)
      ensures used == 0 ==> meant == old(meant) && Valid()
      ensures used > 0 ==> !escPending
    {
      hide Tracks, EscapePiece, TextPiece, Waits, Done;
      escPending := false;
      if buf == [ESC] {
        LoneEscape(buf);
      }
      if inPaste {
        used := StepPaste();
        assert buf[0..] == buf;
        return;
      }
      ghost var was, piece := ready, PieceOf(buf);
      ghost var next := meant;
      if piece.Took? {
        next := PieceTaken(meant, buf, scanned, given + ready);
      }
      if buf[0] != ESC {
        used := StepText();
      } else {
        used := StepEscape();
      }
      if piece.Took? {
        assert given + ready == (given + was) + piece.events;
        ScannedIsIdle(next, buf[used..], inPaste, scanned, given + ready);
        meant := next;
      } else {
        PieceWaits(meant, buf, scanned);
        assert buf[0..] == buf;
      }
    }

    method Pump()
      requires Tracking() && (buf == [] ==> Valid())
      modifies this
      ensures Valid() && meant == old(Done(meant)) && given == old(given)
    {
      hide Tracks, Waits, Done;
      while buf != []
        invariant Tracking() && Done(meant) == old(Done(meant)) && given == old(given)
        invariant buf == [] ==> Valid()
        decreases |buf|
      {
        var used := Step();
        if used == 0 {
          WaitsIsDone(meant, buf, inPaste, scanned, given + ready);
          return;
        }
        buf := buf[used..];
        if buf == [] {
          EmptyWaits(meant, inPaste, scanned, given + ready);
        }
      }
      WaitsIsDone(meant, buf, inPaste, scanned, given + ready);
    }

    /** Bytes arrive. What the stream means grows by what they add to it; what is kept is short. */
    method Feed(data: bytes)
      requires Valid()
      modifies this
      ensures Valid() && meant == After(old(meant), data) && given == old(given)
      ensures |buf| < if inPaste then MAX_PASTE_CHUNK else MAX_CSI_PARAMS + 3
    {
      hide Tracks, Waits, Done;
      MoreBytes(meant, buf, inPaste, scanned, given + ready, data);
      assert data == [] ==> meant.rest + data == meant.rest && buf + data == buf;
      buf := buf + data;
      meant := meant.(rest := meant.rest + data);
      Pump();
      WaitsIsShort(meant, buf, inPaste, scanned);
    }

    /** Collects the oldest event. */
    method Next() returns (e: Option<Event>)
      requires Valid()
      modifies `ready, `given
      ensures Valid() && given + ready == old(given + ready)
      ensures e == if old(ready) == [] then None else Some(old(ready)[0])
      ensures ready == if old(ready) == [] then [] else old(ready)[1..]
    {
      if ready == [] {
        return None;
      }
      e := Some(ready[0]);
      assert given + ready == (given + [ready[0]]) + ready[1..];
      given, ready := given + [ready[0]], ready[1..];
    }

    /** An undecided sequence is the Escape key and then every byte as it was typed. */
    method GiveUpEscape()
      requires buf != [] && buf[0] == ESC
      modifies `ready, `buf
      ensures buf == [] && ready == old(ready) + GivenUp(old(buf))
    {
      ghost var was := ready;
      if |buf| == 1 {
        buf := [];
        Push(KeyEvent(Escape, 0, 0));
        return;
      }
      Push(KeyEvent(Escape, 0, 0));
      for k := 1 to |buf|
        invariant ready == was + [KeyEvent(Escape, 0, 0)] + Raw(buf[1..k])
        modifies `ready
      {
        Push(KeyEvent(Char, buf[k], 0));
        assert buf[1..k + 1] == buf[1..k] + [buf[k]];
      }
      assert buf[1..|buf|] == buf[1..];
      buf := [];
    }

    /** An undecided character, whatever follows its first byte, is one replacement character. */
    method GiveUpText()
      requires buf != [] && buf[0] != ESC && PieceOf(buf).Wait?
      modifies `ready, `buf
      ensures buf == [] && ready == old(ready) + GivenUp(old(buf))
    {
      TruncatedTakesAll(buf);
      hide PieceOf, DecodeUtf8;
      var cp, used := Utf8Decode(buf, 0);
      Push(KeyEvent(Char, cp, 0));
      buf := buf[used..];
    }

    /** The ambiguity delay is over: outside a paste, what was undecided is given up. */
    method Timeout()
      requires Valid()
      modifies this
      ensures Valid() && !escPending && given == old(given)
      ensures inPaste == old(inPaste)
      ensures meant == if old(inPaste) then old(meant)
        else Reading(old(meant).flat + Flatten(GivenUp(old(buf))), false, [])
    {
      hide Flatten, EndsAt, PieceOf, GivenUp, Tracks, Handed;
      escPending := false;
      if inPaste {
        return;
      }
      OutsideIsWhole(meant, buf, scanned, given + ready);
      if buf == [] {
        NothingGivenUp(meant);
        return;
      }
      ghost var was, all := ready, buf;
      if buf[0] != ESC {
        GiveUpText();
      } else {
        GiveUpEscape();
      }
      assert given + ready == (given + was) + GivenUp(all);
      FlattenConcat(given + was, GivenUp(all));
      meant := Reading(meant.flat + Flatten(GivenUp(all)), false, []);
      StartsTracking(meant, given + ready);
      ScannedIsIdle(meant, buf, inPaste, scanned, given + ready);
    }
  }
}
