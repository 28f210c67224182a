// Whole streams of input: what a stream means however it is cut up, and the parser that reads it
// piece by piece with a bounded buffer and a resumed search (input/parser.cpp).

module InputRuns {
  import opened Bytes
  import opened Input

  /** Events with the fragments of a paste merged: its bytes one by one, then its end. */
  datatype Flat = Seen(event: Event) | Pasted(b: byte) | PasteOver

  function Text(s: bytes): seq<Flat> {
    seq(|s|, i requires 0 <= i < |s| => Pasted(s[i]))
  }

  function FlatOf(e: Event): seq<Flat> {
    if e.PasteEvent? then Text(e.text) + (if e.complete then [PasteOver] else []) else [Seen(e)]
  }

  function Flatten(es: seq<Event>): seq<Flat> {
    if es == [] then [] else Flatten(es[..|es| - 1]) + FlatOf(es[|es| - 1])
  }

  lemma FlattenOne(es: seq<Event>, e: Event)
    ensures Flatten(es + [e]) == Flatten(es) + FlatOf(e)
  {
    assert (es + [e])[..|es|] == es;
  }

  lemma {:induction false} FlattenConcat(es: seq<Event>, fs: seq<Event>)
    ensures Flatten(es + fs) == Flatten(es) + Flatten(fs)
  {
    hide FlatOf;
    if fs == [] {
      assert es + fs == es;
    } else {
      var n := |fs| - 1;
      FlattenConcat(es, fs[..n]);
      assert Flatten(fs) == Flatten(fs[..n]) + FlatOf(fs[n]);
      hide Flatten;
      assert es + fs == (es + fs[..n]) + [fs[n]];
      FlattenOne(es + fs[..n], fs[n]);
    }
  }

  // ---- What a whole stream means.

  /** The events so far, whether a paste is open, and the bytes that mean nothing yet: an unfinished
      sequence, or the whole text of a paste that has not ended. */
  datatype Reading = Reading(flat: seq<Flat>, paste: bool, rest: bytes)

  function Then(flat: seq<Flat>, r: Reading): Reading { r.(flat := flat + r.flat) }

  function Meaning(paste: bool, s: bytes): Reading
    decreases |s|
  {
    if s == [] then Reading([], paste, s)
    else if paste then
      var end := FindEnd(s, 0);
      if end == |s| then Reading([], true, s)
      else Then(Text(s[..end]) + [PasteOver], Meaning(false, s[end + |PASTE_END|..]))
    else
      PieceBounds(s);
      match PieceOf(s)
      case Wait => Reading([], false, s)
      case Took(used, events, opens) => Then(Flatten(events), Meaning(opens, s[used..]))
  }

  function Done(r: Reading): Reading { Then(r.flat, Meaning(r.paste, r.rest)) }

  /** What a reading becomes when more bytes arrive. */
  function After(r: Reading, more: bytes): Reading { Done(r.(rest := r.rest + more)) }

  function AfterAll(r: Reading, pieces: seq<bytes>): Reading
    decreases |pieces|
  {
    if pieces == [] then r else AfterAll(After(r, pieces[0]), pieces[1..])
  }

  function Concat(pieces: seq<bytes>): bytes {
    if pieces == [] then [] else pieces[0] + Concat(pieces[1..])
  }

  lemma ThenThen(f: seq<Flat>, g: seq<Flat>, r: Reading)
    ensures Then(f, Then(g, r)) == Then(f + g, r)
  {
    assert f + (g + r.flat) == (f + g) + r.flat;
  }

  /** One step of the meaning. */
  lemma MeaningTakes(s: bytes)
    requires s != [] && PieceOf(s).Took?
    ensures PieceOf(s).used <= |s|
    ensures Meaning(false, s) == Then(Flatten(PieceOf(s).events), Meaning(PieceOf(s).paste, s[PieceOf(s).used..]))
  {
    hide PieceOf;
    PieceBounds(s);
  }

  lemma EndsAtExtends(a: bytes, b: bytes, i: nat)
    requires i + |PASTE_END| <= |a|
    ensures EndsAt(a + b, i) == EndsAt(a, i)
  {
    assert (a + b)[i..i + |PASTE_END|] == a[i..i + |PASTE_END|];
  }

  lemma FirstEndStays(a: bytes, b: bytes)
    requires FindEnd(a, 0) < |a|
    ensures FindEnd(a + b, 0) == FindEnd(a, 0)
  {
    var e := FindEnd(a, 0);
    assert EndsAt(a, e);
    forall i: nat | i <= e ensures EndsAt(a + b, i) == EndsAt(a, i) {
      EndsAtExtends(a, b, i);
    }
    FindIs(a + b, 0, e);
  }

  /** Bytes that come later never change what was already read. */
  lemma {:induction false} MeaningExtends(paste: bool, a: bytes, b: bytes)
    ensures Meaning(paste, a + b) == After(Meaning(paste, a), b)
    decreases |a|
  {
    hide PieceOf, FindEnd, Flatten, EndsAt;
    if a == [] {
      assert a + b == b;
      assert Then([], Meaning(paste, b)) == Meaning(paste, b);
    } else if paste {
      PasteExtends(a, b);
    } else if PieceOf(a).Took? {
      PieceExtends(a, b);
    } else {
      assert Meaning(paste, a) == Reading([], false, a);
      assert Then([], Meaning(paste, a + b)) == Meaning(paste, a + b);
    }
  }

  lemma {:induction false} PasteExtends(a: bytes, b: bytes)
    requires a != []
    ensures Meaning(true, a + b) == After(Meaning(true, a), b)
    decreases |a|, 0
  {
    assert FindEnd(a, 0) <= |a|;
    assert FindEnd(a, 0) < |a| ==> FindEnd(a, 0) + |PASTE_END| <= |a|;
    if FindEnd(a, 0) == |a| {
      assert Meaning(true, a) == Reading([], true, a);
      assert Then([], Meaning(true, a + b)) == Meaning(true, a + b);
      return;
    }
    FirstEndStays(a, b);
    hide FindEnd, EndsAt, PieceOf, Flatten;
    var end := FindEnd(a, 0);
    var tail := a[end + |PASTE_END|..];
    assert (a + b)[..end] == a[..end];
    assert (a + b)[end + |PASTE_END|..] == tail + b;
    MeaningExtends(false, tail, b);
    var head := Text(a[..end]) + [PasteOver];
    var m := Meaning(false, tail);
    assert Meaning(true, a) == Then(head, m);
    assert Meaning(true, a + b) == Then(head, After(m, b));
    hide Meaning;
    ThenThen(head, m.flat, Meaning(m.paste, m.rest + b));
  }

  lemma {:induction false} PieceExtends(a: bytes, b: bytes)
    requires a != [] && PieceOf(a).Took?
    ensures Meaning(false, a + b) == After(Meaning(false, a), b)
    decreases |a|, 0
  {
    PieceIsLocal(a, b);
    PieceBounds(a);
    hide PieceOf, Flatten;
    var p := PieceOf(a);
    var tail := a[p.used..];
    assert (a + b)[p.used..] == tail + b;
    MeaningExtends(p.paste, tail, b);
    MeaningTakes(a);
    MeaningTakes(a + b);
    hide Meaning;
    var m := Meaning(p.paste, tail);
    ThenThen(Flatten(p.events), m.flat, Meaning(m.paste, m.rest + b));
  }

  /** Two feeds are one feed of both. */
  lemma AfterAfter(r: Reading, a: bytes, b: bytes)
    ensures After(After(r, a), b) == After(r, a + b)
  {
    hide Meaning;
    MeaningExtends(r.paste, r.rest + a, b);
    assert (r.rest + a) + b == r.rest + (a + b);
    var m := Meaning(r.paste, r.rest + a);
    ThenThen(r.flat, m.flat, Meaning(m.paste, m.rest + b));
  }

  /** A stream cut into pieces means what the whole stream means. */
  lemma {:induction false} CutsDoNotMatter(r: Reading, pieces: seq<bytes>)
    requires Done(r) == r
    ensures AfterAll(r, pieces) == After(r, Concat(pieces))
    decreases |pieces|
  {
    hide Done, Meaning;
    if pieces == [] {
      assert r.rest + [] == r.rest;
    } else {
      ReadingIsFinal(r, pieces[0]);
      CutsDoNotMatter(After(r, pieces[0]), pieces[1..]);
      AfterAfter(r, pieces[0], Concat(pieces[1..]));
    }
  }

  /** Nothing more can be read from what is left over. */
  lemma ReadingIsFinal(r: Reading, more: bytes)
    ensures Done(After(r, more)) == After(r, more)
  {
    hide Meaning;
    AfterAfter(r, more, []);
    var a := After(r, more);
    assert a.rest + [] == a.rest;
    assert r.rest + (more + []) == r.rest + more;
  }

  /** Input fragmentation independence: two ways of cutting the same bytes read the same events,
      hold the same bytes back and agree on whether a paste is open. */
  lemma SameBytesSameEvents(r: Reading, pieces: seq<bytes>, others: seq<bytes>)
    requires Done(r) == r && Concat(pieces) == Concat(others)
    ensures AfterAll(r, pieces) == AfterAll(r, others)
  {
    hide Done, After;
    CutsDoNotMatter(r, pieces);
    CutsDoNotMatter(r, others);
  }

  // ---- Pastes.

  const PASTE_START: bytes := [ESC, 91, 50, 48, 48, 126]

  lemma StartOpensPaste(rest: bytes)
    ensures PieceOf(PASTE_START + rest) == Took(6, [], true)
  {
    var s := PASTE_START + rest;
    assert s[2] == 50 && s[3] == 48 && s[4] == 48 && s[5] == 126;
    ScanTo(s, 5, 2);
    assert s[2..5] == [50, 48, 48];
    assert SplitParams([50, 48, 48]) == [200] by {
      assert [50, 48, 48][1..] == [48, 48] && [48, 48][1..] == [48];
    }
  }

  /** The search for the final byte stops at the first one. */
  lemma {:induction false} ScanTo(s: bytes, end: nat, i: nat)
    requires 2 <= i <= end < |s| && end - 2 < MAX_CSI_PARAMS && IsCsiFinal(s[end])
    requires forall k :: i <= k < end ==> !IsCsiFinal(s[k])
    ensures ScanCsi(s, i) == end
    decreases end - i
  {
    if i < end {
      ScanTo(s, end, i + 1);
    }
  }

  /** Pasted text is exactly the bytes between the opening marker and the first terminator. */
  lemma PasteIsExact(text: bytes, rest: bytes)
    requires forall i :: 0 <= i < |text| ==> !EndsAt(text + PASTE_END, i)
    ensures Meaning(false, PASTE_START + text + PASTE_END + rest)
         == Then(Text(text) + [PasteOver], Meaning(false, rest))
  {
    var inside := text + PASTE_END + rest;
    assert PASTE_START + text + PASTE_END + rest == PASTE_START + inside;
    StartOpensPaste(inside);
    MeaningTakes(PASTE_START + inside);
    assert (PASTE_START + inside)[6..] == inside;
    assert (text + PASTE_END)[|text|..|text| + |PASTE_END|] == PASTE_END;
    FindIs(text + PASTE_END, 0, |text|);
    FirstEndStays(text + PASTE_END, rest);
    hide PieceOf, FindEnd, EndsAt;
    assert inside[..|text|] == text && inside[|text| + |PASTE_END|..] == rest;
    assert Then(Flatten([]), Meaning(true, inside)) == Meaning(true, inside);
  }
}
