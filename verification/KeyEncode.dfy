// Keys written for a guest application (input/encode.cpp), and read back by the input parser.

module KeyEncode {
  import opened Bytes
  import opened Cells
  import opened Utf8
  import opened Input
  import opened InputRuns

  /** How an unmodified key is written: as a control sequence, or as the shorter SS3 form either
      always or only while the application has asked for it. */
  datatype Form = Csi | Ss3Always | Ss3WhenApplication

  datatype Lookup<T> = Missing | Found(value: T)

  function FinalOf(key: Key): Lookup<(byte, Form)> {
    match key
    case Up => Found((65, Ss3WhenApplication))
    case Down => Found((66, Ss3WhenApplication))
    case Right => Found((67, Ss3WhenApplication))
    case Left => Found((68, Ss3WhenApplication))
    case Home => Found((72, Ss3WhenApplication))
    case End => Found((70, Ss3WhenApplication))
    case F1 => Found((80, Ss3Always))
    case F2 => Found((81, Ss3Always))
    case F3 => Found((82, Ss3Always))
    case F4 => Found((83, Ss3Always))
    case BackTab => Found((90, Csi))
    case _ => Missing
  }

  function TildeOf(key: Key): Lookup<nat> {
    match key
    case Insert => Found(2)
    case Delete => Found(3)
    case PgUp => Found(5)
    case PgDn => Found(6)
    case F5 => Found(15)
    case F6 => Found(17)
    case F7 => Found(18)
    case F8 => Found(19)
    case F9 => Found(20)
    case F10 => Found(21)
    case F11 => Found(23)
    case F12 => Found(24)
    case _ => Missing
  }

  function AsciiOf(key: Key): Lookup<byte> {
    match key
    case Enter => Found(13)
    case Tab => Found(9)
    case Backspace => Found(0x7F)
    case Escape => Found(ESC)
    case _ => Missing
  }

  function ControlByte(ch: nat): Lookup<byte> {
    if 97 <= ch <= 122 then Found(ch - 96)
    else if 65 <= ch <= 90 then Found(ch - 64)
    else if ch == 32 then Found(0)
    else Missing
  }

  /** Alt is a prefix: it replaces nothing. */
  function Prefixed(mods: nat, body: bytes): bytes {
    if Bit(mods, ALT) then [ESC] + body else body
  }

  function EncodeChar(ch: nat, mods: nat): bytes {
    var control := ControlByte(ch);
    Prefixed(mods, if Bit(mods, CTRL) && control.Found? then [control.value] else EncodeUtf8(ch))
  }

  function EncodeFinal(final: byte, form: Form, mods: nat, application: bool): bytes {
    if mods % 8 != 0 then [ESC, 91] + ([49, 59] + Dec(mods % 8 + 1)) + [final]
    else if form == Ss3Always || (form == Ss3WhenApplication && application) then [ESC, 79, final]
    else [ESC, 91] + [] + [final]
  }

  function EncodeTilde(code: nat, mods: nat): bytes {
    [ESC, 91] + (if mods % 8 != 0 then Dec(code) + [59] + Dec(mods % 8 + 1) else Dec(code)) + [126]
  }

  function EncodeKey(key: Key, ch: nat, mods: nat, application: bool): bytes {
    if key == Char then EncodeChar(ch, mods)
    else if AsciiOf(key).Found? then Prefixed(mods, [AsciiOf(key).value])
    else if FinalOf(key).Found? then EncodeFinal(FinalOf(key).value.0, FinalOf(key).value.1, mods, application)
    else if TildeOf(key).Found? then EncodeTilde(TildeOf(key).value, mods)
    else []
  }

  // ---- Control sequences read back.

  lemma WholeCsi(params: bytes, final: byte, rest: bytes)
    requires |params| < MAX_CSI_PARAMS && IsCsiFinal(final) && forall b :: b in params ==> !IsCsiFinal(b)
    ensures PieceOf([ESC, 91] + params + [final] + rest) == CsiPiece(params, final, |params| + 3)
  {
    hide CsiPiece;
    var s := [ESC, 91] + params + [final] + rest;
    var i := |params| + 2;
    assert s[2..i] == params && s[i] == final;
    forall k | 2 <= k < i ensures !IsCsiFinal(s[k]) {
      assert s[k] == params[k - 2];
    }
    ScanTo(s, i, 2);
  }

  lemma {:induction false} SplitNumber(n: nat, tail: bytes)
    requires n <= MAX_CSI_PARAM
    ensures SplitFrom(Dec(n) + tail, -1) == SplitFrom(tail, n)
    decreases n
  {
    if n < 10 {
      assert (Dec(n) + tail)[1..] == tail;
    } else {
      var last: bytes := [48 + n % 10];
      assert Dec(n) + tail == Dec(n / 10) + (last + tail);
      SplitNumber(n / 10, last + tail);
      assert (last + tail)[1..] == tail;
    }
  }

  lemma SplitOne(n: nat)
    requires n <= MAX_CSI_PARAM
    ensures SplitParams(Dec(n)) == [n]
  {
    SplitNumber(n, []);
    assert Dec(n) + [] == Dec(n);
  }

  lemma SplitSemicolon(n: nat, tail: bytes)
    ensures SplitFrom([59] + tail, n) == [n] + SplitFrom(tail, -1)
  {
    assert ([59] + tail)[1..] == tail;
  }

  lemma SplitTwo(n: nat, m: nat)
    requires n <= MAX_CSI_PARAM && m <= MAX_CSI_PARAM
    ensures SplitParams(Dec(n) + [59] + Dec(m)) == [n, m]
  {
    hide Dec;
    SplitNumber(n, [59] + Dec(m));
    assert Dec(n) + [59] + Dec(m) == Dec(n) + ([59] + Dec(m));
    SplitSemicolon(n, Dec(m));
    SplitOne(m);
  }

  lemma FinalIsRead(key: Key, mods: nat, application: bool, rest: bytes)
    requires FinalOf(key).Found?
    ensures var s := EncodeFinal(FinalOf(key).value.0, FinalOf(key).value.1, mods, application);
      |s| > 0 && PieceOf(s + rest) == Took(|s|, [KeyEvent(key, 0, mods % 8)], false)
  {
    var f := FinalOf(key);
    var s := EncodeFinal(f.value.0, f.value.1, mods, application);
    assert KeyFromFinal(f.value.0) == key && IsCsiFinal(f.value.0) && f.value.0 !in {73, 79, 126};
    hide KeyFromFinal, FinalOf, SplitParams;
    if mods % 8 != 0 {
      ModifiedIsRead(key, f.value.0, mods % 8, rest);
    } else if f.value.1 == Ss3Always || (f.value.1 == Ss3WhenApplication && application) {
    } else {
      SplitNothing();
      WholeCsi([], f.value.0, rest);
    }
  }

  lemma ModifiedIsRead(key: Key, final: byte, mask: nat, rest: bytes)
    requires KeyFromFinal(final) == key && IsCsiFinal(final) && final !in {73, 79, 126} && 0 < mask < 8
    ensures var s := [ESC, 91] + ([49, 59] + Dec(mask + 1)) + [final];
      |s| == 6 && PieceOf(s + rest) == Took(6, [KeyEvent(key, 0, mask)], false)
  {
    var m := mask + 1;
    assert Dec(1) == [49] && Dec(m) == [48 + m] && ModsFromParam(m) == mask;
    hide KeyFromFinal, SplitParams, PieceOf, ModsFromParam, Dec;
    var params := [49, 59] + Dec(m);
    assert params == Dec(1) + [59] + Dec(m);
    SplitTwo(1, m);
    WholeCsi(params, final, rest);
  }

  lemma SplitNothing()
    ensures SplitParams([]) == [-1]
  {
  }

  lemma TildeIsRead(key: Key, mods: nat, rest: bytes)
    requires TildeOf(key).Found?
    ensures var s := EncodeTilde(TildeOf(key).value, mods);
      |s| > 0 && PieceOf(s + rest) == Took(|s|, [KeyEvent(key, 0, mods % 8)], false)
  {
    var code := TildeOf(key).value;
    assert KeyFromTilde(code) == key && code != 200 && code <= 24;
    hide KeyFromTilde, TildeOf, SplitParams, Dec, PieceOf;
    if mods % 8 != 0 {
      ModifiedTilde(key, code, mods % 8, rest);
    } else {
      PlainTilde(key, code, rest);
    }
  }

  lemma PlainTilde(key: Key, code: nat, rest: bytes)
    requires KeyFromTilde(code) == key && code <= 24
    ensures var s := [ESC, 91] + Dec(code) + [126];
      PieceOf(s + rest) == Took(|s|, [KeyEvent(key, 0, 0)], false)
  {
    hide KeyFromTilde, SplitParams, Dec, PieceOf;
    ShortNumber(code);
    SplitOne(code);
    WholeCsi(Dec(code), 126, rest);
  }

  lemma ModifiedTilde(key: Key, code: nat, mask: nat, rest: bytes)
    requires KeyFromTilde(code) == key && code <= 24 && 0 < mask < 8
    ensures var s := [ESC, 91] + (Dec(code) + [59] + Dec(mask + 1)) + [126];
      PieceOf(s + rest) == Took(|s|, [KeyEvent(key, 0, mask)], false)
  {
    assert ModsFromParam(mask + 1) == mask;
    hide KeyFromTilde, SplitParams, Dec, PieceOf, ModsFromParam;
    ShortNumber(code);
    ShortNumber(mask + 1);
    SplitTwo(code, mask + 1);
    WholeCsi(Dec(code) + [59] + Dec(mask + 1), 126, rest);
  }

  lemma ShortNumber(n: nat)
    requires n < 100
    ensures 1 <= |Dec(n)| <= 2 && forall b :: b in Dec(n) ==> 48 <= b <= 57
  {
    if n >= 10 {
      assert Dec(n / 10) == [48 + n / 10];
    }
  }

  // ---- Which keys come back.

  datatype Stroke = Stroke(key: Key, ch: nat, mods: nat)

  function EventOf(k: Stroke): Event { KeyEvent(k.key, k.ch, k.mods) }

  function Encoded(k: Stroke, application: bool): bytes { EncodeKey(k.key, k.ch, k.mods, application) }

  /** The keys whose bytes say what they are. Ctrl+h, i, j and m are Backspace, Tab and Enter on the
      wire; Alt+O and Alt+[ open longer sequences; Escape alone cannot be told from their start. */
  predicate Unambiguous(k: Stroke) {
    if k.key == Char then
      || (k.mods == 0 && IsScalar(k.ch) && k.ch >= 0x20 && k.ch != 0x7F)
      || (k.mods == CTRL && (k.ch == 32 || (97 <= k.ch <= 122 && k.ch !in {104, 105, 106, 109})))
      || (k.mods == ALT && 0x20 <= k.ch < 0x7F && k.ch !in {79, 91})
    else if k.key in {Enter, Tab, Backspace} then k.ch == 0 && k.mods == 0
    else k.ch == 0 && k.mods < 8 && (FinalOf(k.key).Found? || TildeOf(k.key).Found?)
  }

  lemma AsciiBytes(ch: nat)
    requires ch < 0x80
    ensures EncodeUtf8(ch) == [ch]
  {
  }

  lemma WideBytes(ch: nat)
    requires ch >= 0x80
    ensures |EncodeUtf8(ch)| >= 2 && EncodeUtf8(ch)[0] >= 0xC0 && 0x80 <= EncodeUtf8(ch)[1] < 0xC0
  {
  }

  lemma TextIsRead(ch: nat, rest: bytes)
    requires ch >= 0x20 && ch != 0x7F
    ensures PieceOf(EncodeUtf8(ch) + rest) == Took(|EncodeUtf8(ch)|, [KeyEvent(Char, Shown(ch), 0)], false)
  {
    DecodeInvertsEncode(ch, rest);
    LeadNeeds(ch);
    hide DecodeUtf8;
    var s := EncodeUtf8(ch) + rest;
    assert s[0] == EncodeUtf8(ch)[0];
  }

  lemma LeadNeeds(ch: nat)
    ensures Need(EncodeUtf8(ch)[0]) == |EncodeUtf8(ch)| - 1
    ensures ch >= 0x20 && ch != 0x7F ==> EncodeUtf8(ch)[0] >= 0x20 && EncodeUtf8(ch)[0] != 0x7F
  {
  }

  lemma CharIsRead(ch: nat, mods: nat, rest: bytes)
    requires Unambiguous(Stroke(Char, ch, mods))
    ensures |EncodeChar(ch, mods)| > 0
    ensures PieceOf(EncodeChar(ch, mods) + rest) == Took(|EncodeChar(ch, mods)|, [KeyEvent(Char, ch, mods)], false)
  {
    if mods == 0 {
      TextIsRead(ch, rest);
    } else {
      hide DecodeFrom;
      AsciiBytes(ch);
    }
  }

  /** A key on the unambiguous domain is read back, whatever follows. */
  lemma KeyIsRead(k: Stroke, application: bool, rest: bytes)
    requires Unambiguous(k)
    ensures |Encoded(k, application)| > 0
    ensures PieceOf(Encoded(k, application) + rest) == Took(|Encoded(k, application)|, [EventOf(k)], false)
  {
    hide EncodeFinal, EncodeTilde, EncodeChar, CsiPiece;
    if k.key == Char {
      CharIsRead(k.ch, k.mods, rest);
    } else if k.key in {Enter, Tab, Backspace} {
    } else if FinalOf(k.key).Found? {
      FinalIsRead(k.key, k.mods, application, rest);
    } else {
      TildeIsRead(k.key, k.mods, rest);
    }
  }

  function EncodedAll(ks: seq<Stroke>, application: bool): bytes {
    if ks == [] then [] else Encoded(ks[0], application) + EncodedAll(ks[1..], application)
  }

  function Events(ks: seq<Stroke>): seq<Flat> {
    if ks == [] then [] else [Seen(EventOf(ks[0]))] + Events(ks[1..])
  }

  /** Keys written one after the other are read back as exactly those keys. */
  lemma {:induction false} KeysAreRead(ks: seq<Stroke>, application: bool, rest: bytes)
    requires forall k :: k in ks ==> Unambiguous(k)
    ensures Meaning(false, EncodedAll(ks, application) + rest) == Then(Events(ks), Meaning(false, rest))
    decreases |ks|
  {
    hide PieceOf, Encoded, EventOf, Unambiguous, Meaning;
    if ks == [] {
      assert EncodedAll(ks, application) + rest == rest;
    } else {
      var k, s := ks[0], Encoded(ks[0], application);
      var tail := EncodedAll(ks[1..], application) + rest;
      assert EncodedAll(ks, application) + rest == s + tail;
      KeyIsRead(k, application, tail);
      KeysAreRead(ks[1..], application, rest);
      MeaningTakes(s + tail);
      assert (s + tail)[|s|..] == tail;
      OneEvent(EventOf(k)) by {
        EventIsKey(k);
      }
      ThenThen([Seen(EventOf(k))], Events(ks[1..]), Meaning(false, rest));
    }
  }

  lemma EventIsKey(k: Stroke)
    ensures !EventOf(k).PasteEvent?
  {
  }

  lemma OneEvent(e: Event)
    requires !e.PasteEvent?
    ensures Flatten([e]) == [Seen(e)]
  {
    assert [e][..0] == [];
  }

  // ---- And which do not.

  predicate ComesBack(k: Stroke, application: bool) {
    Meaning(false, Encoded(k, application)) == Reading([Seen(EventOf(k))], false, [])
  }

  /** What an encoding means when it is a single piece, or none. */
  lemma OnePiece(s: bytes)
    requires s != []
    ensures PieceOf(s).Wait? ==> Meaning(false, s) == Reading([], false, s)
    ensures forall e: Event :: !e.PasteEvent? && PieceOf(s) == Took(|s|, [e], false) ==>
      Meaning(false, s) == Reading([Seen(e)], false, [])
    ensures PieceOf(s) == Took(|s|, [], false) ==> Meaning(false, s) == Reading([], false, [])
  {
    hide PieceOf;
    if PieceOf(s).Took? {
      MeaningTakes(s);
      if PieceOf(s).used == |s| {
        assert s[|s|..] == [];
        assert Meaning(false, []) == Reading([], false, []);
        forall e: Event | !e.PasteEvent? ensures Flatten([e]) == [Seen(e)] {
          OneEvent(e);
        }
      }
    }
  }

  lemma AmbiguousText(ch: nat, mods: nat)
    requires !Bit(mods, ALT) && !Unambiguous(Stroke(Char, ch, mods))
    ensures !ComesBack(Stroke(Char, ch, mods), false) && !ComesBack(Stroke(Char, ch, mods), true)
  {
    hide DecodeFrom, Flatten, EscapePiece, Meaning, PieceOf;
    var s := EncodeChar(ch, mods);
    if Bit(mods, CTRL) && ControlByte(ch).Found? {
      ControlPiece(s[0]);
      OnePiece(s);
    } else if ch >= 0x20 && ch != 0x7F {
      TextIsRead(ch, []);
      assert s + [] == s;
      OnePiece(s);
    } else {
      AsciiBytes(ch);
      ControlPiece(ch);
      OnePiece(s);
    }
  }

  lemma ControlPiece(b: byte)
    requires b < 0x20 || b == 0x7F
    ensures PieceOf([b]) == if b == ESC then Wait
      else Took(1, [if b in {10, 13} then KeyEvent(Enter, 0, 0)
        else if b == 9 then KeyEvent(Tab, 0, 0)
        else if b in {8, 0x7F} then KeyEvent(Backspace, 0, 0)
        else KeyEvent(Char, if b == 0 then 32 else 96 + b, CTRL)], false)
  {
    hide DecodeFrom;
  }

  lemma AltPiece(body: bytes)
    requires body != []
    ensures var p := PieceOf([ESC] + body);
      && (|body| == 1 && body[0] in {79, 91} ==> p == Wait)
      && (body[0] !in {79, 91} ==>
            p == Took(2, if 0x20 <= body[0] < 0x7F then [KeyEvent(Char, body[0], ALT)] else [], false))
  {
    var s := [ESC] + body;
    assert s[1] == body[0];
  }

  lemma AmbiguousAlt(ch: nat, mods: nat)
    requires Bit(mods, ALT) && !Unambiguous(Stroke(Char, ch, mods))
    ensures !ComesBack(Stroke(Char, ch, mods), false) && !ComesBack(Stroke(Char, ch, mods), true)
  {
    hide DecodeFrom, Flatten, PieceOf, Meaning;
    if Bit(mods, CTRL) && ControlByte(ch).Found? {
      AltPiece([ControlByte(ch).value]);
      OnePiece([ESC] + [ControlByte(ch).value]);
    } else if ch < 0x80 {
      AsciiBytes(ch);
      AltPiece([ch]);
      OnePiece([ESC] + [ch]);
    } else {
      AltWide(ch, mods);
    }
  }

  /** Alt and a character of several bytes: the first is swallowed, the rest read as garbage. */
  lemma AltWide(ch: nat, mods: nat)
    requires Bit(mods, ALT) && ch >= 0x80
    ensures !ComesBack(Stroke(Char, ch, mods), false) && !ComesBack(Stroke(Char, ch, mods), true)
  {
    hide DecodeFrom, Flatten, PieceOf, Meaning, Unambiguous;
    var body := EncodeUtf8(ch);
    WideBytes(ch);
    var s := [ESC] + body;
    assert ControlByte(ch).Missing? && EncodeChar(ch, mods) == s;
    AltPiece(body);
    MeaningTakes(s);
    assert s[2..] == body[1..];
    assert Flatten([]) == [] by {
      NothingFlat();
    }
    StrayByte(body[1..]);
    var flat := Meaning(false, s).flat;
    assert flat == [] + Meaning(false, body[1..]).flat;
    assert mods != 0 && flat[0] != Seen(KeyEvent(Char, ch, mods));
  }

  lemma NothingFlat()
    ensures Flatten([]) == []
  {
  }

  lemma StrayByte(s: bytes)
    requires s != [] && 0x80 <= s[0] < 0xC0
    ensures |Meaning(false, s).flat| >= 1 && Meaning(false, s).flat[0] == Seen(KeyEvent(Char, 0xFFFD, 0))
  {
    hide DecodeFrom, Flatten;
    assert PieceOf(s) == Took(1, [KeyEvent(Char, 0xFFFD, 0)], false);
    MeaningTakes(s);
    OneEvent(KeyEvent(Char, 0xFFFD, 0));
  }

  lemma AmbiguousNamed(k: Stroke, application: bool)
    requires k.key != Char && !Unambiguous(k)
    ensures !ComesBack(k, application)
  {
    hide Flatten, EncodeFinal, EncodeTilde, EncodeChar, PieceOf, Meaning;
    var s := Encoded(k, application);
    if AsciiOf(k.key).Found? {
      AmbiguousAscii(k, application);
    } else if FinalOf(k.key).Found? {
      FinalIsRead(k.key, k.mods, application, []);
      assert s + [] == s;
      OnePiece(s);
    } else if TildeOf(k.key).Found? {
      TildeIsRead(k.key, k.mods, []);
      assert s + [] == s;
      OnePiece(s);
    } else {
      NothingMeant();
    }
  }

  lemma NothingMeant()
    ensures Meaning(false, []) == Reading([], false, [])
  {
  }

  lemma AmbiguousAscii(k: Stroke, application: bool)
    requires AsciiOf(k.key).Found? && !Unambiguous(k)
    ensures !ComesBack(k, application)
  {
    hide Flatten, Meaning;
    var b := AsciiOf(k.key).value;
    if Bit(k.mods, ALT) {
      AltPiece([b]);
      OnePiece([ESC] + [b]);
    } else {
      OnePiece([b]);
    }
  }

  /** Ctrl+i and Tab are the same byte. */
  lemma ControlIIsTab(application: bool)
    ensures Meaning(false, Encoded(Stroke(Char, 105, CTRL), application))
         == Reading([Seen(KeyEvent(Tab, 0, 0))], false, [])
  {
    assert Encoded(Stroke(Char, 105, CTRL), application) == [9];
    hide PieceOf, Meaning, Encoded, Flatten;
    ControlPiece(9);
    OnePiece([9]);
  }

  /** A key survives the wire exactly when it is on the unambiguous domain. */
  lemma ComesBackIff(k: Stroke, application: bool)
    ensures ComesBack(k, application) <==> Unambiguous(k)
  {
    hide PieceOf, Encoded, Unambiguous, Flatten;
    if Unambiguous(k) {
      var s := Encoded(k, application);
      KeyIsRead(k, application, []);
      assert s + [] == s;
      EventIsKey(k);
      OnePiece(s);
    } else if k.key == Char {
      if Bit(k.mods, ALT) {
        AmbiguousAlt(k.ch, k.mods);
      } else {
        AmbiguousText(k.ch, k.mods);
      }
    } else {
      AmbiguousNamed(k, application);
    }
  }
}
