// The parser as the program keeps it (vt/parser.cpp): one state, its accumulators, and a sink.

module VtParserObject {
  import opened Bytes
  import opened VtParser
  import opened VtTraces

  /** Records what it is told. */
  class Sink {
    var calls: seq<Call>

    constructor ()
      ensures calls == []
    {
      calls := [];
    }

    method Tell(c: Call)
      modifies this
      ensures calls == old(calls) + [c]
    {
      calls := calls + [c];
    }
  }

  class Parser {
    const sink: Sink
    var state: VtState
    var params: seq<Param>
    var intermediates: bytes
    var osc: bytes
    var acc: nat
    var need: nat
    var seen: nat
    var min: nat

    function Model(): Machine
      reads this
    {
      Machine(state, params, intermediates, osc, acc, need, seen, min)
    }

    /** The state and the sink after a step that the model describes. */
    twostate predicate Did(r: Result)
      reads this, sink
    {
      Model() == r.0 && sink.calls == old(sink.calls) + r.1
    }

    constructor (sink: Sink)
      ensures this.sink == sink && Model() == INITIAL
    {
      this.sink := sink;
      state := Ground;
      params, intermediates, osc := [], [], [];
      acc, need, seen, min := 0, 0, 0, 0;
    }

    method Reset()
      modifies this
      ensures Model() == INITIAL
    {
      state := Ground;
      ClearSequence();
      need, seen, acc, min := 0, 0, 0, 0;
    }

    method ClearSequence()
      modifies `params, `intermediates, `osc
      ensures Model() == Clear(old(Model()))
    {
      params, intermediates, osc := [], [], [];
    }

    method CollectByte(b: byte) returns (ok: bool)
      modifies `intermediates
      ensures ok == CanCollect(old(Model())) && Model() == Collect(old(Model()), b)
    {
      if |intermediates| >= MAX_INTERMEDIATES {
        return false;
      }
      intermediates := intermediates + [b];
      ok := true;
    }

    method PushParamDigit(b: byte)
      requires IsDigit(b)
      modifies `params
      ensures Model() == PushDigit(old(Model()), b)
    {
      if params == [] {
        params := params + [Param(-1, false)];
      }
      var p := params[|params| - 1];
      var digit := b - 48;
      if p.value < 0 {
        p := p.(value := 0);
      }
      if p.value <= (MAX_PARAM_VALUE - digit) / 10 {
        p := p.(value := p.value * 10 + digit);
      } else {
        p := p.(value := MAX_PARAM_VALUE);
      }
      params := params[..|params| - 1] + [p];
    }

    method NextParam(b: byte)
      modifies `params
      ensures Model() == Separate(old(Model()), b)
    {
      if params == [] {
        params := params + [Param(-1, false)];
      }
      if |params| < MAX_PARAMS {
        params := params + [Param(-1, b == 0x3A)];
      }
    }

    method FlushUtf8()
      modifies this, sink
      ensures Did(Flush(old(Model())))
    {
      if need == 0 {
        return;
      }
      need, seen, acc, min := 0, 0, 0, 0;
      sink.Tell(Call.Print(0xFFFD));
    }

    /** A byte that continues, breaks or starts a UTF-8 sequence. */
    method Utf8Byte(b: byte)
      requires state.Ground?
      modifies this, sink
      ensures old(need) > 0 ==> Did(GroundByte(old(Model()), b))
      ensures old(need) == 0 ==> Did(Lead(old(Model()), b))
      decreases need, 0
    {
      if need > 0 {
        if !IsContinuation(b) {
          FlushUtf8();
          OnGround(b);
          return;
        }
        acc := acc * 64 + b % 64;
        seen := seen + 1;
        if seen < need {
          return;
        }
        var cp, least := acc, min;
        need, seen, acc, min := 0, 0, 0, 0;
        if cp < least || 0xD800 <= cp <= 0xDFFF || cp > 0x10FFFF {
          sink.Tell(Call.Print(0xFFFD));
          return;
        }
        sink.Tell(Call.Print(cp));
        return;
      }
      if 0xC2 <= b <= 0xDF {
        acc, need, min := b % 32, 1, 0x80;
      } else if 0xE0 <= b <= 0xEF {
        acc, need, min := b % 16, 2, 0x800;
      } else if 0xF0 <= b <= 0xF4 {
        acc, need, min := b % 8, 3, 0x10000;
      } else {
        sink.Tell(Call.Print(0xFFFD));
        return;
      }
      seen := 0;
    }

    method OnGround(b: byte)
      requires state.Ground?
      modifies this, sink
      ensures Did(GroundByte(old(Model()), b))
      decreases need, 1
    {
      if need > 0 {
        Utf8Byte(b);
        return;
      }
      if b == ESC {
        state := Escape;
        ClearSequence();
        return;
      }
      if IsCancel(b) || IsC0(b) {
        sink.Tell(Execute(b));
        return;
      }
      if b == 0x7F {
        return;
      }
      if b < 0x80 {
        sink.Tell(Call.Print(b));
        return;
      }
      Utf8Byte(b);
    }

    method OnEscape(b: byte)
      requires state.Escape?
      modifies this, sink
      ensures Did(EscapeByte(old(Model()), b))
    {
      if IsC0(b) {
        sink.Tell(Execute(b));
      } else if IsIntermediate(b) {
        var _ := CollectByte(b);
        state := EscapeIntermediate;
      } else if b == 0x7F {
      } else if b == 91 {
        state := CsiEntry;
        ClearSequence();
      } else if b == 93 {
        state := OscString;
        osc := [];
      } else if b == 80 {
        state := DcsEntry;
        ClearSequence();
      } else if b == 88 || b == 94 || b == 95 {
        state := SosPmApcString;
      } else {
        sink.Tell(Esc(intermediates, b));
        state := Ground;
      }
    }

    method OnEscapeIntermediate(b: byte)
      requires state.EscapeIntermediate?
      modifies this, sink
      ensures Did(EscapeIntermediateByte(old(Model()), b))
    {
      if IsC0(b) {
        sink.Tell(Execute(b));
      } else if IsIntermediate(b) {
        var ok := CollectByte(b);
        if !ok {
          state := Ground;
        }
      } else if b == 0x7F {
      } else {
        sink.Tell(Esc(intermediates, b));
        state := Ground;
      }
    }

    /** An intermediate byte of a CSI or DCS: one too many spoils the sequence. */
    method OnIntermediate(b: byte, next: VtState, spoilt: VtState)
      modifies `intermediates, `state
      ensures Model() == Intermediate(old(Model()), b, next, spoilt)
    {
      var ok := CollectByte(b);
      state := if ok then next else spoilt;
    }

    method OnCsiFinal(b: byte)
      modifies this, sink
      ensures Did(CsiDone(old(Model()), b))
    {
      sink.Tell(Csi(params, intermediates, b));
      state := Ground;
    }

    method OnDcsFinal(b: byte)
      modifies this, sink
      ensures Did(DcsDone(old(Model()), b))
    {
      sink.Tell(DcsStart(params, intermediates, b));
      state := DcsPassthrough;
    }

    method OnCsiEntry(b: byte)
      requires state.CsiEntry?
      modifies this, sink
      ensures Did(CsiEntryByte(old(Model()), b))
    {
      hide PushDigit, Separate;
      if IsC0(b) {
        sink.Tell(Execute(b));
      } else if b == 0x7F {
      } else if IsFinal(b) {
        OnCsiFinal(b);
      } else if IsIntermediate(b) {
        OnIntermediate(b, CsiIntermediate, CsiIgnore);
      } else if IsPrivate(b) {
        var _ := CollectByte(b);
        state := CsiParam;
      } else if IsDigit(b) {
        PushParamDigit(b);
        state := CsiParam;
      } else if IsSeparator(b) {
        NextParam(b);
        state := CsiParam;
      } else {
        state := CsiIgnore;
      }
    }

    method OnCsiParam(b: byte)
      requires state.CsiParam?
      modifies this, sink
      ensures Did(CsiParamByte(old(Model()), b))
    {
      hide PushDigit, Separate;
      if IsC0(b) {
        sink.Tell(Execute(b));
      } else if b == 0x7F {
      } else if IsDigit(b) {
        PushParamDigit(b);
      } else if IsSeparator(b) {
        NextParam(b);
      } else if IsFinal(b) {
        OnCsiFinal(b);
      } else if IsIntermediate(b) {
        OnIntermediate(b, CsiIntermediate, CsiIgnore);
      } else {
        state := CsiIgnore;
      }
    }

    method OnCsiIntermediate(b: byte)
      requires state.CsiIntermediate?
      modifies this, sink
      ensures Did(CsiIntermediateByte(old(Model()), b))
    {
      if IsC0(b) {
        sink.Tell(Execute(b));
      } else if b == 0x7F {
      } else if IsIntermediate(b) {
        OnIntermediate(b, CsiIntermediate, CsiIgnore);
      } else if IsFinal(b) {
        OnCsiFinal(b);
      } else {
        state := CsiIgnore;
      }
    }

    method OnDcsEntry(b: byte)
      requires state.DcsEntry?
      modifies this, sink
      ensures Did(DcsEntryByte(old(Model()), b))
    {
      hide PushDigit, Separate;
      if b == 0x7F || IsC0(b) {
      } else if IsFinal(b) {
        OnDcsFinal(b);
      } else if IsIntermediate(b) {
        OnIntermediate(b, DcsIntermediate, DcsIgnore);
      } else if IsPrivate(b) {
        var _ := CollectByte(b);
        state := DcsParam;
      } else if IsDigit(b) {
        PushParamDigit(b);
        state := DcsParam;
      } else if IsSeparator(b) {
        NextParam(b);
        state := DcsParam;
      } else {
        state := DcsIgnore;
      }
    }

    method OnDcsParam(b: byte)
      requires state.DcsParam?
      modifies this, sink
      ensures Did(DcsParamByte(old(Model()), b))
    {
      hide PushDigit, Separate;
      if b == 0x7F || IsC0(b) {
      } else if IsDigit(b) {
        PushParamDigit(b);
      } else if IsSeparator(b) {
        NextParam(b);
      } else if IsFinal(b) {
        OnDcsFinal(b);
      } else if IsIntermediate(b) {
        OnIntermediate(b, DcsIntermediate, DcsIgnore);
      } else {
        state := DcsIgnore;
      }
    }

    method OnDcsIntermediate(b: byte)
      requires state.DcsIntermediate?
      modifies this, sink
      ensures Did(DcsIntermediateByte(old(Model()), b))
    {
      if b == 0x7F || IsC0(b) {
      } else if IsIntermediate(b) {
        OnIntermediate(b, DcsIntermediate, DcsIgnore);
      } else if IsFinal(b) {
        OnDcsFinal(b);
      } else {
        state := DcsIgnore;
      }
    }

    method OnOsc(b: byte)
      requires state.OscString?
      modifies this, sink
      ensures Did(OscByte(old(Model()), b))
    {
      if b == 0x07 {
        sink.Tell(Osc(osc));
        state := Ground;
        ClearSequence();
      } else if IsC0(b) {
      } else if |osc| < MAX_OSC {
        osc := osc + [b];
      }
    }

    /** One byte in the current state, cancellations and restarts apart. */
    method OnState(b: byte)
      modifies this, sink
      ensures Did(StateByte(old(Model()), b))
    {
      hide EscapeByte, EscapeIntermediateByte, CsiEntryByte, CsiParamByte, CsiIntermediateByte;
      hide DcsEntryByte, DcsParamByte, DcsIntermediateByte, OscByte;
      match state {
        case Ground => OnGroundOrEscape(b);
        case Escape => OnEscape(b);
        case EscapeIntermediate => OnEscapeIntermediate(b);
        case CsiEntry => OnCsiEntry(b);
        case CsiParam => OnCsiParam(b);
        case CsiIntermediate => OnCsiIntermediate(b);
        case CsiIgnore =>
          if IsC0(b) {
            sink.Tell(Execute(b));
          } else if IsFinal(b) {
            state := Ground;
          }
        case DcsEntry => OnDcsEntry(b);
        case DcsParam => OnDcsParam(b);
        case DcsIntermediate => OnDcsIntermediate(b);
        case DcsPassthrough =>
          if b != 0x7F {
            sink.Tell(DcsData(b));
          }
        case OscString => OnOsc(b);
        case _ =>
      }
    }

    /** An ESC flushes a truncated character before it starts a sequence. */
    method OnGroundOrEscape(b: byte)
      requires state.Ground?
      modifies this, sink
      ensures Did(StateByte(old(Model()), b))
    {
      if b == ESC {
        FlushUtf8();
      }
      OnGround(b);
    }

    method StepByte(b: byte)
      modifies this, sink
      ensures Did(Step(old(Model()), b))
    {
      hide StateByte;
      if IsCancel(b) && !state.Ground? {
        if state.DcsPassthrough? {
          sink.Tell(DcsEnd);
        }
        state := Ground;
        ClearSequence();
        sink.Tell(Execute(b));
        return;
      }
      if b == ESC && !state.Ground? {
        if state.OscString? {
          sink.Tell(Osc(osc));
        }
        if state.DcsPassthrough? {
          sink.Tell(DcsEnd);
        }
        state := Escape;
        ClearSequence();
        return;
      }
      OnState(b);
    }

    /** A whole read. The limits of the parser are kept throughout. */
    method FeedBytes(s: bytes)
      modifies this, sink
      ensures Did(Feed(old(Model()), s))
      ensures old(Bounded(Model())) ==> Bounded(Model())
    {
      hide Step, Bounded;
      FeedKeepsBounds(Model(), s);
      assert s[0..] == s;
      for i := 0 to |s|
        invariant Feed(Model(), s[i..]).0 == Feed(old(Model()), s).0
        invariant sink.calls + Feed(Model(), s[i..]).1 == old(sink.calls) + Feed(old(Model()), s).1
      {
        ghost var before, told := Model(), sink.calls;
        assert s[i..][1..] == s[i + 1..];
        StepByte(s[i]);
        assert told + (Step(before, s[i]).1 + Feed(Model(), s[i + 1..]).1)
            == (told + Step(before, s[i]).1) + Feed(Model(), s[i + 1..]).1;
      }
    }
  }

  lemma FeedKeepsBounds(p: Machine, s: bytes)
    ensures Bounded(p) ==> Bounded(Feed(p, s).0)
  {
    if Bounded(p) {
      FeedIsBounded(p, s);
    }
  }
}
