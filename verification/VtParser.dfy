// The DEC state machine that reads a guest's output (vt/parser.cpp).

module VtParser {
  import opened Bytes

  datatype VtState =
    | Ground | Escape | EscapeIntermediate
    | CsiEntry | CsiParam | CsiIntermediate | CsiIgnore
    | DcsEntry | DcsParam | DcsIntermediate | DcsPassthrough | DcsIgnore
    | OscString | SosPmApcString

  /** A parameter; -1 stands for an omitted value, `sub` marks one introduced by `:`. */
  datatype Param = Param(value: int, sub: bool)

  /** What the parser tells its sink. */
  datatype Call =
    | Print(cp: nat)
    | Execute(b: byte)
    | Csi(params: seq<Param>, intermediates: bytes, final: byte)
    | Esc(intermediates: bytes, final: byte)
    | Osc(data: bytes)
    | DcsStart(params: seq<Param>, intermediates: bytes, final: byte)
    | DcsData(b: byte)
    | DcsEnd

  /** The whole state of the parser. `need`, `seen`, `acc` and `min` follow one UTF-8 sequence. */
  datatype Machine = Machine(
    state: VtState, params: seq<Param>, intermediates: bytes, osc: bytes,
    acc: nat, need: nat, seen: nat, min: nat)

  type Result = (Machine, seq<Call>)

  const MAX_PARAMS := 32
  const MAX_PARAM_VALUE := 65535
  const MAX_INTERMEDIATES := 4
  const MAX_OSC := 4096

  const INITIAL := Machine(Ground, [], [], [], 0, 0, 0, 0)

  predicate IsC0(b: byte) { b <= 0x17 || b == 0x19 || 0x1C <= b <= 0x1F }
  predicate IsIntermediate(b: byte) { 0x20 <= b <= 0x2F }
  predicate IsFinal(b: byte) { 0x40 <= b <= 0x7E }
  predicate IsDigit(b: byte) { 0x30 <= b <= 0x39 }
  predicate IsPrivate(b: byte) { 0x3C <= b <= 0x3F }
  predicate IsSeparator(b: byte) { b == 0x3A || b == 0x3B }
  predicate IsCancel(b: byte) { b == 0x18 || b == 0x1A }
  predicate IsContinuation(b: byte) { 0x80 <= b <= 0xBF }

  function ParamOr(p: seq<Param>, index: nat, fallback: int): int {
    if index >= |p| || p[index].value < 0 then fallback else p[index].value
  }

  // ---- The accumulators.

  function Clear(p: Machine): Machine { p.(params := [], intermediates := [], osc := []) }

  function CanCollect(p: Machine): bool { |p.intermediates| < MAX_INTERMEDIATES }

  function Collect(p: Machine, b: byte): Machine {
    if CanCollect(p) then p.(intermediates := p.intermediates + [b]) else p
  }

  /** One more digit; the ceiling applies while accumulating. */
  function AddDigit(value: int, digit: nat): int
    requires digit <= 9
  {
    var v := Max(value, 0);
    if v <= (MAX_PARAM_VALUE - digit) / 10 then v * 10 + digit else MAX_PARAM_VALUE
  }

  function PushDigit(p: Machine, b: byte): Machine
    requires IsDigit(b)
  {
    var ps := if p.params == [] then [Param(-1, false)] else p.params;
    var last := ps[|ps| - 1];
    p.(params := ps[..|ps| - 1] + [last.(value := AddDigit(last.value, b - 48))])
  }

  /** `;` or `:` opens the next parameter, while there is room. */
  function Separate(p: Machine, b: byte): Machine {
    var ps := if p.params == [] then [Param(-1, false)] else p.params;
    p.(params := if |ps| < MAX_PARAMS then ps + [Param(-1, b == 0x3A)] else ps)
  }

  // ---- UTF-8 in the ground state.

  function DropUtf8(p: Machine): Machine { p.(need := 0, seen := 0, acc := 0, min := 0) }

  function Flush(p: Machine): Result {
    if p.need == 0 then (p, []) else (DropUtf8(p), [Print(0xFFFD)])
  }

  function Validated(cp: nat, min: nat): nat {
    if cp < min || 0xD800 <= cp <= 0xDFFF || cp > 0x10FFFF then 0xFFFD else cp
  }

  function Continue(p: Machine, b: byte): Result {
    var acc := p.acc * 64 + b % 64;
    if p.seen + 1 < p.need then (p.(acc := acc, seen := p.seen + 1), [])
    else (DropUtf8(p), [Print(Validated(acc, p.min))])
  }

  function Lead(p: Machine, b: byte): Result {
    if 0xC2 <= b <= 0xDF then (p.(acc := b % 32, need := 1, min := 0x80, seen := 0), [])
    else if 0xE0 <= b <= 0xEF then (p.(acc := b % 16, need := 2, min := 0x800, seen := 0), [])
    else if 0xF0 <= b <= 0xF4 then (p.(acc := b % 8, need := 3, min := 0x10000, seen := 0), [])
    else (p, [Print(0xFFFD)])
  }

  /** A ground byte outside any UTF-8 sequence. */
  function Fresh(p: Machine, b: byte): Result {
    if b == ESC then (Clear(p).(state := Escape), [])
    else if IsCancel(b) || IsC0(b) then (p, [Execute(b)])
    else if b == 0x7F then (p, [])
    else if b < 0x80 then (p, [Print(b)])
    else Lead(p, b)
  }

  function GroundByte(p: Machine, b: byte): Result {
    if p.need == 0 then Fresh(p, b)
    else if IsContinuation(b) then Continue(p, b)
    else var (q, c) := Fresh(Flush(p).0, b); (q, Flush(p).1 + c)
  }

  // ---- One function per state family.

  function EscapeByte(p: Machine, b: byte): Result {
    if IsC0(b) then (p, [Execute(b)])
    else if IsIntermediate(b) then (Collect(p, b).(state := EscapeIntermediate), [])
    else if b == 0x7F then (p, [])
    else if b == 91 then (Clear(p).(state := CsiEntry), [])
    else if b == 93 then (p.(state := OscString, osc := []), [])
    else if b == 80 then (Clear(p).(state := DcsEntry), [])
    else if b == 88 || b == 94 || b == 95 then (p.(state := SosPmApcString), [])
    else (p.(state := Ground), [Esc(p.intermediates, b)])
  }

  function EscapeIntermediateByte(p: Machine, b: byte): Result {
    if IsC0(b) then (p, [Execute(b)])
    else if IsIntermediate(b) then
      (if CanCollect(p) then Collect(p, b) else p.(state := Ground), [])
    else if b == 0x7F then (p, [])
    else (p.(state := Ground), [Esc(p.intermediates, b)])
  }

  function CsiDone(p: Machine, b: byte): Result {
    (p.(state := Ground), [Csi(p.params, p.intermediates, b)])
  }

  function DcsDone(p: Machine, b: byte): Result {
    (p.(state := DcsPassthrough), [DcsStart(p.params, p.intermediates, b)])
  }

  function Intermediate(p: Machine, b: byte, next: VtState, overflow: VtState): Machine {
    if CanCollect(p) then Collect(p, b).(state := next) else p.(state := overflow)
  }

  function CsiEntryByte(p: Machine, b: byte): Result {
    if IsC0(b) then (p, [Execute(b)])
    else if b == 0x7F then (p, [])
    else if IsFinal(b) then CsiDone(p, b)
    else if IsIntermediate(b) then (Intermediate(p, b, CsiIntermediate, CsiIgnore), [])
    else if IsPrivate(b) then (Collect(p, b).(state := CsiParam), [])
    else if IsDigit(b) then (PushDigit(p, b).(state := CsiParam), [])
    else if IsSeparator(b) then (Separate(p, b).(state := CsiParam), [])
    else (p.(state := CsiIgnore), [])
  }

  function CsiParamByte(p: Machine, b: byte): Result {
    if IsC0(b) then (p, [Execute(b)])
    else if b == 0x7F then (p, [])
    else if IsDigit(b) then (PushDigit(p, b), [])
    else if IsSeparator(b) then (Separate(p, b), [])
    else if IsFinal(b) then CsiDone(p, b)
    else if IsIntermediate(b) then (Intermediate(p, b, CsiIntermediate, CsiIgnore), [])
    else (p.(state := CsiIgnore), [])
  }

  function CsiIntermediateByte(p: Machine, b: byte): Result {
    if IsC0(b) then (p, [Execute(b)])
    else if b == 0x7F then (p, [])
    else if IsIntermediate(b) then (Intermediate(p, b, CsiIntermediate, CsiIgnore), [])
    else if IsFinal(b) then CsiDone(p, b)
    else (p.(state := CsiIgnore), [])
  }

  function CsiIgnoreByte(p: Machine, b: byte): Result {
    if IsC0(b) then (p, [Execute(b)])
    else if IsFinal(b) then (p.(state := Ground), [])
    else (p, [])
  }

  function DcsEntryByte(p: Machine, b: byte): Result {
    if b == 0x7F || IsC0(b) then (p, [])
    else if IsFinal(b) then DcsDone(p, b)
    else if IsIntermediate(b) then (Intermediate(p, b, DcsIntermediate, DcsIgnore), [])
    else if IsPrivate(b) then (Collect(p, b).(state := DcsParam), [])
    else if IsDigit(b) then (PushDigit(p, b).(state := DcsParam), [])
    else if IsSeparator(b) then (Separate(p, b).(state := DcsParam), [])
    else (p.(state := DcsIgnore), [])
  }

  function DcsParamByte(p: Machine, b: byte): Result {
    if b == 0x7F || IsC0(b) then (p, [])
    else if IsDigit(b) then (PushDigit(p, b), [])
    else if IsSeparator(b) then (Separate(p, b), [])
    else if IsFinal(b) then DcsDone(p, b)
    else if IsIntermediate(b) then (Intermediate(p, b, DcsIntermediate, DcsIgnore), [])
    else (p.(state := DcsIgnore), [])
  }

  function DcsIntermediateByte(p: Machine, b: byte): Result {
    if b == 0x7F || IsC0(b) then (p, [])
    else if IsIntermediate(b) then (Intermediate(p, b, DcsIntermediate, DcsIgnore), [])
    else if IsFinal(b) then DcsDone(p, b)
    else (p.(state := DcsIgnore), [])
  }

  function OscByte(p: Machine, b: byte): Result {
    if b == 0x07 then (Clear(p).(state := Ground), [Osc(p.osc)])
    else if IsC0(b) || |p.osc| >= MAX_OSC then (p, [])
    else (p.(osc := p.osc + [b]), [])
  }

  function CancelByte(p: Machine, b: byte): Result {
    (Clear(p).(state := Ground), (if p.state.DcsPassthrough? then [DcsEnd] else []) + [Execute(b)])
  }

  /** ESC restarts a sequence from anywhere: it also ends an OSC (as ST) and closes a DCS. */
  function RestartByte(p: Machine): Result {
    (Clear(p).(state := Escape),
     if p.state.OscString? then [Osc(p.osc)] else if p.state.DcsPassthrough? then [DcsEnd] else [])
  }

  function StateByte(p: Machine, b: byte): Result {
    match p.state
    case Ground => if b == ESC then (Fresh(Flush(p).0, b).0, Flush(p).1) else GroundByte(p, b)
    case Escape => EscapeByte(p, b)
    case EscapeIntermediate => EscapeIntermediateByte(p, b)
    case CsiEntry => CsiEntryByte(p, b)
    case CsiParam => CsiParamByte(p, b)
    case CsiIntermediate => CsiIntermediateByte(p, b)
    case CsiIgnore => CsiIgnoreByte(p, b)
    case DcsEntry => DcsEntryByte(p, b)
    case DcsParam => DcsParamByte(p, b)
    case DcsIntermediate => DcsIntermediateByte(p, b)
    case DcsPassthrough => (p, if b == 0x7F then [] else [DcsData(b)])
    case DcsIgnore => (p, [])
    case OscString => OscByte(p, b)
    case SosPmApcString => (p, [])
  }

  function Step(p: Machine, b: byte): Result {
    if IsCancel(b) && !p.state.Ground? then CancelByte(p, b)
    else if b == ESC && !p.state.Ground? then RestartByte(p)
    else StateByte(p, b)
  }

  function Feed(p: Machine, s: bytes): Result
    decreases |s|
  {
    if s == [] then (p, [])
    else
      var (q, c) := Step(p, s[0]);
      var (r, d) := Feed(q, s[1..]);
      (r, c + d)
  }
}
