// Whole runs of the daemon's loop against a client's terminal: frames on their way, frames lost,
// repaint requests and resizes the daemon has not heard of yet (daemon/daemon.cpp,
// client/tty_guard.cpp).

module ClientRuns {
  import opened Bytes
  import opened Cells
  import opened VtParser
  import opened VtParserProofs
  import opened Profile
  import opened SgrInverse
  import opened ScreenRow
  import opened Screen
  import opened ScreenOrders
  import opened ScreenProofs
  import opened Terminal
  import opened Picture
  import opened Frame
  import opened FrameSteps
  import opened FrameRuns
  import opened AnyFrame

  // ---- A frame that lands anywhere.

  /** The daemon draws a well-formed picture of a size the wire can carry, with its cursor inside. */
  ghost predicate Drawable(ambiguous: bool, cur: Picture, cursor: Option<Pos>) {
    WellFormed(ambiguous, cur) && cur.w <= MAX_SIZE && cur.h <= MAX_SIZE && OnScreen(cur, cursor)
  }

  /** The terminal is idle and whole, as one frame finds it and leaves it. */
  ghost predicate Settled(t: Emulator) {
    Ready(t) && WholeGrid(t.term.screen.grid)
  }

  predicate SameSize(t: Emulator, r: Emulator) {
    r.term.screen.cols == t.term.screen.cols && r.term.screen.rows == t.term.screen.rows
  }

  lemma SettledIsReady(t: Emulator)
    requires Settled(t)
    ensures Ready(t) && Valid(t.term.screen)
  {
  }

  lemma BodyKeeps(t: Emulator, ambiguous: bool, m: Memory, cur: Picture, d: Depth)
    requires Settled(t) && SizedPicture(m.prev)
    requires WellFormed(ambiguous, cur) && cur.w <= MAX_SIZE && cur.h <= MAX_SIZE
    ensures Settled(AfterBody(t, ambiguous, m, cur, d)) && SameSize(t, AfterBody(t, ambiguous, m, cur, d))
  {
    hide Receive, PROLOGUE, WellFormedRow, WholeGrid, FrameRows;
    ReceivePrologue(t, ambiguous);
    var u := Receive(t, ambiguous, PROLOGUE);
    ReceiveNothing(u, ambiguous);
    assert Quantized(PLAIN, d) == PLAIN;
    var f := Fitted(m, cur);
    RowsKeep(u, ambiguous, cur.rows, f.prev.rows, !f.valid, 0, START, d);
  }

  /** The end of the frame only moves the cursor and may show it. */
  lemma EndingKeeps(t: Emulator, ambiguous: bool, cursor: Option<Pos>)
    requires Settled(t) && 0 <= Target(cursor).x < MAX_SIZE && 0 <= Target(cursor).y < MAX_SIZE
    ensures var r := Receive(t, ambiguous, Ending(cursor)); Settled(r) && SameSize(t, r)
  {
    ReceiveEnding(t, ambiguous, cursor);
    hide Receive, Ending, WholeGrid;
  }

  /** Whatever terminal a frame reaches, it leaves it idle, of the same size, and whole. */
  lemma FrameKeepsWhole(t: Emulator, ambiguous: bool, m: Memory, cur: Picture, cursor: Option<Pos>, d: Depth)
    requires Settled(t) && SizedPicture(m.prev) && Drawable(ambiguous, cur, cursor)
    ensures SizedPicture(cur)
    ensures var r := Receive(t, ambiguous, FrameBytes(m, cur, cursor, d)); Settled(r) && SameSize(t, r)
  {
    assert SizedPicture(cur);
    SettledIsReady(t);
    hide Receive, FrameBytes, Ending, AfterBody, Settled, WellFormed;
    if FrameBytes(m, cur, cursor, d) == [] {
      ReceiveNothing(t, ambiguous);
    } else {
      FrameInParts(t, ambiguous, m, cur, cursor, d);
      BodyKeeps(t, ambiguous, m, cur, d);
      EndingKeeps(AfterBody(t, ambiguous, m, cur, d), ambiguous, cursor);
    }
  }

  // ---- The daemon, the wire and the terminal.

  datatype Size = Size(w: nat, h: nat)

  /** The client's terminal; the size the daemon draws at and the resizes still on their way to it;
      the differ's memory; the frames queued and not yet read by the terminal, oldest first. */
  datatype World = World(terminal: Emulator, size: Size, unheard: seq<Size>, memory: Memory, queue: seq<bytes>)

  /** A frame drawn and queued. The oldest queued frame read by the terminal. A frame drawn but
      rejected by the queue before a byte of it left: the whole queue is lost, and the daemon
      invalidates. A repaint request. The client's window resized, and later the daemon hearing
      of it. */
  datatype Act =
    | Draw(cur: Picture, cursor: Option<Pos>)
    | Deliver
    | Reject(lost: Picture, lostCursor: Option<Pos>)
    | Invalidate
    | ResizeTerminal(to: Size)
    | Hear

  predicate InRange(z: Size) { 1 <= z.w <= MAX_SIZE && 1 <= z.h <= MAX_SIZE }

  /** Pictures are drawn at the size the daemon knows; a client's size is 16-bit and not empty. */
  ghost predicate Allowed(world: World, ambiguous: bool, a: Act) {
    match a
    case Draw(cur, cursor) => Drawable(ambiguous, cur, cursor) && cur.w == world.size.w && cur.h == world.size.h
    case Deliver => world.queue != []
    case Reject(lost, lostCursor) => SizedPicture(lost)
    case Invalidate => true
    case ResizeTerminal(to) => InRange(to)
    case Hear => world.unheard != []
  }

  function Forget(m: Memory): Memory { m.(valid := false) }

  function Queued(queue: seq<bytes>, s: bytes): seq<bytes> { if s == [] then queue else queue + [s] }

  function Next(world: World, ambiguous: bool, d: Depth, a: Act): World
    requires Valid(world.terminal.term.screen) && SizedPicture(world.memory.prev)
    requires a.Draw? ==> SizedPicture(a.cur)
    requires a.Reject? ==> SizedPicture(a.lost)
    requires a.Deliver? ==> world.queue != []
    requires a.Hear? ==> world.unheard != []
  {
    var t, m := world.terminal, world.memory;
    match a
    case Draw(cur, cursor) =>
      world.(memory := After(m, cur, cursor, d), queue := Queued(world.queue, FrameBytes(m, cur, cursor, d)))
    case Deliver => world.(terminal := Receive(t, ambiguous, world.queue[0]), queue := world.queue[1..])
    case Reject(lost, lostCursor) => world.(memory := Forget(After(m, lost, lostCursor, d)), queue := [])
    case Invalidate => world.(memory := Forget(m))
    case ResizeTerminal(to) =>
      world.(terminal := t.(term := t.term.(screen := Resize(t.term.screen, to.w, to.h))),
             unheard := world.unheard + [to])
    case Hear => world.(size := world.unheard[0], unheard := world.unheard[1..], memory := Forget(m))
  }

  // ---- What never breaks.

  ghost predicate IsFrame(s: bytes, ambiguous: bool, d: Depth) {
    exists m: Memory, cur: Picture, cursor: Option<Pos> ::
      SizedPicture(m.prev) && Drawable(ambiguous, cur, cursor) && s == FrameBytes(m, cur, cursor, d)
  }

  /** The terminal once it has read the frames. */
  function Delivered(t: Emulator, ambiguous: bool, queue: seq<bytes>): (r: Emulator)
    requires Valid(t.term.screen)
    ensures Valid(r.term.screen)
    decreases |queue|
  {
    if queue == [] then t
    else
      ReceiveKeepsBounds(t, ambiguous, queue[0]);
      Delivered(Receive(t, ambiguous, queue[0]), ambiguous, queue[1..])
  }

  function Newest(world: World): Size {
    if world.unheard == [] then world.size else world.unheard[|world.unheard| - 1]
  }

  ghost predicate SizesAgree(world: World) {
    && InRange(world.size) && (forall i :: 0 <= i < |world.unheard| ==> InRange(world.unheard[i]))
    && Newest(world) == Size(world.terminal.term.screen.cols, world.terminal.term.screen.rows)
  }

  ghost predicate OnlyFrames(queue: seq<bytes>, ambiguous: bool, d: Depth) {
    forall i :: 0 <= i < |queue| ==> IsFrame(queue[i], ambiguous, d)
  }

  /** The terminal is whole and idle, every queued string is a frame, and once the queue has been
      read the terminal shows what the differ remembers, if the differ relies on it and no resize
      is on its way. */
  ghost predicate Consistent(world: World, ambiguous: bool, d: Depth) {
    && Settled(world.terminal) && SizesAgree(world)
    && SizedPicture(world.memory.prev) && OnlyFrames(world.queue, ambiguous, d)
    && (world.unheard == [] ==> Remembers(Delivered(world.terminal, ambiguous, world.queue), world.memory, d))
  }

  lemma {:induction false} DeliveredIsSettled(t: Emulator, ambiguous: bool, queue: seq<bytes>, d: Depth)
    requires Settled(t) && OnlyFrames(queue, ambiguous, d)
    ensures Settled(Delivered(t, ambiguous, queue)) && SameSize(t, Delivered(t, ambiguous, queue))
    decreases |queue|
  {
    hide Receive, WholeGrid, IsFrame;
    if queue != [] {
      StringIsFrame(t, ambiguous, queue[0], d);
      DeliveredIsSettled(Receive(t, ambiguous, queue[0]), ambiguous, queue[1..], d);
    }
  }

  lemma StringIsFrame(t: Emulator, ambiguous: bool, s: bytes, d: Depth)
    requires Settled(t) && IsFrame(s, ambiguous, d)
    ensures Settled(Receive(t, ambiguous, s)) && SameSize(t, Receive(t, ambiguous, s))
  {
    hide Receive, WholeGrid, FrameBytes, WellFormedRow;
    var m: Memory, cur: Picture, cursor: Option<Pos> :|
      SizedPicture(m.prev) && Drawable(ambiguous, cur, cursor) && s == FrameBytes(m, cur, cursor, d);
    FrameKeepsWhole(t, ambiguous, m, cur, cursor, d);
  }

  lemma {:induction false} DeliveredLast(t: Emulator, ambiguous: bool, queue: seq<bytes>, s: bytes)
    requires Valid(t.term.screen)
    ensures Delivered(t, ambiguous, queue + [s]) == Receive(Delivered(t, ambiguous, queue), ambiguous, s)
    decreases |queue|
  {
    hide Receive, Valid;
    if queue == [] {
      var r := (ReceiveKeepsBounds(t, ambiguous, s); Receive(t, ambiguous, s));
      assert Delivered(r, ambiguous, [s][1..]) == r;
      assert queue + [s] == [s];
    } else {
      ReceiveKeepsBounds(t, ambiguous, queue[0]);
      assert (queue + [s])[1..] == queue[1..] + [s];
      DeliveredLast(Receive(t, ambiguous, queue[0]), ambiguous, queue[1..], s);
    }
  }

  lemma DrawnIsFrame(m: Memory, ambiguous: bool, cur: Picture, cursor: Option<Pos>, d: Depth)
    requires SizedPicture(m.prev) && Drawable(ambiguous, cur, cursor)
    ensures SizedPicture(cur) && IsFrame(FrameBytes(m, cur, cursor, d), ambiguous, d)
  {
    assert SizedPicture(cur);
    hide FrameBytes, WellFormed;
  }

  lemma QueuedLast(t: Emulator, ambiguous: bool, queue: seq<bytes>, s: bytes, d: Depth)
    requires Settled(t) && OnlyFrames(queue, ambiguous, d) && IsFrame(s, ambiguous, d)
    ensures Valid(t.term.screen) && OnlyFrames(Queued(queue, s), ambiguous, d)
    ensures Delivered(t, ambiguous, Queued(queue, s)) == Receive(Delivered(t, ambiguous, queue), ambiguous, s)
  {
    SettledIsReady(t);
    DeliveredIsSettled(t, ambiguous, queue, d);
    SettledIsReady(Delivered(t, ambiguous, queue));
    hide Receive, IsFrame, Valid, Ready, Settled, Delivered;
    if s == [] {
      ReceiveNothing(Delivered(t, ambiguous, queue), ambiguous);
    } else {
      DeliveredLast(t, ambiguous, queue, s);
    }
  }

  lemma DrawQueues(world: World, ambiguous: bool, d: Depth, cur: Picture, cursor: Option<Pos>)
    requires Settled(world.terminal) && SizedPicture(world.memory.prev) && OnlyFrames(world.queue, ambiguous, d)
    requires Drawable(ambiguous, cur, cursor)
    ensures SizedPicture(cur)
    ensures var s := FrameBytes(world.memory, cur, cursor, d); var queue := Queued(world.queue, s);
      && OnlyFrames(queue, ambiguous, d)
      && Delivered(world.terminal, ambiguous, queue)
         == Receive(Delivered(world.terminal, ambiguous, world.queue), ambiguous, s)
  {
    DrawnIsFrame(world.memory, ambiguous, cur, cursor, d);
    hide Receive, FrameBytes, Drawable, IsFrame, Valid, SizedPicture, Settled, OnlyFrames, Delivered, Queued;
    QueuedLast(world.terminal, ambiguous, world.queue, FrameBytes(world.memory, cur, cursor, d), d);
  }

  lemma AfterIsSized(m: Memory, cur: Picture, cursor: Option<Pos>, d: Depth)
    requires SizedPicture(m.prev) && SizedPicture(cur)
    ensures SizedPicture(After(m, cur, cursor, d).prev)
  {
    hide Body;
  }

  /** A frame drawn while no resize is on its way will show its picture when it is read. */
  lemma DrawnWillShow(world: World, ambiguous: bool, d: Depth, cur: Picture, cursor: Option<Pos>)
    requires Consistent(world, ambiguous, d) && Allowed(world, ambiguous, Draw(cur, cursor)) && world.unheard == []
    ensures SizedPicture(cur)
    ensures var r := Delivered(world.terminal, ambiguous, Queued(world.queue, FrameBytes(world.memory, cur, cursor, d)));
      GridShows(r.term.screen.grid, cur.rows, d) && Remembers(r, After(world.memory, cur, cursor, d), d)
  {
    assert SizedPicture(cur);
    DrawQueues(world, ambiguous, d, cur, cursor);
    DeliveredIsSettled(world.terminal, ambiguous, world.queue, d);
    var t := Delivered(world.terminal, ambiguous, world.queue);
    WholeIsReceptive(t.term.screen.grid);
    assert OnScreen(cur, cursor) && Matches(t, ambiguous, cur);
    hide Receive, FrameBytes, After, WholeGrid, ReceptiveGrid, GridShows, OnlyFrames, Delivered;
    FrameShowsPicture(t, ambiguous, world.memory, cur, cursor, d);
  }

  lemma SameTerminal(world: World, ambiguous: bool, d: Depth, cur: Picture, cursor: Option<Pos>)
    requires Valid(world.terminal.term.screen) && SizedPicture(world.memory.prev) && SizedPicture(cur)
    ensures var next := Next(world, ambiguous, d, Draw(cur, cursor));
      next.terminal == world.terminal && (SizesAgree(world) ==> SizesAgree(next))
  {
    hide FrameBytes, After, Valid;
  }

  lemma DrawIsConsistent(world: World, ambiguous: bool, d: Depth, cur: Picture, cursor: Option<Pos>)
    requires Consistent(world, ambiguous, d) && Allowed(world, ambiguous, Draw(cur, cursor))
    ensures SizedPicture(cur) && Consistent(Next(world, ambiguous, d, Draw(cur, cursor)), ambiguous, d)
  {
    assert SizedPicture(cur);
    AfterIsSized(world.memory, cur, cursor, d);
    DrawQueues(world, ambiguous, d, cur, cursor);
    hide Receive, FrameBytes, After, GridShows, OnlyFrames, Delivered, Drawable, Settled, SizesAgree, SizedPicture;
    if world.unheard == [] { DrawnWillShow(world, ambiguous, d, cur, cursor); }
    SameTerminal(world, ambiguous, d, cur, cursor);
  }

  lemma DeliverIsConsistent(world: World, ambiguous: bool, d: Depth)
    requires Consistent(world, ambiguous, d) && world.queue != []
    ensures Consistent(Next(world, ambiguous, d, Deliver), ambiguous, d)
  {
    hide Receive, WholeGrid, GridShows, IsFrame;
    StringIsFrame(world.terminal, ambiguous, world.queue[0], d);
  }

  lemma ResizeIsSettled(t: Emulator, to: Size)
    requires Settled(t) && InRange(to)
    ensures var r := t.(term := t.term.(screen := Resize(t.term.screen, to.w, to.h)));
      Settled(r) && r.term.screen.cols == to.w && r.term.screen.rows == to.h
  {
    var s := t.term.screen;
    ResizeKeepsBounds(s, to.w, to.h);
    hide Reshape, Whole;
    BlankIsWhole(to.w, E(s));
    ReshapeIsWhole(s.grid, to.w, to.h, E(s));
  }

  lemma NewsIsConsistent(world: World, ambiguous: bool, d: Depth, a: Act)
    requires Consistent(world, ambiguous, d) && Allowed(world, ambiguous, a)
    requires a.Reject? || a.Invalidate? || a.ResizeTerminal? || a.Hear?
    ensures Consistent(Next(world, ambiguous, d, a), ambiguous, d)
  {
    hide Receive, After, WholeGrid, GridShows, IsFrame, Resize;
    match a
    case Reject(lost, lostCursor) => AfterIsSized(world.memory, lost, lostCursor, d);
    case Invalidate =>
    case ResizeTerminal(to) => ResizeIsSettled(world.terminal, to);
    case Hear =>
  }

  /** One turn of the loop keeps daemon, wire and terminal consistent. */
  lemma NextIsConsistent(world: World, ambiguous: bool, d: Depth, a: Act)
    requires Consistent(world, ambiguous, d) && Allowed(world, ambiguous, a)
    ensures a.Draw? ==> SizedPicture(a.cur)
    ensures Consistent(Next(world, ambiguous, d, a), ambiguous, d)
  {
    hide Consistent, Next;
    if a.Draw? {
      DrawIsConsistent(world, ambiguous, d, a.cur, a.cursor);
    } else if a.Deliver? {
      DeliverIsConsistent(world, ambiguous, d);
    } else {
      NewsIsConsistent(world, ambiguous, d, a);
    }
  }

  // ---- Whole runs.

  /** Every act of the run is allowed when its turn comes. */
  ghost predicate AllowedRun(world: World, ambiguous: bool, d: Depth, acts: seq<Act>)
    requires Consistent(world, ambiguous, d)
    decreases |acts|
  {
    acts == [] ||
    (Allowed(world, ambiguous, acts[0]) &&
     (NextIsConsistent(world, ambiguous, d, acts[0]);
      AllowedRun(Next(world, ambiguous, d, acts[0]), ambiguous, d, acts[1..])))
  }

  ghost function RunActs(world: World, ambiguous: bool, d: Depth, acts: seq<Act>): World
    requires Consistent(world, ambiguous, d) && AllowedRun(world, ambiguous, d, acts)
    decreases |acts|
  {
    if acts == [] then world
    else
      NextIsConsistent(world, ambiguous, d, acts[0]);
      RunActs(Next(world, ambiguous, d, acts[0]), ambiguous, d, acts[1..])
  }

  /** Over any interleaving of frames drawn, read and lost, repaint requests, resizes and their
      news, daemon, wire and terminal stay consistent. */
  lemma {:induction false} RunIsConsistent(world: World, ambiguous: bool, d: Depth, acts: seq<Act>)
    requires Consistent(world, ambiguous, d) && AllowedRun(world, ambiguous, d, acts)
    ensures Consistent(RunActs(world, ambiguous, d, acts), ambiguous, d)
    decreases |acts|
  {
    hide Next, Consistent;
    ConsistentIsValid(world, ambiguous, d);
    if acts != [] {
      NextIsConsistent(world, ambiguous, d, acts[0]);
      RunIsConsistent(Next(world, ambiguous, d, acts[0]), ambiguous, d, acts[1..]);
    }
  }

  /** What the queue still holds is read as it was written: reading it, or asking for a repaint,
      does not change what the terminal will show. */
  lemma {:induction false} ReadingKeepsThePromise(world: World, ambiguous: bool, d: Depth, acts: seq<Act>)
    requires Consistent(world, ambiguous, d) && AllowedRun(world, ambiguous, d, acts)
    requires forall i :: 0 <= i < |acts| ==> acts[i].Deliver? || acts[i].Invalidate?
    ensures var r := RunActs(world, ambiguous, d, acts);
      && Valid(r.terminal.term.screen)
      && Delivered(r.terminal, ambiguous, r.queue) == Delivered(world.terminal, ambiguous, world.queue)
    decreases |acts|
  {
    hide Consistent;
    ConsistentIsValid(world, ambiguous, d);
    if acts != [] {
      NextIsConsistent(world, ambiguous, d, acts[0]);
      ReadingKeepsThePromise(Next(world, ambiguous, d, acts[0]), ambiguous, d, acts[1..]);
    }
  }

  lemma ConsistentIsValid(world: World, ambiguous: bool, d: Depth)
    requires Consistent(world, ambiguous, d)
    ensures Valid(world.terminal.term.screen) && SizedPicture(world.memory.prev)
  {
  }

  /** In any state a run can reach, a frame drawn while no resize is on its way is on the terminal
      as soon as the queue has been read. */
  lemma FrameArrives(world: World, ambiguous: bool, d: Depth, cur: Picture, cursor: Option<Pos>, acts: seq<Act>)
    requires Consistent(world, ambiguous, d) && AllowedRun(world, ambiguous, d, [Draw(cur, cursor)] + acts)
    requires world.unheard == [] && forall i :: 0 <= i < |acts| ==> acts[i].Deliver? || acts[i].Invalidate?
    ensures var r := RunActs(world, ambiguous, d, [Draw(cur, cursor)] + acts);
      r.queue == [] ==> GridShows(r.terminal.term.screen.grid, cur.rows, d)
  {
    hide Consistent, GridShows, FrameBytes, After, Receive, Valid;
    ConsistentIsValid(world, ambiguous, d);
    var all := [Draw(cur, cursor)] + acts;
    assert all[0] == Draw(cur, cursor) && all[1..] == acts;
    NextIsConsistent(world, ambiguous, d, all[0]);
    DrawnWillShow(world, ambiguous, d, cur, cursor);
    ReadingKeepsThePromise(Next(world, ambiguous, d, all[0]), ambiguous, d, acts);
  }

  // ---- How a run starts.

  /** A fresh differ and any whole, idle terminal are consistent: the loop starts. */
  lemma FreshIsConsistent(t: Emulator, ambiguous: bool, d: Depth)
    requires Settled(t) && t.term.screen.cols <= MAX_SIZE && t.term.screen.rows <= MAX_SIZE
    ensures Consistent(World(t, Size(t.term.screen.cols, t.term.screen.rows), [],
                             Memory(Blank(0, 0), false, Pos(0, 0), false, true), []), ambiguous, d)
  {
  }

  const DEFAULT_MODES := Modes(false, true, true, false, false, false, false, false, false)

  /** The emulator as it is made: c columns, r rows, nothing received. */
  function PowerOn(c: int, r: int): Emulator {
    Emulator(INITIAL, Term(New(c, r), DEFAULT_MODES))
  }

  lemma PowerOnIsSettled(c: int, r: int)
    ensures Settled(PowerOn(c, r))
    ensures PowerOn(c, r).term.screen.cols == Max(1, c) && PowerOn(c, r).term.screen.rows == Max(1, r)
  {
    PowerOnIsInBounds(c, r);
    BlankIsWhole(Max(1, c), EMPTY);
    hide Whole;
  }

  /** DECSET or DECRST of one private mode. */
  function ModeBytes(n: nat, on: bool): bytes {
    [ESC, 91, 63] + Dec(n) + [if on then 104 else 108]
  }

  /** What a client writes on its terminal before the first frame. */
  const SETUP: seq<(nat, bool)> := [(1049, true), (1002, true), (1006, true), (2004, true), (1004, true), (7, false)]

  function SetupBytes(ms: seq<(nat, bool)>): bytes
    decreases |ms|
  {
    if ms == [] then [] else ModeBytes(ms[0].0, ms[0].1) + SetupBytes(ms[1..])
  }

  lemma ModeIsOneCall(t: Emulator, ambiguous: bool, n: nat, on: bool)
    requires Ready(t) && n <= MAX_PARAM_VALUE
    ensures var r := Receive(t, ambiguous, ModeBytes(n, on)); var m := SetMode(t.term.modes, n, on);
      Idle(r.parser) && Valid(r.term.screen)
      && r.term == Term(Run(t.term.screen, ambiguous, SyncOrders(t.term.screen.alt, m)), m)
  {
    hide Receive, Feed, Run, Valid, SetMode;
    var f: byte := if on then 104 else 108;
    var c := Csi([Param(n, false)], [63], f);
    ParsePrivate(t.parser, n, f);
    var u := SetMode(t.term.modes, n, on);
    assert SetModes(u, [Param(n, false)][1..], on) == u;
    ReadyIsValid(t);
    ReceiveOneCall(t, ambiguous, ModeBytes(n, on), c);
    ReceiveKeepsBounds(t, ambiguous, ModeBytes(n, on));
  }

  /** The page in front once the screen follows the modes. */
  lemma FrontPage(s: Scr, ambiguous: bool, m: Modes)
    requires Valid(s) && (s.alt ==> m.altScreen)
    ensures var r := Run(s, ambiguous, SyncOrders(s.alt, m));
      && r.cols == s.cols && r.rows == s.rows && r.charset == s.charset
      && r.alt == m.altScreen && r.autowrap == m.autowrap
      && (WholeGrid(s.grid) || m.altScreen != s.alt ==> WholeGrid(r.grid))
  {
    SyncRun(s, ambiguous, m);
    BlankIsWhole(s.cols, E(s));
    hide Run, Whole;
  }

  /** The modes a client sets besides the alternate page's. */
  predicate IsClientMode(n: nat) {
    n == 7 || n == 1002 || n == 1004 || n == 1006 || n == 2004
  }

  lemma ClientModesKeepThePage(m: Modes, on: bool)
    ensures SetMode(m, 7, on).altScreen == SetMode(m, 1002, on).altScreen == m.altScreen
    ensures SetMode(m, 1004, on).altScreen == SetMode(m, 1006, on).altScreen == m.altScreen
    ensures SetMode(m, 2004, on).altScreen == m.altScreen && SetMode(m, 1049, on).altScreen == on
  {
  }

  /** One mode, other than leaving the alternate page: idle again, and on a whole page if it was
      whole or if it is the alternate page just entered. */
  lemma ModeKeeps(t: Emulator, ambiguous: bool, n: nat, on: bool)
    requires Ready(t) && (IsClientMode(n) || (n == 1049 && on))
    ensures var r := Receive(t, ambiguous, ModeBytes(n, on));
      && Ready(r) && SameSize(t, r)
      && (WholeGrid(t.term.screen.grid) || (n == 1049 && !t.term.screen.alt) ==> WholeGrid(r.term.screen.grid))
  {
    ReadyIsValid(t);
    hide Receive, Run, WholeGrid, ModeBytes, Valid, SyncOrders, SetMode;
    ClientModesKeepThePage(t.term.modes, on);
    ModeIsOneCall(t, ambiguous, n, on);
    FrontPage(t.term.screen, ambiguous, SetMode(t.term.modes, n, on));
  }

  lemma {:induction false} SetupKeeps(t: Emulator, ambiguous: bool, ms: seq<(nat, bool)>)
    requires Settled(t)
    requires forall i :: 0 <= i < |ms| ==> IsClientMode(ms[i].0)
    ensures var r := Receive(t, ambiguous, SetupBytes(ms)); Settled(r) && SameSize(t, r)
    decreases |ms|
  {
    hide Receive, WholeGrid, ModeBytes, Ready;
    ReadyIsValid(t);
    if ms == [] {
      ReceiveNothing(t, ambiguous);
    } else {
      ModeKeeps(t, ambiguous, ms[0].0, ms[0].1);
      ReceiveConcat(t, ambiguous, ModeBytes(ms[0].0, ms[0].1), SetupBytes(ms[1..]));
      SetupKeeps(Receive(t, ambiguous, ModeBytes(ms[0].0, ms[0].1)), ambiguous, ms[1..]);
    }
  }

  /** The client's setup gives the differ the terminal it needs, whatever the guest before it left
      on the main page: a run may start there. */
  lemma SetupIsSettled(t: Emulator, ambiguous: bool)
    requires Ready(t) && !t.term.screen.alt
    ensures var r := Receive(t, ambiguous, SetupBytes(SETUP)); Settled(r) && SameSize(t, r)
  {
    hide Receive, WholeGrid, ModeBytes, Ready;
    ReadyIsValid(t);
    ModeKeeps(t, ambiguous, 1049, true);
    var rest := SETUP[1..];
    ReceiveConcat(t, ambiguous, ModeBytes(1049, true), SetupBytes(rest));
    SetupKeeps(Receive(t, ambiguous, ModeBytes(1049, true)), ambiguous, rest);
  }
}
