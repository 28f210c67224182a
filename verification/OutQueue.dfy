// Bytes waiting to be sent to a peer that may be slow (common/outqueue.cpp): as a value with its
// history, and as the object the program keeps.

module OutQueue {
  import opened Bytes

  /** Ordered by how bad it is. */
  datatype Severity = NoOverflow | Clean | Dirty {
    function Rank(): nat { if NoOverflow? then 0 else if Clean? then 1 else 2 }
  }

  function Worse(a: Severity, b: Severity): Severity { if b.Rank() > a.Rank() then b else a }

  const SHIFT_MIN := 65536

  /** `wire` is everything sent so far. `begun` is how much of the current batch went out: the bytes
      sent since the queue was last empty. */
  datatype Queue = Queue(ceiling: nat, buf: bytes, off: nat, overflow: Severity, wire: bytes, begun: nat) {
    function Pending(): bytes
      requires off <= |buf|
    {
      buf[off..]
    }

    /** The consumed head is never the whole buffer, and what is pending fits under the ceiling. */
    predicate Sound() {
      && off <= |buf| && (off == |buf| ==> |buf| == 0)
      && |buf| - off <= ceiling
      && off <= begun && (buf == [] ==> begun == 0)
      && (off == 0 && begun > 0 ==> begun > SHIFT_MIN)
    }
  }

  /** A push, a flush during which the kernel takes `n` bytes and then perhaps the link breaks, and
      a reading of the overflow flag. */
  datatype Act = Push(data: bytes) | Flush(n: nat, broken: bool) | Take

  predicate Fits(q: Queue, data: bytes)
    requires q.off <= |q.buf| && |q.buf| - q.off <= q.ceiling
  {
    |data| <= q.ceiling - (|q.buf| - q.off)
  }

  /** The severity of a rejection: whether the buffer thrown away had been started. */
  function SeverityOf(q: Queue): Severity { if q.off > 0 then Dirty else Clean }

  function Compacted(q: Queue): Queue
    requires q.off <= |q.buf|
  {
    if q.off == 0 then q
    else if q.off == |q.buf| then q.(buf := [], off := 0, begun := 0)
    else if q.off > SHIFT_MIN then q.(buf := q.buf[q.off..], off := 0)
    else q
  }

  function Sent(q: Queue, n: nat): Queue
    requires q.off + n <= |q.buf|
  {
    q.(off := q.off + n, wire := q.wire + q.buf[q.off..q.off + n], begun := q.begun + n)
  }

  /** The kernel takes no more than there is, and breaks only a send that was tried. */
  predicate Can(q: Queue, a: Act) {
    match a
    case Flush(n, broken) => q.off + n <= |q.buf| && (broken ==> q.off + n < |q.buf|)
    case _ => true
  }

  function Do(q: Queue, a: Act): (r: Queue)
    requires q.Sound() && Can(q, a)
  {
    match a
    case Push(data) =>
      if Fits(q, data) then q.(buf := q.buf + data)
      else q.(overflow := Worse(q.overflow, SeverityOf(q)), buf := [], off := 0, begun := 0)
    case Flush(n, broken) => if broken then Sent(q, n) else Compacted(Sent(q, n))
    case Take => q.(overflow := NoOverflow)
  }

  lemma StepIsSound(q: Queue, a: Act)
    requires q.Sound() && Can(q, a)
    ensures Do(q, a).Sound() && Do(q, a).ceiling == q.ceiling
  {
  }

  // ---- Whole runs.

  predicate CanRun(q: Queue, acts: seq<Act>)
    requires q.Sound()
    decreases |acts|
  {
    acts == [] || (Can(q, acts[0]) && (StepIsSound(q, acts[0]); CanRun(Do(q, acts[0]), acts[1..])))
  }

  function Run(q: Queue, acts: seq<Act>): (r: Queue)
    requires q.Sound() && CanRun(q, acts)
    ensures r.Sound() && r.ceiling == q.ceiling
    decreases |acts|
  {
    if acts == [] then q
    else
      StepIsSound(q, acts[0]);
      Run(Do(q, acts[0]), acts[1..])
  }

  /** A plain queue of bytes: what was sent, what waits, and how much may wait. */
  datatype Plain = Plain(room: nat, sent: bytes, waiting: bytes)

  function DoPlain(p: Plain, a: Act): Plain {
    match a
    case Push(data) => if |p.waiting| + |data| <= p.room then p.(waiting := p.waiting + data) else p.(waiting := [])
    case Flush(n, _) =>
      if n > |p.waiting| then p else p.(sent := p.sent + p.waiting[..n], waiting := p.waiting[n..])
    case Take => p
  }

  /** What goes to the peer, sent or not: a push that fits is added at the end, one that does not
      takes with it all that was waiting, and nothing else changes it. What was sent stays sent. */
  lemma PlainStream(p: Plain, a: Act)
    ensures p.sent <= DoPlain(p, a).sent
    ensures |p.waiting| <= p.room ==> |DoPlain(p, a).waiting| <= p.room
    ensures DoPlain(p, a).sent + DoPlain(p, a).waiting ==
      match a
      case Push(data) => if |p.waiting| + |data| <= p.room then p.sent + p.waiting + data else p.sent
      case _ => p.sent + p.waiting
  {
    match a
    case Push(data) =>
      assert p.sent + (p.waiting + data) == p.sent + p.waiting + data;
    case Flush(n, _) =>
      if n <= |p.waiting| {
        assert p.waiting[..n] + p.waiting[n..] == p.waiting;
        assert p.sent + (p.waiting[..n] + p.waiting[n..]) == p.sent + p.waiting[..n] + p.waiting[n..];
      }
    case Take =>
  }

  function RunPlain(p: Plain, acts: seq<Act>): Plain
    decreases |acts|
  {
    if acts == [] then p else RunPlain(DoPlain(p, acts[0]), acts[1..])
  }

  function PlainOf(q: Queue): Plain
    requires q.Sound()
  {
    Plain(q.ceiling, q.wire, q.Pending())
  }

  /** Output queue conservation: whatever the kernel takes and whenever the buffer is compacted, the
      queue is a plain queue of bytes under the same ceiling. */
  lemma {:induction false} QueueIsPlain(q: Queue, acts: seq<Act>)
    requires q.Sound() && CanRun(q, acts)
    ensures PlainOf(Run(q, acts)) == RunPlain(PlainOf(q), acts)
    decreases |acts|
  {
    if acts != [] {
      StepIsPlain(q, acts[0]);
      hide Do, DoPlain, PlainOf;
      StepIsSound(q, acts[0]);
      QueueIsPlain(Do(q, acts[0]), acts[1..]);
    }
  }

  lemma StepIsPlain(q: Queue, a: Act)
    requires q.Sound() && Can(q, a)
    ensures Do(q, a).Sound() && PlainOf(Do(q, a)) == DoPlain(PlainOf(q), a)
  {
    StepIsSound(q, a);
    match a
    case Push(data) =>
      TailOfConcat(q.buf, data, q.off);
    case Flush(n, broken) =>
      SliceOfTail(q.buf, q.off, n);
    case Take =>
  }

  /** The severities of the rejections of a run, in order. */
  function Rejections(q: Queue, acts: seq<Act>): seq<Severity>
    requires q.Sound() && CanRun(q, acts)
    decreases |acts|
  {
    if acts == [] then []
    else
      StepIsSound(q, acts[0]);
      (if acts[0].Push? && !Fits(q, acts[0].data) then [SeverityOf(q)] else [])
        + Rejections(Do(q, acts[0]), acts[1..])
  }

  /** The flag is the worst rejection since it was last read: no better, no worse. */
  lemma {:induction false} FlagIsTheWorst(q: Queue, acts: seq<Act>)
    requires q.Sound() && CanRun(q, acts) && Take !in acts
    ensures var flag := Run(q, acts).overflow;
      && (flag == q.overflow || flag in Rejections(q, acts))
      && flag.Rank() >= q.overflow.Rank()
      && forall s :: s in Rejections(q, acts) ==> flag.Rank() >= s.Rank()
    decreases |acts|
  {
    if acts != [] {
      StepIsSound(q, acts[0]);
      FlagIsTheWorst(Do(q, acts[0]), acts[1..]);
    }
  }

  // ---- What a clean rejection says.

  lemma {:induction false} PrefixRuns(q: Queue, acts: seq<Act>, k: nat)
    requires q.Sound() && CanRun(q, acts) && k <= |acts|
    ensures CanRun(q, acts[..k])
    decreases k
  {
    if k > 0 {
      StepIsSound(q, acts[0]);
      PrefixRuns(Do(q, acts[0]), acts[1..], k - 1);
      assert acts[..k][1..] == acts[1..][..k - 1];
    }
  }

  /** The queue once k acts of the run were done. */
  function At(q: Queue, acts: seq<Act>, k: nat): (r: Queue)
    requires q.Sound() && CanRun(q, acts) && k <= |acts|
    ensures r.Sound()
  {
    PrefixRuns(q, acts, k);
    Run(q, acts[..k])
  }

  lemma {:induction false} AtStep(q: Queue, acts: seq<Act>, k: nat)
    requires q.Sound() && CanRun(q, acts) && k < |acts|
    ensures Can(At(q, acts, k), acts[k]) && At(q, acts, k + 1) == Do(At(q, acts, k), acts[k])
    decreases k
  {
    PrefixRuns(q, acts, k);
    PrefixRuns(q, acts, k + 1);
    StepIsSound(q, acts[0]);
    var next := Do(q, acts[0]);
    assert acts[..k + 1][1..] == acts[1..][..k];
    if k == 0 {
      assert acts[..k + 1] == [acts[0]] && acts[..k] == [];
      assert Run(q, [acts[0]]) == Run(next, [acts[0]][1..]) == next;
    } else {
      hide Do, Can;
      AtStep(next, acts[1..], k - 1);
      assert acts[..k][1..] == acts[1..][..k - 1];
    }
  }

  predicate SendsAt(acts: seq<Act>, j: nat) {
    j < |acts| && acts[j].Flush? && acts[j].n > 0
  }

  /** An unbroken flush after which a head of more than 64 KiB was sent and bytes still wait. */
  predicate ShiftsAt(q: Queue, acts: seq<Act>, i: nat)
    requires q.Sound() && CanRun(q, acts) && i < |acts|
  {
    acts[i].Flush? && !acts[i].broken
    && SHIFT_MIN < At(q, acts, i).off + acts[i].n < |At(q, acts, i).buf|
  }

  /** From act j on to act k, the queue is never empty. */
  ghost predicate NeverEmpty(q: Queue, acts: seq<Act>, j: nat, k: nat)
    requires q.Sound() && CanRun(q, acts) && k <= |acts|
  {
    forall i :: j < i <= k ==> At(q, acts, i).buf != []
  }

  /** Some of what is queued together at act k had gone out: bytes were sent and the queue was not
      empty since. */
  ghost predicate PartlySent(q: Queue, acts: seq<Act>, k: nat)
    requires q.Sound() && CanRun(q, acts) && k <= |acts|
  {
    exists j: nat :: j < k && SendsAt(acts, j) && NeverEmpty(q, acts, j, k)
  }

  /** A head was shifted away at act i; since then the queue was not empty and nothing was sent. */
  ghost predicate ShiftedAt(q: Queue, acts: seq<Act>, i: nat, k: nat)
    requires q.Sound() && CanRun(q, acts) && k <= |acts|
  {
    i < k && ShiftsAt(q, acts, i) && NeverEmpty(q, acts, i, k) && forall j :: i < j < k ==> !SendsAt(acts, j)
  }

  lemma NeverEmptyBefore(q: Queue, acts: seq<Act>, j: nat, k: nat)
    requires q.Sound() && CanRun(q, acts) && j < k <= |acts|
    ensures NeverEmpty(q, acts, j, k) ==> NeverEmpty(q, acts, j, k - 1) && At(q, acts, k).buf != []
  {
    hide At, CanRun;
  }

  lemma {:induction false} BegunIsPartlySent(q: Queue, acts: seq<Act>, k: nat)
    requires q.Sound() && q.buf == [] && CanRun(q, acts) && k <= |acts|
    ensures At(q, acts, k).begun > 0 <==> PartlySent(q, acts, k)
    decreases k
  {
    if k > 0 {
      AtStep(q, acts, k - 1);
      BegunIsPartlySent(q, acts, k - 1);
      var p, r := At(q, acts, k - 1), At(q, acts, k);
      assert r.begun > 0 <==> r.buf != [] && (p.begun > 0 || SendsAt(acts, k - 1));
      hide At, Do, Can, CanRun;
      if r.begun > 0 {
        if SendsAt(acts, k - 1) {
          assert NeverEmpty(q, acts, k - 1, k);
        } else {
          var j: nat :| j < k - 1 && SendsAt(acts, j) && NeverEmpty(q, acts, j, k - 1);
          assert NeverEmpty(q, acts, j, k);
        }
      } else {
        forall j: nat | j < k && SendsAt(acts, j) ensures !NeverEmpty(q, acts, j, k) {
          NeverEmptyBefore(q, acts, j, k);
        }
      }
    }
  }

  /** One act: the head is gone with bytes of the batch, and nothing was sent since. */
  lemma ShiftStep(p: Queue, a: Act)
    requires p.Sound() && Can(p, a)
    ensures Do(p, a).Sound()
    ensures var r := Do(p, a);
      (r.off == 0 && r.begun > 0) <==>
        || (a.Flush? && !a.broken && SHIFT_MIN < p.off + a.n < |p.buf|)
        || (p.off == 0 && p.begun > 0 && r.buf != [] && !(a.Flush? && a.n > 0))
  {
    StepIsSound(p, a);
  }

  lemma {:induction false} LostHeadIsShifted(q: Queue, acts: seq<Act>, k: nat)
    requires q.Sound() && q.buf == [] && CanRun(q, acts) && k <= |acts|
    ensures (At(q, acts, k).off == 0 && At(q, acts, k).begun > 0) <==> exists i: nat :: ShiftedAt(q, acts, i, k)
    decreases k
  {
    if k > 0 {
      AtStep(q, acts, k - 1);
      LostHeadIsShifted(q, acts, k - 1);
      var p, r := At(q, acts, k - 1), At(q, acts, k);
      ShiftStep(p, acts[k - 1]);
      assert r.begun > 0 ==> r.buf != [];
      hide At, Do, Can, CanRun;
      if ShiftsAt(q, acts, k - 1) {
        assert ShiftedAt(q, acts, k - 1, k);
      } else if r.off == 0 && r.begun > 0 {
        var i: nat :| ShiftedAt(q, acts, i, k - 1);
        assert NeverEmpty(q, acts, i, k);
        assert ShiftedAt(q, acts, i, k);
      } else {
        forall i: nat ensures !ShiftedAt(q, acts, i, k) {
          ShiftedBefore(q, acts, i, k);
        }
      }
    }
  }

  lemma ShiftedBefore(q: Queue, acts: seq<Act>, i: nat, k: nat)
    requires q.Sound() && CanRun(q, acts) && 0 < k <= |acts| && !ShiftsAt(q, acts, k - 1)
    ensures ShiftedAt(q, acts, i, k) ==>
      ShiftedAt(q, acts, i, k - 1) && At(q, acts, k).buf != [] && !SendsAt(acts, k - 1)
  {
    hide At, CanRun;
  }

  /** The documentation promises that nothing of a batch rejected as clean had gone out. From an
      empty queue on, a rejection after some of its batch was sent is judged clean exactly if an
      unbroken flush had sent more than 64 KiB from the head and left bytes waiting, and since then
      the queue was not empty and no byte was sent. */
  lemma CleanIsHonestIff(q: Queue, acts: seq<Act>)
    requires q.Sound() && q.buf == [] && CanRun(q, acts)
    ensures (SeverityOf(Run(q, acts)) == Clean && PartlySent(q, acts, |acts|))
      <==> exists i: nat :: ShiftedAt(q, acts, i, |acts|)
  {
    assert acts[..|acts|] == acts;
    BegunIsPartlySent(q, acts, |acts|);
    LostHeadIsShifted(q, acts, |acts|);
    hide PartlySent, ShiftedAt;
  }

  /** A dirty verdict is never wrong: some of the batch had gone out. */
  lemma DirtyIsHonest(q: Queue, acts: seq<Act>)
    requires q.Sound() && q.buf == [] && CanRun(q, acts) && SeverityOf(Run(q, acts)) == Dirty
    ensures PartlySent(q, acts, |acts|)
  {
    assert acts[..|acts|] == acts;
    BegunIsPartlySent(q, acts, |acts|);
    hide PartlySent;
  }

  /** A short batch is always judged rightly. */
  lemma ShortBatchIsHonest(q: Queue)
    requires q.Sound() && q.begun <= SHIFT_MIN
    ensures SeverityOf(q) == Clean <==> q.begun == 0
  {
  }

  /** A batch of which 65537 bytes went out, rejected as clean. */
  lemma CleanAfterShift()
    ensures var q := Queue(100000, [], 0, NoOverflow, [], 0);
      var acts := [Push(seq(70000, _ => 0)), Flush(65537, false), Push(seq(95538, _ => 0))];
      q.Sound() && CanRun(q, acts) && Run(q, acts).overflow == Clean && |Run(q, acts).wire| == 65537
  {
    var q := Queue(100000, [], 0, NoOverflow, [], 0);
    var first, last := seq(70000, _ => 0 as byte), seq(95538, _ => 0 as byte);
    var acts := [Push(first), Flush(65537, false), Push(last)];
    var q1 := Do(q, acts[0]);
    assert q1.buf == first;
    var q2 := Do(q1, acts[1]);
    assert |q2.buf| == 4463 && q2.off == 0 && |q2.wire| == 65537;
    var q3 := Do(q2, acts[2]);
    assert q3.overflow == Clean;
    assert acts[1..] == [acts[1], acts[2]] && acts[1..][1..] == [acts[2]] && acts[1..][1..][1..] == [];
    assert Run(q2, [acts[2]]) == q3;
    assert Run(q1, acts[1..]) == q3;
  }

  // ---- The object.

  class OutQueue {
    const ceiling: nat
    var buf: bytes
    var off: nat
    var overflow: Severity
    ghost var wire: bytes
    ghost var begun: nat

    ghost function Model(): Queue
      reads this
    {
      Queue(ceiling, buf, off, overflow, wire, begun)
    }

    ghost predicate Valid()
      reads this
    {
      Model().Sound()
    }

    constructor (ceiling: nat)
      ensures Valid() && Model() == Queue(ceiling, [], 0, NoOverflow, [], 0)
    {
      this.ceiling := ceiling;
      buf, off, overflow := [], 0, NoOverflow;
      wire, begun := [], 0;
    }

    function Size(): nat
      reads this
      requires off <= |buf|
    {
      |buf| - off
    }

    /** Whether to ask for a writable notification: exactly while something is pending. */
    function WantsWrite(): (r: bool)
      reads this
      requires Valid()
      ensures r <==> Model().Pending() != []
    {
      off < |buf|
    }

    method ReleaseBuffer()
      modifies this
      ensures Model() == old(Model()).(buf := [], off := 0, begun := 0)
    {
      buf, off, begun := [], 0, 0;
    }

    method PushBytes(data: bytes)
      requires Valid()
      modifies this
      ensures Valid() && Model() == Do(old(Model()), Push(data))
      ensures Size() <= ceiling
    {
      StepIsSound(Model(), Push(data));
      var current := Size();
      if |data| > ceiling - current {
        var rejection := if off > 0 then Dirty else Clean;
        if rejection.Rank() > overflow.Rank() {
          overflow := rejection;
        }
        ReleaseBuffer();
        return;
      }
      buf := buf + data;
    }

    method Compact()
      requires off <= |buf|
      modifies this
      ensures Model() == Compacted(old(Model()))
    {
      if off == 0 {
        return;
      }
      if off == |buf| {
        ReleaseBuffer();
        return;
      }
      if off > SHIFT_MIN {
        buf := buf[off..];
        off := 0;
      }
    }

    /** Sends until all is gone, the kernel takes no more, or the link fails. */
    method FlushTo() returns (ok: bool, ghost n: nat)
      requires Valid()
      modifies this
      ensures Can(old(Model()), Flush(n, !ok))
      ensures Valid() && Model() == Do(old(Model()), Flush(n, !ok))
    {
      n := 0;
      ok := true;
      assert Model() == Sent(Model(), 0) by {
        assert wire + buf[off..off] == wire;
      }
      while off < |buf|
        invariant old(off) + n == off <= |buf| == |old(buf)|
        invariant Model() == Sent(old(Model()), n)
        decreases |buf| - off
      {
        var taken: nat :| taken <= |buf| - off;
        if taken == 0 {
          var again: bool := *;
          if again {
            break;
          }
          ok := false;
          StepIsSound(old(Model()), Flush(n, true));
          return;
        }
        SentTwice(old(Model()), n, taken);
        wire := wire + buf[off..off + taken];
        off, begun, n := off + taken, begun + taken, n + taken;
      }
      Compact();
      StepIsSound(old(Model()), Flush(n, false));
    }

    method TakeOverflow() returns (v: Severity)
      requires Valid()
      modifies this`overflow
      ensures v == old(overflow)
      ensures Valid() && Model() == Do(old(Model()), Take)
    {
      v := overflow;
      overflow := NoOverflow;
    }
  }

  lemma SentTwice(q: Queue, n: nat, m: nat)
    requires q.off + n + m <= |q.buf|
    ensures Sent(Sent(q, n), m) == Sent(q, n + m)
  {
    var a, b := q.off + n, q.off + n + m;
    assert q.buf[q.off..a] + q.buf[a..b] == q.buf[q.off..b];
    assert q.wire + (q.buf[q.off..a] + q.buf[a..b]) == q.wire + q.buf[q.off..a] + q.buf[a..b];
  }
}
