// Whatever fails, and whenever the job is cancelled, no source file is lost.

module FileJobSafety {
  import opened Cells
  import Bytes
  import opened FileJob

  predicate Same(fs: Disk, fs0: Disk, q: Path) {
    (q in fs <==> q in fs0) && (q in fs ==> fs[q] == fs0[q])
  }

  /** The whole content of a source file is where it was or where it goes. */
  ghost predicate Kept(p: Plan, fs: Disk, q: Path)
    requires q in p.fs0 && InScope(p, q)
  {
    (q in fs && fs[q] == p.fs0[q]) || (DestOf(p, q) in fs && fs[DestOf(p, q)] == p.fs0[q])
  }

  ghost predicate NoFileLost(p: Plan, fs: Disk) {
    forall q :: q in p.fs0 && p.fs0[q].File? && InScope(p, q) ==> Kept(p, fs, q)
  }

  /** Sources only ever lose nodes: nothing is created or rewritten among them. */
  ghost predicate SourcesIntact(p: Plan, fs: Disk) {
    forall q :: q in fs && InScope(p, q) ==> q in p.fs0 && fs[q] == p.fs0[q]
  }

  /** Nothing changes outside the sources and their destinations. */
  ghost predicate Framed(p: Plan, fs: Disk) {
    forall q :: !InScope(p, q) && !IsDest(p, q) ==> Same(fs, p.fs0, q)
  }

  /** A copy only adds; a delete only removes. */
  ghost predicate KindKept(p: Plan, fs: Disk) {
    && (p.kind.Copy? ==> forall q :: q in p.fs0 ==> q in fs && fs[q] == p.fs0[q])
    && (p.kind.Delete? ==> forall q :: q in fs ==> q in p.fs0 && fs[q] == p.fs0[q])
    && (p.kind.Move? ==> NoFileLost(p, fs))
  }

  ghost predicate ItemOk(p: Plan, it: Item) {
    InScope(p, it.from) && (!it.rmdirOnly && !p.kind.Delete? ==> it.to == DestOf(p, it.from))
    && (it.rmdirOnly ==> !p.kind.Copy?)
  }

  /** The file being copied is an untouched source, its copy so far a prefix, its target new. */
  ghost predicate CopyOk(p: Plan, s: Job) {
    s.cur.Some? ==>
      var k := s.cur.value;
      && !p.kind.Delete? && InScope(p, k.from) && k.to == DestOf(p, k.from)
      && IsFile(s.fs, k.from) && k.from in p.fs0 && s.fs[k.from] == p.fs0[k.from]
      && k.off <= |s.fs[k.from].data| && k.to in s.fs && s.fs[k.to] == File(s.fs[k.from].data[..k.off])
      && (p.kind.Copy? ==> k.to !in p.fs0)
  }

  ghost predicate Safe(p: Plan, s: Job) {
    && Apart(p) && s.kind == p.kind
    && (forall i :: 0 <= i < |s.pending| ==> ItemOk(p, s.pending[i]))
    && CopyOk(p, s) && SourcesIntact(p, s.fs) && Framed(p, s.fs) && KindKept(p, s.fs)
  }

  // ---- The effect of one change to the disk.

  lemma WriteKeepsRegions(p: Plan, fs: Disk, q: Path, node: Node)
    requires Apart(p) && InScope(p, q) && SourcesIntact(p, fs) && Framed(p, fs)
    ensures SourcesIntact(p, fs[DestOf(p, q) := node]) && Framed(p, fs[DestOf(p, q) := node])
  {
    DestIsOutside(p, q);
    assert IsDest(p, DestOf(p, q));
    hide InScope, IsDest, DestOf;
  }

  /** Writing where q goes loses nothing, if q itself is still at its source. */
  lemma WriteKeepsFiles(p: Plan, fs: Disk, q: Path, node: Node)
    requires Apart(p) && InScope(p, q) && NoFileLost(p, fs) && SourcesIntact(p, fs) && q in fs
    ensures NoFileLost(p, fs[DestOf(p, q) := node])
  {
    DestIsOutside(p, q);
    hide InScope, DestOf, Apart;
    forall r | r in p.fs0 && p.fs0[r].File? && InScope(p, r)
      ensures Kept(p, fs[DestOf(p, q) := node], r)
    {
      assert Kept(p, fs, r);
      if DestOf(p, r) == DestOf(p, q) { DestIsInjective(p, q, r); }
    }
  }

  /** Removing the destination of q loses nothing either. */
  lemma UnwriteKeepsFiles(p: Plan, fs: Disk, q: Path)
    requires Apart(p) && InScope(p, q) && NoFileLost(p, fs) && SourcesIntact(p, fs) && q in fs
    ensures NoFileLost(p, fs - {DestOf(p, q)})
  {
    DestIsOutside(p, q);
    hide InScope, DestOf, Apart;
    forall r | r in p.fs0 && p.fs0[r].File? && InScope(p, r)
      ensures Kept(p, fs - {DestOf(p, q)}, r)
    {
      assert Kept(p, fs, r);
      if DestOf(p, r) == DestOf(p, q) { DestIsInjective(p, q, r); }
    }
  }

  lemma UnwriteKeepsRegions(p: Plan, fs: Disk, q: Path)
    requires Apart(p) && InScope(p, q) && SourcesIntact(p, fs) && Framed(p, fs)
    ensures SourcesIntact(p, fs - {DestOf(p, q)}) && Framed(p, fs - {DestOf(p, q)})
  {
    DestIsOutside(p, q);
    assert IsDest(p, DestOf(p, q));
    hide InScope, IsDest, DestOf;
  }

  /** Removing a source node that is a directory, or whose content is at its destination. */
  lemma RemoveKeepsAll(p: Plan, fs: Disk, q: Path)
    requires Apart(p) && InScope(p, q) && q in fs && SourcesIntact(p, fs) && Framed(p, fs) && KindKept(p, fs)
    requires !p.kind.Copy?
    requires p.kind.Move? ==> fs[q].Dir? || (DestOf(p, q) in fs && fs[DestOf(p, q)] == fs[q])
    ensures SourcesIntact(p, fs - {q}) && Framed(p, fs - {q}) && KindKept(p, fs - {q})
  {
    hide InScope, DestOf, Apart, IsDest;
    if p.kind.Move? {
      forall r | r in p.fs0 && p.fs0[r].File? && InScope(p, r)
        ensures Kept(p, fs - {q}, r)
      {
        assert Kept(p, fs, r);
        DestIsOutside(p, r);
        if DestOf(p, r) == q { assert false; }
      }
    }
  }

  // ---- Each step.

  lemma WriteDestIsSafe(p: Plan, fs: Disk, q: Path, node: Node)
    requires Apart(p) && InScope(p, q) && q in fs
    requires SourcesIntact(p, fs) && Framed(p, fs) && KindKept(p, fs) && !p.kind.Delete?
    requires p.kind.Copy? ==> DestOf(p, q) !in p.fs0
    ensures var fs' := fs[DestOf(p, q) := node];
      SourcesIntact(p, fs') && Framed(p, fs') && KindKept(p, fs') && q in fs' && fs'[q] == fs[q]
  {
    DestIsOutside(p, q);
    WriteKeepsRegions(p, fs, q, node);
    hide InScope, DestOf, Apart, IsDest, NoFileLost;
    if p.kind.Move? { WriteKeepsFiles(p, fs, q, node); }
  }

  /** One target per source name, so children go under their directory's destination. */
  lemma ChildrenAreOk(p: Plan, it: Item, listing: seq<Name>, i: nat)
    requires Apart(p) && InScope(p, it.from) && (!p.kind.Delete? ==> it.to == DestOf(p, it.from)) && i < |listing|
    ensures ItemOk(p, ChildItems(it, listing, p.kind)[i])
  {
    ChildDest(p, it.from, listing[i]);
  }

  /** A new node at a destination was not there at the start of a copy. */
  lemma NewIsNotOld(p: Plan, fs: Disk, d: Path)
    requires KindKept(p, fs) && p.kind.Copy? && d !in fs
    ensures d !in p.fs0
  {
  }

  lemma TakeDirIsSafe(p: Plan, s: Job, it: Item, c: Choice)
    requires Safe(p, s) && s.cur.None? && ItemOk(p, it) && !it.rmdirOnly && it.from in s.fs
    ensures Safe(p, TakeDir(s, it, c))
  {
    hide InScope, DestOf, Apart, SourcesIntact, Framed, KindKept;
    if !s.kind.Delete? && it.to !in s.fs {
      if p.kind.Copy? { NewIsNotOld(p, s.fs, it.to); }
      WriteDestIsSafe(p, s.fs, it.from, Dir);
    }
    forall i | 0 <= i < |c.listing|
      ensures ItemOk(p, ChildItems(it, c.listing, s.kind)[i])
    {
      ChildrenAreOk(p, it, c.listing, i);
    }
  }

  lemma RenameIsSafe(p: Plan, fs: Disk, q: Path)
    requires Apart(p) && InScope(p, q) && q in fs && p.kind.Move?
    requires SourcesIntact(p, fs) && Framed(p, fs) && KindKept(p, fs)
    ensures var fs' := (fs - {q})[DestOf(p, q) := fs[q]];
      SourcesIntact(p, fs') && Framed(p, fs') && KindKept(p, fs')
  {
    DestIsOutside(p, q);
    var d, node := DestOf(p, q), fs[q];
    assert d != q;
    hide InScope, DestOf, Apart, SourcesIntact, Framed, KindKept;
    WriteDestIsSafe(p, fs, q, node);
    RemoveKeepsAll(p, fs[d := node], q);
    RenamedIsRemoved(fs, q, d, node);
  }

  lemma RenamedIsRemoved(fs: Disk, q: Path, d: Path, node: Node)
    requires d != q
    ensures fs[d := node] - {q} == (fs - {q})[d := node]
  {
  }

  lemma TakeFileIsSafe(p: Plan, s: Job, it: Item, c: Choice)
    requires Safe(p, s) && s.cur.None? && ItemOk(p, it) && !it.rmdirOnly && it.from in s.fs && s.fs[it.from].File?
    ensures Safe(p, TakeFile(s, it, c))
  {
    DestIsOutside(p, it.from);
    assert s.fs[it.from] == p.fs0[it.from] && it.from in p.fs0;
    hide InScope, DestOf, Apart, SourcesIntact, Framed, KindKept;
    if s.kind.Delete? {
      RemoveKeepsAll(p, s.fs, it.from);
    } else if s.kind.Move? && c.renameOk && CanRename(s.fs, it.to) {
      RenameIsSafe(p, s.fs, it.from);
    } else if c.openInOk && c.openOutOk && CanCreate(s.fs, it.to) {
      if p.kind.Copy? { NewIsNotOld(p, s.fs, it.to); }
      WriteDestIsSafe(p, s.fs, it.from, File([]));
    }
  }

  lemma TakeIsSafe(p: Plan, s: Job, c: Choice)
    requires Safe(p, s) && Enabled(s, TakeNext(c))
    ensures Safe(p, Take(s, c))
  {
    hide InScope, DestOf, Apart, SourcesIntact, Framed, KindKept, TakeDir, TakeFile;
    var it, t := s.pending[|s.pending| - 1], s.(pending := s.pending[..|s.pending| - 1]);
    assert Safe(p, t);
    if it.rmdirOnly {
      if c.rmdirOk && CanRmdir(s.fs, it.from) { RemoveKeepsAll(p, s.fs, it.from); }
    } else if c.statOk && it.from in s.fs {
      if s.fs[it.from].Dir? { TakeDirIsSafe(p, t, it, c); } else { TakeFileIsSafe(p, t, it, c); }
    }
  }

  lemma CopyGrows(data: seq<Bytes.byte>, off: nat, n: nat)
    requires off + n <= |data|
    ensures data[..off] + data[off..off + n] == data[..off + n]
  {
  }

  lemma AppendIsSafe(p: Plan, s: Job, n: nat)
    requires Safe(p, s) && Enabled(s, Append(n))
    ensures Safe(p, Do(s, Append(n)))
  {
    hide InScope, DestOf, Apart, SourcesIntact, Framed, KindKept, ItemOk;
    var k := s.cur.value;
    DestIsOutside(p, k.from);
    var data := s.fs[k.from].data;
    CopyGrows(data, k.off, n);
    var node := File(data[..k.off + n]);
    WriteDestIsSafe(p, s.fs, k.from, node);
    assert Do(s, Append(n)) == s.(fs := s.fs[k.to := node], cur := Some(k.(off := k.off + n)));
  }

  lemma FinishIsSafe(p: Plan, s: Job, unlinkOk: bool)
    requires Safe(p, s) && Enabled(s, Finish(unlinkOk))
    ensures Safe(p, Do(s, Finish(unlinkOk)))
  {
    var k := s.cur.value;
    hide InScope, DestOf, Apart, SourcesIntact, Framed, KindKept;
    var data := s.fs[k.from].data;
    assert data[..|data|] == data;
    if s.kind.Move? && unlinkOk { RemoveKeepsAll(p, s.fs, k.from); }
  }

  lemma UnwriteIsSafe(p: Plan, fs: Disk, q: Path)
    requires Apart(p) && InScope(p, q) && q in fs && !p.kind.Delete?
    requires SourcesIntact(p, fs) && Framed(p, fs) && KindKept(p, fs)
    requires p.kind.Copy? ==> DestOf(p, q) !in p.fs0
    ensures var fs' := fs - {DestOf(p, q)}; SourcesIntact(p, fs') && Framed(p, fs') && KindKept(p, fs')
  {
    hide InScope, DestOf, Apart, NoFileLost, SourcesIntact, Framed;
    UnwriteKeepsRegions(p, fs, q);
    if p.kind.Move? { UnwriteKeepsFiles(p, fs, q); }
  }

  lemma AbortIsSafe(p: Plan, s: Job, unlinkOk: bool)
    requires Safe(p, s) && Enabled(s, Abort(unlinkOk))
    ensures Safe(p, Do(s, Abort(unlinkOk)))
  {
    hide InScope, DestOf, Apart, SourcesIntact, Framed, KindKept, ItemOk;
    var k := s.cur.value;
    if unlinkOk { UnwriteIsSafe(p, s.fs, k.from); }
  }

  lemma StepIsSafe(p: Plan, s: Job, m: Step)
    requires Safe(p, s) && Enabled(s, m)
    ensures Safe(p, Do(s, m))
  {
    hide InScope, DestOf, Apart, SourcesIntact, Framed, KindKept, Take, Without;
    match m
    case TakeNext(c) => TakeIsSafe(p, s, c);
    case Append(n) => AppendIsSafe(p, s, n);
    case Finish(unlinkOk) => FinishIsSafe(p, s, unlinkOk);
    case Abort(unlinkOk) => AbortIsSafe(p, s, unlinkOk);
    case Cancel =>
  }

  lemma {:induction false} RunIsSafe(p: Plan, s: Job, ms: seq<Step>)
    requires Safe(p, s) && EnabledRun(s, ms)
    ensures Safe(p, Run(s, ms))
    decreases |ms|
  {
    hide Safe, Enabled, Do;
    if ms != [] {
      StepIsSafe(p, s, ms[0]);
      RunIsSafe(p, Do(s, ms[0]), ms[1..]);
    }
  }

  lemma {:induction false} QueueIsOk(p: Plan, n: nat)
    requires Apart(p) && n <= |p.sources|
    ensures forall it :: it in Queue(p.sources[n..], p.dest, p.kind) ==> ItemOk(p, it)
    decreases |p.sources| - n
  {
    if n < |p.sources| {
      QueueIsOk(p, n + 1);
      assert p.sources[n..][1..] == p.sources[n + 1..];
      SourceDest(p, n);
      var it := Item(p.sources[n], if p.kind.Delete? then [] else Target(p, n), false);
      assert ItemOk(p, it);
      assert Queue(p.sources[n..], p.dest, p.kind) == Queue(p.sources[n + 1..], p.dest, p.kind) + [it];
    }
  }

  /** A started job is safe. */
  lemma StartIsSafe(p: Plan)
    requires Apart(p)
    ensures Safe(p, Start(p.fs0, p.sources, p.dest, p.kind))
  {
    QueueIsOk(p, 0);
    assert p.sources[0..] == p.sources;
    hide ItemOk, InScope, IsDest, DestOf, Queue;
    assert NoFileLost(p, p.fs0);
  }

  /** With any failures of any call, in any order, cancelled anywhere or not: after every step of
      a move, each source file's full content is at its place or at its destination; a copy has
      changed nothing that existed; a delete has created nothing; and the rest of the disk is
      untouched. */
  lemma NoFileIsLost(p: Plan, ms: seq<Step>)
    requires Apart(p) && EnabledRun(Start(p.fs0, p.sources, p.dest, p.kind), ms)
    ensures var fs := Run(Start(p.fs0, p.sources, p.dest, p.kind), ms).fs;
      && (p.kind.Move? ==> NoFileLost(p, fs))
      && (p.kind.Copy? ==> forall q :: q in p.fs0 ==> q in fs && fs[q] == p.fs0[q])
      && (p.kind.Delete? ==> forall q :: q in fs ==> q in p.fs0 && fs[q] == p.fs0[q])
      && (forall q :: !InScope(p, q) && !IsDest(p, q) ==> Same(fs, p.fs0, q))
  {
    StartIsSafe(p);
    RunIsSafe(p, Start(p.fs0, p.sources, p.dest, p.kind), ms);
    hide InScope, DestOf, Apart, IsDest;
  }

  // ---- "A copy never overwrites".

  /** True of every step exactly when it is not a rename onto an existing file: `O_EXCL` guards
      the copy, nothing guards the rename that a move tries first. */
  lemma TargetSurvivesIff(s: Job, c: Choice)
    requires s.pending != [] && s.cur.None?
    requires var it := s.pending[|s.pending| - 1]; it.from in s.fs && it.to in s.fs && it.from != it.to
    requires var it := s.pending[|s.pending| - 1]; !it.rmdirOnly && c.statOk && !s.kind.Delete? && IsFile(s.fs, it.from)
    requires var it := s.pending[|s.pending| - 1]; s.fs[it.from] != s.fs[it.to]
    ensures var it := s.pending[|s.pending| - 1]; var t := Take(s, c);
      (it.to in t.fs && t.fs[it.to] == s.fs[it.to]) <==> !(s.kind.Move? && c.renameOk && CanRename(s.fs, it.to))
  {
  }

  const ALL_WELL := Choice(true, true, true, [], true, true, true, true, true)

  /** A concrete move that silently replaces a file. */
  lemma MoveOverwrites()
    ensures
      var fs: Disk := map[["d"] := Dir, ["f"] := File([1]), ["d", "f"] := File([2])];
      var s := Start(fs, [["f"]], ["d"], Move);
      && Enabled(s, TakeNext(ALL_WELL))
      && Do(s, TakeNext(ALL_WELL)).fs == map[["d"] := Dir, ["d", "f"] := File([1])]
      && Do(s, TakeNext(ALL_WELL)).failed == 0
  {
    var fs: Disk := map[["d"] := Dir, ["f"] := File([1]), ["d", "f"] := File([2])];
    var s := Start(fs, [["f"]], ["d"], Move);
    assert Queue([["f"]][1..], ["d"], Move) == [];
    assert s.pending == [Item(["f"], ["d"] + ["f"], false)];
    assert ["d"] + ["f"] == ["d", "f"];
    assert Parent(["d", "f"]) == ["d"];
  }

  // ---- "An incomplete copy does not stay".

  /** A cancellation leaves the disk as it is: the file being copied keeps what was written of it, and
      differs from its source exactly if something was still to be written. */
  lemma CancelLeavesPart(p: Plan, s: Job)
    requires Safe(p, s) && s.cur.Some?
    ensures var k, fs := s.cur.value, Do(s, Cancel).fs;
      && k.from in fs && fs[k.from].File? && k.to in fs && k.off <= |fs[k.from].data|
      && fs[k.to] == File(fs[k.from].data[..k.off])
      && (fs[k.to] == fs[k.from] <==> k.off == |fs[k.from].data|)
  {
    hide SourcesIntact, Framed, KindKept, ItemOk, Apart, InScope, DestOf;
    var k := s.cur.value;
    var data := s.fs[k.from].data;
    if k.off < |data| {
      assert |data[..k.off]| < |data|;
    } else {
      assert data[..k.off] == data;
    }
  }

  const SMALL_DISK: Disk := map[["d"] := Dir, ["f"] := File([1, 2])]
  const OPENED := Job(SMALL_DISK[["d", "f"] := File([])], Copy, [], Some(Copying(["f"], ["d", "f"], 0)), 0, 0)

  lemma OneSource()
    ensures Start(SMALL_DISK, [["f"]], ["d"], Copy) == Job(SMALL_DISK, Copy, [Item(["f"], ["d", "f"], false)], None, 0, 0)
  {
    assert Queue([["f"]][1..], ["d"], Copy) == [];
    assert ["d"] + ["f"] == ["d", "f"];
  }

  lemma FirstStepOpens()
    ensures var s := Start(SMALL_DISK, [["f"]], ["d"], Copy);
      Enabled(s, TakeNext(ALL_WELL)) && Do(s, TakeNext(ALL_WELL)) == OPENED
  {
    OneSource();
    hide Start;
    assert Parent(["d", "f"]) == ["d"] && ["d", "f"] !in SMALL_DISK;
  }

  lemma SecondStepWrites()
    ensures Enabled(OPENED, Append(1)) && Do(OPENED, Append(1)).fs == SMALL_DISK[["d", "f"] := File([1])]
  {
    assert SMALL_DISK[["d", "f"] := File([])][["f"]].data[0..1] == [1];
    assert File([]).data + [1] == [1];
  }

  /** A concrete copy cancelled half-way. */
  lemma CancelHalfWay()
    ensures
      var fs: Disk := map[["d"] := Dir, ["f"] := File([1, 2])];
      var s := Start(fs, [["f"]], ["d"], Copy);
      var ms := [TakeNext(ALL_WELL), Append(1), Cancel];
      EnabledRun(s, ms) && Run(s, ms).fs == fs[["d", "f"] := File([1])]
  {
    hide Start, Do, Enabled, Run, EnabledRun;
    FirstStepOpens();
    SecondStepWrites();
    LastStepCancels(Start(SMALL_DISK, [["f"]], ["d"], Copy), OPENED, Do(OPENED, Append(1)));
  }

  lemma LastStepCancels(s: Job, s1: Job, s2: Job)
    requires Enabled(s, TakeNext(ALL_WELL)) && s1 == Do(s, TakeNext(ALL_WELL))
    requires Enabled(s1, Append(1)) && s2 == Do(s1, Append(1))
    ensures var ms := [TakeNext(ALL_WELL), Append(1), Cancel];
      EnabledRun(s, ms) && Run(s, ms).fs == s2.fs
  {
    hide Take, IsListing;
    var ms := [TakeNext(ALL_WELL), Append(1), Cancel];
    assert ms[1..] == [Append(1), Cancel] && ms[1..][1..] == [Cancel] && ms[1..][1..][1..] == [];
    var t := Do(s2, Cancel);
    assert EnabledRun(t, []) && Run(t, []) == t;
    assert EnabledRun(s2, [Cancel]) && Run(s2, [Cancel]) == t;
  }
}
