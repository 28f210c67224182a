// What a job leaves and what it reports, whatever fails (apps/files/job.cpp).

module FileJobOutcome {
  import opened Cells
  import opened FileJob
  import opened FileJobSafety
  import opened FileJobExact

  // ---- "An incomplete copy does not stay".

  /** The copies given up with something of them left: an aborted one that could not be removed, and
      one that was cancelled. */
  function LeftBy(s: Job, m: Step): set<Path> {
    if s.cur.Some? && (m.Cancel? || (m.Abort? && !m.unlinkOk)) then {s.cur.value.to} else {}
  }

  function LeftOver(s: Job, ms: seq<Step>): set<Path>
    requires EnabledRun(s, ms)
    decreases |ms|
  {
    if ms == [] then {} else LeftBy(s, ms[0]) + LeftOver(Do(s, ms[0]), ms[1..])
  }

  /** Every node where there was none at the start is its source's equal, but for the file being
      copied and what was left over. */
  ghost predicate WholeDests(p: Plan, fs: Disk, left: set<Path>, busy: set<Path>) {
    forall q :: InScope(p, q) && q !in busy && DestOf(p, q) in fs && DestOf(p, q) !in left && DestOf(p, q) !in p.fs0 ==>
      q in p.fs0 && fs[DestOf(p, q)] == p.fs0[q]
  }

  lemma SourceGone(p: Plan, fs: Disk, left: set<Path>, busy: set<Path>, q: Path)
    requires Apart(p) && InScope(p, q) && WholeDests(p, fs, left, busy)
    ensures WholeDests(p, fs - {q}, left, busy)
  {
    hide InScope, DestOf, Apart;
    forall r | InScope(p, r) ensures DestOf(p, r) != q {
      DestIsOutside(p, r);
    }
  }

  /** A destination is written: whole, or as the file being copied. */
  lemma DestWritten(p: Plan, fs: Disk, left: set<Path>, busy: set<Path>, q: Path, node: Node, busy': set<Path>)
    requires Apart(p) && InScope(p, q) && WholeDests(p, fs, left, busy) && busy <= busy' + {q}
    requires q in busy' || (q in p.fs0 && node == p.fs0[q])
    ensures WholeDests(p, fs[DestOf(p, q) := node], left, busy')
  {
    hide InScope, DestOf, Apart;
    forall r | InScope(p, r) && DestOf(p, r) == DestOf(p, q) ensures r == q {
      DestIsInjective(p, q, r);
    }
  }

  lemma DestGone(p: Plan, fs: Disk, left: set<Path>, q: Path)
    requires Apart(p) && InScope(p, q) && WholeDests(p, fs, left, {q})
    ensures WholeDests(p, fs - {DestOf(p, q)}, left, {})
  {
    hide InScope, DestOf, Apart;
    forall r | InScope(p, r) && DestOf(p, r) == DestOf(p, q) ensures r == q {
      DestIsInjective(p, q, r);
    }
  }

  lemma DestLeft(p: Plan, fs: Disk, left: set<Path>, q: Path)
    requires Apart(p) && InScope(p, q) && WholeDests(p, fs, left, {q})
    ensures WholeDests(p, fs, left + {DestOf(p, q)}, {})
  {
    hide InScope, DestOf, Apart;
  }

  lemma DestComplete(p: Plan, fs: Disk, left: set<Path>, q: Path)
    requires InScope(p, q) && WholeDests(p, fs, left, {q})
    requires DestOf(p, q) in fs && q in p.fs0 && fs[DestOf(p, q)] == p.fs0[q]
    ensures WholeDests(p, fs, left, {})
  {
    hide InScope, DestOf;
  }

  lemma DirIsWhole(p: Plan, s: Job, it: Item, c: Choice, left: set<Path>)
    requires Safe(p, s) && s.cur.None? && ItemOk(p, it) && !it.rmdirOnly && it.from in s.fs && s.fs[it.from].Dir?
    requires WholeDests(p, s.fs, left, {})
    ensures WholeDests(p, TakeDir(s, it, c).fs, left, {}) && TakeDir(s, it, c).cur.None?
  {
    assert it.from in p.fs0 && s.fs[it.from] == p.fs0[it.from];
    hide InScope, DestOf, Apart, SourcesIntact, Framed, KindKept, WholeDests;
    if !s.kind.Delete? && it.to !in s.fs {
      DestWritten(p, s.fs, left, {}, it.from, Dir, {});
    }
  }

  lemma RenameIsWhole(p: Plan, fs: Disk, left: set<Path>, q: Path)
    requires Apart(p) && InScope(p, q) && q in fs && q in p.fs0 && fs[q] == p.fs0[q] && WholeDests(p, fs, left, {})
    ensures WholeDests(p, (fs - {q})[DestOf(p, q) := fs[q]], left, {})
  {
    hide InScope, DestOf, Apart, WholeDests;
    SourceGone(p, fs, left, {}, q);
    DestWritten(p, fs - {q}, left, {}, q, fs[q], {});
  }

  lemma FileIsWhole(p: Plan, s: Job, it: Item, c: Choice, left: set<Path>)
    requires Safe(p, s) && s.cur.None? && ItemOk(p, it) && !it.rmdirOnly && it.from in s.fs && s.fs[it.from].File?
    requires WholeDests(p, s.fs, left, {})
    ensures WholeDests(p, TakeFile(s, it, c).fs, left, BusySet(TakeFile(s, it, c)))
  {
    assert it.from in p.fs0 && s.fs[it.from] == p.fs0[it.from];
    hide InScope, DestOf, Apart, SourcesIntact, Framed, KindKept, WholeDests, CanRename, CanCreate;
    if s.kind.Delete? {
      SourceGone(p, s.fs, left, {}, it.from);
    } else if s.kind.Move? && c.renameOk && CanRename(s.fs, it.to) {
      RenameIsWhole(p, s.fs, left, it.from);
    } else if c.openInOk && c.openOutOk && CanCreate(s.fs, it.to) {
      DestWritten(p, s.fs, left, {}, it.from, File([]), {it.from});
    }
  }

  lemma TakeIsWhole(p: Plan, s: Job, c: Choice, left: set<Path>)
    requires Safe(p, s) && Enabled(s, TakeNext(c)) && WholeDests(p, s.fs, left, {})
    ensures WholeDests(p, Take(s, c).fs, left, BusySet(Take(s, c)))
  {
    hide InScope, DestOf, Apart, SourcesIntact, Framed, KindKept, TakeDir, TakeFile, WholeDests, CanRmdir;
    var it, t := s.pending[|s.pending| - 1], s.(pending := s.pending[..|s.pending| - 1]);
    assert Safe(p, t);
    if it.rmdirOnly {
      if c.rmdirOk && CanRmdir(s.fs, it.from) { SourceGone(p, s.fs, left, {}, it.from); }
    } else if c.statOk && it.from in s.fs {
      if s.fs[it.from].Dir? { DirIsWhole(p, t, it, c, left); } else { FileIsWhole(p, t, it, c, left); }
    }
  }

  lemma FinishIsWhole(p: Plan, s: Job, unlinkOk: bool, left: set<Path>)
    requires Safe(p, s) && Enabled(s, Finish(unlinkOk)) && WholeDests(p, s.fs, left, BusySet(s))
    ensures WholeDests(p, Do(s, Finish(unlinkOk)).fs, left, {})
  {
    hide InScope, DestOf, Apart, SourcesIntact, Framed, KindKept, WholeDests;
    var k := s.cur.value;
    var data := s.fs[k.from].data;
    assert data[..|data|] == data;
    DestComplete(p, s.fs, left, k.from);
    if s.kind.Move? && unlinkOk { SourceGone(p, s.fs, left, {}, k.from); }
  }

  lemma AppendIsWhole(p: Plan, s: Job, n: nat, left: set<Path>)
    requires Safe(p, s) && Enabled(s, Append(n)) && WholeDests(p, s.fs, left, BusySet(s))
    ensures WholeDests(p, Do(s, Append(n)).fs, left, BusySet(s))
  {
    hide InScope, DestOf, Apart, SourcesIntact, Framed, KindKept, WholeDests;
    var k := s.cur.value;
    DestWritten(p, s.fs, left, BusySet(s), k.from, File(s.fs[k.to].data + s.fs[k.from].data[k.off..k.off + n]), {k.from});
  }

  lemma GivenUpIsWhole(p: Plan, s: Job, m: Step, left: set<Path>)
    requires Safe(p, s) && Enabled(s, m) && (m.Abort? || m.Cancel?) && WholeDests(p, s.fs, left, BusySet(s))
    ensures WholeDests(p, Do(s, m).fs, left + LeftBy(s, m), {})
  {
    hide InScope, DestOf, Apart, SourcesIntact, Framed, KindKept, WholeDests;
    if s.cur.Some? {
      var q := s.cur.value.from;
      if m.Abort? && m.unlinkOk { DestGone(p, s.fs, left, q); } else { DestLeft(p, s.fs, left, q); }
    }
    assert left + {} == left;
  }

  lemma StepIsWhole(p: Plan, s: Job, m: Step, left: set<Path>)
    requires Safe(p, s) && Enabled(s, m) && WholeDests(p, s.fs, left, BusySet(s))
    ensures WholeDests(p, Do(s, m).fs, left + LeftBy(s, m), BusySet(Do(s, m)))
  {
    hide Safe, WholeDests, Take, CopyStands;
    assert left + {} == left;
    match m
    case TakeNext(c) => TakeIsWhole(p, s, c, left);
    case Append(n) => AppendIsWhole(p, s, n, left);
    case Finish(unlinkOk) => FinishIsWhole(p, s, unlinkOk, left);
    case Abort(_) => GivenUpIsWhole(p, s, m, left);
    case Cancel => GivenUpIsWhole(p, s, m, left);
  }

  lemma {:induction false} RunIsWhole(p: Plan, s: Job, ms: seq<Step>, left: set<Path>)
    requires Safe(p, s) && EnabledRun(s, ms) && WholeDests(p, s.fs, left, BusySet(s))
    ensures WholeDests(p, Run(s, ms).fs, left + LeftOver(s, ms), BusySet(Run(s, ms)))
    decreases |ms|
  {
    hide Safe, Enabled, Do, WholeDests, BusySet, LeftBy;
    if ms == [] {
      assert left + {} == left;
    } else {
      StepIsSafe(p, s, ms[0]);
      StepIsWhole(p, s, ms[0], left);
      RunIsWhole(p, Do(s, ms[0]), ms[1..], left + LeftBy(s, ms[0]));
      assert (left + LeftBy(s, ms[0])) + LeftOver(Do(s, ms[0]), ms[1..]) == left + LeftOver(s, ms);
    }
  }

  /** Whatever fails and whenever: while no copy is open, every node at a place that was free at the
      start equals its source, unless it was left over by an abort that could not remove it or by
      a cancellation. */
  lemma NoHalfCopyStays(p: Plan, ms: seq<Step>)
    requires Apart(p) && EnabledRun(Start(p.fs0, p.sources, p.dest, p.kind), ms)
    ensures var s0 := Start(p.fs0, p.sources, p.dest, p.kind); var s := Run(s0, ms);
      s.cur.None? ==> WholeDests(p, s.fs, LeftOver(s0, ms), {})
  {
    var s0 := Start(p.fs0, p.sources, p.dest, p.kind);
    StartIsSafe(p);
    hide Safe, Apart, InScope, DestOf, Queue;
    assert WholeDests(p, s0.fs, {}, BusySet(s0));
    hide WholeDests;
    RunIsWhole(p, s0, ms, {});
    assert {} + LeftOver(s0, ms) == LeftOver(s0, ms);
  }

  // ---- What the two counters mean.

  function Top(s: Job): Item
    requires s.pending != []
  {
    s.pending[|s.pending| - 1]
  }

  /** A call of the step failed and the step is given up: the removal or the inspection of the node,
      the creation or the reading of a directory, the opening of a file at either end, a read or
      a write. */
  predicate Refused(s: Job, m: Step)
    requires Enabled(s, m)
  {
    match m
    case TakeNext(c) =>
      var it := Top(s);
      if it.rmdirOnly then !c.rmdirOk || !CanRmdir(s.fs, it.from)
      else if !c.statOk || it.from !in s.fs then true
      else if IsDir(s.fs, it.from) then !(s.kind.Delete? || CanMakeDir(s.fs, it.to, c)) || !c.opendirOk
      else if s.kind.Delete? then !c.unlinkOk
      else !CanMoveByName(s, c) && (!c.openInOk || !c.openOutOk || !CanCreate(s.fs, it.to))
    case Abort(_) => true
    case _ => false
  }

  predicate CanMakeDir(fs: Disk, to: Path, c: Choice) { c.mkdirOk && (to in fs || ParentIsDir(fs, to)) }

  predicate CanMoveByName(s: Job, c: Choice)
    requires s.pending != []
  {
    s.kind.Move? && c.renameOk && CanRename(s.fs, Top(s).to)
  }

  /** The step is the last one of its node: the disk shows the node gone from its place, or whole at
      the other end. */
  predicate Settled(s: Job, m: Step)
    requires Enabled(s, m)
  {
    match m
    case TakeNext(c) =>
      var it, fs := Top(s), Do(s, m).fs;
      if s.kind.Delete? then it.from in s.fs && it.from !in fs
      else if it.rmdirOnly || it.from !in s.fs then false
      else if IsDir(s.fs, it.from) then IsDir(fs, it.to) && !Refused(s, m)
      else it.from !in fs && it.to in fs && fs[it.to] == s.fs[it.from]
    case Finish(_) => var k := s.cur.value; s.fs[k.to] == s.fs[k.from]
    case _ => false
  }

  function Tally(b: bool): nat { if b then 1 else 0 }

  /** A directory is settled and counted, or refused and counted, but for one case: `mkdir` says that
      the name exists, and it is a file's. That counts as done although no directory is there. */
  lemma TakenDirCounts(s: Job, c: Choice)
    requires Enabled(s, TakeNext(c)) && !Top(s).rmdirOnly && IsDir(s.fs, Top(s).from) && c.statOk
    ensures var t := Take(s, c); var m := TakeNext(c);
      && t.failed == s.failed + Tally(Refused(s, m))
      && (t.done == s.done + Tally(Settled(s, m)) <==>
            s.kind.Delete? || Refused(s, m) || !IsFile(s.fs, Top(s).to))
  {
    hide IsListing;
  }

  lemma TakenFileCounts(s: Job, c: Choice)
    requires Enabled(s, TakeNext(c)) && !Top(s).rmdirOnly && IsFile(s.fs, Top(s).from) && c.statOk
    requires !s.kind.Delete? ==> Top(s).to != Top(s).from
    ensures var t := Take(s, c); var m := TakeNext(c);
      t.done == s.done + Tally(Settled(s, m)) && t.failed == s.failed + Tally(Refused(s, m))
  {
    hide IsListing, ParentIsDir;
  }

  lemma OtherTakenCounts(s: Job, c: Choice)
    requires Enabled(s, TakeNext(c)) && (Top(s).rmdirOnly || !c.statOk || Top(s).from !in s.fs)
    ensures var t := Take(s, c); var m := TakeNext(c);
      t.done == s.done + Tally(Settled(s, m)) && t.failed == s.failed + Tally(Refused(s, m))
  {
    hide IsListing, ParentIsDir, TakeDir, TakeFile;
  }

  /** A copy of directory a into d, where d/a is a file: reported as done, without a failure. */
  lemma FileInTheWayCounts()
    ensures
      var fs: Disk := map[["d"] := Dir, ["a"] := Dir, ["d", "a"] := File([1])];
      var s := Start(fs, [["a"]], ["d"], Copy);
      && Enabled(s, TakeNext(ALL_WELL))
      && var t := Do(s, TakeNext(ALL_WELL)); t.fs == fs && t.done == 1 && t.failed == 0 && t.pending == []
  {
    var fs: Disk := map[["d"] := Dir, ["a"] := Dir, ["d", "a"] := File([1])];
    var s := Start(fs, [["a"]], ["d"], Copy);
    assert Queue([["a"]][1..], ["d"], Copy) == [];
    assert ["d"] + ["a"] == ["d", "a"];
    assert s.pending == [Item(["a"], ["d", "a"], false)];
  }

  /** No file stands where a directory has to go. */
  ghost predicate DirsFit(p: Plan, fs: Disk) {
    forall q :: InScope(p, q) && q in p.fs0 && p.fs0[q].Dir? && DestOf(p, q) in fs ==> fs[DestOf(p, q)].Dir?
  }

  lemma WriteFits(p: Plan, fs: Disk, q: Path, node: Node)
    requires Apart(p) && InScope(p, q) && DirsFit(p, fs) && q in p.fs0 && (p.fs0[q].Dir? ==> node.Dir?)
    ensures DirsFit(p, fs[DestOf(p, q) := node])
  {
    hide InScope, DestOf, Apart;
    forall r | InScope(p, r) && DestOf(p, r) == DestOf(p, q) ensures r == q {
      DestIsInjective(p, q, r);
    }
  }

  lemma GoneFits(p: Plan, fs: Disk, q: Path)
    requires DirsFit(p, fs)
    ensures DirsFit(p, fs - {q})
  {
    hide InScope, DestOf;
  }

  lemma TakenDirFits(p: Plan, s: Job, it: Item, c: Choice)
    requires Safe(p, s) && ItemOk(p, it) && !it.rmdirOnly && IsDir(s.fs, it.from) && DirsFit(p, s.fs)
    ensures DirsFit(p, TakeDir(s, it, c).fs)
  {
    assert it.from in p.fs0;
    hide InScope, DestOf, Apart, SourcesIntact, Framed, KindKept, DirsFit;
    if !s.kind.Delete? && it.to !in s.fs { WriteFits(p, s.fs, it.from, Dir); }
  }

  lemma TakenFileFits(p: Plan, s: Job, it: Item, c: Choice)
    requires Safe(p, s) && ItemOk(p, it) && !it.rmdirOnly && IsFile(s.fs, it.from) && DirsFit(p, s.fs)
    ensures DirsFit(p, TakeFile(s, it, c).fs)
  {
    assert it.from in p.fs0 && p.fs0[it.from].File?;
    hide InScope, DestOf, Apart, SourcesIntact, Framed, KindKept, DirsFit, CanRename, CanCreate;
    GoneFits(p, s.fs, it.from);
    if !s.kind.Delete? {
      WriteFits(p, s.fs - {it.from}, it.from, s.fs[it.from]);
      WriteFits(p, s.fs, it.from, File([]));
    }
  }

  lemma TakeFits(p: Plan, s: Job, c: Choice)
    requires Safe(p, s) && Enabled(s, TakeNext(c)) && DirsFit(p, s.fs)
    ensures DirsFit(p, Take(s, c).fs)
  {
    hide InScope, DestOf, Apart, SourcesIntact, Framed, KindKept, TakeDir, TakeFile, DirsFit, CanRmdir;
    var it, t := Top(s), s.(pending := s.pending[..|s.pending| - 1]);
    assert Safe(p, t);
    GoneFits(p, s.fs, it.from);
    if !it.rmdirOnly && c.statOk && it.from in s.fs {
      if s.fs[it.from].Dir? { TakenDirFits(p, t, it, c); } else { TakenFileFits(p, t, it, c); }
    }
  }

  lemma StepFits(p: Plan, s: Job, m: Step)
    requires Safe(p, s) && Enabled(s, m) && DirsFit(p, s.fs)
    ensures DirsFit(p, Do(s, m).fs)
  {
    hide InScope, DestOf, Apart, SourcesIntact, Framed, KindKept, Take, DirsFit;
    match m
    case TakeNext(c) => TakeFits(p, s, c);
    case Append(n) =>
      var k := s.cur.value;
      WriteFits(p, s.fs, k.from, File(s.fs[k.to].data + s.fs[k.from].data[k.off..k.off + n]));
    case Finish(_) => GoneFits(p, s.fs, s.cur.value.from);
    case Abort(_) => GoneFits(p, s.fs, s.cur.value.to);
    case Cancel =>
  }

  lemma TakeCounts(p: Plan, s: Job, c: Choice)
    requires Safe(p, s) && Enabled(s, TakeNext(c)) && DirsFit(p, s.fs)
    ensures var t := Take(s, c); var m := TakeNext(c);
      t.done == s.done + Tally(Settled(s, m)) && t.failed == s.failed + Tally(Refused(s, m))
  {
    hide InScope, DestOf, Apart, Framed, KindKept, Take, Settled, Refused, IsListing;
    var it := Top(s);
    if it.rmdirOnly || !c.statOk || it.from !in s.fs {
      OtherTakenCounts(s, c);
    } else {
      assert ItemOk(p, it) && it.from in p.fs0;
      if s.fs[it.from].Dir? {
        TakenDirCounts(s, c);
      } else {
        if !s.kind.Delete? { DestIsOutside(p, it.from); }
        TakenFileCounts(s, c);
      }
    }
  }

  /** Every step but a cancellation counts one node done exactly if it settles one, and one failure
      exactly if a call of it failed; never both. */
  lemma StepCounts(p: Plan, s: Job, m: Step)
    requires Safe(p, s) && Enabled(s, m) && DirsFit(p, s.fs) && !m.Cancel?
    ensures Do(s, m).done == s.done + Tally(Settled(s, m)) && Do(s, m).failed == s.failed + Tally(Refused(s, m))
  {
    hide InScope, DestOf, Apart, SourcesIntact, Framed, KindKept, Take, DirsFit;
    if m.TakeNext? {
      TakeCounts(p, s, m.choice);
    } else if m.Finish? {
      var data := s.fs[s.cur.value.from].data;
      assert data[..|data|] == data;
    }
  }

  /** Since the start or the last cancellation. */
  function SettledIn(s: Job, ms: seq<Step>, n: nat): nat
    requires EnabledRun(s, ms)
    decreases |ms|
  {
    if ms == [] then n
    else SettledIn(Do(s, ms[0]), ms[1..], if ms[0].Cancel? then 0 else n + Tally(Settled(s, ms[0])))
  }

  function RefusedIn(s: Job, ms: seq<Step>, n: nat): nat
    requires EnabledRun(s, ms)
    decreases |ms|
  {
    if ms == [] then n
    else RefusedIn(Do(s, ms[0]), ms[1..], if ms[0].Cancel? then 0 else n + Tally(Refused(s, ms[0])))
  }

  lemma {:induction false} RunCounts(p: Plan, s: Job, ms: seq<Step>)
    requires Safe(p, s) && EnabledRun(s, ms) && DirsFit(p, s.fs)
    ensures Run(s, ms).done == SettledIn(s, ms, s.done) && Run(s, ms).failed == RefusedIn(s, ms, s.failed)
    decreases |ms|
  {
    hide Safe, Enabled, DirsFit, Settled, Refused;
    if ms != [] {
      StepIsSafe(p, s, ms[0]);
      StepFits(p, s, ms[0]);
      if ms[0].Cancel? { CancelResets(s, ms[0]); } else { StepCounts(p, s, ms[0]); }
      hide Do;
      RunCounts(p, Do(s, ms[0]), ms[1..]);
    }
  }

  lemma CancelResets(s: Job, m: Step)
    requires Enabled(s, m) && m.Cancel?
    ensures Do(s, m).done == 0 && Do(s, m).failed == 0
  {
  }

  /** Whatever fails and whenever: the job reports as many nodes done as were settled, and as many
      failures as calls failed. */
  lemma CountersAreTrue(p: Plan, ms: seq<Step>)
    requires Apart(p) && DirsFit(p, p.fs0) && EnabledRun(Start(p.fs0, p.sources, p.dest, p.kind), ms)
    ensures var s0 := Start(p.fs0, p.sources, p.dest, p.kind); var s := Run(s0, ms);
      s.done == SettledIn(s0, ms, 0) && s.failed == RefusedIn(s0, ms, 0)
  {
    StartIsSafe(p);
    hide Safe, DirsFit, Apart, Queue;
    RunCounts(p, Start(p.fs0, p.sources, p.dest, p.kind), ms);
  }

  // ---- "No failure reported" and "done".

  /** The directory listing, if the step reads one, is complete. */
  ghost predicate ListsAllOf(s: Job, m: Step)
    requires Enabled(s, m)
  {
    m.TakeNext? ==> forall n: Name :: Top(s).from + [n] in s.fs ==> n in m.choice.listing
  }

  /** Not cancelled, every directory listed completely. */
  ghost predicate Uncut(s: Job, ms: seq<Step>)
    requires EnabledRun(s, ms)
    decreases |ms|
  {
    ms == [] || (!ms[0].Cancel? && ListsAllOf(s, ms[0]) && Uncut(Do(s, ms[0]), ms[1..]))
  }

  /** The one failure that is not reported: the source of a copied file that is to be moved could not
      be removed. */
  predicate KeepsSource(kind: Op, m: Step) { kind.Move? && m.Finish? && !m.unlinkOk }

  function AllWell(c: Choice): Choice {
    Choice(true, true, true, c.listing, true, true, c.renameOk, true, true)
  }

  lemma TakenAllWell(s: Job, c: Choice)
    requires Enabled(s, TakeNext(c)) && !Refused(s, TakeNext(c))
    ensures Enabled(s, TakeNext(AllWell(c))) && Take(s, AllWell(c)) == Take(s, c)
  {
    hide IsListing, ParentIsDir, CanRmdir, CanRename;
  }

  /** A step that reports no failure does what a step without faults does. */
  lemma AsFaultFree(s: Job, m: Step) returns (n: Step)
    requires Enabled(s, m) && !Refused(s, m) && ListsAllOf(s, m) && !m.Cancel? && !KeepsSource(s.kind, m)
    ensures Enabled(s, n) && FaultFree(s, n) && Do(s, n) == Do(s, m)
  {
    hide IsListing, Take, CopyStands;
    match m
    case TakeNext(c) =>
      TakenAllWell(s, c);
      n := TakeNext(AllWell(c));
    case Append(_) => n := m;
    case Finish(_) => n := Finish(true);
  }

  lemma {:induction false} SilentIsExact(p: Plan, s: Job, ms: seq<Step>)
    requires Exact(p, s) && EnabledRun(s, ms) && Uncut(s, ms) && RefusedIn(s, ms, 0) == 0
    requires forall i :: 0 <= i < |ms| ==> !KeepsSource(p.kind, ms[i])
    ensures Exact(p, Run(s, ms))
    decreases |ms|
  {
    hide Exact, Enabled, FaultFree, Refused, ListsAllOf, KeepsSource;
    if ms != [] {
      FirstNotRefused(s, ms);
      KindOf(p, s);
      var n := AsFaultFree(s, ms[0]);
      FaultFreeStep(p, s, n);
      hide Do;
      SilentIsExact(p, Do(s, ms[0]), ms[1..]);
    }
  }

  lemma KindOf(p: Plan, s: Job)
    requires Exact(p, s)
    ensures s.kind == p.kind && Safe(p, s)
  {
    hide Fresh, Stack, DiskExact, CurOk, Counted, Framed, KindKept, SourcesIntact, Apart, CopyOk;
  }

  lemma {:induction false} RefusalsGrow(s: Job, ms: seq<Step>, n: nat)
    requires EnabledRun(s, ms) && Uncut(s, ms)
    ensures RefusedIn(s, ms, n) == n + RefusedIn(s, ms, 0)
    decreases |ms|
  {
    hide Enabled, Refused, ListsAllOf, Do;
    if ms != [] {
      var one := Tally(Refused(s, ms[0]));
      RefusalsGrow(Do(s, ms[0]), ms[1..], n + one);
      RefusalsGrow(Do(s, ms[0]), ms[1..], one);
    }
  }

  lemma FirstNotRefused(s: Job, ms: seq<Step>)
    requires ms != [] && EnabledRun(s, ms) && Uncut(s, ms) && RefusedIn(s, ms, 0) == 0
    ensures !Refused(s, ms[0]) && RefusedIn(Do(s, ms[0]), ms[1..], 0) == 0
  {
    hide Enabled, Refused, ListsAllOf, Do;
    RefusalsGrow(Do(s, ms[0]), ms[1..], Tally(Refused(s, ms[0])));
  }

  /** A file at its source that no item of the stack will come to any more. */
  ghost predicate Stranded(p: Plan, s: Job, q: Path) {
    InScope(p, q) && IsFile(s.fs, q) && !Covered(s.pending, q) && (s.cur.Some? ==> s.cur.value.from != q)
  }

  lemma CoveredTop(pending: seq<Item>, q: Path)
    requires pending != [] && !Covered(pending, q)
    ensures !Covered(pending[..|pending| - 1], q)
    ensures !pending[|pending| - 1].rmdirOnly ==> !(pending[|pending| - 1].from <= q)
  {
    var n := |pending| - 1;
    if !pending[n].rmdirOnly && pending[n].from <= q { assert CoveredBy(pending, q, n); }
    if i: nat :| CoveredBy(pending[..n], q, i) { assert CoveredBy(pending, q, i); }
  }

  lemma StrandedTake(p: Plan, s: Job, c: Choice, q: Path)
    requires Safe(p, s) && Enabled(s, TakeNext(c)) && Stranded(p, s, q)
    ensures Stranded(p, Take(s, c), q)
  {
    hide InScope, DestOf, Apart, SourcesIntact, Framed, KindKept, IsListing, Covered, CanRename, CanCreate, ParentIsDir;
    var it, rest := Top(s), s.pending[..|s.pending| - 1];
    CoveredTop(s.pending, q);
    assert ItemOk(p, it);
    if !it.rmdirOnly && !s.kind.Delete? { DestIsOutside(p, it.from); }
    if !it.rmdirOnly && c.statOk && IsDir(s.fs, it.from) {
      NotPushed(it, c.listing, s.kind, rest, q);
    }
  }

  /** What a directory leaves on the stack covers nothing it did not cover itself. */
  lemma NotPushed(it: Item, listing: seq<Name>, kind: Op, rest: seq<Item>, q: Path)
    requires !Covered(rest, q) && !(it.from <= q)
    ensures var marked := rest + [Item(it.from, [], true)]; var children := ChildItems(it, listing, kind);
      !Covered(marked, q) && !Covered(rest + children, q) && !Covered(marked + children, q)
  {
    var marker, children := [Item(it.from, [], true)], ChildItems(it, listing, kind);
    CoveredConcat(rest, marker, q);
    CoveredConcat(rest, children, q);
    CoveredConcat(rest + marker, children, q);
    ChildrenCover(it, listing, kind, q);
  }

  lemma ChildrenCover(it: Item, listing: seq<Name>, kind: Op, q: Path)
    ensures Covered(ChildItems(it, listing, kind), q) ==> it.from <= q
  {
    var children := ChildItems(it, listing, kind);
    if i: nat :| CoveredBy(children, q, i) {
      assert children[i].from == it.from + [listing[i]];
      assert q[..|children[i].from|][..|it.from|] == it.from;
    }
  }

  lemma StrandedStep(p: Plan, s: Job, m: Step, q: Path)
    requires Safe(p, s) && Enabled(s, m) && Stranded(p, s, q)
    ensures Stranded(p, Do(s, m), q)
  {
    hide InScope, DestOf, Apart, SourcesIntact, Framed, KindKept, Take, Covered;
    if m.TakeNext? {
      StrandedTake(p, s, m.choice, q);
    } else if m.Cancel? {
      NoneCovered(q);
    } else {
      DestIsOutside(p, s.cur.value.from);
    }
  }

  lemma NoneCovered(q: Path)
    ensures !Covered([], q)
  {
  }

  lemma {:induction false} StrandedRun(p: Plan, s: Job, ms: seq<Step>, q: Path)
    requires Safe(p, s) && EnabledRun(s, ms) && Stranded(p, s, q)
    ensures Stranded(p, Run(s, ms), q)
    decreases |ms|
  {
    hide Safe, Enabled, Do, Stranded;
    if ms != [] {
      StepIsSafe(p, s, ms[0]);
      StrandedStep(p, s, ms[0], q);
      StrandedRun(p, Do(s, ms[0]), ms[1..], q);
    }
  }

  /** The source that could not be removed is stranded. */
  lemma KeptIsStranded(p: Plan, s: Job, m: Step)
    requires Exact(p, s) && Enabled(s, m) && KeepsSource(p.kind, m)
    ensures Safe(p, Do(s, m)) && Stranded(p, Do(s, m), CurrentOf(s, m))
  {
    Parts(p, s);
    CopyPart(p, s);
    StepIsSafe(p, s, m);
    hide Exact, Fresh, Safe, Stack, SetsExact, Apart, Tree, InScope, DestOf, Counted;
    var q := s.cur.value.from;
    assert q !in Todo(p, s.pending) && q in p.fs0;
  }

  lemma {:induction false} KeptStays(p: Plan, s: Job, ms: seq<Step>) returns (q: Path)
    requires Exact(p, s) && EnabledRun(s, ms) && Uncut(s, ms) && RefusedIn(s, ms, 0) == 0
    requires exists i :: 0 <= i < |ms| && KeepsSource(p.kind, ms[i])
    ensures Stranded(p, Run(s, ms), q)
    decreases |ms|
  {
    hide Exact, Enabled, FaultFree, Refused, ListsAllOf, KeepsSource, Stranded, Safe;
    FirstNotRefused(s, ms);
    KindOf(p, s);
    if KeepsSource(p.kind, ms[0]) {
      KeptIsMove(p.kind, ms[0]);
      KeptIsStranded(p, s, ms[0]);
      q := CurrentOf(s, ms[0]);
      StrandedRun(p, Do(s, ms[0]), ms[1..], q);
    } else {
      var n := AsFaultFree(s, ms[0]);
      FaultFreeStep(p, s, n);
      var i :| 0 <= i < |ms| && KeepsSource(p.kind, ms[i]);
      assert ms[1..][i - 1] == ms[i];
      hide Do;
      q := KeptStays(p, Do(s, ms[0]), ms[1..]);
    }
  }

  function CurrentOf(s: Job, m: Step): Path
    requires Enabled(s, m) && m.Finish?
  {
    s.cur.value.from
  }

  lemma MovedIsGone(p: Plan, fs: Disk, q: Path)
    requires Done(p, fs) && p.kind.Move? && InScope(p, q)
    ensures q !in fs
  {
    hide InScope, DestOf;
  }

  /** A job that came to its end and reports no failure has done it all, exactly if no source of a
      moved file was kept behind its back. */
  lemma SilentIsDoneIff(p: Plan, ms: seq<Step>)
    requires Fresh(p) && EnabledRun(Start(p.fs0, p.sources, p.dest, p.kind), ms)
    requires Uncut(Start(p.fs0, p.sources, p.dest, p.kind), ms)
    requires var s := Run(Start(p.fs0, p.sources, p.dest, p.kind), ms); s.pending == [] && s.cur.None? && s.failed == 0
    ensures var s := Run(Start(p.fs0, p.sources, p.dest, p.kind), ms);
      Done(p, s.fs) <==> forall i :: 0 <= i < |ms| ==> !KeepsSource(p.kind, ms[i])
  {
    hide Exact, Done, Start, KeepsSource, DirsFit, Safe, Refused, ListsAllOf, Enabled, Do, Stranded;
    var s0 := Start(p.fs0, p.sources, p.dest, p.kind);
    StartIsExact(p);
    FreshFits(p);
    KindOf(p, s0);
    CountersAreTrue(p, ms);
    if forall i :: 0 <= i < |ms| ==> !KeepsSource(p.kind, ms[i]) {
      SilentIsExact(p, s0, ms);
      ExactIsDone(p, Run(s0, ms));
    } else {
      var i :| 0 <= i < |ms| && KeepsSource(p.kind, ms[i]);
      var q := KeptStays(p, s0, ms);
      StrandedStands(p, Run(s0, ms), q);
      KeptIsMove(p.kind, ms[i]);
      if Done(p, Run(s0, ms).fs) { MovedIsGone(p, Run(s0, ms).fs, q); }
    }
  }

  lemma StrandedStands(p: Plan, s: Job, q: Path)
    requires Stranded(p, s, q)
    ensures InScope(p, q) && q in s.fs
  {
  }

  lemma KeptIsMove(kind: Op, m: Step)
    requires KeepsSource(kind, m)
    ensures kind.Move? && m.Finish?
  {
  }

  lemma FreshFits(p: Plan)
    requires Fresh(p)
    ensures Apart(p) && DirsFit(p, p.fs0)
  {
    hide InScope, DestOf, Tree;
  }
}
