// The sliced file job: an explicit stack of work instead of a recursive copy, move or delete
// (apps/files/job.cpp). Every system call may fail; a call succeeds when it is allowed and does
// not meet a fault.

module FileJob {
  import opened Bytes
  import opened Cells

  type Name = string
  type Path = seq<Name>

  datatype Node = File(data: bytes) | Dir

  type Disk = map<Path, Node>

  datatype Op = Copy | Move | Delete

  datatype Item = Item(from: Path, to: Path, rmdirOnly: bool)

  /** The file being copied: the first `off` bytes are written. */
  datatype Copying = Copying(from: Path, to: Path, off: nat)

  datatype Job = Job(
    fs: Disk, kind: Op, pending: seq<Item>, cur: Option<Copying>, done: nat, failed: nat)

  // ---- What the system allows.

  predicate IsFile(fs: Disk, p: Path) { p in fs && fs[p].File? }

  predicate IsDir(fs: Disk, p: Path) { p in fs && fs[p].Dir? }

  function Parent(p: Path): Path
    requires p != []
  {
    p[..|p| - 1]
  }

  /** A node can be created in an existing directory only; [] is the root. */
  predicate ParentIsDir(fs: Disk, p: Path) {
    p != [] && (Parent(p) == [] || IsDir(fs, Parent(p)))
  }

  predicate IsEmpty(fs: Disk, p: Path) {
    forall q :: q in fs && p <= q ==> q == p
  }

  predicate CanRmdir(fs: Disk, p: Path) { IsDir(fs, p) && IsEmpty(fs, p) }

  predicate CanCreate(fs: Disk, p: Path) { p !in fs && ParentIsDir(fs, p) }

  /** A file replaces a file silently, never a directory. */
  predicate CanRename(fs: Disk, to: Path) { ParentIsDir(fs, to) && (to in fs ==> fs[to].File?) }

  // ---- Starting.

  function BaseName(p: Path): Name {
    if p == [] then "" else p[|p| - 1]
  }

  /** The stack is popped from its end, so sources are pushed in reverse. */
  function Queue(sources: seq<Path>, dest: Path, kind: Op): seq<Item> {
    if sources == [] then []
    else
      Queue(sources[1..], dest, kind)
      + [Item(sources[0], if kind.Delete? then [] else dest + [BaseName(sources[0])], false)]
  }

  function Start(fs: Disk, sources: seq<Path>, dest: Path, kind: Op): Job {
    Job(fs, kind, Queue(sources, dest, kind), None, 0, 0)
  }

  // ---- One piece of work.

  /** Which calls meet no fault, and the names the directory listing returns. */
  datatype Choice = Choice(
    statOk: bool, mkdirOk: bool, opendirOk: bool, listing: seq<Name>,
    rmdirOk: bool, unlinkOk: bool, renameOk: bool, openInOk: bool, openOutOk: bool)

  function Fail(s: Job): Job { s.(failed := s.failed + 1) }

  function ChildItems(it: Item, listing: seq<Name>, kind: Op): seq<Item> {
    seq(|listing|, i requires 0 <= i < |listing| =>
      Item(it.from + [listing[i]], if kind.Delete? then [] else it.to + [listing[i]], false))
  }

  /** A directory: created at the other end, then a marker, then its children above the marker. */
  function TakeDir(s: Job, it: Item, c: Choice): Job {
    if !s.kind.Delete? && !(c.mkdirOk && (it.to in s.fs || ParentIsDir(s.fs, it.to))) then Fail(s)
    else
      var made := if s.kind.Delete? || it.to in s.fs then s else s.(fs := s.fs[it.to := Dir]);
      var marked := if s.kind.Copy? then made else made.(pending := made.pending + [Item(it.from, [], true)]);
      if !c.opendirOk then Fail(marked)
      else
        marked.(pending := marked.pending + ChildItems(it, c.listing, s.kind),
                done := if s.kind.Delete? then s.done else s.done + 1)
  }

  /** A file: unlinked, or renamed, or opened at both ends for copying. */
  function TakeFile(s: Job, it: Item, c: Choice): Job
    requires it.from in s.fs
  {
    if s.kind.Delete? then
      if c.unlinkOk then s.(fs := s.fs - {it.from}, done := s.done + 1) else Fail(s)
    else if s.kind.Move? && c.renameOk && CanRename(s.fs, it.to) then
      s.(fs := (s.fs - {it.from})[it.to := s.fs[it.from]], done := s.done + 1)
    else if !c.openInOk || !(c.openOutOk && CanCreate(s.fs, it.to)) then Fail(s)
    else s.(fs := s.fs[it.to := File([])], cur := Some(Copying(it.from, it.to, 0)))
  }

  function Take(s: Job, c: Choice): Job
    requires s.pending != []
  {
    var it, t := s.pending[|s.pending| - 1], s.(pending := s.pending[..|s.pending| - 1]);
    if it.rmdirOnly then
      if c.rmdirOk && CanRmdir(s.fs, it.from)
      then t.(fs := s.fs - {it.from}, done := if s.kind.Delete? then s.done + 1 else s.done)
      else Fail(t)
    else if !(c.statOk && it.from in s.fs) then Fail(t)
    else if s.fs[it.from].Dir? then TakeDir(t, it, c)
    else TakeFile(t, it, c)
  }

  /** The smallest steps the job is made of; a slice is a run of them. */
  datatype Step =
    | TakeNext(choice: Choice)
    | Append(n: nat)
    | Finish(unlinkOk: bool)
    | Abort(unlinkOk: bool)
    | Cancel

  predicate IsListing(fs: Disk, p: Path, listing: seq<Name>) {
    && (forall i :: 0 <= i < |listing| ==> p + [listing[i]] in fs)
    && (forall i, j :: 0 <= i < j < |listing| ==> listing[i] != listing[j])
  }

  /** The disk a directory is listed on: its own counterpart has just been made. */
  function Listed(s: Job, it: Item): Disk {
    if s.kind.Delete? || it.rmdirOnly || it.to in s.fs then s.fs else s.fs[it.to := Dir]
  }

  /** The data still to copy is read from the source as it stands. */
  predicate CopyStands(s: Job) {
    s.cur.Some? ==>
      && IsFile(s.fs, s.cur.value.from) && IsFile(s.fs, s.cur.value.to)
      && s.cur.value.off <= |s.fs[s.cur.value.from].data|
  }

  predicate Enabled(s: Job, m: Step) {
    match m
    case TakeNext(c) => s.cur.None? && s.pending != []
      && IsListing(Listed(s, s.pending[|s.pending| - 1]), s.pending[|s.pending| - 1].from, c.listing)
    case Append(n) => s.cur.Some? && CopyStands(s) && 1 <= n
      && s.cur.value.off + n <= |s.fs[s.cur.value.from].data|
    case Finish(_) => s.cur.Some? && CopyStands(s) && s.cur.value.off == |s.fs[s.cur.value.from].data|
    case Abort(_) => s.cur.Some? && CopyStands(s)
    case Cancel => true
  }

  function Without(fs: Disk, p: Path, gone: bool): Disk { if gone then fs - {p} else fs }

  function Do(s: Job, m: Step): Job
    requires Enabled(s, m)
  {
    match m
    case TakeNext(c) => Take(s, c)
    case Append(n) =>
      var k := s.cur.value;
      var data := s.fs[k.from].data;
      s.(fs := s.fs[k.to := File(s.fs[k.to].data + data[k.off..k.off + n])], cur := Some(k.(off := k.off + n)))
    case Finish(unlinkOk) =>
      s.(fs := Without(s.fs, s.cur.value.from, s.kind.Move? && unlinkOk), cur := None, done := s.done + 1)
    case Abort(unlinkOk) => Fail(s.(fs := Without(s.fs, s.cur.value.to, unlinkOk), cur := None))
    case Cancel => s.(pending := [], cur := None, done := 0, failed := 0)
  }

  predicate EnabledRun(s: Job, ms: seq<Step>)
    decreases |ms|
  {
    ms == [] || (Enabled(s, ms[0]) && EnabledRun(Do(s, ms[0]), ms[1..]))
  }

  function Run(s: Job, ms: seq<Step>): Job
    requires EnabledRun(s, ms)
    decreases |ms|
  {
    if ms == [] then s else Run(Do(s, ms[0]), ms[1..])
  }

  lemma {:induction false} RunConcat(s: Job, a: seq<Step>, b: seq<Step>)
    requires EnabledRun(s, a) && EnabledRun(Run(s, a), b)
    ensures EnabledRun(s, a + b) && Run(s, a + b) == Run(Run(s, a), b)
    decreases |a|
  {
    hide Enabled, Do;
    if a == [] {
      assert a + b == b;
    } else {
      assert (a + b)[1..] == a[1..] + b;
      RunConcat(Do(s, a[0]), a[1..], b);
    }
  }

  lemma RunThen(s: Job, ms: seq<Step>, m: Step)
    requires EnabledRun(s, ms) && Enabled(Run(s, ms), m)
    ensures EnabledRun(s, ms + [m]) && Run(s, ms + [m]) == Do(Run(s, ms), m)
  {
    hide Enabled, Do;
    var t := Run(s, ms);
    assert [m][1..] == [];
    assert EnabledRun(Do(t, m), [m][1..]) && Run(Do(t, m), [m][1..]) == Do(t, m);
    assert EnabledRun(t, [m]) && Run(t, [m]) == Do(t, m);
    RunConcat(s, ms, [m]);
  }

  // ---- Where everything goes.

  /** The sources and their destination directory. */
  datatype Plan = Plan(fs0: Disk, kind: Op, sources: seq<Path>, dest: Path)

  function Target(p: Plan, i: nat): Path
    requires i < |p.sources|
  {
    p.dest + [BaseName(p.sources[i])]
  }

  /** Sources are not nested, their targets are distinct, and no target touches a source. */
  ghost predicate Apart(p: Plan) {
    && (forall i :: 0 <= i < |p.sources| ==> p.sources[i] != [])
    && (forall i, j :: 0 <= i < |p.sources| && 0 <= j < |p.sources| && i != j ==>
          !(p.sources[i] <= p.sources[j]) && Target(p, i) != Target(p, j))
    && (forall i, j :: 0 <= i < |p.sources| && 0 <= j < |p.sources| ==>
          !(p.sources[i] <= Target(p, j)) && !(Target(p, j) <= p.sources[i]))
  }

  ghost predicate RootedAt(p: Plan, q: Path, i: nat) {
    i < |p.sources| && p.sources[i] <= q
  }

  ghost predicate InScope(p: Plan, q: Path) {
    exists i :: RootedAt(p, q, i)
  }

  ghost function Root(p: Plan, q: Path): (i: nat)
    requires InScope(p, q)
    ensures RootedAt(p, q, i)
  {
    var i :| RootedAt(p, q, i);
    i
  }

  /** Where q ends up. */
  ghost function DestOf(p: Plan, q: Path): Path
    requires InScope(p, q)
  {
    Target(p, Root(p, q)) + q[|p.sources[Root(p, q)]|..]
  }

  ghost predicate IsDest(p: Plan, d: Path) {
    exists q :: InScope(p, q) && DestOf(p, q) == d
  }

  /** Two prefixes of one path are comparable. */
  lemma Comparable(a: Path, b: Path, q: Path)
    requires a <= q && b <= q
    ensures a <= b || b <= a
  {
    if |a| <= |b| {
      assert q[..|b|][..|a|] == q[..|a|];
    } else {
      assert q[..|a|][..|b|] == q[..|b|];
    }
  }

  lemma RootIs(p: Plan, q: Path, i: nat)
    requires Apart(p) && RootedAt(p, q, i)
    ensures InScope(p, q) && Root(p, q) == i
  {
    Comparable(p.sources[i], p.sources[Root(p, q)], q);
  }

  lemma SourceDest(p: Plan, i: nat)
    requires Apart(p) && i < |p.sources|
    ensures InScope(p, p.sources[i]) && DestOf(p, p.sources[i]) == Target(p, i)
  {
    assert RootedAt(p, p.sources[i], i);
    RootIs(p, p.sources[i], i);
  }

  lemma ChildDest(p: Plan, q: Path, n: Name)
    requires Apart(p) && InScope(p, q)
    ensures InScope(p, q + [n]) && DestOf(p, q + [n]) == DestOf(p, q) + [n]
  {
    var i := Root(p, q);
    assert RootedAt(p, q + [n], i);
    RootIs(p, q + [n], i);
    assert (q + [n])[|p.sources[i]|..] == q[|p.sources[i]|..] + [n];
  }

  lemma DestIsInjective(p: Plan, q: Path, r: Path)
    requires Apart(p) && InScope(p, q) && InScope(p, r) && DestOf(p, q) == DestOf(p, r)
    ensures q == r
  {
    var i, j, d := Root(p, q), Root(p, r), DestOf(p, q);
    var n := |p.dest| + 1;
    assert d[..n] == Target(p, i) && d[..n] == Target(p, j);
    assert i == j;
    var m := |p.sources[i]|;
    assert d[n..] == q[m..] && d[n..] == r[m..];
    assert q == q[..m] + q[m..] && r == r[..m] + r[m..];
  }

  lemma DestIsOutside(p: Plan, q: Path)
    requires Apart(p) && InScope(p, q)
    ensures !InScope(p, DestOf(p, q))
  {
    if InScope(p, DestOf(p, q)) {
      var i, j := Root(p, DestOf(p, q)), Root(p, q);
      assert Target(p, j) <= DestOf(p, q);
      Comparable(p.sources[i], Target(p, j), DestOf(p, q));
    }
  }
}
