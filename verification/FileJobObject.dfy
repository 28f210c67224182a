// The job as the program runs it, one slice per wake-up, against system calls that may fail
// (apps/files/job.cpp).

module FileJobObject {
  import opened Bytes
  import opened Cells
  import opened FileJob

  datatype MkdirResult = Made | Exists | Refused

  datatype ReadResult = ReadError | Data(chunk: bytes)

  datatype WriteResult = WriteError | Written(n: nat)

  /** The disk behind the system calls; any call may fail without an effect. A call interrupted by
      a signal is simply made again, which these calls take to have happened. */
  class FileSystem {
    var fs: Disk

    constructor (fs: Disk)
      ensures this.fs == fs
    {
      this.fs := fs;
    }

    method Lstat(p: Path) returns (ok: bool, isDir: bool)
      ensures ok ==> p in fs && isDir == fs[p].Dir?
    {
      ok := *;
      ok := ok && p in fs;
      isDir := ok && fs[p].Dir?;
    }

    method Mkdir(p: Path) returns (r: MkdirResult)
      modifies this
      ensures r.Made? ==> CanCreate(old(fs), p) && fs == old(fs)[p := Dir]
      ensures r.Exists? ==> p in fs && fs == old(fs)
      ensures r.Refused? ==> fs == old(fs)
    {
      var fault: bool := *;
      if fault { return Refused; }
      if p in fs { return Exists; }
      if !ParentIsDir(fs, p) { return Refused; }
      fs := fs[p := Dir];
      return Made;
    }

    /** Opens a directory and reads what it can of it: names of distinct entries. */
    method Opendir(p: Path) returns (ok: bool, entries: seq<Name>)
      ensures IsListing(fs, p, entries) && (!ok ==> entries == [])
    {
      ok := *;
      entries := [];
      var more: bool := *;
      var left := fs.Keys;
      while ok && more && left != {}
        invariant IsListing(fs, p, entries) && (!ok ==> entries == [])
        invariant forall i :: 0 <= i < |entries| ==> p + [entries[i]] !in left
        invariant left <= fs.Keys
        decreases |left|
      {
        var q :| q in left;
        left := left - {q};
        if |q| == |p| + 1 && q == p + [q[|p|]] {
          entries := entries + [q[|p|]];
        }
        more := *;
      }
    }

    method Rmdir(p: Path) returns (ok: bool)
      modifies this
      ensures ok ==> CanRmdir(old(fs), p) && fs == old(fs) - {p}
      ensures !ok ==> fs == old(fs)
    {
      ok := *;
      ok := ok && CanRmdir(fs, p);
      if ok { fs := fs - {p}; }
    }

    method Unlink(p: Path) returns (ok: bool)
      modifies this
      ensures fs == Without(old(fs), p, ok)
    {
      ok := *;
      ok := ok && IsFile(fs, p);
      if ok { fs := fs - {p}; }
    }

    method Rename(from: Path, to: Path) returns (ok: bool)
      requires from in fs
      modifies this
      ensures ok ==> CanRename(old(fs), to) && fs == (old(fs) - {from})[to := old(fs)[from]]
      ensures !ok ==> fs == old(fs)
    {
      ok := *;
      ok := ok && CanRename(fs, to);
      if ok { fs := (fs - {from})[to := fs[from]]; }
    }

    method OpenRead(p: Path) returns (ok: bool)
      ensures ok ==> IsFile(fs, p)
    {
      ok := *;
      ok := ok && IsFile(fs, p);
    }

    method OpenNew(p: Path) returns (ok: bool)
      modifies this
      ensures ok ==> CanCreate(old(fs), p) && fs == old(fs)[p := File([])]
      ensures !ok ==> fs == old(fs)
    {
      ok := *;
      ok := ok && CanCreate(fs, p);
      if ok { fs := fs[p := File([])]; }
    }

    /** At most `want` bytes from position `off`; none exactly at the end of the file. */
    method Read(p: Path, off: nat, want: nat) returns (r: ReadResult)
      requires IsFile(fs, p) && off <= |fs[p].data| && want > 0
      ensures r.Data? ==>
        && |r.chunk| <= want && off + |r.chunk| <= |fs[p].data| && r.chunk == fs[p].data[off..off + |r.chunk|]
        && (r.chunk == [] <==> off == |fs[p].data|)
    {
      var fault: bool := *;
      if fault { return ReadError; }
      var room := Min(want, |fs[p].data| - off);
      var n: nat := *;
      n := if room == 0 then 0 else 1 + n % room;
      return Data(fs[p].data[off..off + n]);
    }

    /** Some of the bytes, at least one, go to the end of the file. */
    method Write(p: Path, s: bytes) returns (r: WriteResult)
      requires IsFile(fs, p) && s != []
      modifies this
      ensures r.WriteError? ==> fs == old(fs)
      ensures r.Written? ==> 1 <= r.n <= |s| && fs == old(fs)[p := File(old(fs)[p].data + s[..r.n])]
    {
      var fault: bool := *;
      if fault { return WriteError; }
      var n: nat := *;
      n := 1 + n % |s|;
      fs := fs[p := File(fs[p].data + s[..n])];
      return Written(n);
    }
  }

  const CHUNK := 64 * 1024

  class Runner {
    const sys: FileSystem
    var active: bool
    var kind: Op
    var pending: seq<Item>
    var open: bool
    var from: Path
    var to: Path
    var inPos: nat
    var done: nat
    var failed: nat

    /** The two descriptors are open together, on files, read as far as written. */
    predicate Valid()
      reads this, sys
    {
      open ==>
        && from != to && IsFile(sys.fs, from) && IsFile(sys.fs, to)
        && inPos == |sys.fs[to].data| <= |sys.fs[from].data|
    }

    /** The copy under way is as far as its target is long. */
    function Model(): Job
      reads this, sys
    {
      Job(sys.fs, kind, pending,
          if open && IsFile(sys.fs, to) then Some(Copying(from, to, |sys.fs[to].data|)) else None, done, failed)
    }

    constructor (sys: FileSystem)
      ensures Valid() && this.sys == sys && !active && !open && pending == [] && done == failed == 0
    {
      this.sys := sys;
      active, kind, pending, open, from, to, inPos, done, failed := false, Copy, [], false, [], [], 0, 0, 0;
    }

    method CancelJob()
      modifies this
      ensures Valid() && !active && sys.fs == old(sys.fs) && kind == old(kind)
      ensures Model() == Do(old(Model()), Cancel)
    {
      open := false;
      active := false;
      pending := [];
      from, to := [], [];
      done, failed := 0, 0;
    }

    /** Pushed in reverse, so that they come off the stack in order. */
    method StartJob(sources: seq<Path>, dest: Path, op: Op)
      modifies this
      ensures Valid() && sys.fs == old(sys.fs) && Model() == Start(sys.fs, sources, dest, op)
      ensures active <==> sources != []
    {
      CancelJob();
      kind := op;
      assert sources[|sources|..] == [];
      for k := |sources| downto 0
        invariant !open && done == failed == 0 && kind == op && sys.fs == old(sys.fs)
        invariant pending == Queue(sources[k..], dest, op)
        invariant pending == [] <==> k == |sources|
      {
        assert sources[k..][1..] == sources[k + 1..];
        pending := pending + [Item(sources[k], if op.Delete? then [] else dest + [BaseName(sources[k])], false)];
      }
      assert sources[0..] == sources;
      active := pending != [];
    }

    /** One piece of work off the stack: exactly `Take`, for the faults that were met. */
    method TakeOne() returns (ghost c: Choice)
      requires Valid() && !open && pending != []
      modifies this, sys
      ensures Valid() && active == old(active)
      ensures Enabled(old(Model()), TakeNext(c)) && Model() == Take(old(Model()), c)
      ensures open ==> inPos == 0
    {
      var it := pending[|pending| - 1];
      pending := pending[..|pending| - 1];
      c := Choice(true, true, true, [], true, true, true, true, true);
      if it.rmdirOnly {
        var ok := sys.Rmdir(it.from);
        c := c.(rmdirOk := ok);
        if !ok {
          failed := failed + 1;
        } else if kind.Delete? {
          done := done + 1;
        }
        return;
      }
      var statOk, isDir := sys.Lstat(it.from);
      c := c.(statOk := statOk);
      if !statOk {
        failed := failed + 1;
        return;
      }
      if isDir {
        c := TakeDirectory(it, c);
      } else {
        c := TakePlainFile(it, c);
      }
    }

    /** Creates the directory at the other end; one that exists already will do. */
    method MakeDirectory(to: Path) returns (ok: bool)
      requires !open
      modifies sys, this`failed
      ensures if ok then
          (to in old(sys.fs) || ParentIsDir(old(sys.fs), to))
          && Model() == (if to in old(sys.fs) then old(Model()) else old(Model().(fs := Model().fs[to := Dir])))
        else Model() == Fail(old(Model()))
    {
      var made := sys.Mkdir(to);
      ok := !made.Refused?;
      if !ok {
        failed := failed + 1;
      }
    }

    method PushChildren(it: Item, entries: seq<Name>)
      modifies this`pending
      ensures pending == old(pending) + ChildItems(it, entries, kind)
    {
      var k := 0;
      while k < |entries|
        invariant k <= |entries|
        invariant pending == old(pending) + ChildItems(it, entries[..k], kind)
      {
        pending := pending +
          [Item(it.from + [entries[k]], if kind.Delete? then [] else it.to + [entries[k]], false)];
        k := k + 1;
      }
      assert entries[..|entries|] == entries;
    }

    /** Reads the directory and stacks its children. */
    method Expand(it: Item) returns (ok: bool, ghost listing: seq<Name>)
      requires !open
      modifies this`pending, this`done, this`failed
      ensures IsListing(sys.fs, it.from, listing)
      ensures Model() == if !ok then Fail(old(Model())) else
        old(Model()).(pending := old(Model()).pending + ChildItems(it, listing, old(Model()).kind),
                      done := if old(Model()).kind.Delete? then old(Model()).done else old(Model()).done + 1)
    {
      hide ChildItems;
      var entries;
      ok, entries := sys.Opendir(it.from);
      listing := entries;
      if !ok {
        failed := failed + 1;
        return;
      }
      PushChildren(it, entries);
      if !kind.Delete? {
        done := done + 1;
      }
    }

    method TakeDirectory(it: Item, ghost c0: Choice) returns (ghost c: Choice)
      requires !open && IsDir(sys.fs, it.from) && !it.rmdirOnly
      modifies this, sys
      ensures Valid() && !open && active == old(active) && IsListing(old(Listed(Model(), it)), it.from, c.listing)
      ensures c.statOk == c0.statOk && c.rmdirOk == c0.rmdirOk
      ensures Model() == TakeDir(old(Model()), it, c)
    {
      hide ParentIsDir, IsListing, ChildItems, Model;
      ghost var m0 := Model();
      ModelHolds();
      c := c0.(listing := []);
      EmptyListing(Listed(m0, it), it.from);
      if !kind.Delete? {
        var made := MakeDirectory(it.to);
        ModelHolds();
        c := c.(mkdirOk := made);
        if !made {
          return;
        }
      }
      PushMarker(it);
      var ok, listing := Expand(it);
      c := c.(opendirOk := ok, listing := listing);
    }

    method PushMarker(it: Item)
      modifies this`pending
      ensures Model() == if old(Model()).kind.Copy? then old(Model()) else
        old(Model()).(pending := old(Model()).pending + [Item(it.from, [], true)])
    {
      if !kind.Copy? {
        pending := pending + [Item(it.from, [], true)];
      }
    }

    lemma ModelHolds()
      ensures Model().fs == sys.fs && Model().kind == kind && Model().pending == pending
      ensures !open ==> Model().cur.None?
    {
    }

    static lemma EmptyListing(fs: Disk, p: Path)
      ensures IsListing(fs, p, [])
    {
    }

    method UnlinkFile(it: Item) returns (ok: bool)
      requires !open
      modifies sys, this`done, this`failed
      ensures Model() ==
        if ok then old(Model()).(fs := old(Model()).fs - {it.from}, done := old(Model()).done + 1) else Fail(old(Model()))
    {
      ok := sys.Unlink(it.from);
      if !ok {
        failed := failed + 1;
      } else {
        done := done + 1;
      }
    }

    /** Within one file system a move is a rename. */
    method TryRename(it: Item) returns (ok: bool)
      requires !open && it.from in sys.fs
      modifies sys, this`done
      ensures ok ==> CanRename(old(sys.fs), it.to)
      ensures Model() == if !ok then old(Model()) else
        old(Model()).(fs := (old(sys.fs) - {it.from})[it.to := old(sys.fs)[it.from]], done := old(Model()).done + 1)
    {
      hide CanRename;
      ok := sys.Rename(it.from, it.to);
      if ok {
        done := done + 1;
      }
    }

    /** Opens both ends; this never overwrites. */
    method OpenBoth(it: Item) returns (inOk: bool, outOk: bool)
      requires !open && IsFile(sys.fs, it.from)
      modifies this`open, this`from, this`to, this`inPos, this`failed, sys
      ensures Valid() && (open ==> inPos == 0)
      ensures inOk && outOk ==> CanCreate(old(sys.fs), it.to)
      ensures Model() == if !(inOk && outOk) then Fail(old(Model())) else
        old(Model()).(fs := old(sys.fs)[it.to := File([])], cur := Some(Copying(it.from, it.to, 0)))
    {
      outOk := false;
      inOk := sys.OpenRead(it.from);
      if !inOk {
        failed := failed + 1;
        return;
      }
      outOk := sys.OpenNew(it.to);
      if !outOk {
        failed := failed + 1;
        return;
      }
      open, from, to, inPos := true, it.from, it.to, 0;
    }

    method TakePlainFile(it: Item, ghost c0: Choice) returns (ghost c: Choice)
      requires !open && IsFile(sys.fs, it.from)
      modifies this, sys
      ensures Valid() && active == old(active) && (open ==> inPos == 0)
      ensures c.statOk == c0.statOk && c.rmdirOk == c0.rmdirOk && c.listing == c0.listing
      ensures Model() == TakeFile(old(Model()), it, c)
    {
      hide CanRename, CanCreate, Model;
      ModelHolds();
      c := c0;
      if kind.Delete? {
        var ok := UnlinkFile(it);
        c := c.(unlinkOk := ok);
        return;
      }
      c := TransferFile(it, c0);
    }

    /** A file to copy or to move. */
    method TransferFile(it: Item, ghost c0: Choice) returns (ghost c: Choice)
      requires !open && !kind.Delete? && IsFile(sys.fs, it.from)
      modifies this, sys
      ensures Valid() && active == old(active) && (open ==> inPos == 0)
      ensures c.statOk == c0.statOk && c.rmdirOk == c0.rmdirOk && c.listing == c0.listing
      ensures Model() == TakeFile(old(Model()), it, c)
    {
      hide CanRename, CanCreate, Model;
      ModelHolds();
      c := c0;
      if kind.Move? {
        var renamed := TryRename(it);
        ModelHolds();
        c := c.(renameOk := renamed);
        if renamed {
          return;
        }
      }
      var inOk, outOk := OpenBoth(it);
      c := c.(openInOk := inOk, openOutOk := outOk);
    }

    /** Closes both ends; a move then drops the source, whose copy is whole. */
    method FinishCurrent() returns (ghost m: Step)
      requires Valid() && open && inPos == |sys.fs[from].data|
      modifies this, sys
      ensures Valid() && !open && active == old(active)
      ensures Enabled(old(Model()), m) && Model() == Do(old(Model()), m)
    {
      open := false;
      var ok := true;
      if kind.Move? {
        ok := sys.Unlink(from);
      }
      m := Finish(ok);
      done := done + 1;
      from, to := [], [];
    }

    /** An incomplete copy does not stay, if it can be removed. */
    method AbortCurrent() returns (ghost m: Step)
      requires open && IsFile(sys.fs, from) && IsFile(sys.fs, to) && |sys.fs[to].data| <= |sys.fs[from].data|
      modifies this, sys
      ensures Valid() && !open && active == old(active)
      ensures Enabled(old(Model()), m) && Model() == Do(old(Model()), m)
    {
      failed := failed + 1;
      open := false;
      var ok := sys.Unlink(to);
      m := Abort(ok);
      from, to := [], [];
    }

    /** The file under way is as far as `done` says, and both ends stand. */
    predicate Open()
      reads this, sys
    {
      open && IsFile(sys.fs, from) && IsFile(sys.fs, to) && |sys.fs[to].data| <= |sys.fs[from].data|
    }

    /** One write call, as a step of the specification. */
    method WriteSome(chunk: bytes) returns (w: int, ghost m: Step)
      requires Open() && chunk != [] && from != to
      requires |sys.fs[to].data| + |chunk| <= |sys.fs[from].data|
      requires chunk == sys.fs[from].data[|sys.fs[to].data|..|sys.fs[to].data| + |chunk|]
      modifies sys
      ensures Open() && w <= |chunk| && sys.fs[from] == old(sys.fs[from])
      ensures w < 0 ==> sys.fs == old(sys.fs)
      ensures w >= 0 ==>
        && w >= 1 && |sys.fs[to].data| == old(|sys.fs[to].data|) + w
        && Enabled(old(Model()), m) && Model() == Do(old(Model()), m)
    {
      var r := sys.Write(to, chunk);
      match r {
        case WriteError => w := -1; m := Cancel;
        case Written(n) =>
          w := n;
          m := Append(n);
          assert chunk[..n] == old(sys.fs)[from].data[old(|sys.fs[to].data|)..old(|sys.fs[to].data|) + n];
      }
    }

    /** Writes the whole chunk, in as many calls as it takes, or fails on the way. */
    method WriteAll(chunk: bytes) returns (ok: bool, ghost ms: seq<Step>)
      requires Open() && chunk != [] && from != to
      requires |sys.fs[to].data| + |chunk| <= |sys.fs[from].data|
      requires chunk == sys.fs[from].data[|sys.fs[to].data|..|sys.fs[to].data| + |chunk|]
      modifies sys
      ensures Open() && sys.fs[from] == old(sys.fs[from])
      ensures EnabledRun(old(Model()), ms) && Model() == Run(old(Model()), ms)
      ensures ok ==> |sys.fs[to].data| == old(|sys.fs[to].data|) + |chunk| && ms != []
    {
      ms := [];
      ghost var m0, start, data := Model(), |sys.fs[to].data|, sys.fs[from].data;
      assert chunk[0..] == chunk;
      var written := 0;
      while written < |chunk|
        invariant written <= |chunk| && Open() && from != to && sys.fs[from] == File(data)
        invariant |sys.fs[to].data| == start + written
        invariant EnabledRun(m0, ms) && Model() == Run(m0, ms)
        invariant written > 0 ==> ms != []
      {
        hide Enabled, Do, Run, EnabledRun;
        assert chunk[written..] == data[start + written..start + |chunk|];
        var w;
        ghost var m, before := Cancel, Model();
        w, m := WriteSome(chunk[written..]);
        if w < 0 {
          assert Model() == before;
          return false, ms;
        }
        RunThen(m0, ms, m);
        ms := ms + [m];
        written := written + w;
      }
      ok := true;
    }

    /** Copies until the budget is spent, the file ends, or a call fails. */
    method CopySlice(budget: nat) returns (ghost ms: seq<Step>)
      requires Valid() && open
      modifies this, sys
      ensures Valid() && active == old(active)
      ensures EnabledRun(old(Model()), ms) && Model() == Run(old(Model()), ms)
      ensures budget > 0 ==> ms != []
    {
      ms := [];
      ghost var m0 := Model();
      var moved := 0;
      while moved < budget
        invariant Valid() && open && active == old(active)
        invariant EnabledRun(m0, ms) && Model() == Run(m0, ms)
        invariant moved > 0 ==> ms != []
      {
        hide Enabled, Do, Run, EnabledRun, Model;
        var want := Min(CHUNK, budget - moved);
        var r := sys.Read(from, inPos, want);
        if r.ReadError? {
          ghost var m := AbortCurrent();
          RunThen(m0, ms, m);
          ms := ms + [m];
          return;
        }
        if r.chunk == [] {
          ghost var m := FinishCurrent();
          RunThen(m0, ms, m);
          ms := ms + [m];
          return;
        }
        var ok;
        ghost var more := [];
        ok, more := WriteAll(r.chunk);
        RunConcat(m0, ms, more);
        ms := ms + more;
        if !ok {
          ghost var m := AbortCurrent();
          RunThen(m0, ms, m);
          ms := ms + [m];
          return;
        }
        inPos := inPos + |r.chunk|;
        ModelIgnoresPosition();
        moved := moved + |r.chunk|;
      }
    }

    lemma ModelIgnoresPosition()
      ensures Model() == Job(sys.fs, kind, pending,
          if open && IsFile(sys.fs, to) then Some(Copying(from, to, |sys.fs[to].data|)) else None, done, failed)
    {
    }

    /** One wake-up: at most one item comes off the stack, and one slice of a copy is done. What it
        did is a run of the specification's steps; with a budget and work left, it did something. */
    method RunSlice(budget: nat) returns (more: bool, ghost ms: seq<Step>)
      requires Valid()
      modifies this, sys
      ensures Valid()
      ensures EnabledRun(old(Model()), ms) && Model() == Run(old(Model()), ms)
      ensures more <==> old(active) && (old(open) || old(pending) != [])
      ensures active == more
      ensures more && budget > 0 ==> ms != []
    {
      ms := [];
      if !active {
        return false, [];
      }
      ghost var m0 := Model();
      if !open {
        if pending == [] {
          active := false;
          return false, [];
        }
        ghost var c := TakeOne();
        ms := [TakeNext(c)];
        RunThen(m0, [], TakeNext(c));
        assert [] + [TakeNext(c)] == ms;
      }
      if !open {
        return true, ms;
      }
      ghost var rest := CopySlice(budget);
      RunConcat(m0, ms, rest);
      ms := ms + rest;
      more := true;
    }
  }
}
