// Without faults the stack of work does exactly what the recursive operation would: every node
// once, whatever order directories are listed in.

module FileJobExact {
  import opened Cells
  import opened FileJob
  import opened FileJobSafety

  /** A proper tree: every node but the roots' children lies in an existing directory. */
  ghost predicate Tree(fs: Disk) {
    forall q :: q in fs ==> ParentIsDir(fs, q)
  }

  /** Existing sources, an existing destination directory, and nothing yet where they go. */
  ghost predicate Fresh(p: Plan) {
    && Apart(p) && Tree(p.fs0)
    && (p.dest == [] || IsDir(p.fs0, p.dest))
    && (forall i :: 0 <= i < |p.sources| ==> p.sources[i] in p.fs0)
    && (forall q :: InScope(p, q) ==> DestOf(p, q) !in p.fs0)
  }

  /** No call meets a fault and directory listings are complete, in any order. A rename may be
      refused, as between two file systems. */
  ghost predicate FaultFree(s: Job, m: Step)
    requires Enabled(s, m)
  {
    match m
    case TakeNext(c) =>
      && c.statOk && c.mkdirOk && c.opendirOk && c.rmdirOk && c.unlinkOk && c.openInOk && c.openOutOk
      && forall n: Name :: s.pending[|s.pending| - 1].from + [n] in s.fs ==> n in c.listing
    case Append(_) => true
    case Finish(unlinkOk) => unlinkOk
    case Abort(_) => false
    case Cancel => false
  }

  // ---- What is left to do.

  ghost predicate CoveredBy(pending: seq<Item>, q: Path, i: nat) {
    i < |pending| && !pending[i].rmdirOnly && pending[i].from <= q
  }

  ghost predicate Covered(pending: seq<Item>, q: Path) {
    exists i :: CoveredBy(pending, q, i)
  }

  ghost predicate MarkedBy(pending: seq<Item>, q: Path, i: nat) {
    i < |pending| && pending[i].rmdirOnly && pending[i].from == q
  }

  ghost predicate Marked(pending: seq<Item>, q: Path) {
    exists i :: MarkedBy(pending, q, i)
  }

  /** Nodes not visited yet. */
  ghost function Todo(p: Plan, pending: seq<Item>): set<Path> {
    set q | q in p.fs0 && Covered(pending, q)
  }

  /** Directories visited and still to be removed. */
  ghost function Markers(p: Plan, pending: seq<Item>): set<Path> {
    set q | q in p.fs0 && Marked(pending, q)
  }

  ghost function Nodes(p: Plan): set<Path> {
    set q | q in p.fs0 && InScope(p, q)
  }

  // ---- The disk, given what is left to do.

  /** Source nodes are there exactly while they still have to be. */
  ghost predicate SourcesExact(p: Plan, fs: Disk, todo: set<Path>, marks: set<Path>, busy: set<Path>) {
    forall q :: InScope(p, q) ==>
      (q in fs <==> q in p.fs0 && (q in todo || q in busy || q in marks || p.kind.Copy?))
  }

  /** Destinations are there exactly once their source has been visited, with its content once
      it is not being copied any more. */
  ghost predicate DestsExact(p: Plan, fs: Disk, todo: set<Path>, busy: set<Path>) {
    && (forall q :: InScope(p, q) ==>
          (DestOf(p, q) in fs <==> q in p.fs0 && !p.kind.Delete? && q !in todo))
    && (forall q :: InScope(p, q) && DestOf(p, q) in fs && q in p.fs0 && q !in busy ==>
          fs[DestOf(p, q)] == p.fs0[q])
  }

  ghost function BusySet(s: Job): set<Path> {
    if s.cur.Some? then {s.cur.value.from} else {}
  }

  ghost predicate DiskExact(p: Plan, s: Job) {
    var todo, marks, busy := Todo(p, s.pending), Markers(p, s.pending), BusySet(s);
    SourcesExact(p, s.fs, todo, marks, busy) && DestsExact(p, s.fs, todo, busy)
  }

  /** The stack: nothing is queued twice, and a marker lies below everything under its directory. */
  ghost predicate Stack(p: Plan, pending: seq<Item>) {
    && (forall i :: 0 <= i < |pending| ==>
          pending[i].from in p.fs0 && (pending[i].rmdirOnly ==> p.fs0[pending[i].from].Dir?))
    && (forall i, j :: 0 <= i < j < |pending| ==>
          !(pending[j].from <= pending[i].from)
          && (!pending[i].rmdirOnly ==> !(pending[i].from <= pending[j].from)))
  }

  /** The file being copied is no longer queued. */
  ghost predicate CurOk(p: Plan, s: Job) {
    s.cur.Some? ==> s.cur.value.from !in Todo(p, s.pending) && s.cur.value.from !in Markers(p, s.pending)
  }

  /** The counter: one per node finished. */
  ghost predicate Counted(p: Plan, s: Job) {
    s.done + |Todo(p, s.pending)| + (if p.kind.Delete? then |Markers(p, s.pending)| else |BusySet(s)|) == |Nodes(p)|
  }

  ghost predicate Exact(p: Plan, s: Job) {
    && Fresh(p) && Safe(p, s) && Stack(p, s.pending) && DiskExact(p, s) && CurOk(p, s)
    && Counted(p, s) && s.failed == 0
  }

  // ---- Trees.

  lemma {:induction false} AncestorIsDir(fs: Disk, a: Path, q: Path)
    requires Tree(fs) && q in fs && a <= q && a != q && a != []
    ensures IsDir(fs, a) && q[..|a| + 1] in fs
    decreases |q|
  {
    assert Parent(q) == q[..|q| - 1];
    if |q| == |a| + 1 {
      assert q[..|a| + 1] == q;
      assert Parent(q) == a;
    } else {
      AncestorIsDir(fs, a, Parent(q));
      assert Parent(q)[..|a| + 1] == q[..|a| + 1];
    }
  }

  // ---- Popping and pushing.

  /** A popped item was the only one to cover its node. */
  lemma PopItem(p: Plan, pending: seq<Item>)
    requires Stack(p, pending) && pending != [] && !pending[|pending| - 1].rmdirOnly
    ensures var q := pending[|pending| - 1].from; var rest := pending[..|pending| - 1];
      Stack(p, rest) && q in Todo(p, pending) && !Covered(rest, q) && !Marked(rest, q)
      && Markers(p, rest) == Markers(p, pending)
  {
    var n := |pending| - 1;
    var q, rest := pending[n].from, pending[..n];
    assert CoveredBy(pending, q, n);
    assert forall x, i :: MarkedBy(rest, x, i) <==> MarkedBy(pending, x, i);
  }

  lemma PopFile(p: Plan, pending: seq<Item>)
    requires Stack(p, pending) && pending != [] && !pending[|pending| - 1].rmdirOnly && Tree(p.fs0)
    requires p.fs0[pending[|pending| - 1].from].File? && pending[|pending| - 1].from != []
    ensures Todo(p, pending[..|pending| - 1]) == Todo(p, pending) - {pending[|pending| - 1].from}
  {
    var n := |pending| - 1;
    var q, rest := pending[n].from, pending[..n];
    PopItem(p, pending);
    forall x | x in p.fs0 && x != q
      ensures Covered(rest, x) <==> Covered(pending, x)
    {
      if Covered(pending, x) {
        var i :| CoveredBy(pending, x, i);
        if i == n { AncestorIsDir(p.fs0, q, x); } else { assert CoveredBy(rest, x, i); }
      }
      if Covered(rest, x) {
        var i :| CoveredBy(rest, x, i);
        assert CoveredBy(pending, x, i);
      }
    }
  }

  lemma PopMarker(p: Plan, pending: seq<Item>)
    requires Stack(p, pending) && pending != [] && pending[|pending| - 1].rmdirOnly
    ensures var q := pending[|pending| - 1].from; var rest := pending[..|pending| - 1];
      Stack(p, rest) && Todo(p, rest) == Todo(p, pending) && q in Markers(p, pending) && q !in Todo(p, pending)
      && Markers(p, rest) == Markers(p, pending) - {q}
  {
    var n := |pending| - 1;
    var q, rest := pending[n].from, pending[..n];
    assert MarkedBy(pending, q, n);
    assert forall x, i :: CoveredBy(rest, x, i) <==> CoveredBy(pending, x, i);
    forall x | x in p.fs0
      ensures Marked(rest, x) <==> Marked(pending, x) && x != q
    {
      if Marked(pending, x) {
        var i :| MarkedBy(pending, x, i);
        if i != n { assert MarkedBy(rest, x, i); }
      }
      if Marked(rest, x) {
        var i :| MarkedBy(rest, x, i);
        assert MarkedBy(pending, x, i);
      }
    }
  }

  /** Nothing on the stack concerns a node strictly under the marker on top of it. */
  lemma NothingUnder(p: Plan, pending: seq<Item>, q: Path, i: nat)
    requires Stack(p, pending) && pending != [] && pending[|pending| - 1].rmdirOnly
    requires pending[|pending| - 1].from <= q && q != pending[|pending| - 1].from
    ensures !CoveredBy(pending, q, i) && !MarkedBy(pending, q, i)
  {
    if CoveredBy(pending, q, i) {
      Comparable(pending[i].from, pending[|pending| - 1].from, q);
    }
  }

  /** When a marker comes to the top, everything under its directory is gone. */
  lemma MarkerIsEmpty(p: Plan, s: Job)
    requires Exact(p, s) && s.cur.None? && s.pending != [] && s.pending[|s.pending| - 1].rmdirOnly
    ensures CanRmdir(s.fs, s.pending[|s.pending| - 1].from)
  {
    var d := s.pending[|s.pending| - 1].from;
    assert ItemOk(p, s.pending[|s.pending| - 1]);
    MarkerStands(p, s);
    hide Counted, Fresh, Safe, DestsExact, CoveredBy, MarkedBy;
    forall q | q in s.fs && d <= q
      ensures q == d
    {
      if q != d {
        UnderScope(p, d, q);
        forall i: nat
          ensures !CoveredBy(s.pending, q, i) && !MarkedBy(s.pending, q, i)
        {
          NothingUnder(p, s.pending, q, i);
        }
      }
    }
  }

  lemma UnderScope(p: Plan, d: Path, q: Path)
    requires InScope(p, d) && d <= q
    ensures InScope(p, q)
  {
    var i := Root(p, d);
    assert p.sources[i] <= q by {
      assert q[..|d|][..|p.sources[i]|] == q[..|p.sources[i]|];
    }
    assert RootedAt(p, q, i);
  }

  lemma MarkerStands(p: Plan, s: Job)
    requires Exact(p, s) && s.cur.None? && s.pending != [] && s.pending[|s.pending| - 1].rmdirOnly
    ensures IsDir(s.fs, s.pending[|s.pending| - 1].from)
  {
    hide Counted, DestsExact, Fresh, Framed, KindKept;
    PopMarker(p, s.pending);
    assert ItemOk(p, s.pending[|s.pending| - 1]);
  }

  /** The items a directory leaves on the stack: its marker, if any, then its children. */
  function Pushed(it: Item, listing: seq<Name>, kind: Op): seq<Item> {
    (if kind.Copy? then [] else [Item(it.from, [], true)]) + ChildItems(it, listing, kind)
  }

  ghost predicate ListsAll(fs0: Disk, d: Path, listing: seq<Name>) {
    && (forall n: Name :: d + [n] in fs0 <==> n in listing)
    && (forall i, j :: 0 <= i < j < |listing| ==> listing[i] != listing[j])
  }

  lemma PushedFrom(it: Item, listing: seq<Name>, kind: Op, k: nat)
    requires k < |Pushed(it, listing, kind)|
    ensures var x := Pushed(it, listing, kind)[k];
      if !kind.Copy? && k == 0 then x.from == it.from && x.rmdirOnly
      else
        var c := if kind.Copy? then k else k - 1;
        c < |listing| && x.from == it.from + [listing[c]] && !x.rmdirOnly
  {
  }

  /** The stack discipline survives a directory being expanded. */
  lemma PushPair(p: Plan, pending: seq<Item>, listing: seq<Name>, i: nat, j: nat)
    requires Stack(p, pending) && pending != [] && !pending[|pending| - 1].rmdirOnly
    requires ListsAll(p.fs0, pending[|pending| - 1].from, listing)
    requires var it := pending[|pending| - 1]; var all := pending[..|pending| - 1] + Pushed(it, listing, p.kind);
      i < j < |all|
    ensures var it := pending[|pending| - 1]; var all := pending[..|pending| - 1] + Pushed(it, listing, p.kind);
      !(all[j].from <= all[i].from) && (!all[i].rmdirOnly ==> !(all[i].from <= all[j].from))
  {
    hide Pushed;
    var n := |pending| - 1;
    var it := pending[n];
    if j >= n {
      PushedFrom(it, listing, p.kind, j - n);
      if i >= n {
        PushedFrom(it, listing, p.kind, i - n);
        Siblings(it.from, listing);
      } else {
        UnderOneName(it.from, pending[i].from, Pushed(it, listing, p.kind)[j - n].from);
      }
    }
  }

  lemma Siblings(d: Path, listing: seq<Name>)
    requires forall i, j :: 0 <= i < j < |listing| ==> listing[i] != listing[j]
    ensures forall i, j :: 0 <= i < j < |listing| ==>
      !(d + [listing[i]] <= d + [listing[j]]) && !(d + [listing[j]] <= d + [listing[i]])
  {
    forall i, j | 0 <= i < j < |listing|
      ensures !(d + [listing[i]] <= d + [listing[j]]) && !(d + [listing[j]] <= d + [listing[i]])
    {
      assert (d + [listing[i]])[|d|] == listing[i] && (d + [listing[j]])[|d|] == listing[j];
    }
  }

  /** A path just under d has no other prefixes than itself and those of d. */
  lemma UnderOneName(d: Path, a: Path, c: Path)
    requires !(d <= a) && (c == d || (|c| == |d| + 1 && c[..|d|] == d))
    ensures !(c <= a) && (a <= c ==> a <= d)
  {
    if a <= c && |a| <= |d| { assert a == c[..|a|] == d[..|a|]; }
  }

  lemma PushStack(p: Plan, pending: seq<Item>, listing: seq<Name>)
    requires Stack(p, pending) && pending != [] && !pending[|pending| - 1].rmdirOnly
    requires p.fs0[pending[|pending| - 1].from].Dir? && ListsAll(p.fs0, pending[|pending| - 1].from, listing)
    ensures Stack(p, pending[..|pending| - 1] + Pushed(pending[|pending| - 1], listing, p.kind))
  {
    hide Pushed;
    var n := |pending| - 1;
    var it := pending[n];
    var all := pending[..n] + Pushed(it, listing, p.kind);
    forall i | 0 <= i < |all|
      ensures all[i].from in p.fs0 && (all[i].rmdirOnly ==> p.fs0[all[i].from].Dir?)
    {
      if i >= n { PushedFrom(it, listing, p.kind, i - n); }
    }
    forall i, j | 0 <= i < j < |all|
      ensures !(all[j].from <= all[i].from) && (!all[i].rmdirOnly ==> !(all[i].from <= all[j].from))
    {
      PushPair(p, pending, listing, i, j);
    }
  }

  lemma CoveredConcat(a: seq<Item>, b: seq<Item>, q: Path)
    ensures Covered(a + b, q) <==> Covered(a, q) || Covered(b, q)
    ensures Marked(a + b, q) <==> Marked(a, q) || Marked(b, q)
  {
    if i: nat :| CoveredBy(a, q, i) { assert CoveredBy(a + b, q, i); }
    if i: nat :| CoveredBy(b, q, i) { assert CoveredBy(a + b, q, |a| + i); }
    if i: nat :| CoveredBy(a + b, q, i) {
      if i < |a| { assert CoveredBy(a, q, i); } else { assert CoveredBy(b, q, i - |a|); }
    }
    if i: nat :| MarkedBy(a, q, i) { assert MarkedBy(a + b, q, i); }
    if i: nat :| MarkedBy(b, q, i) { assert MarkedBy(a + b, q, |a| + i); }
    if i: nat :| MarkedBy(a + b, q, i) {
      if i < |a| { assert MarkedBy(a, q, i); } else { assert MarkedBy(b, q, i - |a|); }
    }
  }

  lemma OneItem(it: Item, q: Path)
    requires !it.rmdirOnly
    ensures Covered([it], q) <==> it.from <= q
    ensures !Marked([it], q)
  {
    if it.from <= q { assert CoveredBy([it], q, 0); }
  }

  lemma PushedCoversOnly(it: Item, listing: seq<Name>, kind: Op, q: Path)
    ensures Covered(Pushed(it, listing, kind), q) ==> it.from <= q && q != it.from
    ensures Marked(Pushed(it, listing, kind), q) ==> !kind.Copy? && q == it.from
  {
    var all := Pushed(it, listing, kind);
    hide Pushed;
    if i: nat :| CoveredBy(all, q, i) {
      PushedFrom(it, listing, kind, i);
      assert q[..|all[i].from|][..|it.from|] == it.from;
    }
    if i: nat :| MarkedBy(all, q, i) { PushedFrom(it, listing, kind, i); }
  }

  lemma PushedCoversAll(fs0: Disk, it: Item, listing: seq<Name>, kind: Op, q: Path)
    requires Tree(fs0) && ListsAll(fs0, it.from, listing) && q in fs0 && it.from != []
    requires it.from <= q && q != it.from
    ensures Covered(Pushed(it, listing, kind), q)
  {
    var all := Pushed(it, listing, kind);
    var k := if kind.Copy? then 0 else 1;
    PushedLength(it, listing, kind);
    hide Pushed, ParentIsDir;
    AncestorIsDir(fs0, it.from, q);
    var n := q[|it.from|];
    assert q[..|it.from| + 1] == it.from + [n];
    var c :| 0 <= c < |listing| && listing[c] == n;
    PushedFrom(it, listing, kind, c + k);
    assert CoveredBy(all, q, c + k);
  }

  /** The children cover every node strictly under their directory. */
  lemma PushedCovers(fs0: Disk, it: Item, listing: seq<Name>, kind: Op, q: Path)
    requires Tree(fs0) && ListsAll(fs0, it.from, listing) && q in fs0 && it.from != []
    ensures Covered(Pushed(it, listing, kind), q) <==> it.from <= q && q != it.from
    ensures Marked(Pushed(it, listing, kind), q) <==> !kind.Copy? && q == it.from
  {
    PushedCoversOnly(it, listing, kind, q);
    if !kind.Copy? && q == it.from { assert MarkedBy(Pushed(it, listing, kind), q, 0); }
    hide Pushed, Tree, ListsAll, Covered, Marked;
    if it.from <= q && q != it.from { PushedCoversAll(fs0, it, listing, kind, q); }
  }

  lemma PushedLength(it: Item, listing: seq<Name>, kind: Op)
    ensures |Pushed(it, listing, kind)| == |listing| + (if kind.Copy? then 0 else 1)
  {
  }

  /** Expanding a directory visits exactly that directory. */
  lemma PushTodo(p: Plan, pending: seq<Item>, listing: seq<Name>)
    requires Stack(p, pending) && pending != [] && !pending[|pending| - 1].rmdirOnly && Tree(p.fs0)
    requires ListsAll(p.fs0, pending[|pending| - 1].from, listing) && pending[|pending| - 1].from != []
    ensures var it := pending[|pending| - 1]; var all := pending[..|pending| - 1] + Pushed(it, listing, p.kind);
      && Todo(p, all) == Todo(p, pending) - {it.from}
      && Markers(p, all) == Markers(p, pending) + (if p.kind.Copy? then {} else {it.from})
  {
    var n := |pending| - 1;
    var it, rest := pending[n], pending[..n];
    var all := rest + Pushed(it, listing, p.kind);
    PopItem(p, pending);
    hide Pushed, Covered, Marked, Stack;
    assert pending == rest + [it];
    forall q | q in p.fs0
      ensures Covered(all, q) <==> Covered(pending, q) && q != it.from
      ensures Marked(all, q) <==> Marked(pending, q) || (!p.kind.Copy? && q == it.from)
    {
      CoveredConcat(rest, Pushed(it, listing, p.kind), q);
      CoveredConcat(rest, [it], q);
      OneItem(it, q);
      PushedCovers(p.fs0, it, listing, p.kind, q);
    }
    assert it.from in p.fs0 by { ItemInTree(p, pending); }
  }

  lemma ItemInTree(p: Plan, pending: seq<Item>)
    requires Stack(p, pending) && pending != []
    ensures pending[|pending| - 1].from in p.fs0
  {
  }

  // ---- The disk after each kind of visit.

  ghost predicate SetsExact(p: Plan, fs: Disk, todo: set<Path>, marks: set<Path>, busy: set<Path>) {
    SourcesExact(p, fs, todo, marks, busy) && DestsExact(p, fs, todo, busy)
  }

  lemma VisitWrites(p: Plan, fs: Disk, todo: set<Path>, marks: set<Path>, q: Path, node: Node, busy: set<Path>,
                    marks': set<Path>)
    requires Apart(p) && InScope(p, q) && q in p.fs0 && q in todo && !p.kind.Delete?
    requires SetsExact(p, fs, todo, marks, {})
    requires node == p.fs0[q] || busy == {q}
    requires busy == {} || busy == {q}
    requires marks' == marks || marks' == marks + {q}
    requires q in busy || q in marks' || p.kind.Copy?
    ensures SetsExact(p, fs[DestOf(p, q) := node], todo - {q}, marks', busy)
  {
    DestIsOutside(p, q);
    hide DestOf, InScope, Apart;
    var fs' := fs[DestOf(p, q) := node];
    forall r | InScope(p, r)
      ensures DestOf(p, r) in fs' <==> r in p.fs0 && r !in todo - {q}
      ensures DestOf(p, r) in fs' && r in p.fs0 && r !in busy ==> fs'[DestOf(p, r)] == p.fs0[r]
    {
      if DestOf(p, r) == DestOf(p, q) { DestIsInjective(p, q, r); }
    }
  }

  lemma VisitRenames(p: Plan, fs: Disk, todo: set<Path>, marks: set<Path>, q: Path)
    requires Apart(p) && InScope(p, q) && q in p.fs0 && q in todo && q !in marks && p.kind.Move?
    requires SetsExact(p, fs, todo, marks, {}) && q in fs && fs[q] == p.fs0[q]
    ensures SetsExact(p, (fs - {q})[DestOf(p, q) := fs[q]], todo - {q}, marks, {})
  {
    VisitWrites(p, fs, todo, marks, q, fs[q], {}, marks + {q});
    DestIsOutside(p, q);
    var mid := fs[DestOf(p, q) := fs[q]];
    RemoveSource(p, mid, todo - {q}, marks + {q}, {}, q);
    assert mid - {q} == (fs - {q})[DestOf(p, q) := fs[q]];
    assert marks + {q} - {q} == marks;
  }

  /** Removing a source that nothing requires any more. */
  lemma RemoveSource(p: Plan, fs: Disk, todo: set<Path>, marks: set<Path>, busy: set<Path>, q: Path)
    requires Apart(p) && InScope(p, q) && !p.kind.Copy? && q !in todo && busy <= {q}
    requires SetsExact(p, fs, todo, marks, busy)
    requires q in busy && DestOf(p, q) in fs && q in p.fs0 ==> fs[DestOf(p, q)] == p.fs0[q]
    ensures SetsExact(p, fs - {q}, todo, marks - {q}, {})
  {
    forall r | InScope(p, r)
      ensures DestOf(p, r) != q
    {
      DestIsOutside(p, r);
    }
    hide DestOf, InScope, Apart;
  }

  /** A deletion visits a directory without touching the disk. */
  lemma VisitMarks(p: Plan, fs: Disk, todo: set<Path>, marks: set<Path>, q: Path)
    requires p.kind.Delete? && q in todo && SetsExact(p, fs, todo, marks, {})
    ensures SetsExact(p, fs, todo - {q}, marks + {q}, {})
  {
    hide DestOf, InScope;
  }

  lemma VisitUnlinks(p: Plan, fs: Disk, todo: set<Path>, marks: set<Path>, q: Path)
    requires Apart(p) && InScope(p, q) && p.kind.Delete? && q in todo && q !in marks
    requires SetsExact(p, fs, todo, marks, {})
    ensures SetsExact(p, fs - {q}, todo - {q}, marks, {})
  {
    VisitMarks(p, fs, todo, marks, q);
    RemoveSource(p, fs, todo - {q}, marks + {q}, {}, q);
    assert marks + {q} - {q} == marks;
  }

  lemma CopyWrites(p: Plan, fs: Disk, todo: set<Path>, marks: set<Path>, q: Path, node: Node)
    requires Apart(p) && InScope(p, q) && SetsExact(p, fs, todo, marks, {q}) && DestOf(p, q) in fs
    ensures SetsExact(p, fs[DestOf(p, q) := node], todo, marks, {q})
  {
    DestIsOutside(p, q);
    hide DestOf, InScope, Apart;
    forall r | InScope(p, r) && DestOf(p, r) == DestOf(p, q)
      ensures r == q
    {
      DestIsInjective(p, q, r);
    }
  }

  /** A copy whose last byte is written is an equal node. */
  lemma CopyEnds(p: Plan, fs: Disk, todo: set<Path>, marks: set<Path>, q: Path)
    requires Apart(p) && InScope(p, q) && SetsExact(p, fs, todo, marks, {q}) && p.kind.Copy?
    requires DestOf(p, q) in fs && q in p.fs0 && fs[DestOf(p, q)] == p.fs0[q]
    ensures SetsExact(p, fs, todo, marks, {})
  {
    hide DestOf, InScope, Apart;
  }

  // ---- What the fault-free job finds when it gets there.

  lemma Parts(p: Plan, s: Job)
    requires Exact(p, s)
    ensures Fresh(p) && Apart(p) && Tree(p.fs0) && Safe(p, s) && Stack(p, s.pending) && s.failed == 0 && s.kind == p.kind
    ensures SetsExact(p, s.fs, Todo(p, s.pending), Markers(p, s.pending), BusySet(s))
    ensures CurOk(p, s) && Counted(p, s)
    ensures forall i :: 0 <= i < |s.pending| ==> ItemOk(p, s.pending[i])
  {
    hide Fresh, Stack, SourcesExact, DestsExact, CurOk, Counted, ItemOk, Todo, Markers, BusySet,
      SourcesIntact, Framed, KindKept, CopyOk;
    FreshParts(p);
  }

  lemma FreshParts(p: Plan)
    requires Fresh(p)
    ensures Apart(p) && Tree(p.fs0)
  {
    hide Tree, InScope;
  }

  lemma Build(p: Plan, s: Job)
    requires Fresh(p) && Safe(p, s) && Stack(p, s.pending) && s.failed == 0 && CurOk(p, s) && Counted(p, s)
    requires SetsExact(p, s.fs, Todo(p, s.pending), Markers(p, s.pending), BusySet(s))
    ensures Exact(p, s)
  {
    hide Fresh, Stack, SourcesExact, DestsExact, CurOk, Counted, Todo, Markers, BusySet, Safe;
  }

  lemma RootNotEmpty(p: Plan, q: Path)
    requires Apart(p) && InScope(p, q)
    ensures q != []
  {
  }

  /** A node still to visit is untouched. */
  lemma TodoIsThere(p: Plan, s: Job, q: Path)
    requires Exact(p, s) && q in Todo(p, s.pending) && InScope(p, q)
    ensures q in s.fs && q in p.fs0 && s.fs[q] == p.fs0[q]
  {
    hide Fresh, Stack, DestsExact, CurOk, Counted, Markers, BusySet, Framed, KindKept, CopyOk, InScope, Covered;
  }

  lemma TopIsThere(p: Plan, s: Job)
    requires Exact(p, s) && s.pending != [] && !s.pending[|s.pending| - 1].rmdirOnly
    ensures var it := s.pending[|s.pending| - 1];
      && ItemOk(p, it) && InScope(p, it.from) && it.from in Todo(p, s.pending) && it.from in p.fs0
      && it.from in s.fs && s.fs[it.from] == p.fs0[it.from]
      && it.from !in Markers(p, s.pending) && it.from != []
  {
    var it := s.pending[|s.pending| - 1];
    Parts(p, s);
    assert ItemOk(p, it);
    hide Exact, Safe, Fresh, Stack, SetsExact, CurOk, Counted, InScope, Apart, Tree, DestOf;
    PopItem(p, s.pending);
    TodoIsThere(p, s, it.from);
    RootNotEmpty(p, it.from);
    hide Covered;
  }

  /** The destination directory itself is neither a source nor a destination. */
  lemma DestDirStands(p: Plan, fs: Disk)
    requires Fresh(p) && Framed(p, fs) && p.dest != [] && |p.sources| > 0
    ensures IsDir(fs, p.dest)
  {
    assert p.dest <= Target(p, 0);
    assert !InScope(p, p.dest);
    assert !IsDest(p, p.dest);
    assert Same(fs, p.fs0, p.dest);
  }

  lemma FramedPart(p: Plan, s: Job)
    requires Safe(p, s)
    ensures Framed(p, s.fs)
  {
    hide Framed, KindKept, SourcesIntact, CopyOk, ItemOk, Apart;
  }

  /** The destination of a node still to visit is free. */
  lemma DestIsFree(p: Plan, s: Job, q: Path)
    requires Exact(p, s) && InScope(p, q) && q in Todo(p, s.pending)
    ensures DestOf(p, q) !in s.fs
  {
    hide Fresh, Safe, Stack, SourcesExact, CurOk, Counted, Todo, Markers, BusySet, InScope, DestOf;
  }

  /** A source goes into the destination directory, which stands. */
  lemma RootHasParent(p: Plan, s: Job, i: nat)
    requires Exact(p, s) && i < |p.sources| && !p.kind.Delete?
    ensures ParentIsDir(s.fs, Target(p, i))
  {
    Parts(p, s);
    FramedPart(p, s);
    hide Exact, Safe, Stack, SetsExact, CurOk, Counted, Todo, Markers, InScope, ItemOk, Tree, Fresh, Framed;
    assert Parent(Target(p, i)) == p.dest;
    if p.dest != [] { DestDirStands(p, s.fs); }
  }

  /** Any other node goes into the directory made for its parent, which was visited before it. */
  lemma ChildHasParent(p: Plan, s: Job)
    requires Exact(p, s) && s.cur.None? && s.pending != [] && !s.pending[|s.pending| - 1].rmdirOnly && !p.kind.Delete?
    requires var q := s.pending[|s.pending| - 1].from; InScope(p, q) && q != p.sources[Root(p, q)]
    ensures ParentIsDir(s.fs, DestOf(p, s.pending[|s.pending| - 1].from))
  {
    hide Exact, Fresh, Safe, Stack, SetsExact, CurOk, Counted, Todo, Markers, InScope, ItemOk, Apart, Tree, Covered,
      DestOf, ParentIsDir, Root;
    var q := s.pending[|s.pending| - 1].from;
    Parts(p, s);
    TopIsThere(p, s);
    ParentNotCovered(p, s.pending);
    TodoIsCovered(p, s.pending, Parent(q));
    ParentIsDelivered(p, s, q);
  }

  /** What a visited node needs at the other end is there: its parent's directory. */
  lemma CanCreateDest(p: Plan, s: Job)
    requires Exact(p, s) && s.cur.None? && s.pending != [] && !s.pending[|s.pending| - 1].rmdirOnly
    requires !p.kind.Delete? && InScope(p, s.pending[|s.pending| - 1].from)
    ensures CanCreate(s.fs, DestOf(p, s.pending[|s.pending| - 1].from))
  {
    var q := s.pending[|s.pending| - 1].from;
    var i := Root(p, q);
    assert RootedAt(p, q, i);
    hide Exact, InScope, DestOf, ParentIsDir, Root, Todo, ItemOk, Apart;
    TopIsThere(p, s);
    DestIsFree(p, s, q);
    if q == p.sources[i] {
      Parts(p, s);
      SourceDest(p, i);
      RootHasParent(p, s, i);
    } else {
      ChildHasParent(p, s);
    }
  }

  lemma TodoIsCovered(p: Plan, pending: seq<Item>, q: Path)
    ensures q in Todo(p, pending) ==> Covered(pending, q)
  {
  }

  lemma ParentInScope(p: Plan, q: Path)
    requires Fresh(p) && InScope(p, q) && q in p.fs0 && q != p.sources[Root(p, q)]
    ensures q != [] && Parent(q) != [] && InScope(p, Parent(q)) && IsDir(p.fs0, Parent(q))
    ensures DestOf(p, q) == DestOf(p, Parent(q)) + [q[|q| - 1]]
  {
    var up, i := Parent(q), Root(p, q);
    assert p.sources[i] <= up by { assert q[..|up|][..|p.sources[i]|] == p.sources[i]; }
    assert RootedAt(p, up, i);
    assert q == up + [q[|q| - 1]];
    ChildDest(p, up, q[|q| - 1]);
    RootNotEmpty(p, up);
  }

  /** A visited directory is at its destination. */
  lemma VisitedDir(p: Plan, s: Job, up: Path)
    requires Exact(p, s) && s.cur.None? && !p.kind.Delete? && InScope(p, up)
    requires up !in Todo(p, s.pending) && IsDir(p.fs0, up)
    ensures IsDir(s.fs, DestOf(p, up))
  {
    hide Fresh, Stack, SourcesExact, CurOk, Counted, Markers, Safe, InScope, Todo, DestOf;
  }

  lemma ParentIsDelivered(p: Plan, s: Job, q: Path)
    requires Exact(p, s) && s.cur.None? && Fresh(p) && !p.kind.Delete?
    requires InScope(p, q) && q in p.fs0 && q != p.sources[Root(p, q)]
    requires q != [] && Parent(q) !in Todo(p, s.pending)
    ensures ParentIsDir(s.fs, DestOf(p, q))
  {
    hide Exact, Fresh, InScope, Todo, DestOf;
    ParentInScope(p, q);
    VisitedDir(p, s, Parent(q));
    assert Parent(DestOf(p, q)) == DestOf(p, Parent(q));
  }

  lemma ParentNotCovered(p: Plan, pending: seq<Item>)
    requires Stack(p, pending) && pending != [] && !pending[|pending| - 1].rmdirOnly
    requires pending[|pending| - 1].from != []
    ensures !Covered(pending, Parent(pending[|pending| - 1].from))
  {
    var q := pending[|pending| - 1].from;
    forall i: nat
      ensures !CoveredBy(pending, Parent(q), i)
    {
    }
  }

  // ---- Each step.

  lemma Smaller(a: set<Path>, q: Path)
    requires q in a
    ensures |a - {q}| == |a| - 1
  {
  }

  lemma Larger(a: set<Path>, q: Path)
    requires q !in a
    ensures |a + {q}| == |a| + 1
  {
  }

  lemma MarkerStep(p: Plan, s: Job, c: Choice)
    requires Exact(p, s) && Enabled(s, TakeNext(c)) && FaultFree(s, TakeNext(c))
    requires s.pending[|s.pending| - 1].rmdirOnly
    ensures Exact(p, Take(s, c))
  {
    hide Exact, Fresh, Safe, Stack, SetsExact, Todo, Markers, InScope, Apart, Tree, CanRmdir, DestOf;
    var it := s.pending[|s.pending| - 1];
    Parts(p, s);
    TakeIsSafe(p, s, c);
    MarkerIsEmpty(p, s);
    PopMarker(p, s.pending);
    RemoveSource(p, s.fs, Todo(p, s.pending), Markers(p, s.pending), {}, it.from);
    Smaller(Markers(p, s.pending), it.from);
    Build(p, Take(s, c));
  }

  lemma ChildIsNotDest(p: Plan, q: Path, n: Name)
    requires Apart(p) && InScope(p, q)
    ensures q + [n] != DestOf(p, q)
  {
    ChildDest(p, q, n);
    DestIsOutside(p, q);
  }

  /** The counterpart just made is not one of the directory's own entries. */
  lemma ListedIsThere(p: Plan, s: Job, it: Item, listing: seq<Name>)
    requires Apart(p) && InScope(p, it.from) && ItemOk(p, it) && s.kind == p.kind
    requires IsListing(Listed(s, it), it.from, listing)
    ensures IsListing(s.fs, it.from, listing)
  {
    forall n: Name
      ensures !it.rmdirOnly && !p.kind.Delete? ==> it.from + [n] != it.to
    {
      ChildIsNotDest(p, it.from, n);
    }
    hide Apart, InScope, DestOf;
  }

  lemma ChildrenAgree(p: Plan, s: Job, n: Name)
    requires Exact(p, s) && s.pending != [] && !s.pending[|s.pending| - 1].rmdirOnly
    ensures var q := s.pending[|s.pending| - 1].from; q + [n] in p.fs0 <==> q + [n] in s.fs
  {
    hide Exact, Fresh, Stack, Counted, CurOk, SetsExact, Safe, DestOf, InScope, Apart, Tree, Todo, ItemOk, Markers;
    var q := s.pending[|s.pending| - 1].from;
    Parts(p, s);
    TopIsThere(p, s);
    ChildDest(p, q, n);
    if q + [n] in p.fs0 {
      ChildIsTodo(p, s.pending, n);
      TodoIsThere(p, s, q + [n]);
    }
    if q + [n] in s.fs { SourceIsOld(p, s, q + [n]); }
  }

  lemma ListingIsWhole(p: Plan, s: Job, listing: seq<Name>)
    requires Exact(p, s) && s.cur.None? && s.pending != [] && !s.pending[|s.pending| - 1].rmdirOnly
    requires IsListing(Listed(s, s.pending[|s.pending| - 1]), s.pending[|s.pending| - 1].from, listing)
    requires forall n: Name :: s.pending[|s.pending| - 1].from + [n] in s.fs ==> n in listing
    ensures ListsAll(p.fs0, s.pending[|s.pending| - 1].from, listing)
  {
    hide Exact, Listed;
    var it := s.pending[|s.pending| - 1];
    TopListing(p, s, listing);
    forall n: Name
      ensures it.from + [n] in p.fs0 <==> n in listing
    {
      ChildrenAgree(p, s, n);
    }
  }

  lemma TopListing(p: Plan, s: Job, listing: seq<Name>)
    requires Exact(p, s) && s.pending != [] && !s.pending[|s.pending| - 1].rmdirOnly
    requires IsListing(Listed(s, s.pending[|s.pending| - 1]), s.pending[|s.pending| - 1].from, listing)
    ensures IsListing(s.fs, s.pending[|s.pending| - 1].from, listing)
  {
    hide Exact, Fresh, Stack, Counted, CurOk, SetsExact, Safe, DestOf, InScope, Apart, Tree, Todo, ItemOk, Listed,
      IsListing, Markers;
    Parts(p, s);
    TopIsThere(p, s);
    ListedIsThere(p, s, s.pending[|s.pending| - 1], listing);
  }

  lemma ChildIsTodo(p: Plan, pending: seq<Item>, n: Name)
    requires pending != [] && !pending[|pending| - 1].rmdirOnly && pending[|pending| - 1].from + [n] in p.fs0
    ensures pending[|pending| - 1].from + [n] in Todo(p, pending)
  {
    assert CoveredBy(pending, pending[|pending| - 1].from + [n], |pending| - 1);
  }

  lemma SourceIsOld(p: Plan, s: Job, q: Path)
    requires Safe(p, s) && InScope(p, q) && q in s.fs
    ensures q in p.fs0
  {
    hide Framed, KindKept, CopyOk, ItemOk, Apart, InScope;
  }

  /** What TakeDir comes to when nothing fails. */
  lemma TakeDirIs(s: Job, it: Item, c: Choice)
    requires c.mkdirOk && c.opendirOk && (!s.kind.Delete? ==> CanCreate(s.fs, it.to))
    ensures TakeDir(s, it, c) == s.(
      fs := if s.kind.Delete? then s.fs else s.fs[it.to := Dir],
      pending := s.pending + Pushed(it, c.listing, s.kind),
      done := if s.kind.Delete? then s.done else s.done + 1)
  {
  }

  lemma DirDisk(p: Plan, fs: Disk, todo: set<Path>, marks: set<Path>, q: Path)
    requires Apart(p) && InScope(p, q) && q in p.fs0 && p.fs0[q].Dir? && q in todo && SetsExact(p, fs, todo, marks, {})
    ensures SetsExact(p, if p.kind.Delete? then fs else fs[DestOf(p, q) := Dir], todo - {q},
                      marks + (if p.kind.Copy? then {} else {q}), {})
  {
    hide SetsExact, InScope, DestOf, Apart;
    if p.kind.Delete? {
      VisitMarks(p, fs, todo, marks, q);
    } else {
      var marks' := if p.kind.Copy? then marks else marks + {q};
      VisitWrites(p, fs, todo, marks, q, Dir, {}, marks');
      assert marks + (if p.kind.Copy? then {} else {q}) == marks';
    }
  }

  lemma DirStep(p: Plan, s: Job, c: Choice)
    requires Exact(p, s) && Enabled(s, TakeNext(c)) && FaultFree(s, TakeNext(c))
    requires !s.pending[|s.pending| - 1].rmdirOnly && IsDir(s.fs, s.pending[|s.pending| - 1].from)
    ensures Exact(p, Take(s, c))
  {
    hide Exact, Fresh, Safe, Stack, SetsExact, Todo, Markers, InScope, Apart, Tree, DestOf, Pushed, TakeDir, ListsAll,
      CanCreate;
    var it, rest := s.pending[|s.pending| - 1], s.pending[..|s.pending| - 1];
    Parts(p, s);
    TakeIsSafe(p, s, c);
    TopIsThere(p, s);
    ListingIsWhole(p, s, c.listing);
    if !p.kind.Delete? { CanCreateDest(p, s); }
    TakeDirIs(s.(pending := rest), it, c);
    PushStack(p, s.pending, c.listing);
    PushTodo(p, s.pending, c.listing);
    DirDisk(p, s.fs, Todo(p, s.pending), Markers(p, s.pending), it.from);
    Smaller(Todo(p, s.pending), it.from);
    Larger(Markers(p, s.pending), it.from);
    Build(p, Take(s, c));
  }

  /** What TakeFile comes to when nothing fails. */
  lemma TakeFileIs(s: Job, it: Item, c: Choice)
    requires c.unlinkOk && c.openInOk && c.openOutOk && it.from in s.fs && (!s.kind.Delete? ==> CanCreate(s.fs, it.to))
    ensures TakeFile(s, it, c) ==
      if s.kind.Delete? then s.(fs := s.fs - {it.from}, done := s.done + 1)
      else if s.kind.Move? && c.renameOk then s.(fs := (s.fs - {it.from})[it.to := s.fs[it.from]], done := s.done + 1)
      else s.(fs := s.fs[it.to := File([])], cur := Some(Copying(it.from, it.to, 0)))
  {
  }

  lemma FileDisk(p: Plan, fs: Disk, todo: set<Path>, marks: set<Path>, q: Path, renames: bool)
    requires Apart(p) && InScope(p, q) && q in p.fs0 && q in todo && q !in marks && q in fs && fs[q] == p.fs0[q]
    requires SetsExact(p, fs, todo, marks, {})
    ensures
      if p.kind.Delete? then SetsExact(p, fs - {q}, todo - {q}, marks, {})
      else if p.kind.Move? && renames then SetsExact(p, (fs - {q})[DestOf(p, q) := fs[q]], todo - {q}, marks, {})
      else SetsExact(p, fs[DestOf(p, q) := File([])], todo - {q}, marks, {q})
  {
    hide SetsExact, InScope, DestOf, Apart;
    if p.kind.Delete? {
      VisitUnlinks(p, fs, todo, marks, q);
    } else if p.kind.Move? && renames {
      VisitRenames(p, fs, todo, marks, q);
    } else {
      VisitWrites(p, fs, todo, marks, q, File([]), {q}, marks);
    }
  }

  lemma FileStep(p: Plan, s: Job, c: Choice)
    requires Exact(p, s) && Enabled(s, TakeNext(c)) && FaultFree(s, TakeNext(c))
    requires !s.pending[|s.pending| - 1].rmdirOnly && IsFile(s.fs, s.pending[|s.pending| - 1].from)
    ensures Exact(p, Take(s, c))
  {
    hide Exact, Fresh, Safe, Stack, SetsExact, Todo, Markers, InScope, Apart, Tree, DestOf, TakeFile, CanCreate;
    var it, rest := s.pending[|s.pending| - 1], s.pending[..|s.pending| - 1];
    Parts(p, s);
    TakeIsSafe(p, s, c);
    TopIsThere(p, s);
    if !p.kind.Delete? { CanCreateDest(p, s); }
    TakeFileIs(s.(pending := rest), it, c);
    PopItem(p, s.pending);
    PopFile(p, s.pending);
    FileDisk(p, s.fs, Todo(p, s.pending), Markers(p, s.pending), it.from, c.renameOk);
    Smaller(Todo(p, s.pending), it.from);
    Build(p, Take(s, c));
  }

  lemma AppendStep(p: Plan, s: Job, n: nat)
    requires Exact(p, s) && Enabled(s, Append(n))
    ensures Exact(p, Do(s, Append(n)))
  {
    hide Exact, Fresh, Safe, Stack, SetsExact, Todo, Markers, InScope, Apart, Tree, DestOf;
    Parts(p, s);
    AppendIsSafe(p, s, n);
    CopyPart(p, s);
    var k := s.cur.value;
    CopyWrites(p, s.fs, Todo(p, s.pending), Markers(p, s.pending), k.from,
               File(s.fs[k.to].data + s.fs[k.from].data[k.off..k.off + n]));
    Build(p, Do(s, Append(n)));
  }

  lemma CopyPart(p: Plan, s: Job)
    requires Safe(p, s)
    ensures CopyOk(p, s) && s.kind == p.kind
  {
    hide Framed, KindKept, SourcesIntact, CopyOk, ItemOk, Apart;
  }

  lemma FinishStep(p: Plan, s: Job)
    requires Exact(p, s) && Enabled(s, Finish(true))
    ensures Exact(p, Do(s, Finish(true)))
  {
    hide Exact, Fresh, Safe, Stack, SetsExact, Todo, Markers, InScope, Apart, Tree, DestOf;
    Parts(p, s);
    FinishIsSafe(p, s, true);
    CopyPart(p, s);
    var k := s.cur.value;
    var data := s.fs[k.from].data;
    assert data[..|data|] == data;
    if p.kind.Copy? {
      CopyEnds(p, s.fs, Todo(p, s.pending), Markers(p, s.pending), k.from);
    } else {
      RemoveSource(p, s.fs, Todo(p, s.pending), Markers(p, s.pending), {k.from}, k.from);
      assert Markers(p, s.pending) - {k.from} == Markers(p, s.pending);
    }
    Build(p, Do(s, Finish(true)));
  }

  /** Without faults, every call the job makes succeeds and the invariant holds after it. */
  lemma FaultFreeStep(p: Plan, s: Job, m: Step)
    requires Exact(p, s) && Enabled(s, m) && FaultFree(s, m)
    ensures Exact(p, Do(s, m))
  {
    hide Exact, Take;
    match m
    case TakeNext(c) =>
      var it := s.pending[|s.pending| - 1];
      if it.rmdirOnly {
        MarkerStep(p, s, c);
      } else {
        TopIsThere(p, s);
        if s.fs[it.from].Dir? { DirStep(p, s, c); } else { FileStep(p, s, c); }
      }
    case Append(n) => AppendStep(p, s, n);
    case Finish(_) => FinishStep(p, s);
  }

  // ---- Whole runs.

  ghost predicate FaultFreeRun(s: Job, ms: seq<Step>)
    requires EnabledRun(s, ms)
    decreases |ms|
  {
    ms == [] || (FaultFree(s, ms[0]) && FaultFreeRun(Do(s, ms[0]), ms[1..]))
  }

  lemma {:induction false} FaultFreeKeepsExact(p: Plan, s: Job, ms: seq<Step>)
    requires Exact(p, s) && EnabledRun(s, ms) && FaultFreeRun(s, ms)
    ensures Exact(p, Run(s, ms))
    decreases |ms|
  {
    hide Exact, Enabled, Do, FaultFree;
    if ms != [] {
      FaultFreeStep(p, s, ms[0]);
      FaultFreeKeepsExact(p, Do(s, ms[0]), ms[1..]);
    }
  }

  /** What is left, as a triple that every step makes smaller: nodes to visit, then directories to
      remove and the copy to finish, then bytes to copy. */
  ghost function Bytes(s: Job): nat {
    if s.cur.Some? && CopyStands(s) then |s.fs[s.cur.value.from].data| - s.cur.value.off else 0
  }

  ghost predicate Less(p: Plan, t: Job, s: Job) {
    var a, b := |Todo(p, t.pending)|, |Todo(p, s.pending)|;
    var c, d := |Markers(p, t.pending)| + |BusySet(t)|, |Markers(p, s.pending)| + |BusySet(s)|;
    a < b || (a == b && (c < d || (c == d && Bytes(t) < Bytes(s))))
  }

  lemma MarkerProgress(p: Plan, s: Job, c: Choice)
    requires Exact(p, s) && Enabled(s, TakeNext(c)) && FaultFree(s, TakeNext(c))
    requires s.pending[|s.pending| - 1].rmdirOnly
    ensures Less(p, Take(s, c), s)
  {
    hide Exact, Fresh, Safe, Stack, SetsExact, Todo, Markers, CanRmdir;
    Parts(p, s);
    PopMarker(p, s.pending);
    Smaller(Markers(p, s.pending), s.pending[|s.pending| - 1].from);
  }

  lemma ItemProgress(p: Plan, s: Job, c: Choice)
    requires Exact(p, s) && Enabled(s, TakeNext(c)) && FaultFree(s, TakeNext(c))
    requires !s.pending[|s.pending| - 1].rmdirOnly
    ensures Less(p, Take(s, c), s)
  {
    hide Exact, Fresh, Safe, Stack, SetsExact, Todo, Markers, InScope, Apart, Tree, DestOf, TakeFile, TakeDir, Pushed,
      ListsAll, CanCreate;
    var it, rest := s.pending[|s.pending| - 1], s.pending[..|s.pending| - 1];
    Parts(p, s);
    TopIsThere(p, s);
    if !p.kind.Delete? { CanCreateDest(p, s); }
    Smaller(Todo(p, s.pending), it.from);
    if s.fs[it.from].Dir? {
      ListingIsWhole(p, s, c.listing);
      TakeDirIs(s.(pending := rest), it, c);
      PushTodo(p, s.pending, c.listing);
    } else {
      TakeFileIs(s.(pending := rest), it, c);
      PopItem(p, s.pending);
      PopFile(p, s.pending);
    }
  }

  /** The job cannot run for ever. */
  lemma StepMakesProgress(p: Plan, s: Job, m: Step)
    requires Exact(p, s) && Enabled(s, m) && FaultFree(s, m)
    ensures Less(p, Do(s, m), s)
  {
    hide Exact, Take, Todo, Markers;
    match m
    case TakeNext(c) =>
      if s.pending[|s.pending| - 1].rmdirOnly { MarkerProgress(p, s, c); } else { ItemProgress(p, s, c); }
    case Append(n) => CopyStaysApart(p, s);
    case Finish(_) =>
  }

  lemma CopyStaysApart(p: Plan, s: Job)
    requires Exact(p, s) && s.cur.Some?
    ensures s.cur.value.from != s.cur.value.to
  {
    hide Fresh, Stack, DiskExact, CurOk, Counted, Framed, KindKept, SourcesIntact, Apart, DestOf;
    Parts(p, s);
    DestIsOutside(p, s.cur.value.from);
  }

  /** While something is left, some fault-free step is possible: the job never gets stuck. */
  lemma NeverStuck(p: Plan, s: Job) returns (m: Step)
    requires Exact(p, s) && (s.pending != [] || s.cur.Some?)
    ensures Enabled(s, m) && FaultFree(s, m)
  {
    hide Enabled, FaultFree, Exact;
    if s.cur.Some? {
      m := CopyIsNotStuck(p, s);
    } else {
      m := StackIsNotStuck(s);
    }
  }

  lemma CopyIsNotStuck(p: Plan, s: Job) returns (m: Step)
    requires Exact(p, s) && s.cur.Some?
    ensures Enabled(s, m) && FaultFree(s, m)
  {
    Parts(p, s);
    CopyPart(p, s);
    hide Exact, Fresh, Safe, Stack, SetsExact, Apart, Tree, InScope, DestOf, CurOk, Counted;
    var k := s.cur.value;
    if k.off < |s.fs[k.from].data| { m := Append(1); } else { m := Finish(true); }
  }

  lemma StackIsNotStuck(s: Job) returns (m: Step)
    requires s.pending != [] && s.cur.None?
    ensures Enabled(s, m) && FaultFree(s, m)
  {
    var it := s.pending[|s.pending| - 1];
    var listing := ChildrenOf(s.fs, it.from);
    ListingAgain(s, it, listing);
    hide IsListing, Listed;
    m := TakeNext(Choice(true, true, true, listing, true, true, true, true, true));
  }

  /** A listing stays one once the destination directory is made. */
  lemma ListingAgain(s: Job, it: Item, listing: seq<Name>)
    requires IsListing(s.fs, it.from, listing)
    ensures IsListing(Listed(s, it), it.from, listing)
  {
  }

  lemma ChildrenOf(fs: Disk, d: Path) returns (listing: seq<Name>)
    ensures IsListing(fs, d, listing) && forall n: Name :: d + [n] in fs ==> n in listing
  {
    var left := set q | q in fs && |q| == |d| + 1 && q[..|d|] == d;
    listing := [];
    while left != {}
      invariant forall q :: q in left ==> q in fs && |q| == |d| + 1 && q[..|d|] == d
      invariant forall n :: n in listing ==> d + [n] in fs && d + [n] !in left
      invariant forall i, j :: 0 <= i < j < |listing| ==> listing[i] != listing[j]
      invariant forall n: Name :: d + [n] in fs ==> n in listing || d + [n] in left
    {
      var q :| q in left;
      var n := q[|d|];
      assert q == d + [n];
      listing := listing + [n];
      left := left - {q};
    }
  }

  lemma {:induction false} QueueAt(sources: seq<Path>, dest: Path, kind: Op)
    ensures var q := Queue(sources, dest, kind);
      |q| == |sources|
      && forall i :: 0 <= i < |q| ==> q[i].from == sources[|sources| - 1 - i] && !q[i].rmdirOnly
  {
    if sources != [] {
      QueueAt(sources[1..], dest, kind);
    }
  }

  lemma QueueCovers(p: Plan, q: Path)
    ensures Covered(Queue(p.sources, p.dest, p.kind), q) <==> InScope(p, q)
    ensures !Marked(Queue(p.sources, p.dest, p.kind), q)
  {
    var pending := Queue(p.sources, p.dest, p.kind);
    QueueAt(p.sources, p.dest, p.kind);
    hide Queue;
    if i: nat :| CoveredBy(pending, q, i) { assert RootedAt(p, q, |p.sources| - 1 - i); }
    if i: nat :| RootedAt(p, q, i) { assert CoveredBy(pending, q, |p.sources| - 1 - i); }
  }

  lemma QueueTodo(p: Plan)
    ensures var pending := Queue(p.sources, p.dest, p.kind);
      Todo(p, pending) == Nodes(p) && Markers(p, pending) == {}
  {
    hide Queue, InScope, Covered, Marked;
    forall q
      ensures Covered(Queue(p.sources, p.dest, p.kind), q) <==> InScope(p, q)
      ensures !Marked(Queue(p.sources, p.dest, p.kind), q)
    {
      QueueCovers(p, q);
    }
  }

  lemma QueueStack(p: Plan)
    requires Fresh(p)
    ensures Stack(p, Queue(p.sources, p.dest, p.kind))
  {
    QueueAt(p.sources, p.dest, p.kind);
    hide Queue, Tree, InScope, DestOf, Target;
  }

  lemma AllTodo(p: Plan)
    requires Fresh(p)
    ensures SetsExact(p, p.fs0, Nodes(p), {}, {})
  {
    hide InScope, DestOf, Apart, Tree;
  }

  /** A job started on a fresh plan has everything left to do. */
  lemma StartIsExact(p: Plan)
    requires Fresh(p)
    ensures Exact(p, Start(p.fs0, p.sources, p.dest, p.kind))
  {
    FreshParts(p);
    StartIsSafe(p);
    QueueTodo(p);
    QueueStack(p);
    AllTodo(p);
    hide Queue, Tree, Apart, Safe, Stack, SetsExact, Fresh, Todo, Markers, Nodes;
    Build(p, Start(p.fs0, p.sources, p.dest, p.kind));
  }

  /** Where everything is once the recursive operation is done, node by node. */
  ghost predicate Done(p: Plan, fs: Disk) {
    && (forall q :: InScope(p, q) ==>
          (DestOf(p, q) in fs <==> q in p.fs0 && !p.kind.Delete?)
          && (DestOf(p, q) in fs ==> fs[DestOf(p, q)] == p.fs0[q]))
    && (forall q :: InScope(p, q) ==> if p.kind.Copy? then Same(fs, p.fs0, q) else q !in fs)
    && (forall q :: !InScope(p, q) && !IsDest(p, q) ==> Same(fs, p.fs0, q))
  }

  lemma NothingLeft(p: Plan, s: Job)
    requires Exact(p, s) && s.pending == [] && s.cur.None?
    ensures Todo(p, s.pending) == {} && Markers(p, s.pending) == {} && BusySet(s) == {}
  {
    hide Exact;
  }

  lemma ExactIsDone(p: Plan, s: Job)
    requires Exact(p, s) && s.pending == [] && s.cur.None?
    ensures Done(p, s.fs) && s.done == |Nodes(p)| && s.failed == 0
  {
    NothingLeft(p, s);
    Parts(p, s);
    FramedPart(p, s);
    SourcesPart(p, s);
    hide Exact, Fresh, Safe, Stack, CurOk, Todo, Markers, SetsExact, SourcesIntact, Framed, KindKept, Done, Nodes;
    DoneWhenNothingLeft(p, s.fs);
  }

  lemma DoneWhenNothingLeft(p: Plan, fs: Disk)
    requires Apart(p) && SetsExact(p, fs, {}, {}, {}) && SourcesIntact(p, fs) && Framed(p, fs) && KindKept(p, fs)
    ensures Done(p, fs)
  {
    hide InScope, DestOf, Apart, IsDest;
  }

  lemma SourcesPart(p: Plan, s: Job)
    requires Safe(p, s)
    ensures SourcesIntact(p, s.fs) && KindKept(p, s.fs)
  {
    hide Framed, KindKept, SourcesIntact, CopyOk, ItemOk, Apart;
  }

  /** The stack machine is the recursive operation: whatever order the directories are listed in
      and however the copies are sliced, a fault-free run that has nothing left has copied an equal
      tree and left the source alone, or deleted every node, or moved every node; its counter is
      the number of nodes and nothing failed. */
  lemma JobEqualsRecursion(p: Plan, ms: seq<Step>)
    requires Fresh(p) && EnabledRun(Start(p.fs0, p.sources, p.dest, p.kind), ms)
    requires FaultFreeRun(Start(p.fs0, p.sources, p.dest, p.kind), ms)
    requires var s := Run(Start(p.fs0, p.sources, p.dest, p.kind), ms); s.pending == [] && s.cur.None?
    ensures var s := Run(Start(p.fs0, p.sources, p.dest, p.kind), ms);
      Done(p, s.fs) && s.done == |Nodes(p)| && s.failed == 0
  {
    hide Exact, Fresh, Done, Start;
    StartIsExact(p);
    FaultFreeKeepsExact(p, Start(p.fs0, p.sources, p.dest, p.kind), ms);
    ExactIsDone(p, Run(Start(p.fs0, p.sources, p.dest, p.kind), ms));
  }

  /** Whatever is left can be finished: some fault-free run comes to the end, and it is finite because
      every step makes the triple smaller. */
  lemma {:induction false} Finishes(p: Plan, s: Job) returns (ms: seq<Step>)
    requires Exact(p, s)
    ensures EnabledRun(s, ms) && FaultFreeRun(s, ms) && Run(s, ms).pending == [] && Run(s, ms).cur.None?
    decreases |Todo(p, s.pending)|, |Markers(p, s.pending)| + |BusySet(s)|, Bytes(s)
  {
    if s.pending == [] && s.cur.None? {
      ms := [];
    } else {
      hide Exact, Enabled, FaultFree, Todo, Markers, BusySet, Bytes;
      var m := NeverStuck(p, s);
      FaultFreeStep(p, s, m);
      StepMakesProgress(p, s, m);
      var t := Do(s, m);
      hide Do;
      var rest := Finishes(p, t);
      ms := [m] + rest;
      assert ms[1..] == rest;
    }
  }

  /** However a fault-free run began, it can go on to its end, and there the operation is done. */
  lemma AlwaysFinishes(p: Plan, ms: seq<Step>) returns (rest: seq<Step>)
    requires Fresh(p) && EnabledRun(Start(p.fs0, p.sources, p.dest, p.kind), ms)
    requires FaultFreeRun(Start(p.fs0, p.sources, p.dest, p.kind), ms)
    ensures EnabledRun(Start(p.fs0, p.sources, p.dest, p.kind), ms + rest)
    ensures var s := Run(Start(p.fs0, p.sources, p.dest, p.kind), ms + rest);
      s.pending == [] && s.cur.None? && Done(p, s.fs) && s.done == |Nodes(p)| && s.failed == 0
  {
    hide Exact, Fresh, Done, Start, FaultFreeRun;
    var s0 := Start(p.fs0, p.sources, p.dest, p.kind);
    StartIsExact(p);
    FaultFreeKeepsExact(p, s0, ms);
    var s := Run(s0, ms);
    rest := Finishes(p, s);
    RunConcat(s0, ms, rest);
    FaultFreeKeepsExact(p, s, rest);
    ExactIsDone(p, Run(s, rest));
  }
}
