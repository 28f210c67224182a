// The history of a terminal: a ring of trimmed lines and the offset it is viewed from
// (vt/scrollback.cpp).

module Scrollback {
  import opened Bytes
  import opened ScreenRow

  type Line = seq<SCell>

  /** The abstract history: oldest line first, viewed `offset` lines above the bottom. */
  datatype History = History(capacity: nat, lines: seq<Line>, offset: nat)

  ghost predicate Sound(h: History) {
    |h.lines| <= h.capacity && h.offset <= |h.lines|
  }

  /** A row without its trailing default blanks; a painted blank is content. */
  function Trim(row: Row): Line {
    if row != [] && row[|row| - 1] == EMPTY then Trim(row[..|row| - 1]) else row
  }

  /** What is trimmed is only the default blanks at the end, all of them: the row can be had back. */
  lemma {:induction false} TrimLosesBlanks(row: Row)
    ensures var t := Trim(row);
      && |t| <= |row| && row[..|t|] == t && (forall i :: |t| <= i < |row| ==> row[i] == EMPTY)
      && (t != [] ==> t[|t| - 1] != EMPTY)
    decreases |row|
  {
    if row != [] && row[|row| - 1] == EMPTY {
      var less := row[..|row| - 1];
      TrimLosesBlanks(less);
      assert row[..|Trim(less)|] == less[..|Trim(less)|];
      forall i | |Trim(row)| <= i < |row| ensures row[i] == EMPTY {
        if i < |less| { assert row[i] == less[i]; }
      }
    }
  }

  function Push(h: History, row: Row): (r: History)
    ensures Sound(h) ==> Sound(r)
  {
    if h.capacity == 0 then h
    else
      var kept := if |h.lines| < h.capacity then h.lines else h.lines[|h.lines| - h.capacity + 1..];
      var lines := kept + [Trim(row)];
      History(h.capacity, lines, if h.offset > 0 then Min(h.offset + 1, |lines|) else 0)
  }

  /** The line shown `k` lines below the top of the view (0 is the first one shown). */
  function Viewed(h: History, k: nat): Line
    requires Sound(h) && k < h.offset
  {
    h.lines[|h.lines| - h.offset + k]
  }

  /** A scrolled-back view keeps showing the same lines while output arrives; once the oldest
      line of a full ring was itself in view, that line alone is lost. */
  lemma ViewIsStable(h: History, row: Row, k: nat)
    requires Sound(h) && k < h.offset
    ensures var r := Push(h, row);
      if h.offset < h.capacity then r.offset == h.offset + 1 && Viewed(r, k) == Viewed(h, k)
      else r.offset == h.offset && (k > 0 ==> Viewed(r, k - 1) == Viewed(h, k))
  {
  }

  function PushAll(h: History, rows: seq<Row>): History
    decreases |rows|
  {
    if rows == [] then h else PushAll(Push(h, rows[0]), rows[1..])
  }

  /** Over any amount of output: the view shows the same lines, less those that were evicted. */
  lemma {:induction false} ViewStaysPut(h: History, rows: seq<Row>, k: nat)
    requires Sound(h) && h.offset > 0 && Max(h.offset + |rows| - h.capacity, 0) <= k < h.offset
    ensures var r, lost := PushAll(h, rows), Max(h.offset + |rows| - h.capacity, 0);
      && Sound(r) && r.offset == h.offset + |rows| - lost
      && Viewed(r, k - lost) == Viewed(h, k)
    decreases |rows|
  {
    if rows != [] {
      ViewIsStable(h, rows[0], k);
      var next := Push(h, rows[0]);
      hide Push, Viewed;
      ViewStaysPut(next, rows[1..], if h.offset < h.capacity then k else k - 1);
    }
  }

  /** The slot of the i-th line from the oldest. */
  function Slot(capacity: nat, head: nat, i: nat): (s: nat)
    requires head < capacity && i <= capacity
    ensures s == if head + i < capacity then head + i else head + i - capacity
  {
    (head + i) % capacity
  }

  /** The lines a ring holds, oldest first. */
  ghost function LinesOf(ring: seq<Line>, head: nat, size: nat): (s: seq<Line>)
    requires size <= |ring| && (ring != [] ==> head < |ring|)
    ensures |s| == size
    ensures forall i :: 0 <= i < size ==> s[i] == ring[Slot(|ring|, head, i)]
  {
    seq(size, i requires 0 <= i < size => ring[Slot(|ring|, head, i)])
  }

  lemma PushGrows(ring: seq<Line>, head: nat, size: nat, line: Line)
    requires head < |ring| && size < |ring|
    ensures LinesOf(ring[Slot(|ring|, head, size) := line], head, size + 1) == LinesOf(ring, head, size) + [line]
  {
    hide Slot;
    var r := ring[Slot(|ring|, head, size) := line];
    forall i | 0 <= i < size
      ensures r[Slot(|r|, head, i)] == ring[Slot(|ring|, head, i)]
    {
      SlotsDiffer(|ring|, head, i, size);
    }
  }

  lemma SlotsDiffer(capacity: nat, head: nat, i: nat, j: nat)
    requires head < capacity && i < j < capacity
    ensures Slot(capacity, head, i) != Slot(capacity, head, j)
  {
  }

  lemma PushWraps(ring: seq<Line>, head: nat, line: Line)
    requires head < |ring|
    ensures LinesOf(ring[head := line], Slot(|ring|, head, 1), |ring|) == LinesOf(ring, head, |ring|)[1..] + [line]
  {
    var n, r := |ring|, ring[head := line];
    var next := Slot(n, head, 1);
    forall i | 0 <= i < n
      ensures r[Slot(n, next, i)] == (LinesOf(ring, head, n)[1..] + [line])[i]
    {
      if i < n - 1 {
        assert Slot(n, next, i) == Slot(n, head, i + 1) != head;
      } else {
        assert Slot(n, next, i) == head;
      }
    }
  }

  /** The ring itself. */
  class Ring {
    const capacity: nat
    var ring: seq<Line>
    var head: nat
    var size: nat
    var offset: nat

    ghost predicate Valid()
      reads this
    {
      |ring| == capacity && size <= capacity && offset <= size && (capacity > 0 ==> head < capacity)
    }

    ghost function Lines(): (s: seq<Line>)
      reads this
      requires Valid()
    {
      LinesOf(ring, head, size)
    }

    ghost function Model(): History
      reads this
      requires Valid()
    {
      History(capacity, Lines(), offset)
    }

    constructor (capacity: nat)
      ensures Valid() && Model() == History(capacity, [], 0)
    {
      this.capacity := capacity;
      ring := seq(capacity, _ => []);
      head, size, offset := 0, 0, 0;
    }

    /** The length of a row once its trailing default blanks are dropped. */
    static method TrimmedLength(cells: Row) returns (len: nat)
      ensures len <= |cells| && cells[..len] == Trim(cells)
    {
      len := |cells|;
      assert cells[..|cells|] == cells;
      while len > 0 && cells[len - 1] == EMPTY
        invariant 0 <= len <= |cells|
        invariant Trim(cells[..len]) == Trim(cells)
      {
        assert cells[..len][..len - 1] == cells[..len - 1];
        len := len - 1;
      }
    }

    method PushRow(cells: Row)
      requires Valid()
      modifies this
      ensures Valid() && Model() == Push(old(Model()), cells)
    {
      hide Trim, Slot, LinesOf;
      if capacity == 0 {
        return;
      }
      var len := TrimmedLength(cells);
      ghost var was, ring0, head0, size0 := Lines(), ring, head, size;
      var slot;
      if size < capacity {
        slot := Slot(capacity, head, size);
        size := size + 1;
        PushGrows(ring0, head0, size0, cells[..len]);
      } else {
        slot := head;
        head := Slot(capacity, head, 1);
        PushWraps(ring0, head0, cells[..len]);
      }
      ring := ring[slot := cells[..len]];
      if offset > 0 {
        offset := offset + 1;
        if offset > size {
          offset := size;
        }
      }
    }

    method At(index: nat) returns (line: Line)
      requires Valid()
      ensures line == if index < size then Lines()[index] else []
    {
      if index >= size {
        return [];
      }
      line := ring[Slot(capacity, head, index)];
    }

    method Clear()
      requires Valid()
      modifies this
      ensures Valid() && Model() == History(capacity, [], 0)
    {
      size, offset := 0, 0;
      assert Lines() == [];
    }

    method ScrollBack(n: nat)
      requires Valid()
      modifies this`offset
      ensures Valid() && Model() == old(Model()).(offset := Min(old(offset) + n, size))
    {
      if n > size - offset {
        offset := size;
      } else {
        offset := offset + n;
      }
      assert Lines() == old(Lines());
    }

    method ScrollForward(n: nat)
      requires Valid()
      modifies this`offset
      ensures Valid() && Model() == old(Model()).(offset := Max(old(offset) - n, 0))
    {
      if n > offset {
        offset := 0;
      } else {
        offset := offset - n;
      }
      assert Lines() == old(Lines());
    }
  }
}
