// The repaint compiler as the program keeps it (render/diff.cpp): nested loops over the surface,
// and the memory of the last frame.

module DifferObject {
  import opened Bytes
  import opened Cells
  import opened Utf8
  import opened Profile
  import opened Picture
  import opened Frame
  import opened SurfaceObject

  class Differ {
    const profile: Depth
    const prev: Surface
    var valid: bool
    var lastTarget: Pos
    var lastShown: bool
    var first: bool

    ghost function Model(): Memory
      reads this, prev
    {
      Memory(prev.Model(), valid, lastTarget, lastShown, first)
    }

    ghost predicate Ok()
      reads this, prev
    {
      prev.Valid()
    }

    constructor (profile: Depth)
      ensures fresh(prev) && Ok() && this.profile == profile
      ensures Model() == Memory(Blank(0, 0), false, Pos(0, 0), false, true)
    {
      this.profile := profile;
      prev := new Surface(0, 0);
      valid, lastTarget, lastShown, first := false, Pos(0, 0), false, true;
    }

    /** The next frame will be complete. */
    method Invalidate()
      requires Ok()
      modifies `valid
      ensures Ok() && Model() == old(Model()).(valid := false)
    {
      valid := false;
    }

    // ---- One run of cells.

    static method StartOfRun(row: PicRow, x: nat) returns (start: nat)
      requires x < |row|
      ensures start == RunStart(row, x)
    {
      start := x;
      while start > 0 && row[start].width == 0
        invariant start < |row| && RunStart(row, start) == RunStart(row, x)
      {
        start := start - 1;
      }
    }

    static method EndOfRun(row: PicRow, before: PicRow, full: bool, from: nat, limit: nat) returns (end: nat)
      requires from <= limit <= |row| && |before| == |row|
      ensures end == RunEnd(row, before, full, from, limit)
    {
      end := from;
      while end < limit
        invariant end <= limit && RunEnd(row, before, full, end, limit) == RunEnd(row, before, full, from, limit)
      {
        var d := full || row[end] != before[end];
        var cont := row[end].width == 0;
        if !d && !cont {
          break;
        }
        end := end + 1;
      }
    }

    static method EmitCells(row: PicRow, y: int, start: nat, end: nat, e: Emit, d: Depth) returns (r: Emit)
      requires start <= end <= |row|
      ensures r == EmitRun(row, y, start, end, e, d)
    {
      hide Transition, EncodeUtf8, Cup;
      r := e;
      for c := start to end
        invariant EmitRun(row, y, c, end, r, d) == EmitRun(row, y, start, end, e, d)
      {
        var cell := row[c];
        if cell.width == 0 {
          continue;
        }
        if !r.known || r.px != c || r.py != y {
          r := r.(body := r.body + Cup(c, y), known := true, px := c, py := y);
        }
        r := r.(body := r.body + Transition(r.pen, cell.style, d), pen := cell.style);
        r := r.(body := r.body + EncodeUtf8(cell.ch), px := r.px + cell.width);
        if cell.ch >= 0x80 {
          r := r.(known := false);
        }
      }
    }

    // ---- One row.

    static method StartOfTail(row: PicRow) returns (start: nat)
      ensures start == TailStart(row, |row|)
    {
      start := |row|;
      while start > 0 && row[start - 1] == BLANK
        invariant start <= |row| && TailStart(row, start) == TailStart(row, |row|)
      {
        start := start - 1;
      }
    }

    static method ScanCells(row: PicRow, before: PicRow, full: bool, y: int, limit: nat, e: Emit, d: Depth)
      returns (r: Emit)
      requires limit <= |row| && |before| == |row|
      ensures r == ScanRow(row, before, full, y, 0, limit, e, d)
    {
      hide EmitRun, RunEnd, RunStart;
      r := e;
      var x := 0;
      while x < limit
        invariant x <= limit
        invariant ScanRow(row, before, full, y, x, limit, r, d) == ScanRow(row, before, full, y, 0, limit, e, d)
        decreases limit - x
      {
        if !full && row[x] == before[x] {
          x := x + 1;
          continue;
        }
        RunBounds(row, before, full, x, limit);
        var start := StartOfRun(row, x);
        var end := EndOfRun(row, before, full, x + 1, limit);
        r := EmitCells(row, y, start, end, r, d);
        r := r.(any := true);
        x := end;
      }
    }

    static method TailHasChanged(row: PicRow, before: PicRow, full: bool, from: nat) returns (differs: bool)
      requires from <= |row| == |before|
      ensures differs <==> TailDiffers(row, before, full, from)
    {
      differs := full;
      var c := from;
      while !differs && c < |row|
        invariant from <= c <= |row|
        invariant differs <==> full || exists x :: from <= x < c && row[x] != before[x]
      {
        differs := row[c] != before[c];
        c := c + 1;
      }
    }

    static method FrameLine(row: PicRow, before: PicRow, full: bool, y: int, e: Emit, d: Depth) returns (r: Emit)
      requires |before| == |row|
      ensures r == FrameRow(row, before, full, y, e, d)
    {
      hide ScanRow, Transition, Cup, TailDiffers, TailStart;
      var tail := StartOfTail(row);
      TailBounds(row);
      var erases := |row| - tail >= MIN_ERASABLE_TAIL;
      var limit := if erases then tail else |row|;
      r := ScanCells(row, before, full, y, limit, e, d);
      if erases {
        var differs := TailHasChanged(row, before, full, tail);
        if differs {
          if !r.known || r.px != tail || r.py != y {
            r := r.(body := r.body + Cup(tail, y), known := true, px := tail, py := y);
          }
          if r.pen.bg != Default {
            var plain := r.pen.(bg := Default);
            r := r.(body := r.body + Transition(r.pen, plain, d), pen := plain);
          }
          r := r.(body := r.body + ERASE_TO_END, any := true);
        }
      }
    }

    // ---- The frame.

    /** The bytes that bring the terminal from the last frame to this surface; none if it is there
        already. */
    method NextFrame(cur: Surface, cursor: Option<Pos>) returns (out: bytes)
      requires Ok() && cur.Valid() && cur != prev
      modifies this, prev
      ensures Ok()
      ensures out == FrameBytes(old(Model()), cur.Model(), cursor, profile)
      ensures Model() == After(old(Model()), cur.Model(), cursor, profile)
    {
      hide FrameRow, FrameRows;
      Fit(cur);
      var e := Scan(cur);
      assert e == Body(old(Model()), cur.Model(), profile);
      var target := if cursor.Some? then cursor.value else Pos(0, 0);
      var shown := cursor.Some?;
      var cursorChanged := first || target != lastTarget || shown != lastShown;
      if !e.any && valid && !cursorChanged {
        return [];
      }
      out := PROLOGUE + e.body + Cup(target.x, target.y);
      if cursor.Some? {
        out := out + SHOW_CURSOR;
      } else {
        assert out + [] == out;
      }
      Remember(cur);
      valid, lastTarget, lastShown, first := true, target, shown, false;
    }

    /** A size change forgets the terminal. */
    method Fit(cur: Surface)
      requires Ok() && cur.Valid() && cur != prev
      modifies `valid, prev
      ensures Ok() && Model() == Fitted(old(Model()), cur.Model())
    {
      if prev.w != cur.w || prev.h != cur.h {
        prev.Resize(cur.w, cur.h);
        valid := false;
      }
    }

    method Scan(cur: Surface) returns (e: Emit)
      requires Ok() && cur.Valid() && cur.w == prev.w && cur.h == prev.h
      ensures e == FrameRows(cur.rows, prev.rows, !valid, 0, START, profile)
    {
      hide FrameRow;
      e := START;
      for y := 0 to cur.h
        invariant FrameRows(cur.rows, prev.rows, !valid, y, e, profile)
               == FrameRows(cur.rows, prev.rows, !valid, 0, START, profile)
      {
        e := FrameLine(cur.rows[y], prev.rows[y], !valid, y, e, profile);
      }
    }

    /** Cell by cell, the surface becomes the previous one. */
    method Remember(cur: Surface)
      requires Ok() && cur.Valid() && cur != prev && cur.w == prev.w && cur.h == prev.h
      modifies prev`rows
      ensures Ok() && prev.Model() == cur.Model()
    {
      for y := 0 to cur.h
        invariant Ok() && forall j :: 0 <= j < y ==> prev.rows[j] == cur.rows[j]
      {
        CopyLine(cur, y);
      }
      assert prev.rows == cur.rows;
    }

    method CopyLine(cur: Surface, y: nat)
      requires Ok() && cur.Valid() && cur != prev && cur.w == prev.w && cur.h == prev.h && y < cur.h
      modifies prev`rows
      ensures Ok() && prev.rows == old(prev.rows)[y := cur.rows[y]]
    {
      ghost var was := prev.rows;
      assert prev.rows == was[y := was[y]] && cur.rows[y][..0] + was[y][0..] == was[y];
      for x := 0 to cur.w
        invariant Ok() && prev.rows == was[y := cur.rows[y][..x] + was[y][x..]]
      {
        ghost var line := cur.rows[y][..x] + was[y][x..];
        assert line[x := cur.rows[y][x]] == cur.rows[y][..x + 1] + was[y][x + 1..];
        prev.Set(x, y, cur.rows[y][x]);
      }
      assert cur.rows[y][..cur.w] + was[y][cur.w..] == cur.rows[y];
    }
  }

  lemma RunBounds(row: PicRow, before: PicRow, full: bool, x: nat, limit: nat)
    requires x < limit <= |row| == |before|
    ensures RunStart(row, x) <= x < RunEnd(row, before, full, x + 1, limit) <= limit
  {
  }

  lemma TailBounds(row: PicRow)
    ensures TailStart(row, |row|) <= |row|
  {
  }
}
