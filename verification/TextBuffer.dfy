// The editor's text: a vector of lines that stands for a flat string (apps/editor/buffer.cpp).

module TextBuffer {
  import opened Bytes

  const NL: byte := 10

  datatype TextPos = TextPos(line: nat, col: nat)

  predicate OneLine(s: bytes) { NL !in s }

  predicate AllOneLine(lines: seq<bytes>) { forall i :: 0 <= i < |lines| ==> OneLine(lines[i]) }

  /** Lines that follow something: each after its separator. */
  function Post(lines: seq<bytes>): bytes {
    if lines == [] then [] else [NL] + lines[0] + Post(lines[1..])
  }

  /** Lines that something follows: each before its separator. */
  function Pre(lines: seq<bytes>): bytes {
    if lines == [] then [] else Pre(lines[..|lines| - 1]) + lines[|lines| - 1] + [NL]
  }

  /** The flat string: the lines with a separator between each two. */
  function Flat(lines: seq<bytes>): bytes
    requires lines != []
  {
    lines[0] + Post(lines[1..])
  }

  predicate In(lines: seq<bytes>, p: TextPos) {
    p.line < |lines| && p.col <= |lines[p.line]|
  }

  /** Where a position is in the flat string. */
  function Offset(lines: seq<bytes>, p: TextPos): nat
    requires In(lines, p)
  {
    |Pre(lines[..p.line])| + p.col
  }

  function Clamped(lines: seq<bytes>, p: TextPos): (r: TextPos)
    requires lines != []
    ensures In(lines, r) && (In(lines, p) ==> r == p)
  {
    var line := Min(p.line, |lines| - 1);
    TextPos(line, Min(p.col, |lines[line]|))
  }

  // ---- The flat string around a line.

  lemma {:induction false} FlatAround(lines: seq<bytes>, l: nat)
    requires l < |lines|
    ensures Flat(lines) == Pre(lines[..l]) + lines[l] + Post(lines[l + 1..])
    decreases l
  {
    if l == 0 {
      assert lines[..0] == [];
    } else {
      FlatAround(lines, l - 1);
      var before, at, after := Pre(lines[..l - 1]), lines[l - 1], Post(lines[l + 1..]);
      assert lines[..l][..l - 1] == lines[..l - 1];
      assert lines[l..][1..] == lines[l + 1..];
      assert before + at + ([NL] + lines[l] + after) == (before + at + [NL]) + lines[l] + after;
    }
  }

  lemma {:induction false} PreIsFlat(lines: seq<bytes>)
    requires lines != []
    ensures Pre(lines) == Flat(lines) + [NL]
  {
    var n := |lines| - 1;
    FlatAround(lines, n);
    assert lines[n + 1..] == [];
    assert Pre(lines[..n]) + lines[n] + [] == Pre(lines[..n]) + lines[n];
  }

  lemma OffsetInFlat(lines: seq<bytes>, p: TextPos)
    requires In(lines, p)
    ensures Offset(lines, p) <= |Flat(lines)|
    ensures Flat(lines)[..Offset(lines, p)] == Pre(lines[..p.line]) + lines[p.line][..p.col]
    ensures Flat(lines)[Offset(lines, p)..] == lines[p.line][p.col..] + Post(lines[p.line + 1..])
  {
    FlatAround(lines, p.line);
    hide Pre, Post, Flat;
    var before, at, after := Pre(lines[..p.line]), lines[p.line], Post(lines[p.line + 1..]);
    Cut(before, at, after, p.col);
  }

  lemma Cut(before: bytes, at: bytes, after: bytes, c: nat)
    requires c <= |at|
    ensures (before + at + after)[..|before| + c] == before + at[..c]
    ensures (before + at + after)[|before| + c..] == at[c..] + after
  {
  }

  /** The edits: one line replaced by one or two lines, or two by one. */
  lemma Rewritten(lines: seq<bytes>, l: nat, x: bytes)
    requires l < |lines|
    ensures Flat(lines[l := x]) == Pre(lines[..l]) + x + Post(lines[l + 1..])
  {
    var now := lines[l := x];
    FlatAround(now, l);
    assert now[..l] == lines[..l] && now[l + 1..] == lines[l + 1..];
  }

  lemma Broken(lines: seq<bytes>, l: nat, a: bytes, b: bytes)
    requires l < |lines|
    ensures Flat(lines[..l] + [a, b] + lines[l + 1..]) == Pre(lines[..l]) + a + ([NL] + b + Post(lines[l + 1..]))
  {
    var now := lines[..l] + [a, b] + lines[l + 1..];
    FlatAround(now, l);
    assert now[..l] == lines[..l] && now[l] == a;
    assert now[l + 1..] == [b] + lines[l + 1..];
    assert ([b] + lines[l + 1..])[1..] == lines[l + 1..];
  }

  lemma Joined(lines: seq<bytes>, l: nat)
    requires l + 1 < |lines|
    ensures var now := lines[..l] + [lines[l] + lines[l + 1]] + lines[l + 2..];
      Flat(now) == Pre(lines[..l]) + lines[l] + (lines[l + 1] + Post(lines[l + 2..]))
  {
    var x := lines[l] + lines[l + 1];
    var now := lines[..l] + [x] + lines[l + 2..];
    FlatAround(now, l);
    assert now[..l] == lines[..l] && now[l] == x && now[l + 1..] == lines[l + 2..];
    var before, after := Pre(lines[..l]), Post(lines[l + 2..]);
    assert before + (lines[l] + lines[l + 1]) + after == before + lines[l] + (lines[l + 1] + after);
  }

  // ---- Each edit on the flat string.

  function Inserted(lines: seq<bytes>, p: TextPos, s: bytes): seq<bytes>
    requires In(lines, p)
  {
    lines[p.line := lines[p.line][..p.col] + s + lines[p.line][p.col..]]
  }

  lemma InsertIsFlat(lines: seq<bytes>, p: TextPos, s: bytes)
    requires In(lines, p)
    ensures var o, q := Offset(lines, p), TextPos(p.line, p.col + |s|);
      && o <= |Flat(lines)|
      && Flat(Inserted(lines, p, s)) == Flat(lines)[..o] + s + Flat(lines)[o..]
      && In(Inserted(lines, p, s), q) && Offset(Inserted(lines, p, s), q) == o + |s|
  {
    OffsetInFlat(lines, p);
    var x := lines[p.line];
    Rewritten(lines, p.line, x[..p.col] + s + x[p.col..]);
    assert Inserted(lines, p, s)[..p.line] == lines[..p.line];
    hide Pre, Post, Flat;
    var before, after := Pre(lines[..p.line]), Post(lines[p.line + 1..]);
    assert before + (x[..p.col] + s + x[p.col..]) + after == (before + x[..p.col]) + s + (x[p.col..] + after);
  }

  function Split(lines: seq<bytes>, p: TextPos): seq<bytes>
    requires In(lines, p)
  {
    lines[..p.line] + [lines[p.line][..p.col], lines[p.line][p.col..]] + lines[p.line + 1..]
  }

  lemma SplitIsFlat(lines: seq<bytes>, p: TextPos)
    requires In(lines, p)
    ensures var o, q := Offset(lines, p), TextPos(p.line + 1, 0);
      && o <= |Flat(lines)|
      && Flat(Split(lines, p)) == Flat(lines)[..o] + [NL] + Flat(lines)[o..]
      && In(Split(lines, p), q) && Offset(Split(lines, p), q) == o + 1
  {
    OffsetInFlat(lines, p);
    var x := lines[p.line];
    Broken(lines, p.line, x[..p.col], x[p.col..]);
    var now := Split(lines, p);
    assert now[..p.line + 1][..p.line] == lines[..p.line] && now[p.line] == x[..p.col];
    assert Pre(now[..p.line + 1]) == Pre(lines[..p.line]) + x[..p.col] + [NL];
    hide Pre, Post, Flat;
    var before, after := Pre(lines[..p.line]), Post(lines[p.line + 1..]);
    assert before + x[..p.col] + ([NL] + x[p.col..] + after) == (before + x[..p.col]) + [NL] + (x[p.col..] + after);
  }

  /** Erasing before a position: a byte of its line, or the separator above it. */
  function ErasedBefore(lines: seq<bytes>, p: TextPos): (seq<bytes>, TextPos)
    requires In(lines, p)
  {
    var x := lines[p.line];
    if p.col > 0 then (lines[p.line := x[..p.col - 1] + x[p.col..]], TextPos(p.line, p.col - 1))
    else if p.line == 0 then (lines, p)
    else
      var above := lines[p.line - 1];
      (lines[..p.line - 1] + [above + x] + lines[p.line + 1..], TextPos(p.line - 1, |above|))
  }

  lemma EraseByteIsFlat(lines: seq<bytes>, p: TextPos)
    requires In(lines, p) && p.col > 0
    ensures var o, x := Offset(lines, p), lines[p.line];
      var now := lines[p.line := x[..p.col - 1] + x[p.col..]];
      && 0 < o <= |Flat(lines)| && Flat(now) == Flat(lines)[..o - 1] + Flat(lines)[o..]
      && Offset(now, TextPos(p.line, p.col - 1)) == o - 1
  {
    OffsetInFlat(lines, p);
    var l, x := p.line, lines[p.line];
    Rewritten(lines, l, x[..p.col - 1] + x[p.col..]);
    assert lines[l := x[..p.col - 1] + x[p.col..]][..l] == lines[..l];
    hide Pre, Post, Flat;
    var before, after := Pre(lines[..l]), Post(lines[l + 1..]);
    assert (before + x[..p.col])[..|before| + p.col - 1] == before + x[..p.col - 1];
    Regroup(before, x[..p.col - 1], x[p.col..], after);
  }

  lemma Regroup(a: bytes, b: bytes, c: bytes, d: bytes)
    ensures a + (b + c) + d == (a + b) + (c + d)
  {
  }

  lemma JoinIsFlat(lines: seq<bytes>, l: nat)
    requires 0 < l < |lines|
    ensures var o := Offset(lines, TextPos(l, 0));
      var now := lines[..l - 1] + [lines[l - 1] + lines[l]] + lines[l + 1..];
      && 0 < o <= |Flat(lines)| && Flat(now) == Flat(lines)[..o - 1] + Flat(lines)[o..]
      && Offset(now, TextPos(l - 1, |lines[l - 1]|)) == o - 1
  {
    OffsetInFlat(lines, TextPos(l, 0));
    Joined(lines, l - 1);
    var before, above, x := Pre(lines[..l - 1]), lines[l - 1], lines[l];
    var now := lines[..l - 1] + [above + x] + lines[l + 1..];
    assert lines[..l][..l - 1] == lines[..l - 1] && now[..l - 1] == lines[..l - 1];
    assert Pre(lines[..l]) == before + above + [NL];
    hide Pre, Post, Flat;
    assert x[0..] == x && x[..0] == [];
  }

  lemma EraseIsFlat(lines: seq<bytes>, p: TextPos)
    requires In(lines, p)
    ensures var o, (now, q) := Offset(lines, p), ErasedBefore(lines, p);
      && o <= |Flat(lines)| && now != [] && In(now, q)
      && Flat(now) == (if o == 0 then Flat(lines) else Flat(lines)[..o - 1] + Flat(lines)[o..])
      && Offset(now, q) == Max(o - 1, 0)
  {
    hide Pre, Post, Flat, Offset;
    if p.col > 0 {
      EraseByteIsFlat(lines, p);
    } else if p.line > 0 {
      JoinIsFlat(lines, p.line);
    } else {
      AtStart(lines, p);
    }
  }

  /** Erasing at a position: a byte of its line, or the separator below it. */
  function ErasedAt(lines: seq<bytes>, p: TextPos): seq<bytes>
    requires In(lines, p)
  {
    var x := lines[p.line];
    if p.col < |x| then lines[p.line := x[..p.col] + x[p.col + 1..]]
    else if p.line + 1 >= |lines| then lines
    else lines[..p.line] + [x + lines[p.line + 1]] + lines[p.line + 2..]
  }

  /** The position one byte further on; the end of the text has none. */
  function NextPos(lines: seq<bytes>, p: TextPos): TextPos
    requires In(lines, p)
  {
    if p.col < |lines[p.line]| then TextPos(p.line, p.col + 1) else TextPos(p.line + 1, 0)
  }

  lemma NextIsFurther(lines: seq<bytes>, p: TextPos)
    requires In(lines, p) && (p.line + 1 < |lines| || p.col < |lines[p.line]|)
    ensures In(lines, NextPos(lines, p)) && Offset(lines, NextPos(lines, p)) == Offset(lines, p) + 1
    ensures ErasedBefore(lines, NextPos(lines, p)) == (ErasedAt(lines, p), p)
  {
    var l := p.line;
    if p.col == |lines[l]| {
      assert lines[..l + 1][..l] == lines[..l];
    }
  }

  /** Erasing after a position is erasing before the next one, from where the cursor stays. */
  lemma EraseAtIsFlat(lines: seq<bytes>, p: TextPos)
    requires In(lines, p)
    ensures var o, now := Offset(lines, p), ErasedAt(lines, p);
      && o <= |Flat(lines)| && now != [] && In(now, p) && Offset(now, p) == o
      && Flat(now) == (if o == |Flat(lines)| then Flat(lines) else Flat(lines)[..o] + Flat(lines)[o + 1..])
  {
    hide Pre, Post, Flat, Offset;
    AtEnd(lines, p);
    OffsetInFlat(lines, p);
    if p.line + 1 < |lines| || p.col < |lines[p.line]| {
      NextIsFurther(lines, p);
      hide ErasedAt, ErasedBefore;
      EraseIsFlat(lines, NextPos(lines, p));
    }
  }

  lemma SplitKeepsLines(lines: seq<bytes>, p: TextPos)
    requires In(lines, p)
    ensures AllOneLine(lines) ==> AllOneLine(Split(lines, p))
  {
  }

  lemma EraseKeepsLines(lines: seq<bytes>, p: TextPos)
    requires In(lines, p) && AllOneLine(lines)
    ensures AllOneLine(ErasedBefore(lines, p).0) && AllOneLine(ErasedAt(lines, p))
  {
    PiecesAreOneLine(lines[p.line], Max(p.col - 1, 0));
    PiecesAreOneLine(lines[p.line], p.col);
    PiecesAreOneLine(lines[p.line], Min(p.col + 1, |lines[p.line]|));
  }

  lemma PiecesAreOneLine(s: bytes, c: nat)
    requires c <= |s| && OneLine(s)
    ensures OneLine(s[..c]) && OneLine(s[c..])
  {
  }

  // ---- The lines are determined by the flat string.

  lemma {:induction false} FlatIsInjective(a: seq<bytes>, b: seq<bytes>)
    requires a != [] && b != [] && AllOneLine(a) && AllOneLine(b) && Flat(a) == Flat(b)
    ensures a == b
    decreases |a|
  {
    var f, g := Flat(a), Flat(b);
    assert f[..|a[0]|] == a[0] && g[..|b[0]|] == b[0];
    FirstLine(a, b);
    FirstLine(b, a);
    assert a[0] == b[0];
    assert f[|a[0]|..] == Post(a[1..]) && g[|b[0]|..] == Post(b[1..]);
    if |a| > 1 && |b| > 1 {
      PostIsFlat(a);
      PostIsFlat(b);
      assert Post(a[1..])[1..] == Flat(a[1..]) && Post(b[1..])[1..] == Flat(b[1..]);
      FlatIsInjective(a[1..], b[1..]);
      assert a == [a[0]] + a[1..] && b == [b[0]] + b[1..];
    }
  }

  lemma FirstLine(a: seq<bytes>, b: seq<bytes>)
    requires a != [] && b != [] && AllOneLine(a) && AllOneLine(b) && Flat(a) == Flat(b)
    ensures |a[0]| <= |b[0]|
  {
    assert |b[0]| < |Flat(b)| ==> Flat(b)[|b[0]|] == NL;
    forall i | 0 <= i < |a[0]| ensures Flat(a)[i] != NL {
      assert Flat(a)[i] == a[0][i];
    }
  }

  lemma PostIsFlat(a: seq<bytes>)
    requires |a| > 1
    ensures Post(a[1..]) == [NL] + Flat(a[1..])
  {
  }

  // ---- Searching.

  predicate Matches(line: bytes, needle: bytes, c: nat) {
    c + |needle| <= |line| && line[c..c + |needle|] == needle
  }

  /** The needle at a position, within its line. */
  predicate Occurs(lines: seq<bytes>, needle: bytes, p: TextPos) {
    p.line < |lines| && Matches(lines[p.line], needle, p.col)
  }

  predicate AtOrAfter(p: TextPos, from: TextPos) {
    p.line > from.line || (p.line == from.line && p.col >= from.col)
  }

  lemma MatchesIsSlice(x: bytes, after: bytes, needle: bytes, c: nat)
    requires c <= |x| && OneLine(needle) && (after != [] ==> after[0] == NL)
    ensures Matches(x, needle, c) <==> |needle| <= |x[c..] + after| && (x[c..] + after)[..|needle|] == needle
  {
    var n, tail := |needle|, x[c..] + after;
    if c + n <= |x| {
      assert tail[..n] == x[c..c + n];
    } else if n <= |tail| {
      var k := |x| - c;
      assert tail[..n][k] == NL;
    }
  }

  /** A needle of one line occurs at a position exactly if it does in the flat string. */
  lemma OccursIsFlat(lines: seq<bytes>, needle: bytes, p: TextPos)
    requires In(lines, p) && OneLine(needle)
    ensures Occurs(lines, needle, p) <==>
      var o := Offset(lines, p);
      o + |needle| <= |Flat(lines)| && Flat(lines)[o..o + |needle|] == needle
  {
    OffsetInFlat(lines, p);
    var o, after := Offset(lines, p), Post(lines[p.line + 1..]);
    MatchesIsSlice(lines[p.line], after, needle, p.col);
    hide Pre, Post, Flat, Offset, Matches;
    var f := Flat(lines);
    if o + |needle| <= |f| {
      SliceOfTail(f, o, |needle|);
    }
  }

  class TextBuffer {
    var lines: seq<bytes>
    var modified: bool
    var trailing: bool

    /** There is always a line for the cursor to be on. */
    predicate Valid()
      reads this
    {
      lines != []
    }

    /** The text to be saved. */
    ghost function Text(): bytes
      reads this
      requires Valid()
    {
      Flat(lines) + (if trailing then [NL] else [])
    }

    constructor ()
      ensures Valid() && lines == [[]] && trailing && !modified
    {
      lines, trailing, modified := [[]], true, false;
    }

    /** The next separator from `start` on. */
    static method FindNewline(text: bytes, start: nat) returns (nl: nat)
      requires start <= |text|
      ensures start <= nl <= |text| && OneLine(text[start..nl]) && (nl < |text| ==> text[nl] == NL)
    {
      nl := start;
      while nl < |text| && text[nl] != NL
        invariant start <= nl <= |text| && OneLine(text[start..nl])
      {
        nl := nl + 1;
      }
    }

    /** Loaded text is given back unchanged, unless it is empty: an empty file becomes one line and
        would be saved as a newline. */
    method Load(text: bytes)
      modifies this
      ensures Valid() && AllOneLine(lines) && !modified
      ensures trailing <==> text == [] || text[|text| - 1] == NL
      ensures Text() == if text == [] then [NL] else text
    {
      hide Post, Flat, Pre;
      PreOfNone();
      lines := [];
      trailing := text == [] || text[|text| - 1] == NL;
      var start := 0;
      assert text[..0] == [];
      while start <= |text|
        invariant start <= |text| && Pre(lines) == text[..start] && AllOneLine(lines)
        invariant lines == [] <==> start == 0
        invariant start > 0 ==> text[start - 1] == NL
        invariant trailing == (text == [] || text[|text| - 1] == NL)
        decreases |text| - start
      {
        var nl := FindNewline(text, start);
        ghost var before := lines;
        if nl == |text| {
          if start < |text| {
            lines := lines + [text[start..]];
            LastLine(before, text, start);
          }
          break;
        }
        lines := lines + [text[start..nl]];
        PreOfOneMore(before, text[start..nl]);
        LineTaken(text, start, nl);
        start := nl + 1;
      }
      if lines == [] {
        lines := [[]];
        EmptyFlat();
      } else if start == |text| {
        PreIsFlat(lines);
        assert text[..|text|] == text;
      }
      modified := false;
    }

    method ToText() returns (out: bytes)
      requires Valid()
      ensures out == Text()
    {
      out := [];
      for i := 0 to |lines|
        invariant out == if i < |lines| then Pre(lines[..i]) else Flat(lines)
      {
        out := out + lines[i];
        FlatAround(lines, i);
        if i + 1 < |lines| {
          out := out + [NL];
          assert lines[..i + 1][..i] == lines[..i];
        } else {
          assert lines[i + 1..] == [];
        }
      }
      if trailing {
        out := out + [NL];
      }
    }

    method Clamp(p: TextPos) returns (r: TextPos)
      requires Valid()
      ensures r == Clamped(lines, p)
    {
      r := p;
      if r.line >= |lines| {
        r := r.(line := |lines| - 1);
      }
      if r.col > |lines[r.line]| {
        r := r.(col := |lines[r.line]|);
      }
    }

    /** The flat string gains `s` at the offset of the position; the cursor ends up after it. */
    method Insert(p: TextPos, s: bytes) returns (q: TextPos)
      requires Valid()
      modifies this
      ensures Valid() && trailing == old(trailing) && modified == (old(modified) || s != [])
      ensures var o := Offset(old(lines), Clamped(old(lines), p));
        && o <= |Flat(old(lines))|
        && Flat(lines) == Flat(old(lines))[..o] + s + Flat(old(lines))[o..]
        && In(lines, q) && Offset(lines, q) == o + |s|
      ensures old(AllOneLine(lines)) && OneLine(s) ==> AllOneLine(lines)
    {
      var at := Clamp(p);
      InsertIsFlat(lines, at, s);
      hide Flat, Offset;
      if s == [] {
        NoInsert(lines, at);
        return at;
      }
      lines := Inserted(lines, at, s);
      modified := true;
      q := TextPos(at.line, at.col + |s|);
    }

    /** The flat string gains a separator; the cursor is at the start of the new line. */
    method SplitLine(p: TextPos) returns (q: TextPos)
      requires Valid()
      modifies this
      ensures Valid() && trailing == old(trailing) && modified
      ensures var o := Offset(old(lines), Clamped(old(lines), p));
        && o <= |Flat(old(lines))|
        && Flat(lines) == Flat(old(lines))[..o] + [NL] + Flat(old(lines))[o..]
        && In(lines, q) && Offset(lines, q) == o + 1
      ensures old(AllOneLine(lines)) ==> AllOneLine(lines)
    {
      var at := Clamp(p);
      SplitIsFlat(lines, at);
      SplitKeepsLines(lines, at);
      hide Flat, Offset, AllOneLine;
      ghost var before := lines;
      var tail := lines[at.line][at.col..];
      lines := lines[at.line := lines[at.line][..at.col]];
      lines := lines[..at.line + 1] + [tail] + lines[at.line + 1..];
      assert lines == Split(before, at);
      modified := true;
      q := TextPos(at.line + 1, 0);
    }

    /** The flat string loses the byte before the position, if there is one. */
    method EraseBefore(p: TextPos) returns (q: TextPos)
      requires Valid()
      modifies this
      ensures Valid() && trailing == old(trailing)
      ensures var o := Offset(old(lines), Clamped(old(lines), p));
        && o <= |Flat(old(lines))|
        && Flat(lines) == (if o == 0 then Flat(old(lines)) else Flat(old(lines))[..o - 1] + Flat(old(lines))[o..])
        && In(lines, q) && Offset(lines, q) == Max(o - 1, 0)
        && modified == (old(modified) || o > 0)
      ensures old(AllOneLine(lines)) ==> AllOneLine(lines)
    {
      var at := Clamp(p);
      EraseIsFlat(lines, at);
      if AllOneLine(lines) {
        EraseKeepsLines(lines, at);
      }
      AtStart(lines, at);
      hide Flat, Offset, AllOneLine;
      var l := at.line;
      if at.col > 0 {
        lines := lines[l := lines[l][..at.col - 1] + lines[l][at.col..]];
        modified := true;
        return TextPos(l, at.col - 1);
      }
      if l == 0 {
        return at;
      }
      var join := |lines[l - 1]|;
      JoinedLines(lines, l - 1);
      lines := lines[l - 1 := lines[l - 1] + lines[l]];
      lines := lines[..l] + lines[l + 1..];
      modified := true;
      return TextPos(l - 1, join);
    }

    /** The flat string loses the byte after the position, if there is one. */
    method EraseAt(p: TextPos) returns (q: TextPos)
      requires Valid()
      modifies this
      ensures Valid() && trailing == old(trailing)
      ensures var o := Offset(old(lines), Clamped(old(lines), p));
        && o <= |Flat(old(lines))|
        && Flat(lines) == (if o == |Flat(old(lines))| then Flat(old(lines))
            else Flat(old(lines))[..o] + Flat(old(lines))[o + 1..])
        && In(lines, q) && Offset(lines, q) == o
        && modified == (old(modified) || o < |Flat(old(lines))|)
      ensures old(AllOneLine(lines)) ==> AllOneLine(lines)
    {
      var at := Clamp(p);
      EraseAtIsFlat(lines, at);
      if AllOneLine(lines) {
        EraseKeepsLines(lines, at);
      }
      AtEnd(lines, at);
      hide Flat, Offset, AllOneLine;
      q := at;
      var l := at.line;
      if at.col < |lines[l]| {
        lines := lines[l := lines[l][..at.col] + lines[l][at.col + 1..]];
        modified := true;
        return;
      }
      if l + 1 >= |lines| {
        return;
      }
      JoinedLines(lines, l);
      lines := lines[l := lines[l] + lines[l + 1]];
      lines := lines[..l + 1] + lines[l + 2..];
      modified := true;
    }

    static method FindIn(line: bytes, needle: bytes, start: nat) returns (found: bool, at: nat)
      requires start <= |line|
      ensures found ==> start <= at && Matches(line, needle, at)
      ensures forall c: nat :: start <= c && Matches(line, needle, c) ==> found && at <= c
    {
      at := start;
      while at + |needle| <= |line|
        invariant start <= at
        invariant forall c: nat :: start <= c < at ==> !Matches(line, needle, c)
      {
        if line[at..at + |needle|] == needle {
          return true, at;
        }
        at := at + 1;
      }
      found := false;
    }

    /** One pass over some lines: the first occurrence not before `start` on the first of them. */
    method Pass(needle: bytes, first: nat, last: nat, start: nat) returns (found: bool, p: TextPos)
      requires first <= last <= |lines|
      ensures found ==> Occurs(lines, needle, p) && first <= p.line < last && AtOrAfter(p, TextPos(first, start))
      ensures forall r: TextPos ::
        Occurs(lines, needle, r) && r.line < last && AtOrAfter(r, TextPos(first, start)) ==> found && AtOrAfter(r, p)
    {
      p := TextPos(0, 0);
      found := false;
      for i := first to last
        invariant forall r: TextPos ::
          Occurs(lines, needle, r) && r.line < i ==> !AtOrAfter(r, TextPos(first, start))
      {
        var from := if i == first then start else 0;
        if from > |lines[i]| {
          continue;
        }
        var ok, at := FindIn(lines[i], needle, from);
        if ok {
          return true, TextPos(i, at);
        }
      }
    }

    /** The first occurrence at or after the position; if there is none, the first of all; and none
        only if no line holds the needle. */
    method Find(needle: bytes, from: TextPos) returns (found: bool, p: TextPos)
      requires Valid()
      ensures found <==> needle != [] && exists r :: Occurs(lines, needle, r)
      ensures found ==> Occurs(lines, needle, p)
      ensures var at := Clamped(lines, from);
        found ==> forall r: TextPos :: Occurs(lines, needle, r) ==>
          if AtOrAfter(p, at) then AtOrAfter(r, at) ==> AtOrAfter(r, p) else AtOrAfter(r, p) && !AtOrAfter(r, at)
    {
      p := TextPos(0, 0);
      if needle == [] {
        return false, p;
      }
      var at := Clamp(from);
      found, p := Pass(needle, at.line, |lines|, at.col);
      if found {
        return;
      }
      assert forall r: TextPos :: Occurs(lines, needle, r) ==> !AtOrAfter(r, at);
      found, p := Pass(needle, 0, at.line + 1, 0);
    }
  }

  lemma JoinedLines(lines: seq<bytes>, l: nat)
    requires l + 1 < |lines|
    ensures var merged := lines[l := lines[l] + lines[l + 1]];
      merged[..l + 1] + merged[l + 2..] == lines[..l] + [lines[l] + lines[l + 1]] + lines[l + 2..]
  {
  }

  lemma LineTaken(text: bytes, start: nat, nl: nat)
    requires start <= nl < |text| && text[nl] == NL
    ensures text[..nl + 1] == text[..start] + text[start..nl] + [NL]
  {
  }

  lemma PreOfNone()
    ensures Pre([]) == []
  {
  }

  lemma PreOfOneMore(lines: seq<bytes>, x: bytes)
    ensures Pre(lines + [x]) == Pre(lines) + x + [NL]
  {
    assert (lines + [x])[..|lines|] == lines;
  }

  lemma EmptyFlat()
    ensures Flat([[]]) == []
  {
  }

  lemma NoInsert(lines: seq<bytes>, p: TextPos)
    requires In(lines, p)
    ensures Inserted(lines, p, []) == lines
  {
    assert lines[p.line][..p.col] + [] + lines[p.line][p.col..] == lines[p.line];
  }

  lemma AtStart(lines: seq<bytes>, p: TextPos)
    requires In(lines, p)
    ensures Offset(lines, p) == 0 <==> p.line == 0 && p.col == 0
  {
  }

  lemma AtEnd(lines: seq<bytes>, p: TextPos)
    requires In(lines, p)
    ensures Offset(lines, p) == |Flat(lines)| <==> p.line + 1 == |lines| && p.col == |lines[p.line]|
  {
    OffsetInFlat(lines, p);
    hide Flat, Offset;
  }

  /** The last line of a text without a final newline. */
  lemma LastLine(lines: seq<bytes>, text: bytes, start: nat)
    requires start < |text| && Pre(lines) == text[..start]
    ensures Flat(lines + [text[start..]]) == text
  {
    var all := lines + [text[start..]];
    FlatAround(all, |lines|);
    assert all[..|lines|] == lines && all[|lines| + 1..] == [];
    assert text[..start] + text[start..] == text;
  }
}
