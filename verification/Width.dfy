// Column widths (render/width.cpp). `ambiguous` is the terminal's answer to the East Asian
// Ambiguous probe, a process-wide flag in the program.

module Width {
  datatype Range = Range(lo: nat, hi: nat)

  const ZERO_WIDTH: seq<Range> := [
    Range(0x0300, 0x036F), Range(0x0483, 0x0489), Range(0x0591, 0x05BD), Range(0x0610, 0x061A),
    Range(0x064B, 0x065F), Range(0x0670, 0x0670), Range(0x06D6, 0x06DC), Range(0x0E31, 0x0E31),
    Range(0x0E47, 0x0E4E), Range(0x200B, 0x200F), Range(0x2060, 0x2064), Range(0xFE00, 0xFE0F),
    Range(0xFE20, 0xFE2F), Range(0xE0100, 0xE01EF)
  ]

  const WIDE: seq<Range> := [
    Range(0x1100, 0x115F), Range(0x2E80, 0x303E), Range(0x3041, 0x33FF),
    Range(0x3400, 0x4DBF), Range(0x4E00, 0x9FFF), Range(0xA000, 0xA4CF),
    Range(0xAC00, 0xD7A3), Range(0xF900, 0xFAFF), Range(0xFE10, 0xFE19),
    Range(0xFE30, 0xFE6F), Range(0xFF00, 0xFF60), Range(0xFFE0, 0xFFE6),
    Range(0x1F300, 0x1F64F), Range(0x1F900, 0x1F9FF), Range(0x20000, 0x3FFFD)
  ]

  const AMBIGUOUS: seq<Range> := [
    Range(0x00A1, 0x00A1), Range(0x00B0, 0x00B4), Range(0x00B6, 0x00BA), Range(0x2010, 0x2027),
    Range(0x2190, 0x21FF), Range(0x2500, 0x257F), Range(0x25A0, 0x25FF), Range(0x2E80, 0x2E80)
  ]

  predicate InTable(table: seq<Range>, cp: nat) {
    exists i :: 0 <= i < |table| && table[i].lo <= cp <= table[i].hi
  }

  function CharWidth(ambiguous: bool, cp: nat): (w: nat)
    ensures w <= 2
  {
    if cp < 0x20 || 0x7F <= cp < 0xA0 || InTable(ZERO_WIDTH, cp) then 0
    else if ambiguous && InTable(AMBIGUOUS, cp) then 2
    else if InTable(WIDE, cp) then 2 else 1
  }

  /** Printable ASCII is narrow; anything wide lies above it. */
  lemma AsciiIsNarrow(ambiguous: bool, cp: nat)
    requires 0x20 <= cp < 0x7F
    ensures CharWidth(ambiguous, cp) == 1
  {
  }

  /** What replaces a non-scalar on the wire is exactly as wide as the non-scalar itself. */
  lemma ReplacementIsNarrow(ambiguous: bool, cp: nat)
    requires cp == 0xFFFD || 0xD800 <= cp <= 0xDFFF || cp > 0x10FFFF
    ensures CharWidth(ambiguous, cp) == 1
  {
  }

  // ---- The search.

  /** Ranges in order and apart. */
  predicate Ordered(table: seq<Range>) {
    && (forall i :: 0 <= i < |table| ==> table[i].lo <= table[i].hi)
    && (forall i, j :: 0 <= i < j < |table| ==> table[i].hi < table[j].lo)
  }

  lemma TablesAreOrdered()
    ensures Ordered(ZERO_WIDTH) && Ordered(WIDE) && Ordered(AMBIGUOUS)
  {
  }

  /** How many ranges start at cp or before it: where an upper-bound search ends. */
  function Started(table: seq<Range>, cp: nat): (n: nat)
    ensures n <= |table|
  {
    if table == [] || cp < table[0].lo then 0 else 1 + Started(table[1..], cp)
  }

  lemma {:induction false} StartedIs(table: seq<Range>, cp: nat)
    requires Ordered(table)
    ensures var n := Started(table, cp);
      (forall i :: 0 <= i < n ==> table[i].lo <= cp) && (forall i :: n <= i < |table| ==> cp < table[i].lo)
    decreases |table|
  {
    if table != [] && table[0].lo <= cp { StartedIs(table[1..], cp); }
  }

  /** Looking only at the last range that starts in time finds what is in the table. */
  lemma SearchFindsMembers(table: seq<Range>, cp: nat)
    requires Ordered(table)
    ensures var n := Started(table, cp); InTable(table, cp) <==> n > 0 && cp <= table[n - 1].hi
  {
    StartedIs(table, cp);
  }

  /** Between two neighbouring ranges there is nothing of the table. */
  lemma BetweenRanges(table: seq<Range>, k: nat, cp: nat)
    requires Ordered(table) && k + 1 < |table| && table[k].hi < cp < table[k + 1].lo
    ensures !InTable(table, cp)
  {
    forall i | 0 <= i < |table| ensures !(table[i].lo <= cp <= table[i].hi) {
      assert table[i].lo <= table[i].hi && table[k].lo <= table[k].hi;
    }
  }

  lemma ZeroWidthIsOrdered()
    ensures Ordered(ZERO_WIDTH)
  {
  }

  /** Ideographs are wide, whatever the terminal says of the ambiguous. */
  lemma IdeographsAreWide(ambiguous: bool, cp: nat)
    requires 0x4E00 <= cp <= 0x9FFF
    ensures CharWidth(ambiguous, cp) == 2
  {
    assert WIDE[4] == Range(0x4E00, 0x9FFF);
    assert InTable(WIDE, cp);
    ZeroWidthIsOrdered();
    assert ZERO_WIDTH[10] == Range(0x2060, 0x2064) && ZERO_WIDTH[11] == Range(0xFE00, 0xFE0F);
    hide InTable, Ordered;
    BetweenRanges(ZERO_WIDTH, 10, cp);
  }

  /** Combining accents take no column. */
  lemma AccentsTakeNothing(ambiguous: bool, cp: nat)
    requires 0x0300 <= cp <= 0x036F
    ensures CharWidth(ambiguous, cp) == 0
  {
    assert ZERO_WIDTH[0] == Range(0x0300, 0x036F);
  }

  /** Line drawing is as wide as the terminal says. */
  lemma LineDrawingIsAmbiguous(ambiguous: bool, cp: nat)
    requires 0x2500 <= cp <= 0x257F
    ensures CharWidth(ambiguous, cp) == if ambiguous then 2 else 1
  {
    assert AMBIGUOUS[5] == Range(0x2500, 0x257F);
  }
}
