// What the reduced palettes look like, and where a colour lands in them (render/profile.cpp).

module Colours {
  import opened Bytes
  import opened Cells
  import opened Profile
  import opened SgrInverse

  // ---- The palette of 256.

  /** Palette entry of cube levels r, g, b, each from 0 to 5. */
  function CubeIndex(r: nat, g: nat, b: nat): (i: byte)
    requires r <= 5 && g <= 5 && b <= 5
    ensures 16 <= i <= 231
  {
    16 + 36 * r + 6 * g + b
  }

  /** The cube entry of three levels shows those three levels, red first. */
  lemma CubeShowsItsLevels(r: nat, g: nat, b: nat)
    requires r <= 5 && g <= 5 && b <= 5
    ensures IndexedToRgb(CubeIndex(r, g, b)) == Rgb(STEPS[r], STEPS[g], STEPS[b])
  {
    var v := 36 * r + 6 * g + b;
    RedLevel(r, 6 * g + b);
    GreenLevel(r, g, b);
    BlueLevel(6 * r + g, b);
    CubeEntry(v);
    hide IndexedToRgb;
  }

  lemma CubeEntry(v: nat)
    requires v < 216
    ensures IndexedToRgb(16 + v) == Rgb(STEPS[v / 36 % 6], STEPS[v / 6 % 6], STEPS[v % 6])
  {
  }

  lemma RedLevel(r: nat, rest: nat)
    requires r <= 5 && rest < 36
    ensures (36 * r + rest) / 36 % 6 == r
  {
  }

  lemma GreenLevel(r: nat, g: nat, b: nat)
    requires g <= 5 && b <= 5
    ensures (36 * r + 6 * g + b) / 6 % 6 == g
  {
    assert (36 * r + 6 * g + b) / 6 == 6 * r + g;
  }

  lemma BlueLevel(n: nat, b: nat)
    requires b <= 5
    ensures (6 * n + b) % 6 == b
  {
  }

  lemma CubeIsCovered(i: byte) returns (r: nat, g: nat, b: nat)
    requires 16 <= i <= 231
    ensures r <= 5 && g <= 5 && b <= 5 && i == CubeIndex(r, g, b)
  {
    var v := i - 16;
    r, g, b := v / 36, v / 6 % 6, v % 6;
  }

  /** Red, green and blue, full and bright, where every terminal has them. */
  lemma Primaries()
    ensures IndexedToRgb(196) == Rgb(255, 0, 0) && IndexedToRgb(46) == Rgb(0, 255, 0)
    ensures IndexedToRgb(21) == Rgb(0, 0, 255)
    ensures IndexedToRgb(1) == Rgb(128, 0, 0) && IndexedToRgb(2) == Rgb(0, 128, 0) && IndexedToRgb(4) == Rgb(0, 0, 128)
    ensures IndexedToRgb(9) == Rgb(255, 0, 0) && IndexedToRgb(10) == Rgb(0, 255, 0)
    ensures IndexedToRgb(12) == Rgb(0, 0, 255)
    ensures IndexedToRgb(16) == Rgb(0, 0, 0) && IndexedToRgb(231) == Rgb(255, 255, 255)
    ensures IndexedToRgb(232) == Rgb(8, 8, 8) && IndexedToRgb(255) == Rgb(238, 238, 238)
  {
  }

  /** The last 24 entries are greys, ten apart. */
  lemma GreysClimb(i: byte)
    requires 232 <= i <= 255
    ensures IndexedToRgb(i).r == IndexedToRgb(i).g == IndexedToRgb(i).b == 8 + 10 * (i - 232)
  {
  }

  lemma PaletteIsRgb(i: byte)
    ensures IndexedToRgb(i).Rgb?
  {
  }

  // ---- Reduction to 256.

  /** A channel falls into the level whose fifth of the range it has reached. */
  lemma CubeLevel(v: byte, k: nat)
    requires k <= 5
    ensures Cube(v) == k <==> 51 * k <= v < 51 * (k + 1)
  {
  }

  lemma StepIsItsLevel(k: nat)
    requires k <= 5
    ensures Cube(STEPS[k]) == k
  {
  }

  /** A colour goes to the cube entry of its three levels: its red decides the shown red, its green
      the shown green, its blue the shown blue. */
  lemma ReductionShows(r: byte, g: byte, b: byte)
    ensures IndexedToRgb(Quantize256(Rgb(r, g, b))) == Rgb(STEPS[Cube(r)], STEPS[Cube(g)], STEPS[Cube(b)])
  {
    hide IndexedToRgb;
    CubeShowsItsLevels(Cube(r), Cube(g), Cube(b));
  }

  /** A colour of the cube is reduced to itself. */
  lemma CubeIsFixed(i: byte)
    requires 16 <= i <= 231
    ensures Quantize256(IndexedToRgb(i)) == i
  {
    var r, g, b := CubeIsCovered(i);
    CubeShowsItsLevels(r, g, b);
    hide IndexedToRgb, Cube;
    StepIsItsLevel(r);
    StepIsItsLevel(g);
    StepIsItsLevel(b);
  }

  /** More of a channel never shows less of it, and leaves the other two alone. */
  lemma ReductionIsMonotone(c: Color, d: Color)
    requires c.Rgb? && d.Rgb?
    ensures var x, y := IndexedToRgb(Quantize256(c)), IndexedToRgb(Quantize256(d));
      && (c.r <= d.r ==> x.r <= y.r) && (c.g <= d.g ==> x.g <= y.g) && (c.b <= d.b ==> x.b <= y.b)
  {
    ReductionShows(c.r, c.g, c.b);
    ReductionShows(d.r, d.g, d.b);
    hide IndexedToRgb, Quantize256;
    StepsClimb();
    CubeClimbs(c.r, d.r);
    CubeClimbs(c.g, d.g);
    CubeClimbs(c.b, d.b);
  }

  lemma StepsClimb()
    ensures forall i, j :: 0 <= i <= j <= 5 ==> STEPS[i] <= STEPS[j]
  {
  }

  lemma CubeClimbs(v: byte, w: byte)
    ensures v <= w ==> Cube(v) <= Cube(w)
  {
  }

  // ---- Reduction to the eight ANSI colours.

  /** Each bit of the result is one channel above the middle: 1 red, 2 green, 4 blue. */
  lemma AnsiBits(r: byte, g: byte, b: byte)
    ensures var q := Quantize16(Rgb(r, g, b));
      (q % 2 == 1 <==> r >= 128) && (q / 2 % 2 == 1 <==> g >= 128) && (q / 4 % 2 == 1 <==> b >= 128)
  {
  }

  /** A system colour is reduced to its dim namesake. */
  lemma SystemIsFixed(i: byte)
    requires i < 16
    ensures Quantize16(IndexedToRgb(i)) == i % 8
  {
  }

  // ---- What a terminal is told to show.

  /** The colour on the screen after the emitter has been at work, in red, green and blue: exact on a
      true-colour terminal, the three cube levels on one of 256, the three upper halves on one
      of 16. A palette colour stays itself while the terminal has it. */
  lemma DisplayedColour(c: Color, d: Depth)
    ensures c.Default? ==> Displayed(c, d) == Default
    ensures c.Rgb? && d.TrueColor? ==> Displayed(c, d) == c
    ensures c.Rgb? && d.Indexed256? ==>
      Displayed(c, d).Indexed? && IndexedToRgb(Displayed(c, d).idx) == Rgb(STEPS[Cube(c.r)], STEPS[Cube(c.g)], STEPS[Cube(c.b)])
    ensures c.Indexed? && d.Indexed256? ==> Displayed(c, d) == c
    ensures c.Indexed? && d.TrueColor? ==> Displayed(c, d) == IndexedToRgb(c.idx)
    ensures d.Mono16? && !c.Default? ==> Displayed(c, d).Indexed? && Displayed(c, d).idx < 8 && var q := Displayed(c, d).idx;
      (q % 2 == 1 <==> AsRgb(c).r >= 128) && (q / 2 % 2 == 1 <==> AsRgb(c).g >= 128) && (q / 4 % 2 == 1 <==> AsRgb(c).b >= 128)
    ensures c.Indexed? && c.idx < 16 && d.Mono16? ==> Displayed(c, d) == Indexed(c.idx % 8)
  {
    hide IndexedToRgb, Quantize256, Quantize16;
    if c.Rgb? {
      ReductionShows(c.r, c.g, c.b);
    }
    if !c.Default? {
      if c.Indexed? { PaletteIsRgb(c.idx); }
      var t := AsRgb(c);
      AnsiBits(t.r, t.g, t.b);
      if c.Indexed? && c.idx < 16 { SystemIsFixed(c.idx); }
    }
  }
}
