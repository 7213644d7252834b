/** The colour functions of src/palette.rs: each maps a grid cell to an RGB colour whose
    channels are meant to lie in [0, 1] (Sim.Draw clamps them anyway). */
module Palette {
  import opened Numerics
  import opened Engine

  /** The 16-entry cyclic palette, channels on the 0..255 scale. */
  const ColorMapping: seq<Vec3> := [
    Vec3(66.0, 30.0, 15.0),
    Vec3(25.0, 7.0, 26.0),
    Vec3(9.0, 1.0, 47.0),
    Vec3(4.0, 4.0, 73.0),
    Vec3(0.0, 7.0, 100.0),
    Vec3(12.0, 44.0, 138.0),
    Vec3(24.0, 82.0, 177.0),
    Vec3(57.0, 125.0, 209.0),
    Vec3(134.0, 181.0, 229.0),
    Vec3(211.0, 236.0, 248.0),
    Vec3(241.0, 233.0, 191.0),
    Vec3(248.0, 201.0, 95.0),
    Vec3(255.0, 170.0, 0.0),
    Vec3(204.0, 128.0, 0.0),
    Vec3(153.0, 87.0, 0.0),
    Vec3(106.0, 52.0, 3.0)
  ]

  /** A whole number in 0..255: a value an 8-bit channel holds exactly. */
  predicate IsByte(v: real) {
    0.0 <= v <= 255.0 && v.Floor as real == v
  }

  predicate IsByteColor(v: Vec3) {
    IsByte(v.x) && IsByte(v.y) && IsByte(v.z)
  }

  /** Every palette entry is a colour of three whole-number channels in 0..255. */
  lemma ColorMappingIsBytes(i: nat)
    requires i < |ColorMapping|
    ensures IsByteColor(ColorMapping[i])
  {
    var e := ColorMapping[i];
    assert e.x.Floor as real == e.x && e.y.Floor as real == e.y && e.z.Floor as real == e.z;
  }

  /** Entry `i` of the palette scaled to [0, 1], `COLOR_MAPPING[i] / 255.`. */
  function TableColor(i: nat): (v: Vec3)
    requires i < |ColorMapping|
    ensures InUnitCube(v)
    ensures v.x * 255.0 == ColorMapping[i].x && v.y * 255.0 == ColorMapping[i].y
    ensures v.z * 255.0 == ColorMapping[i].z
  {
    ColorMappingIsBytes(i);
    Div(ColorMapping[i], 255.0)
  }

  /** `with_plain_colors`: black for a cell that has not escaped, otherwise the palette entry
      picked by the iteration count modulo 16. */
  function PlainColors(cell: GridCell): (v: Vec3)
    ensures InUnitCube(v)
  {
    if cell.hasEscaped then TableColor(cell.iters % |ColorMapping|) else Broadcast(0.0)
  }

  /** A cell that has not escaped is black; an escaped one gets the palette entry of its
      iteration count modulo 16, whatever its other fields. */
  lemma PlainColorsCases(cell: GridCell)
    ensures !cell.hasEscaped ==> PlainColors(cell) == Vec3(0.0, 0.0, 0.0)
    ensures cell.hasEscaped ==>
      (PlainColors(cell).x * 255.0 == ColorMapping[cell.iters % 16].x
       && PlainColors(cell).y * 255.0 == ColorMapping[cell.iters % 16].y
       && PlainColors(cell).z * 255.0 == ColorMapping[cell.iters % 16].z)
  {
  }

  /** The plain colour reads only the escape flag and the iteration count. */
  lemma PlainColorsDependsOnFlagAndIters(a: GridCell, b: GridCell)
    requires a.hasEscaped == b.hasEscaped && a.iters == b.iters
    ensures PlainColors(a) == PlainColors(b)
  {
  }

  /** The plain colour cycles with period 16 in the iteration count. */
  lemma {:induction false} PlainColorsPeriodic(cell: GridCell, k: nat)
    ensures PlainColors(cell.(iters := cell.iters + 16 * k)) == PlainColors(cell)
  {
    if k > 0 {
      PlainColorsPeriodic(cell, k - 1);
      var prev := cell.(iters := cell.iters + 16 * (k - 1));
      assert (prev.iters + 16) % 16 == prev.iters % 16;
      assert cell.(iters := cell.iters + 16 * k) == prev.(iters := prev.iters + 16);
    }
  }

  /** A channel value whose 255-fold is a whole byte is drawn as exactly that byte. */
  lemma ChannelRecoversByte(v: real)
    requires InUnitInterval(v) && IsByte(v * 255.0)
    ensures (Channel(v) as int) as real == v * 255.0
  {
    var b := Channel(v) as int;
    var u := v * 255.0;
    assert b as real <= u < b as real + 1.0;
    assert u.Floor as real == u;
    assert b <= u.Floor < b + 1;
  }

  /** Drawing a plain colour writes the palette's bytes exactly: scaling by 255 and flooring
      gives back the table entry of an escaped cell, and 0 in every channel otherwise. */
  lemma PlainColorPixelIsTableEntry(cell: GridCell)
    ensures cell.hasEscaped ==>
      ((Channel(PlainColors(cell).x) as int) as real == ColorMapping[cell.iters % 16].x
       && (Channel(PlainColors(cell).y) as int) as real == ColorMapping[cell.iters % 16].y
       && (Channel(PlainColors(cell).z) as int) as real == ColorMapping[cell.iters % 16].z)
    ensures !cell.hasEscaped ==> PixelColor(PlainColors(cell)) == 0
  {
    var v := PlainColors(cell);
    if cell.hasEscaped {
      ColorMappingIsBytes(cell.iters % 16);
      ChannelRecoversByte(v.x);
      ChannelRecoversByte(v.y);
      ChannelRecoversByte(v.z);
    } else {
      assert Channel(0.0) == 0;
    }
  }

  /** The largest value of Rust's `usize` on a 64-bit target. */
  const UsizeMax: nat := 0x1_0000_0000_0000_0000 - 1

  /** `x as usize` on exact reals: truncation toward zero, saturating at 0 below (every
      negative value goes to 0) and at UsizeMax above. */
  function TruncToIndex(x: real): (n: nat)
    ensures n <= UsizeMax
    ensures x <= 0.0 ==> n == 0
    ensures 0.0 <= x < UsizeMax as real ==> n as real <= x < n as real + 1.0
    ensures x >= UsizeMax as real ==> n == UsizeMax
  {
    if x <= 0.0 then 0
    else if x >= UsizeMax as real then UsizeMax
    else x.Floor
  }

  /** The palette index `with_color_from_dz` uses: 30 times the real part of dz, cast to an
      index and taken modulo 16. */
  function DzIndex(cell: GridCell): (i: nat)
    ensures i < |ColorMapping|
    ensures cell.dz.re <= 0.0 ==> i == 0
    ensures 30.0 * cell.dz.re >= UsizeMax as real ==> i == 15
  {
    TruncToIndex(30.0 * cell.dz.re) % |ColorMapping|
  }

  /** `with_color_from_dz`: the palette entry at DzIndex, scaled to [0, 1]. */
  function ColorFromDz(cell: GridCell): (v: Vec3)
    ensures InUnitCube(v)
  {
    TableColor(DzIndex(cell))
  }

  /** The dz colour ignores the escape flag and the iteration count; a cell whose dz has no
      positive real part gets the first palette entry. */
  lemma ColorFromDzIgnoresEscape(cell: GridCell, escaped: bool, iters: nat)
    ensures ColorFromDz(cell.(hasEscaped := escaped, iters := iters)) == ColorFromDz(cell)
    ensures cell.dz.re <= 0.0 ==> ColorFromDz(cell) == TableColor(0)
  {
  }

  /** 2^n as a real, `f64::powf(2., n as f64)` for a whole exponent. */
  function Pow2(n: nat): (p: real)
    ensures p >= 1.0
  {
    if n == 0 then 1.0 else 2.0 * Pow2(n - 1)
  }

  /** `with_smooth_stripes`. For a cell past R2 the grey level is (1 + cos(TAU * log2 v)) / 2
      with v = log2(|z|^2) / 2^iters; elsewhere the colour is white. `log2` and
      `cosTurn(x) = cos(TAU * x)` are supplied by the caller. */
  function SmoothStripes(cell: GridCell, log2: real -> real, cosTurn: real -> real): (v: Vec3)
    ensures v.x == v.y == v.z
  {
    var z2 := NormSqr(cell.z);
    if z2 > R2 as real then
      var v := log2(z2) / Pow2(cell.iters);
      Broadcast((1.0 + cosTurn(log2(v))) / 2.0)
    else Broadcast(1.0)
  }

  /** A cell not past R2 is white in the smooth-stripes palette. */
  lemma SmoothStripesInsideIsWhite(cell: GridCell, log2: real -> real, cosTurn: real -> real)
    requires NormSqr(cell.z) <= R2 as real
    ensures SmoothStripes(cell, log2, cosTurn) == Vec3(1.0, 1.0, 1.0)
  {
  }

  /** With a cosine that stays in [-1, 1], the smooth-stripes colour is a grey in [0, 1]. */
  lemma SmoothStripesInRange(cell: GridCell, log2: real -> real, cosTurn: real -> real)
    requires forall y :: -1.0 <= cosTurn(y) <= 1.0
    ensures InUnitCube(SmoothStripes(cell, log2, cosTurn))
  {
    var z2 := NormSqr(cell.z);
    if z2 > R2 as real {
      var y := log2(log2(z2) / Pow2(cell.iters));
      assert -1.0 <= cosTurn(y) <= 1.0;
    }
  }

  /** The colour of the Indian red base of `with_lambert_and_colors` for cells still inside,
      `0.8 * (205, 92, 92) / 255.`. */
  const InsideBase: Vec3 := Div(Times(0.8, Vec3(205.0, 92.0, 92.0)), 255.0)

  /** The base colour that `with_lambert_and_colors` shades: the plain palette colour for an
      escaped cell, InsideBase otherwise. */
  function LambertBaseColor(cell: GridCell): (v: Vec3)
    ensures InUnitCube(v)
  {
    if cell.hasEscaped then TableColor(cell.iters % |ColorMapping|) else InsideBase
  }

  /** The Lambert base colour agrees with the plain colour on escaped cells and is the
      dimmed Indian red, not black, on the others. */
  lemma LambertBaseAgreesWithPlain(cell: GridCell)
    ensures cell.hasEscaped ==> LambertBaseColor(cell) == PlainColors(cell)
    ensures !cell.hasEscaped ==> LambertBaseColor(cell) == InsideBase != PlainColors(cell)
  {
  }
}
