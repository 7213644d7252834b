/** The escape-time engine of src/lib.rs: the viewport configuration and its pixel-to-plane
    mapping, the per-pixel GridCell state machine with its R2 stop rule, the Sim that owns
    the grid (new, reset, update, draw) and the 0RGB pixel packing. */
module Engine {
  import opened Numerics
  import opened Orbits

  /** Squared magnitude beyond which a cell is no longer stepped. */
  const R2: nat := 1000 * 1000

  /** Packs three 8-bit channels as 0RGB: red in bits 16..23, green in 8..15, blue in 0..7. */
  function Rgb(r: bv8, g: bv8, b: bv8): (p: bv32)
    ensures p >> 24 == 0
    ensures (p >> 16) & 0xFF == r as bv32
    ensures (p >> 8) & 0xFF == g as bv32
    ensures p & 0xFF == b as bv32
  {
    (r as bv32 << 16) | (g as bv32 << 8) | b as bv32
  }

  /** ultraviolet's UVec2: the pixel dimensions of the framebuffer. */
  datatype Dims = Dims(x: nat, y: nat)

  /** The viewport: framebuffer size and the lower-left and upper-right corners in the plane. */
  datatype SimConfig = SimConfig(fbDims: Dims, frameMin: Vec2, frameMax: Vec2)

  predicate HasPixels(cfg: SimConfig) {
    cfg.fbDims.x > 0 && cfg.fbDims.y > 0
  }

  /** Both sides of the viewport rectangle have positive length. */
  predicate NonDegenerate(cfg: SimConfig) {
    cfg.frameMin.x < cfg.frameMax.x && cfg.frameMin.y < cfg.frameMax.y
  }

  /** Number of pixels, `fb_dims.x * fb_dims.y`. */
  function Size(cfg: SimConfig): nat {
    cfg.fbDims.x * cfg.fbDims.y
  }

  /** An index below Size exists only when both dimensions are positive. */
  lemma IndexImpliesPixels(cfg: SimConfig, idx: nat)
    requires idx < Size(cfg)
    ensures HasPixels(cfg)
  {
  }

  /** Splits a linear index into column `x = idx % w` and row `y = idx / w`. */
  function PixelCoords(w: nat, idx: nat): (p: (nat, nat))
    requires w > 0
    ensures p.0 < w
    ensures idx == p.1 * w + p.0
  {
    (idx % w, idx / w)
  }

  /** An index inside a `w` by `h` grid lies on one of its `h` rows. */
  lemma {:induction false} RowInRange(w: nat, h: nat, idx: nat)
    requires w > 0 && idx < w * h
    ensures PixelCoords(w, idx).1 < h
  {
    var (x, y) := PixelCoords(w, idx);
    assert y >= h ==> y * w >= h * w by {
      if y >= h {
        assert y * w - h * w == (y - h) * w;
      }
    }
  }

  /** The sample point of pixel `idx`: its column and row normalised by the dimensions, the row
      flipped so that row 0 is the top, and both interpolated linearly into the viewport. The
      result is the top-left corner (frame_min.x, frame_max.y) moved right by the column's
      fraction of the width and down by the row's fraction of the height. */
  function IdxToComplex(cfg: SimConfig, idx: nat): (c: Complex)
    requires HasPixels(cfg)
    ensures c.re == cfg.frameMin.x
      + (cfg.frameMax.x - cfg.frameMin.x) * ((idx % cfg.fbDims.x) as real / cfg.fbDims.x as real)
    ensures c.im == cfg.frameMax.y
      - (cfg.frameMax.y - cfg.frameMin.y) * ((idx / cfg.fbDims.x) as real / cfg.fbDims.y as real)
  {
    var (x, y) := PixelCoords(cfg.fbDims.x, idx);
    var nx := x as real / cfg.fbDims.x as real;
    var ny := 1.0 - y as real / cfg.fbDims.y as real;
    Complex(nx * cfg.frameMax.x + (1.0 - nx) * cfg.frameMin.x,
            ny * cfg.frameMax.y + (1.0 - ny) * cfg.frameMin.y)
  }

  /** Index 0 is the top-left corner of the viewport. */
  lemma IdxZeroIsTopLeft(cfg: SimConfig)
    requires HasPixels(cfg)
    ensures IdxToComplex(cfg, 0) == Complex(cfg.frameMin.x, cfg.frameMax.y)
  {
  }

  /** Every pixel of the grid samples a point of the viewport, half-open towards the right
      and the bottom edges. */
  lemma IdxToComplexInViewport(cfg: SimConfig, idx: nat)
    requires HasPixels(cfg) && NonDegenerate(cfg) && idx < Size(cfg)
    ensures cfg.frameMin.x <= IdxToComplex(cfg, idx).re < cfg.frameMax.x
    ensures cfg.frameMin.y < IdxToComplex(cfg, idx).im <= cfg.frameMax.y
  {
    var w, h := cfg.fbDims.x, cfg.fbDims.y;
    var (x, y) := PixelCoords(w, idx);
    RowInRange(w, h, idx);
    FractionBounds(x, w);
    FractionBounds(y, h);
    var nx := x as real / w as real;
    var ny := y as real / h as real;
    LerpMonotone(cfg.frameMin.x, cfg.frameMax.x, 0.0, nx);
    LerpStrict(cfg.frameMin.x, cfg.frameMax.x, nx, 1.0);
    LerpMonotone(cfg.frameMin.y, cfg.frameMax.y, 0.0, ny);
    LerpStrict(cfg.frameMin.y, cfg.frameMax.y, ny, 1.0);
  }

  /** The real part strictly increases with the column, whatever the rows. */
  lemma RealIncreasesWithColumn(cfg: SimConfig, i: nat, j: nat)
    requires HasPixels(cfg) && cfg.frameMin.x < cfg.frameMax.x
    requires i % cfg.fbDims.x < j % cfg.fbDims.x
    ensures IdxToComplex(cfg, i).re < IdxToComplex(cfg, j).re
  {
    var w := cfg.fbDims.x;
    FractionStrict(i % w, j % w, w);
    LerpStrict(cfg.frameMin.x, cfg.frameMax.x, (i % w) as real / w as real, (j % w) as real / w as real);
  }

  /** The imaginary part strictly decreases down the rows, whatever the columns. */
  lemma ImagDecreasesWithRow(cfg: SimConfig, i: nat, j: nat)
    requires HasPixels(cfg) && cfg.frameMin.y < cfg.frameMax.y
    requires i / cfg.fbDims.x < j / cfg.fbDims.x
    ensures IdxToComplex(cfg, i).im > IdxToComplex(cfg, j).im
  {
    var w, h := cfg.fbDims.x, cfg.fbDims.y;
    FractionStrict(i / w, j / w, h);
    LerpStrict(cfg.frameMin.y, cfg.frameMax.y, (i / w) as real / h as real, (j / w) as real / h as real);
  }

  /** Distinct pixels of a non-degenerate viewport sample distinct points. */
  lemma IdxToComplexInjective(cfg: SimConfig, i: nat, j: nat)
    requires HasPixels(cfg) && NonDegenerate(cfg)
    requires i < Size(cfg) && j < Size(cfg) && i != j
    ensures IdxToComplex(cfg, i) != IdxToComplex(cfg, j)
  {
    var w := cfg.fbDims.x;
    var (xi, yi) := PixelCoords(w, i);
    var (xj, yj) := PixelCoords(w, j);
    if xi < xj {
      RealIncreasesWithColumn(cfg, i, j);
    } else if xj < xi {
      RealIncreasesWithColumn(cfg, j, i);
    } else {
      assert yi != yj;
      if yi < yj {
        ImagDecreasesWithRow(cfg, i, j);
      } else {
        ImagDecreasesWithRow(cfg, j, i);
      }
    }
  }

  /** The per-pixel iteration state: the fixed sample point `c`, the iterate `z`, the
      derivative seed `dc` and accumulated derivative `dz`, the number of steps applied and
      whether |z|^2 has passed 4. */
  datatype GridCell = GridCell(c: Complex, z: Complex, dc: Complex, dz: Complex,
                               iters: nat, hasEscaped: bool)

  /** The cell is at step `iters` of the orbit of its own `c`, with the derivative seed 1. */
  predicate OnOrbit(cell: GridCell) {
    cell.dc == One && cell.z == Orbit(cell.c, cell.iters) && cell.dz == DOrbit(cell.c, cell.iters)
  }

  /** The invariants of the R2 stepping rule: a cell past R2 has escaped, and a cell never
      stepped still sits at z = 0 and has not escaped. */
  predicate CellInv(cell: GridCell) {
    (NormSqr(cell.z) > R2 as real ==> cell.hasEscaped)
    && (cell.iters == 0 ==> cell.z == Zero && !cell.hasEscaped)
  }

  /** A fresh cell at `c`: z = 0, dz = dc = 1 + 0i, no steps and not escaped. */
  function NewCell(c: Complex): (cell: GridCell)
    ensures cell.c == c && cell.iters == 0 && !cell.hasEscaped
  {
    GridCell(c, Zero, One, One, 0, false)
  }

  /** A fresh cell is at the start of its orbit and satisfies the invariants. */
  lemma NewCellInv(c: Complex)
    ensures OnOrbit(NewCell(c)) && CellInv(NewCell(c))
  {
  }

  /** One escape-time step. A cell with |z|^2 > R2 is left as it is; otherwise `iters` goes up
      by one, z <- z^2 + c and dz <- 2 * dz * z + dc, and the cell escapes if the new |z|^2 is
      strictly greater than 4 (an escaped cell stays escaped). */
  function Step(cell: GridCell): (next: GridCell)
    ensures next.c == cell.c && next.dc == cell.dc
    ensures next.iters == cell.iters || next.iters == cell.iters + 1
    ensures cell.hasEscaped ==> next.hasEscaped
  {
    if NormSqr(cell.z) > R2 as real then cell
    else
      var z := Add(Mul(cell.z, cell.z), cell.c);
      var dz := Add(Mul(Scale(cell.dz, 2.0), cell.z), cell.dc);
      cell.(iters := cell.iters + 1, z := z, dz := dz,
            hasEscaped := cell.hasEscaped || NormSqr(z) > 4.0)
  }

  /** A step keeps the invariants: R2 exceeds 4, so a cell that passes R2 has escaped. */
  lemma StepKeepsInv(cell: GridCell)
    requires CellInv(cell)
    ensures CellInv(Step(cell))
  {
  }

  /** A step of a cell on the orbit of its `c` moves it to the next iterate of that orbit. */
  lemma StepKeepsOrbit(cell: GridCell)
    requires OnOrbit(cell)
    ensures OnOrbit(Step(cell))
  {
  }

  /** `k` successive steps. */
  function StepN(cell: GridCell, k: nat): (r: GridCell)
    ensures r.c == cell.c && r.dc == cell.dc
    ensures cell.iters <= r.iters <= cell.iters + k
    ensures cell.hasEscaped ==> r.hasEscaped
  {
    if k == 0 then cell else Step(StepN(cell, k - 1))
  }

  /** Any number of steps keeps the invariants. */
  lemma {:induction false} StepNKeepsInv(cell: GridCell, k: nat)
    requires CellInv(cell)
    ensures CellInv(StepN(cell, k))
  {
    if k > 0 {
      StepNKeepsInv(cell, k - 1);
      StepKeepsInv(StepN(cell, k - 1));
    }
  }

  /** A cell past R2 is frozen: further steps change nothing at all. */
  lemma {:induction false} FrozenBeyondR2(cell: GridCell, k: nat)
    requires NormSqr(cell.z) > R2 as real
    ensures StepN(cell, k) == cell
  {
    if k > 0 {
      FrozenBeyondR2(cell, k - 1);
    }
  }

  /** On a cell not past R2, a step advances the recurrence by one and the escape flag
      becomes true exactly when it was already true or the new |z|^2 exceeds 4. */
  lemma StepAdvances(cell: GridCell)
    requires NormSqr(cell.z) <= R2 as real
    ensures Step(cell).iters == cell.iters + 1
    ensures Step(cell).z == Add(Mul(cell.z, cell.z), cell.c)
    ensures Step(cell).dz == Add(Mul(Scale(cell.dz, 2.0), cell.z), cell.dc)
    ensures !cell.hasEscaped ==> (Step(cell).hasEscaped <==> NormSqr(Step(cell).z) > 4.0)
  {
  }

  /** The state a fresh cell at `c` reaches after `k` updates, stated on the orbit of `c`:
      it has taken one step for every iterate up to the first whose |z|^2 exceeds R2, and it
      has escaped exactly when one of the iterates reached so far has |z|^2 above 4. */
  function LibState(c: Complex, k: nat): GridCell {
    var n := FirstExceeding(c, R2 as real, k);
    GridCell(c, Orbit(c, n), One, DOrbit(c, n), n, EscapedBy(c, n))
  }

  /** While no iterate has passed R2, an update advances LibState by one iterate. */
  lemma LibStateActive(c: Complex, k: nat)
    requires FirstExceeding(c, R2 as real, k) == k
    requires NormSqr(Orbit(c, k)) <= R2 as real
    ensures Step(LibState(c, k)) == LibState(c, k + 1)
  {
    FirstExceedingStep(c, R2 as real, k + 1);
  }

  /** Once an iterate has passed R2, LibState no longer changes. */
  lemma LibStateFrozen(c: Complex, k: nat)
    requires NormSqr(Orbit(c, FirstExceeding(c, R2 as real, k))) > R2 as real
    ensures Step(LibState(c, k)) == LibState(c, k + 1)
  {
    FirstExceedingHit(c, R2 as real, k);
    FirstExceedingStep(c, R2 as real, k + 1);
  }

  /** One update takes LibState(c, k) to LibState(c, k + 1). */
  lemma LibStateStep(c: Complex, k: nat)
    ensures Step(LibState(c, k)) == LibState(c, k + 1)
  {
    var n := FirstExceeding(c, R2 as real, k);
    FirstExceedingHit(c, R2 as real, k);
    if NormSqr(Orbit(c, n)) > R2 as real {
      LibStateFrozen(c, k);
    } else {
      LibStateActive(c, k);
    }
  }

  /** Stepping a fresh cell `k` times reaches LibState(c, k). */
  lemma RunIsLibState(c: Complex, k: nat)
    ensures StepN(NewCell(c), k) == LibState(c, k)
  {
    var j := 0;
    while j < k
      invariant j <= k
      invariant StepN(NewCell(c), j) == LibState(c, j)
    {
      LibStateStep(c, j);
      j := j + 1;
    }
  }

  /** After `k` updates of a fresh cell: at most `k` steps were taken, fewer only when the
      cell has gone past R2; and the cell has escaped exactly when some iterate z_j, for j up
      to its `iters`, has |z_j|^2 > 4. */
  lemma EscapeAfterUpdates(c: Complex, k: nat)
    ensures StepN(NewCell(c), k).iters <= k
    ensures StepN(NewCell(c), k).iters < k ==> NormSqr(StepN(NewCell(c), k).z) > R2 as real
    ensures !StepN(NewCell(c), k).hasEscaped <==>
      forall j :: 1 <= j <= StepN(NewCell(c), k).iters ==> NormSqr(Orbit(c, j)) <= 4.0
  {
    RunIsLibState(c, k);
    FirstExceedingHit(c, R2 as real, k);
    EscapedByMeaning(c, FirstExceeding(c, R2 as real, k));
  }

  /** c = 0 never escapes: its cell stays at z = 0, dz = 1 and only counts steps. */
  lemma ZeroNeverEscapes(k: nat)
    ensures StepN(NewCell(Zero), k) == NewCell(Zero).(iters := k)
  {
    RunIsLibState(Zero, k);
    ZeroNeverExceeds(R2 as real, k);
    ZeroNeverEscapedBy(k);
    OrbitOfZero(k);
    DOrbitOfZero(k);
  }

  /** The first update of a fresh cell sets z to c and iters to 1, keeps dz = 1 and escapes
      exactly when |c|^2 > 4. */
  lemma FirstStepFromFresh(c: Complex)
    ensures Step(NewCell(c)) == NewCell(c).(z := c, iters := 1, hasEscaped := NormSqr(c) > 4.0)
  {
    assert Mul(Zero, Zero) == Zero;
    assert Mul(Scale(One, 2.0), Zero) == Zero;
  }

  /** The grid that `Sim::new` and `Sim::reset` build: one fresh cell per pixel index. */
  function FreshGrid(cfg: SimConfig): (g: seq<GridCell>)
    ensures |g| == Size(cfg)
  {
    if !HasPixels(cfg) then []
    else seq(Size(cfg), i requires 0 <= i < Size(cfg) => NewCell(IdxToComplex(cfg, i)))
  }

  /** The grid after `k` updates of a fresh grid. */
  function Run(cfg: SimConfig, k: nat): (g: seq<GridCell>)
    ensures |g| == Size(cfg)
  {
    var start := FreshGrid(cfg);
    seq(|start|, i requires 0 <= i < |start| => StepN(start[i], k))
  }

  /** Every cell of the grid after `k` updates sits at its own pixel's sample point, keeps
      the invariants, has taken at most `k` steps and is the LibState of its point. */
  lemma RunCells(cfg: SimConfig, k: nat, i: nat)
    requires i < Size(cfg)
    ensures HasPixels(cfg)
    ensures Run(cfg, k)[i].c == IdxToComplex(cfg, i)
    ensures Run(cfg, k)[i] == LibState(IdxToComplex(cfg, i), k)
    ensures CellInv(Run(cfg, k)[i]) && Run(cfg, k)[i].iters <= k
  {
    IndexImpliesPixels(cfg, i);
    var c := IdxToComplex(cfg, i);
    RunIsLibState(c, k);
    NewCellInv(c);
    StepNKeepsInv(NewCell(c), k);
  }

  /** After one update of a fresh grid every cell has taken one step and its z is its own
      sample point c. */
  lemma FirstUpdateSetsZToC(cfg: SimConfig, i: nat)
    requires i < Size(cfg)
    ensures HasPixels(cfg)
    ensures Run(cfg, 1)[i].iters == 1 && Run(cfg, 1)[i].z == IdxToComplex(cfg, i)
  {
    IndexImpliesPixels(cfg, i);
    var c := IdxToComplex(cfg, i);
    FirstStepFromFresh(c);
    assert FreshGrid(cfg)[i] == NewCell(c);
    assert Run(cfg, 1)[i] == StepN(NewCell(c), 1);
    assert StepN(NewCell(c), 1) == Step(NewCell(c));
  }

  /** One 8-bit channel: the colour value clamped to [0, 1], scaled by 255 and truncated,
      as `c.clamp(0, 1); c *= 255.; c.x as u8`. */
  function Channel(v: real): (b: bv8)
    ensures v <= 0.0 ==> b == 0
    ensures v >= 1.0 ==> b == 255
    ensures InUnitInterval(v) ==> (b as int) as real <= 255.0 * v < (b as int) as real + 1.0
  {
    var u := Clamp01(v);
    var k := (u * 255.0).Floor;
    assert 0 <= k <= 255 by { assert 0.0 <= u * 255.0 <= 255.0; }
    ByteOf(k)
  }

  /** The 8-bit value of a whole number in 0..255, `k as u8` for such k (built by counting
      up, which keeps the conversion between integers and bit-vectors out of the proofs). */
  function ByteOf(k: int): (b: bv8)
    requires 0 <= k < 256
    ensures b as int == k
  {
    if k == 0 then 0 else Succ(ByteOf(k - 1))
  }

  /** The next byte value, for a byte below 255. */
  function Succ(b: bv8): (s: bv8)
    requires b as int < 255
    ensures s as int == b as int + 1
  {
    b + 1
  }

  /** The packed pixel for a colour. */
  function PixelColor(v: Vec3): (p: bv32)
    ensures p >> 24 == 0
  {
    Rgb(Channel(v.x), Channel(v.y), Channel(v.z))
  }

  class Sim {
    var config: SimConfig
    var grid: seq<GridCell>
    /** Number of updates since the grid was last built (bookkeeping for the proofs). */
    ghost var updates: nat

    ghost predicate Valid()
      reads this
    {
      grid == Run(config, updates)
    }

    /** `Sim::new`: one fresh cell per pixel, pushed in index order. */
    constructor (config: SimConfig)
      ensures Valid() && this.config == config
      ensures grid == FreshGrid(config) && updates == 0
    {
      var size := config.fbDims.x * config.fbDims.y;
      var g: seq<GridCell> := [];
      for idx := 0 to size
        invariant g == FreshGrid(config)[..idx]
      {
        IndexImpliesPixels(config, idx);
        g := g + [NewCell(IdxToComplex(config, idx))];
      }
      this.config := config;
      grid := g;
      updates := 0;
      RunZero(config);
    }

    /** `Sim::reset`: clears the grid and rebuilds it exactly as `new` does, whatever the
        grid held before; the configuration is kept. */
    method Reset()
      modifies this`grid, this`updates
      ensures Valid() && grid == FreshGrid(config) && updates == 0
    {
      grid := [];
      var size := config.fbDims.x * config.fbDims.y;
      for idx := 0 to size
        invariant grid == FreshGrid(config)[..idx]
      {
        IndexImpliesPixels(config, idx);
        grid := grid + [NewCell(IdxToComplex(config, idx))];
      }
      updates := 0;
      RunZero(config);
    }

    /** `GridCell::step` applied in place to the cell at index `i`: its fields are updated one
        after another and nothing else in the grid changes. The library has no such public
        method; this is the in-place step that Update applies to each cell in turn, so between
        two of its calls Valid() need not hold. */
    method StepCell(i: nat)
      requires i < |grid|
      modifies this`grid
      ensures grid == old(grid)[i := Step(old(grid)[i])]
    {
      var cell := grid[i];
      if NormSqr(cell.z) > R2 as real {
        return;
      }
      cell := cell.(iters := cell.iters + 1);
      var GridCell(c, z, dc, dz, _, _) := cell;
      cell := cell.(z := Add(Mul(z, z), c));
      cell := cell.(dz := Add(Mul(Scale(dz, 2.0), z), dc));
      if NormSqr(cell.z) > 4.0 {
        cell := cell.(hasEscaped := true);
      }
      grid := grid[i := cell];
    }

    /** `Sim::update` (the sequential loop): every cell is stepped once, independently. */
    method Update()
      requires Valid()
      modifies this`grid, this`updates
      ensures Valid() && updates == old(updates) + 1
      ensures |grid| == |old(grid)|
      ensures forall i :: 0 <= i < |grid| ==> grid[i] == Step(old(grid)[i])
    {
      ghost var before := grid;
      assert before == Run(config, updates);
      var i := 0;
      while i < |grid|
        invariant 0 <= i <= |grid| == |old(grid)|
        invariant forall j :: 0 <= j < i ==> grid[j] == Step(old(grid)[j])
        invariant forall j :: i <= j < |grid| ==> grid[j] == old(grid)[j]
        invariant updates == old(updates)
      {
        StepCell(i);
        i := i + 1;
      }
      updates := updates + 1;
      assert grid == Run(config, updates) by {
        forall j | 0 <= j < |grid|
          ensures grid[j] == Run(config, updates)[j]
        {
          assert before[j] == Run(config, updates - 1)[j];
        }
      }
    }

    /** `Sim::draw` (the sequential loop). When the framebuffer and the grid differ in length
        the source's assertion fails: `ok` is false and nothing has been written. Otherwise
        every pixel is the packed, clamped and scaled colour of its cell. The grid is only read. */
    method Draw(fb: array<bv32>, color: GridCell -> Vec3) returns (ok: bool)
      modifies fb
      ensures ok == (fb.Length == |grid|)
      ensures ok ==> forall i :: 0 <= i < fb.Length ==> fb[i] == PixelColor(color(grid[i]))
      ensures !ok ==> fb[..] == old(fb[..])
    {
      if fb.Length != |grid| {
        return false;
      }
      for i := 0 to fb.Length
        invariant forall j :: 0 <= j < i ==> fb[j] == PixelColor(color(grid[j]))
      {
        var c := color(grid[i]);
        fb[i] := Rgb(Channel(c.x), Channel(c.y), Channel(c.z));
      }
      return true;
    }
  }

  lemma RunZero(cfg: SimConfig)
    ensures Run(cfg, 0) == FreshGrid(cfg)
  {
  }

  /** A square viewport centred on `p` with half-side `r`. */
  function MakeSquareFrame(p: Vec2, r: real): (f: (Vec2, Vec2))
    ensures (f.0.x + f.1.x) / 2.0 == p.x && (f.0.y + f.1.y) / 2.0 == p.y
    ensures f.1.x - f.0.x == 2.0 * r && f.1.y - f.0.y == 2.0 * r
    ensures (f.0.x < f.1.x && f.0.y < f.1.y) <==> r > 0.0
  {
    (Vec2(p.x - r, p.y - r), Vec2(p.x + r, p.y + r))
  }

  /** The customary view of the whole set: a non-degenerate 3.5 by 2.5 rectangle, symmetric
      about the real axis, spanning the real segment from -2 to 1/4. */
  function MakeDefaultFrame(): (f: (Vec2, Vec2))
    ensures f.0.x < f.1.x && f.0.y < f.1.y
    ensures f.1.x - f.0.x == 3.5 && f.1.y - f.0.y == 2.5
    ensures f.0.y == -f.1.y
    ensures f.0.x <= -2.0 && 0.25 <= f.1.x
  {
    (Vec2(-2.5, -1.25), Vec2(1.0, 1.25))
  }
}
