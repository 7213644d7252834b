/** The earlier, self-contained draft of the engine in src/view.rs. Its viewport mapping,
    GridCell record, fresh cell, palette and frames are the same as those of src/lib.rs and
    src/palette.rs and are shared with Engine and Palette. It differs in four places: a cell freezes as soon as it
    has escaped (there is no R2 rule), `update` steps only the cells that have not escaped,
    `rgb` sets the alpha byte, and `draw` takes no colour function because its palette is
    fixed to `palette_with_plain_colors`. */
module View {
  import opened Numerics
  import opened Orbits
  import Engine
  import opened Palette

  type GridCell = Engine.GridCell

  /** Alpha byte set on every packed pixel. */
  const Opaque: bv32 := 0xFF00_0000

  /** Packs three 8-bit channels as ARGB with alpha 0xFF: the 0RGB pixel of the library
      with the top byte set. */
  function Rgb(r: bv8, g: bv8, b: bv8): (p: bv32)
    ensures p >> 24 == 0xFF
    ensures (p >> 16) & 0xFF == r as bv32
    ensures (p >> 8) & 0xFF == g as bv32
    ensures p & 0xFF == b as bv32
  {
    Engine.Rgb(r, g, b) | Opaque
  }

  /** One step of the freeze-on-escape rule: an escaped cell is left as it is; otherwise
      `iters` goes up by one, z <- z^2 + c, dz <- 2 * dz * z + dc, and the cell escapes if the
      new |z|^2 is strictly greater than 4. */
  function Step(cell: GridCell): (next: GridCell)
    ensures next.c == cell.c && next.dc == cell.dc
    ensures cell.hasEscaped ==> next == cell
    ensures !cell.hasEscaped ==> next.iters == cell.iters + 1
    ensures !cell.hasEscaped ==> (next.hasEscaped <==> NormSqr(next.z) > 4.0)
  {
    if cell.hasEscaped then cell
    else
      var z := Add(Mul(cell.z, cell.z), cell.c);
      var dz := Add(Mul(Scale(cell.dz, 2.0), cell.z), cell.dc);
      cell.(iters := cell.iters + 1, z := z, dz := dz, hasEscaped := NormSqr(z) > 4.0)
  }

  /** The invariants of the freeze-on-escape rule: the flag says exactly whether |z|^2 is
      above 4, and a cell never stepped still sits at z = 0. */
  predicate CellInv(cell: GridCell) {
    (cell.hasEscaped <==> NormSqr(cell.z) > 4.0)
    && (cell.iters == 0 ==> cell.z == Zero)
  }

  /** A fresh cell satisfies the invariants. */
  lemma NewCellInv(c: Complex)
    ensures CellInv(Engine.NewCell(c))
  {
  }

  /** A step keeps the invariants. */
  lemma StepKeepsInv(cell: GridCell)
    requires CellInv(cell)
    ensures CellInv(Step(cell))
  {
  }

  /** The freeze-on-escape rule walks the same orbit as the library's rule. */
  lemma StepKeepsOrbit(cell: GridCell)
    requires Engine.OnOrbit(cell)
    ensures Engine.OnOrbit(Step(cell))
  {
  }

  /** `k` successive steps. */
  function StepN(cell: GridCell, k: nat): (r: GridCell)
    ensures r.c == cell.c && r.dc == cell.dc
    ensures cell.iters <= r.iters <= cell.iters + k
    ensures cell.hasEscaped ==> r.hasEscaped
  {
    if k == 0 then cell else Step(StepN(cell, k - 1))
  }

  /** Any number of steps keeps the invariants. */
  lemma {:induction false} StepNKeepsInv(cell: GridCell, k: nat)
    requires CellInv(cell)
    ensures CellInv(StepN(cell, k))
  {
    if k > 0 {
      StepNKeepsInv(cell, k - 1);
      StepKeepsInv(StepN(cell, k - 1));
    }
  }

  /** Once escaped, a cell never changes again: repeated steps are idempotent. */
  lemma {:induction false} EscapedIsFrozen(cell: GridCell, k: nat)
    requires cell.hasEscaped
    ensures StepN(cell, k) == cell
  {
    if k > 0 {
      EscapedIsFrozen(cell, k - 1);
    }
  }

  /** The state a fresh cell at `c` reaches after `k` updates under this rule, stated on the
      orbit of `c`: one step for every iterate up to the first whose |z|^2 exceeds 4 (or `k`
      steps when there is none among z_0 .. z_{k-1}). */
  function ViewState(c: Complex, k: nat): GridCell {
    var n := FirstExceeding(c, 4.0, k);
    Engine.GridCell(c, Orbit(c, n), One, DOrbit(c, n), n, NormSqr(Orbit(c, n)) > 4.0)
  }

  /** While no iterate has passed 4, an update advances ViewState by one iterate. */
  lemma ViewStateActive(c: Complex, k: nat)
    requires FirstExceeding(c, 4.0, k) == k
    requires NormSqr(Orbit(c, k)) <= 4.0
    ensures Step(ViewState(c, k)) == ViewState(c, k + 1)
  {
    FirstExceedingStep(c, 4.0, k + 1);
  }

  /** Once an iterate has passed 4, ViewState no longer changes. */
  lemma ViewStateFrozen(c: Complex, k: nat)
    requires NormSqr(Orbit(c, FirstExceeding(c, 4.0, k))) > 4.0
    ensures Step(ViewState(c, k)) == ViewState(c, k + 1)
  {
    FirstExceedingHit(c, 4.0, k);
    FirstExceedingStep(c, 4.0, k + 1);
  }

  /** One update takes ViewState(c, k) to ViewState(c, k + 1). */
  lemma ViewStateStep(c: Complex, k: nat)
    ensures Step(ViewState(c, k)) == ViewState(c, k + 1)
  {
    var n := FirstExceeding(c, 4.0, k);
    FirstExceedingHit(c, 4.0, k);
    if NormSqr(Orbit(c, n)) > 4.0 {
      ViewStateFrozen(c, k);
    } else {
      ViewStateActive(c, k);
    }
  }

  /** Stepping a fresh cell `k` times reaches ViewState(c, k). */
  lemma RunIsViewState(c: Complex, k: nat)
    ensures StepN(Engine.NewCell(c), k) == ViewState(c, k)
  {
    var j := 0;
    while j < k
      invariant j <= k
      invariant StepN(Engine.NewCell(c), j) == ViewState(c, j)
    {
      ViewStateStep(c, j);
      j := j + 1;
    }
  }

  /** After `k` updates of a fresh cell at `c`: an escaped cell's `iters` is the index of the
      first iterate with |z|^2 > 4, which is at most `k`; a cell that has not escaped has taken
      all `k` steps and none of z_1 .. z_k has |z|^2 above 4. */
  lemma EscapeTime(c: Complex, k: nat)
    ensures var cell := StepN(Engine.NewCell(c), k);
      cell.iters <= k
      && (cell.hasEscaped ==>
            1 <= cell.iters && NormSqr(Orbit(c, cell.iters)) > 4.0
            && forall j :: 1 <= j < cell.iters ==> NormSqr(Orbit(c, j)) <= 4.0)
      && (!cell.hasEscaped ==>
            cell.iters == k && forall j :: 1 <= j <= k ==> NormSqr(Orbit(c, j)) <= 4.0)
  {
    RunIsViewState(c, k);
    var n := FirstExceeding(c, 4.0, k);
    FirstExceedingHit(c, 4.0, k);
    forall j | 1 <= j < n
      ensures NormSqr(Orbit(c, j)) <= 4.0
    {
      FirstExceedingBelow(c, 4.0, k, j);
    }
    if NormSqr(Orbit(c, n)) > 4.0 {
      assert n != 0 by { assert NormSqr(Zero) == 0.0; }
    } else {
      assert n == k;
    }
  }

  /** c = 0 never escapes under this rule either: it only counts steps. */
  lemma ZeroNeverEscapes(k: nat)
    ensures StepN(Engine.NewCell(Zero), k) == Engine.NewCell(Zero).(iters := k)
  {
    RunIsViewState(Zero, k);
    ZeroNeverExceeds(4.0, k);
    OrbitOfZero(k);
    DOrbitOfZero(k);
    assert NormSqr(Zero) == 0.0;
  }

  /** The first update of a fresh cell sets z to c and iters to 1, keeps dz = 1 and escapes
      exactly when |c|^2 > 4, as under the library's rule. */
  lemma FirstStepFromFresh(c: Complex)
    ensures Step(Engine.NewCell(c))
      == Engine.NewCell(c).(z := c, iters := 1, hasEscaped := NormSqr(c) > 4.0)
  {
    assert Mul(Zero, Zero) == Zero;
    assert Mul(Scale(One, 2.0), Zero) == Zero;
  }

  /** The packed pixel for a colour, with alpha. */
  function PixelColor(v: Vec3): (p: bv32)
    ensures p == Engine.PixelColor(v) | Opaque
  {
    Rgb(Engine.Channel(v.x), Engine.Channel(v.y), Engine.Channel(v.z))
  }

  /** The grid after `k` updates of a fresh grid. */
  function Run(cfg: Engine.SimConfig, k: nat): (g: seq<GridCell>)
    ensures |g| == Engine.Size(cfg)
  {
    var start := Engine.FreshGrid(cfg);
    seq(|start|, i requires 0 <= i < |start| => StepN(start[i], k))
  }

  /** Every cell of the grid after `k` updates sits at its own pixel's sample point, keeps
      the invariants and is the ViewState of its point. */
  lemma RunCells(cfg: Engine.SimConfig, k: nat, i: nat)
    requires i < Engine.Size(cfg)
    ensures Engine.HasPixels(cfg)
    ensures Run(cfg, k)[i].c == Engine.IdxToComplex(cfg, i)
    ensures Run(cfg, k)[i] == ViewState(Engine.IdxToComplex(cfg, i), k)
    ensures CellInv(Run(cfg, k)[i]) && Run(cfg, k)[i].iters <= k
  {
    Engine.IndexImpliesPixels(cfg, i);
    var c := Engine.IdxToComplex(cfg, i);
    RunIsViewState(c, k);
    NewCellInv(c);
    StepNKeepsInv(Engine.NewCell(c), k);
  }

  class Sim {
    var config: Engine.SimConfig
    var grid: seq<GridCell>
    /** Number of updates since the grid was last built (bookkeeping for the proofs). */
    ghost var updates: nat

    ghost predicate Valid()
      reads this
    {
      grid == Run(config, updates)
    }

    /** `Sim::new`: one fresh cell per pixel, pushed in index order. */
    constructor (config: Engine.SimConfig)
      ensures Valid() && this.config == config
      ensures grid == Engine.FreshGrid(config) && updates == 0
    {
      var size := config.fbDims.x * config.fbDims.y;
      var g: seq<GridCell> := [];
      for idx := 0 to size
        invariant g == Engine.FreshGrid(config)[..idx]
      {
        Engine.IndexImpliesPixels(config, idx);
        g := g + [Engine.NewCell(Engine.IdxToComplex(config, idx))];
      }
      this.config := config;
      grid := g;
      updates := 0;
    }

    /** `Sim::reset`: clears the grid and rebuilds it exactly as `new` does. */
    method Reset()
      modifies this`grid, this`updates
      ensures Valid() && grid == Engine.FreshGrid(config) && updates == 0
    {
      grid := [];
      var size := config.fbDims.x * config.fbDims.y;
      for idx := 0 to size
        invariant grid == Engine.FreshGrid(config)[..idx]
      {
        Engine.IndexImpliesPixels(config, idx);
        grid := grid + [Engine.NewCell(Engine.IdxToComplex(config, idx))];
      }
      updates := 0;
    }

    /** `GridCell::step` applied in place to the cell at index `i`. view.rs has no such public
        method; this is the in-place step that Update applies to each cell that has not escaped,
        so between two of its calls Valid() need not hold. */
    method StepCell(i: nat)
      requires i < |grid|
      modifies this`grid
      ensures grid == old(grid)[i := Step(old(grid)[i])]
    {
      var cell := grid[i];
      if cell.hasEscaped {
        return;
      }
      cell := cell.(iters := cell.iters + 1);
      var (c, z, dc, dz) := (cell.c, cell.z, cell.dc, cell.dz);
      cell := cell.(z := Add(Mul(z, z), c));
      cell := cell.(dz := Add(Mul(Scale(dz, 2.0), z), dc));
      if NormSqr(cell.z) > 4.0 {
        cell := cell.(hasEscaped := true);
      }
      grid := grid[i := cell];
    }

    /** `Sim::update` (the sequential loop): only the cells that have not escaped are
        stepped, each once; escaped cells are not touched. */
    method Update()
      requires Valid()
      modifies this`grid, this`updates
      ensures Valid() && updates == old(updates) + 1
      ensures |grid| == |old(grid)|
      ensures forall i :: 0 <= i < |grid| && old(grid)[i].hasEscaped ==> grid[i] == old(grid)[i]
      ensures forall i :: 0 <= i < |grid| && !old(grid)[i].hasEscaped ==> grid[i] == Step(old(grid)[i])
    {
      ghost var before := grid;
      var i := 0;
      while i < |grid|
        invariant 0 <= i <= |grid| == |old(grid)|
        invariant forall j :: 0 <= j < i ==> grid[j] == Step(old(grid)[j])
        invariant forall j :: i <= j < |grid| ==> grid[j] == old(grid)[j]
        invariant updates == old(updates)
      {
        if !grid[i].hasEscaped {
          StepCell(i);
        }
        i := i + 1;
      }
      updates := updates + 1;
      assert grid == Run(config, updates) by {
        forall j | 0 <= j < |grid|
          ensures grid[j] == Run(config, updates)[j]
        {
          assert before[j] == Run(config, updates - 1)[j];
        }
      }
    }

    /** `Sim::draw` with the palette fixed at compile time to the plain colours. When the
        framebuffer and the grid differ in length the source's assertion fails: `ok` is false
        and nothing has been written. Otherwise every pixel is the opaque packed colour of its
        cell. The grid is only read. */
    method Draw(fb: array<bv32>) returns (ok: bool)
      modifies fb
      ensures ok == (fb.Length == |grid|)
      ensures ok ==> forall i :: 0 <= i < fb.Length ==> fb[i] == PixelColor(PlainColors(grid[i]))
      ensures !ok ==> fb[..] == old(fb[..])
    {
      if fb.Length != |grid| {
        return false;
      }
      for i := 0 to fb.Length
        invariant forall j :: 0 <= j < i ==> fb[j] == PixelColor(PlainColors(grid[j]))
      {
        var c := PlainColors(grid[i]);
        fb[i] := Rgb(Engine.Channel(c.x), Engine.Channel(c.y), Engine.Channel(c.z));
      }
      return true;
    }
  }

  /** Every pixel the draft draws is opaque, and it is black exactly for the cells that have
      not escaped. */
  lemma DrawnPixelIsOpaque(cell: GridCell)
    ensures PixelColor(PlainColors(cell)) >> 24 == 0xFF
    ensures !cell.hasEscaped ==> PixelColor(PlainColors(cell)) == Opaque
  {
    PlainColorPixelIsTableEntry(cell);
  }
}
