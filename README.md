# Escape-time Mandelbrot engine, modelled in Dafny

This project models the iteration engine of a small Rust renderer of the Mandelbrot set.
A `Sim` owns one `GridCell` per framebuffer pixel. Each cell holds:

- the pixel's sample point `c` in the complex plane;
- the iterate `z` of `z <- z^2 + c`;
- the derivative `dz` of `dz <- 2 dz z + dc`;
- a step counter `iters`;
- an escape flag, set once `|z|^2 > 4`.

`update` advances every cell by one step. `draw` turns each cell into a packed 8-bit pixel through a colour function. The palette module supplies those colour functions. The image generator runs 1000 updates and draws with the plain palette. It then rewrites every 0RGB pixel in place as little-endian RGBA with an opaque alpha byte.

## Modules

- `numerics.dfy` (`Numerics`): complex numbers and the 2- and 3-vectors, over exact `real`. It also has the channel clamp and the fraction and interpolation facts the pixel mapping needs.
- `orbits.dfy` (`Orbits`): reference definitions, independent of any cell. They cover the orbit `z_n` of `c`, its derivative `dz_n`, the first index at which `|z_n|^2` passes a bound, and whether some `|z_j|^2` with `1 <= j <= n` exceeds 4. Both stepping rules are proved against these.
- `engine.dfy` (`Engine`): `src/lib.rs`. It has the 0RGB `rgb`, `idx_to_complex` and `GridCell::new`/`step` with the R2 stop rule, which stops stepping once `|z|^2 > R2 = 10^6`. It has the class `Sim` with `new`, `reset`, the sequential `update` and `draw`, and the two frame helpers.
- `palette.rs` is modelled by `palette.dfy` (`Palette`): `COLOR_MAPPING`, `with_plain_colors`, `with_color_from_dz`, `with_smooth_stripes` and the base colour of `with_lambert_and_colors`.
- `view.dfy` (`View`): the older draft `src/view.rs`. It differs from the library in four ways:
  - A cell freezes as soon as it has escaped, and there is no R2 rule.
  - `update` steps only the cells that have not escaped.
  - `rgb` also sets the alpha byte `OPAQUE`.
  - `draw` takes no colour function: the palette is fixed at compile time to `palette_with_plain_colors` (`src/view.rs:246`). `View.Sim.Draw` is therefore its own loop, which applies `Palette.PlainColors` to every cell.

  Code that `view.rs` repeats verbatim is reused from `Engine` and `Palette` rather than defined twice. This covers `idx_to_complex`, `GridCell` with `new`, `COLOR_MAPPING`, `palette_with_plain_colors` and the clamp, scale and `as u8` cast of each channel (`Engine.Channel`). Its `make_square_frame` and `make_default_frame` (`src/view.rs:330-343`) are the same as the library's, so `Engine.MakeSquareFrame` and `Engine.MakeDefaultFrame` stand for them. Its config field `pixels` is the library's `fb_dims`.
- `examples.dfy` (`Examples`): worked cells. `c = 2` sits on the boundary `|z|^2 = 4`. `c = 3` is a point where the two stepping rules give different counts.
- `gen.dfy` (`Gen`): `src/gen.rs`. It has the framebuffer size, the 1000 updates, drawing and the in-place RGBA re-encoding loop.

How the model represents the source:

- `GridCell` is a value (a Rust `Copy` struct), so it is a `datatype`.
- `Sim` is a `class` whose `grid: seq<GridCell>` the methods reassign. Its ghost counter `updates` lets `Valid()` say that the grid is the `Run` of its configuration after that many updates.
- Framebuffers are `array<bv32>` written in place.
- Panicking `assert_eq!`s become a returned `ok` flag. The model also states the state left behind when the check fails.

Two behaviours of the code worth noting:

- `c = 2` does not escape on the first step, because `|2|^2 = 4` is not above 4. It escapes on the second, at `z = 6` (`Examples.TwoEscapesOnSecondStep`).
- In `src/lib.rs` an escaped cell whose `|z|^2` is still within R2 keeps being stepped. Its `z`, `dz` and `iters` keep changing after the flag is set (`Examples.RulesDivergeAtThree`). Only `src/view.rs` freezes escaped cells (`View.EscapedIsFrozen`).

## Model

| member | source | states |
|---|---|---|
| `Numerics.Clamp01` | src/lib.rs:171 | the clamp lands in [0, 1], is the identity on [0, 1], and sends values below 0 to 0 and above 1 to 1 |
| `Orbits.FirstAbove` | src/lib.rs:81-83 | the least index below the cap whose value exceeds the bound, or the cap: no earlier value exceeds it, and the one found does |
| `Orbits.FirstExceeding` | src/lib.rs:81-83 | the first-exceeding index of an orbit never passes the cap |
| `Orbits.FirstExceedingBelow` | src/lib.rs:81-83 | every iterate before the first exceeding index has `norm_sqr(z)` within the bound |
| `Orbits.FirstExceedingHit` | src/lib.rs:81-83 | a first exceeding index below the cap is an iterate whose `norm_sqr(z)` exceeds the bound |
| `Orbits.FirstExceedingStep` | src/lib.rs:81-86 | raising the cap by one keeps the index found, or moves it to the new cap when the last iterate does not exceed |
| `Orbits.EscapedByMeaning` | src/lib.rs:95-97 | the orbit has not escaped by step n exactly when every `z_j`, 1 <= j <= n, has `norm_sqr(z_j) <= 4` (both directions) |
| `Orbits.OrbitOfZero` | src/lib.rs:91 | the orbit of c = 0 is constantly 0 |
| `Orbits.DOrbitOfZero` | src/lib.rs:92 | the derivative along the orbit of c = 0 stays at its seed 1 |
| `Orbits.OrbitOfZeroNorm` | src/lib.rs:91 | `norm_sqr(z_n)` is 0 along the orbit of 0 |
| `Orbits.ZeroNeverExceeds` | src/lib.rs:81-83 | the orbit of 0 never passes any bound that is not negative |
| `Orbits.ZeroNeverEscapedBy` | src/lib.rs:95-97 | the orbit of 0 never has `norm_sqr(z)` above 4 |
| `Engine.Rgb` | src/lib.rs:14-18 | the top byte is 0 and bytes 2, 1, 0 are r, g, b |
| `Engine.PixelCoords` | src/lib.rs:36-37 | the column is below the width and row * width + column is the index |
| `Engine.RowInRange` | src/lib.rs:36-37 | an index below w*h has its row below h |
| `Engine.IdxToComplex` | src/lib.rs:34-51 | the sample point is the top-left corner moved right by the column's fraction of the width and down by the row's fraction of the height |
| `Engine.IdxZeroIsTopLeft` | src/lib.rs:43-48 | index 0 maps to (frame_min.x, frame_max.y) |
| `Engine.IdxToComplexInViewport` | src/lib.rs:39-48 | every pixel's point lies in the viewport, half-open at the right and bottom edges |
| `Engine.RealIncreasesWithColumn` | src/lib.rs:40-47 | the real part strictly increases with the column |
| `Engine.ImagDecreasesWithRow` | src/lib.rs:41-48 | the imaginary part strictly decreases down the rows (the flip `1 - y`) |
| `Engine.IdxToComplexInjective` | src/lib.rs:34-51 | distinct pixels of a non-degenerate frame sample distinct points |
| `Engine.NewCell` | src/lib.rs:66-76 | a fresh cell keeps c, has no steps and has not escaped |
| `Engine.NewCellInv` | src/lib.rs:66-76 | a fresh cell is at step 0 of its orbit and satisfies the cell invariants |
| `Engine.Step` | src/lib.rs:78-98 | a step keeps c and dc, adds at most one to iters and never clears the escape flag |
| `Engine.StepKeepsInv` | src/lib.rs:81-97 | a step keeps "past R2 implies escaped" and "no steps implies z = 0 and not escaped" |
| `Engine.StepKeepsOrbit` | src/lib.rs:86-92 | a step of a cell on its orbit moves it to the next iterate and derivative |
| `Engine.StepN` | src/lib.rs:132-146 | k steps keep c and dc, add at most k to iters and never clear the flag |
| `Engine.StepNKeepsInv` | src/lib.rs:132-146 | any number of steps keeps the cell invariants |
| `Engine.FrozenBeyondR2` | src/lib.rs:81-83 | a cell past R2 is never changed again |
| `Engine.StepAdvances` | src/lib.rs:85-97 | within R2 a step adds one to iters, applies both recurrences, and sets the flag exactly when the new `norm_sqr(z)` is above 4 |
| `Engine.LibStateActive` | src/lib.rs:85-97 | while no iterate has passed R2, one update moves the reference state to the next iterate |
| `Engine.LibStateFrozen` | src/lib.rs:81-83 | once an iterate has passed R2, an update leaves the reference state as it is |
| `Engine.LibStateStep` | src/lib.rs:78-98 | one update takes the reference state after k updates to the one after k + 1 |
| `Engine.RunIsLibState` | src/lib.rs:132-146 | k updates of a fresh cell give exactly the reference state on the orbit of c |
| `Engine.EscapeAfterUpdates` | src/lib.rs:78-98 | after k updates iters <= k, fewer only past R2; the cell has escaped iff some `z_j`, j <= iters, has `norm_sqr(z_j) > 4` |
| `Engine.ZeroNeverEscapes` | src/lib.rs:66-98 | c = 0 stays at z = 0, dz = 1, never escapes, and only counts steps |
| `Engine.FirstStepFromFresh` | src/lib.rs:66-98 | the first update sets z = c and iters = 1, keeps dz = 1, and escapes iff `norm_sqr(c) > 4` |
| `Engine.FreshGrid` | src/lib.rs:107-119 | the fresh grid has one cell per pixel |
| `Engine.Run` | src/lib.rs:132-146 | the grid keeps one cell per pixel across updates |
| `Engine.RunCells` | src/lib.rs:107-146 | each cell after k updates sits at its own pixel's point, keeps the invariants, has iters <= k and is the reference state |
| `Engine.FirstUpdateSetsZToC` | src/lib.rs:142-144 | after one update of a fresh grid every cell has iters = 1 and z equal to its own point |
| `Engine.Channel` | src/lib.rs:169-174 | the channel byte is the floor of 255 times the clamped value: 0 at or below 0, 255 at or above 1 |
| `Engine.PixelColor` | src/lib.rs:169-174 | the pixel drawn for a colour is 0RGB: its top byte is 0 (each channel byte comes from `Engine.Channel`) |
| `Engine.ByteOf` | src/lib.rs:174 | the byte cast of a whole number in 0..255 keeps its value |
| `Engine.Sim.constructor` | src/lib.rs:107-119 | the grid is the fresh grid of the configuration, built in index order |
| `Engine.Sim.Reset` | src/lib.rs:122-130 | whatever the grid held, it becomes the fresh grid and the configuration is kept |
| `Engine.Sim.StepCell` | src/lib.rs:78-98 | the in-place, field-by-field step changes only cell i, to its Step |
| `Engine.Sim.Update` | src/lib.rs:140-145 | every cell is replaced by its Step, and the grid stays the Run after one more update |
| `Engine.Sim.Draw` | src/lib.rs:148-177 | a length mismatch fails with fb untouched; otherwise every pixel is the packed, clamped colour of its cell |
| `Engine.RunZero` | src/lib.rs:107-130 | zero updates leave the fresh grid |
| `Engine.MakeSquareFrame` | src/lib.rs:181-186 | the frame is centred on p with side 2r, and is non-degenerate iff r > 0 |
| `Engine.MakeDefaultFrame` | src/lib.rs:189-194 | a 3.5 by 2.5 frame, symmetric about the real axis, covering -2 .. 1/4 on the real axis |
| `Palette.ColorMappingIsBytes` | src/palette.rs:11-28 | every palette entry is three whole numbers in 0..255 |
| `Palette.TableColor` | src/palette.rs:33 | a scaled entry lies in [0, 1] and 255 times each channel is the table entry |
| `Palette.PlainColors` | src/palette.rs:30-37 | the plain colour lies in [0, 1] |
| `Palette.PlainColorsCases` | src/palette.rs:30-37 | black when not escaped; otherwise the table entry of iters mod 16 |
| `Palette.PlainColorsDependsOnFlagAndIters` | src/palette.rs:30-37 | only the flag and iters matter |
| `Palette.PlainColorsPeriodic` | src/palette.rs:33 | the plain colour has period 16 in iters |
| `Palette.ChannelRecoversByte` | src/lib.rs:171-174 | a value whose 255-fold is a whole byte is drawn as exactly that byte |
| `Palette.PlainColorPixelIsTableEntry` | src/palette.rs:30-37 | a drawn escaped cell's channels are the palette's bytes; a non-escaped cell's pixel is 0 |
| `Palette.TruncToIndex` | src/palette.rs:110 | `as usize` truncates toward zero and saturates at 0 and at usize::MAX |
| `Palette.DzIndex` | src/palette.rs:104-110 | the index is below 16; no positive real part gives 0; saturation gives 15 |
| `Palette.ColorFromDz` | src/palette.rs:104-111 | the dz colour lies in [0, 1] |
| `Palette.ColorFromDzIgnoresEscape` | src/palette.rs:107-110 | the dz colour ignores the flag and iters |
| `Palette.Pow2` | src/palette.rs:47 | 2^n is at least 1, so the division is defined |
| `Palette.SmoothStripes` | src/palette.rs:39-52 | the smooth-stripes colour is a grey |
| `Palette.SmoothStripesInsideIsWhite` | src/palette.rs:49-51 | a cell within R2 is white |
| `Palette.SmoothStripesInRange` | src/palette.rs:40-48 | with a cosine in [-1, 1] the grey lies in [0, 1] |
| `Palette.LambertBaseColor` | src/palette.rs:55-60 | the Lambert base colour lies in [0, 1] |
| `Palette.LambertBaseAgreesWithPlain` | src/palette.rs:55-60 | it equals the plain colour on escaped cells and is the dimmed Indian red, not black, otherwise |
| `View.Rgb` | src/view.rs:19-23 | the top byte is 0xFF and bytes 2, 1, 0 are r, g, b |
| `View.Step` | src/view.rs:89-108 | an escaped cell is unchanged; otherwise iters goes up by one and the flag is exactly "new `norm_sqr(z)` above 4" |
| `View.NewCellInv` | src/view.rs:77-87 | a fresh cell satisfies "flag iff `norm_sqr(z) > 4`" and "no steps implies z = 0" |
| `View.StepKeepsInv` | src/view.rs:89-108 | a step keeps those invariants |
| `View.StepKeepsOrbit` | src/view.rs:96-102 | the draft's step walks the same orbit as the library's |
| `View.StepN` | src/view.rs:222-240 | k steps keep c and dc, add at most k to iters and never clear the flag |
| `View.StepNKeepsInv` | src/view.rs:222-240 | any number of steps keeps the invariants |
| `View.EscapedIsFrozen` | src/view.rs:91-93 | an escaped cell never changes again |
| `View.ViewStateActive` | src/view.rs:95-107 | before escaping, an update moves the reference state to the next iterate |
| `View.ViewStateFrozen` | src/view.rs:91-93 | after escaping, an update leaves the reference state as it is |
| `View.ViewStateStep` | src/view.rs:89-108 | one update takes the reference state after k updates to the one after k + 1 |
| `View.RunIsViewState` | src/view.rs:222-240 | k updates of a fresh cell give the reference state on the orbit of c |
| `View.EscapeTime` | src/view.rs:89-108 | an escaped cell's iters is the first index with `norm_sqr(z) > 4`; a non-escaped cell took all k steps with every `norm_sqr(z_j) <= 4` |
| `View.ZeroNeverEscapes` | src/view.rs:89-108 | c = 0 only counts steps under the draft's rule too |
| `View.FirstStepFromFresh` | src/view.rs:89-108 | the first update sets z = c and iters = 1 and escapes iff `norm_sqr(c) > 4` |
| `View.PixelColor` | src/view.rs:264-271 | the draft's pixel is the library's pixel with the alpha byte set |
| `View.Run` | src/view.rs:222-240 | the grid keeps one cell per pixel |
| `View.RunCells` | src/view.rs:197-240 | each cell sits at its pixel's point, keeps the invariants, has iters <= k and is the reference state |
| `View.Sim.constructor` | src/view.rs:197-209 | the grid is the fresh grid of the configuration |
| `View.Sim.Reset` | src/view.rs:212-220 | the grid becomes the fresh grid |
| `View.Sim.StepCell` | src/view.rs:89-108 | the in-place step changes only cell i, to its Step |
| `View.Sim.Update` | src/view.rs:222-240 | escaped cells are left untouched; the others are replaced by their Step |
| `View.Sim.Draw` | src/view.rs:242-273 | a length mismatch fails with fb untouched; otherwise every pixel is the opaque plain colour of its cell |
| `View.DrawnPixelIsOpaque` | src/view.rs:14-23 | every drawn pixel has alpha 0xFF, and exactly OPAQUE (black) for a non-escaped cell |
| `Examples.SecondStepOfTwo` | src/lib.rs:91-97 | from z = 2 the library's step reaches z = 6 and escapes, at iters 2 |
| `Examples.TwoEscapesOnSecondStep` | src/lib.rs:78-98 | c = 2 does not escape on the first step but does on the second |
| `Examples.ViewSecondStepOfTwo` | src/view.rs:101-107 | from z = 2 the draft's step escapes at iters 2 |
| `Examples.ViewTwoEscapesOnSecondStep` | src/view.rs:89-108 | under the draft's rule c = 2 also escapes on step two |
| `Examples.LibrarySecondStepOfThree` | src/lib.rs:81-97 | an escaped c = 3 cell within R2 is stepped again, to z = 12 |
| `Examples.LibraryTwoUpdatesOfThree` | src/lib.rs:132-146 | two library updates of c = 3: escaped, iters 2 |
| `Examples.ViewTwoUpdatesOfThree` | src/view.rs:222-240 | two draft updates of c = 3: escaped, frozen at iters 1 |
| `Examples.RulesDivergeAtThree` | src/lib.rs:81-97 | both rules flag c = 3 after two updates, with different iteration counts |
| `Gen.ToBeBytes` | src/gen.rs:76 | four bytes, which reassemble most significant first into the pixel (with `Gen.ToBeBytesReassemble`) |
| `Gen.ToBeBytesReassemble` | src/gen.rs:76 | shifting the big-endian bytes back into place gives the pixel |
| `Gen.FromLeBytes` | src/gen.rs:80 | byte j of the result, counted from the least significant, is the j-th input byte |
| `Gen.TopByte` | src/gen.rs:76-77 | the top byte is 0 exactly when the pixel is below 2^24 |
| `Gen.ToRgba` | src/gen.rs:76-80 | the alpha byte of every re-encoded pixel is 0xFF (its full layout is in `Gen.ToRgbaLayout`) |
| `Gen.ToRgbaLayout` | src/gen.rs:76-80 | the re-encoded pixel is r, g, b from the low byte up, with alpha 0xFF on top |
| `Gen.ToRgbaOfRgb` | src/gen.rs:71-80 | the library's 0RGB pixel becomes the little-endian bytes [r, g, b, 0xFF] |
| `Gen.FromRgba` | src/gen.rs:76-80 | reading an RGBA pixel back gives a 0RGB pixel |
| `Gen.RgbaRoundTrip` | src/gen.rs:76-80 | the re-encoding of a 0RGB pixel is undone by FromRgba |
| `Gen.ToRgbaInjective` | src/gen.rs:76-80 | distinct 0RGB pixels re-encode to distinct RGBA pixels |
| `Gen.FirstNonZeroTop` | src/gen.rs:74-77 | the first pixel whose top byte is not 0, or the length: all earlier top bytes are 0 |
| `Gen.ReencodedPrefix` | src/gen.rs:74-81 | the partly rewritten framebuffer keeps its length |
| `Gen.ZeroTopFramePasses` | src/gen.rs:77 | a frame of 0RGB pixels never trips the assertion |
| `Gen.DrawnPixelIsZeroTop` | src/lib.rs:14-18 | every pixel the library draws has top byte 0 |
| `Gen.ReencodeRgba` | src/gen.rs:74-81 | ok iff no pixel has a nonzero top byte; pixels before the first bad one are re-encoded and the rest are untouched |
| `Gen.AsU32` | src/gen.rs:17 | `as u32` is 0 for x ≤ 0, 2^32 - 1 for x ≥ 2^32, and the truncation toward zero (the floor) in between |
| `Gen.GenDims` | src/gen.rs:12-17 | the framebuffer is 1080 by 771 |
| `Gen.GenConfig` | src/gen.rs:19-23 | the configuration is the 1080 by 771 default frame, which is non-degenerate |
| `Gen.RenderImage` | src/gen.rs:12-81 | neither assertion fires, and every pixel is the RGBA plain colour of its cell after 1000 updates |
| `Gen.RenderedCellsBounded` | src/gen.rs:31-39 | after the 1000 updates every cell has iters <= 1000 |

## Left out

- Floating point. Every `f64` is an exact `real`, so the model has no rounding, NaN or infinity. The R2 test and the `> 4.0` test are exact comparisons.
- `u32` overflow is not modelled. `iters`, the framebuffer size `fb_dims.x * fb_dims.y` and the pixel index are unbounded `nat`s. The source would overflow `iters` only after 2^32 steps and the size only on frames beyond 2^32 pixels.
- `Engine.IdxToComplex` requires both dimensions to be positive. `Sim::new` only calls it for an index below the size, and such an index exists only when both are positive. `HasPixels` states this.
- `idx_to_complex` divides by `fb_dims.x` and `fb_dims.y`. With a zero dimension the grid is empty and the mapping is never used, so the division by zero is not modelled.
- The lighting terms of `with_lambert_and_colors` and `with_white_lambert` are not modelled. These are the surface normal `z / dz`, the light direction and the dot product. Only the base colour of `with_lambert_and_colors` is (`Palette.LambertBaseColor`). `with_white_lambert` is a lighting term times white or black.
- `Palette.SmoothStripes`: `log2` and `x -> cos(TAU * x)` are parameters, because Dafny has no transcendental functions. The range lemma assumes only that the cosine stays in [-1, 1].
- Parallel updating and drawing (`rayon`) are not modelled. Each cell's step reads and writes only that cell, so the sequential loop is the model of both builds.
- In `src/view.rs`, the lighting palettes `palette_with_lambert_and_colors` and `palette_with_white_lambert` (`src/view.rs:141-189`) are not modelled. `draw` does not use them, since the palette is fixed to `palette_with_plain_colors`, and they repeat the lighting code of `src/palette.rs` left out above.
- In `src/view.rs`, the window, keyboard and timing code, `pick_window_dims`, `rand_color`, the `WHITE`/`BLACK` constants and `main` are left out. These are I/O, randomness and display sizing around the engine.
- In `src/gen.rs`, the `Instant`/`Duration` step timing, the statistics and `image::save_buffer` are left out. These are clock and file I/O. `Gen.RenderImage` models everything between them.
- `src/bin/view.rs` is not part of this model.
- `Sim::draw` takes a `&mut self` that it never mutates. The model's `Draw` only reads the grid.
