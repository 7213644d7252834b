/** The still-image renderer of src/gen.rs: the fixed viewport and framebuffer size, the
    1000 updates of the simulation, drawing with the plain palette, and the in-place
    re-encoding of every 0RGB pixel as little-endian RGBA with an opaque alpha byte. */
module Gen {
  import opened Numerics
  import Engine
  import Palette

  /** The alpha byte written into every re-encoded pixel. */
  const Alpha: bv8 := 0xFF

  /** Number of updates before the frame is drawn. */
  const Steps: nat := 1000

  /** `u32::to_be_bytes`: the four bytes of a pixel, most significant first. */
  function ToBeBytes(px: bv32): (bs: seq<bv8>)
    ensures |bs| == 4
  {
    [(px >> 24) as bv8, ((px >> 16) & 0xFF) as bv8, ((px >> 8) & 0xFF) as bv8, (px & 0xFF) as bv8]
  }

  /** Putting the big-endian bytes back together in order gives the pixel itself. */
  lemma ToBeBytesReassemble(px: bv32)
    ensures var bs := ToBeBytes(px);
      (bs[0] as bv32 << 24) | (bs[1] as bv32 << 16) | (bs[2] as bv32 << 8) | bs[3] as bv32 == px
  {
  }

  /** `u32::from_le_bytes`: the first byte is the least significant. */
  function FromLeBytes(bs: seq<bv8>): (px: bv32)
    requires |bs| == 4
    ensures px & 0xFF == bs[0] as bv32 && (px >> 8) & 0xFF == bs[1] as bv32
    ensures (px >> 16) & 0xFF == bs[2] as bv32 && px >> 24 == bs[3] as bv32
  {
    bs[0] as bv32 | (bs[1] as bv32 << 8) | (bs[2] as bv32 << 16) | (bs[3] as bv32 << 24)
  }

  /** The top byte of a pixel, which a 0RGB pixel leaves at zero. */
  function TopByte(px: bv32): (z: bv8)
    ensures z == 0 <==> px >> 24 == 0
  {
    ToBeBytes(px)[0]
  }

  /** The re-encoding of one pixel: the bytes [z, r, g, b] of the 0RGB value become the
      little-endian bytes [r, g, b, 0xFF]. */
  function ToRgba(px: bv32): (q: bv32)
    ensures q >> 24 == 0xFF
  {
    var bs := ToBeBytes(px);
    FromLeBytes([bs[1], bs[2], bs[3], Alpha])
  }

  /** In shifts and masks: red moves to the lowest byte, green stays, blue moves up to bits
      16..23 and the top byte is the alpha 0xFF, whatever the top byte of the input was. */
  lemma ToRgbaLayout(px: bv32)
    ensures ToRgba(px) & 0xFF == (px >> 16) & 0xFF
    ensures (ToRgba(px) >> 8) & 0xFF == (px >> 8) & 0xFF
    ensures (ToRgba(px) >> 16) & 0xFF == px & 0xFF
    ensures ToRgba(px) >> 24 == 0xFF
  {
  }

  /** The 0RGB pixel of the library's `rgb` becomes the little-endian bytes of its
      channels followed by the alpha byte. */
  lemma ToRgbaOfRgb(r: bv8, g: bv8, b: bv8)
    ensures ToRgba(Engine.Rgb(r, g, b)) == FromLeBytes([r, g, b, Alpha])
  {
  }

  /** Reads an RGBA pixel back as 0RGB. */
  function FromRgba(q: bv32): (px: bv32)
    ensures px >> 24 == 0
  {
    ((q & 0xFF) << 16) | (((q >> 8) & 0xFF) << 8) | ((q >> 16) & 0xFF)
  }

  /** The re-encoding loses nothing on a 0RGB pixel: reading it back gives the pixel. */
  lemma RgbaRoundTrip(px: bv32)
    requires px >> 24 == 0
    ensures FromRgba(ToRgba(px)) == px
  {
    ToRgbaLayout(px);
  }

  /** Distinct 0RGB pixels re-encode to distinct RGBA pixels. */
  lemma ToRgbaInjective(p: bv32, q: bv32)
    requires p >> 24 == 0 && q >> 24 == 0
    requires ToRgba(p) == ToRgba(q)
    ensures p == q
  {
    RgbaRoundTrip(p);
    RgbaRoundTrip(q);
  }

  /** The index of the first pixel whose top byte is not zero, or the length when there is
      none: where the re-encoding loop's assertion fails. */
  function FirstNonZeroTop(s: seq<bv32>): (k: nat)
    ensures k <= |s|
    ensures forall j :: 0 <= j < k ==> TopByte(s[j]) == 0
    ensures k < |s| ==> TopByte(s[k]) != 0
  {
    if |s| == 0 then 0
    else if TopByte(s[0]) != 0 then 0
    else 1 + FirstNonZeroTop(s[1..])
  }

  /** The framebuffer after the loop has rewritten its first `k` pixels. */
  function ReencodedPrefix(s: seq<bv32>, k: nat): (r: seq<bv32>)
    requires k <= |s|
    ensures |r| == |s|
  {
    seq(|s|, i requires 0 <= i < |s| => if i < k then ToRgba(s[i]) else s[i])
  }

  /** A framebuffer of 0RGB pixels passes every assertion of the loop. */
  lemma ZeroTopFramePasses(s: seq<bv32>)
    requires forall i :: 0 <= i < |s| ==> s[i] >> 24 == 0
    ensures FirstNonZeroTop(s) == |s|
  {
    if FirstNonZeroTop(s) < |s| {
      assert TopByte(s[FirstNonZeroTop(s)]) != 0;
    }
  }

  /** Every pixel the library draws is 0RGB, so a drawn frame passes the loop's assertion. */
  lemma DrawnPixelIsZeroTop(v: Vec3)
    ensures Engine.PixelColor(v) >> 24 == 0
    ensures TopByte(Engine.PixelColor(v)) == 0
  {
  }

  /** The re-encoding loop. Pixels are rewritten in order; at the first pixel whose top byte
      is not zero the assertion fails (`ok` is false) and that pixel and all later ones are
      left as they were, while the earlier ones stay rewritten. */
  method ReencodeRgba(fb: array<bv32>) returns (ok: bool)
    modifies fb
    ensures var k := FirstNonZeroTop(old(fb[..]));
      ok == (k == fb.Length) && fb[..] == ReencodedPrefix(old(fb[..]), k)
  {
    ghost var start := fb[..];
    ghost var k := FirstNonZeroTop(start);
    for i := 0 to fb.Length
      invariant i <= k
      invariant forall j :: 0 <= j < i ==> fb[j] == ToRgba(start[j])
      invariant forall j :: i <= j < fb.Length ==> fb[j] == start[j]
    {
      var bs := ToBeBytes(fb[i]);
      if bs[0] != 0 {
        assert fb[..] == ReencodedPrefix(start, k);
        return false;
      }
      fb[i] := FromLeBytes([bs[1], bs[2], bs[3], Alpha]);
    }
    assert fb[..] == ReencodedPrefix(start, k);
    return true;
  }

  /** `f as u32` for a finite value: truncation toward zero, saturating at 0 and 2^32 - 1. */
  function AsU32(x: real): (n: nat)
    ensures n < 0x1_0000_0000
    ensures x <= 0.0 ==> n == 0
    ensures x >= 0x1_0000_0000 as real ==> n == 0x1_0000_0000 - 1
    ensures 0.0 <= x < 0x1_0000_0000 as real ==> n as real <= x < n as real + 1.0
  {
    if x <= 0.0 then 0
    else if x >= 0x1_0000_0000 as real then 0x1_0000_0000 - 1
    else x.Floor
  }

  /** The framebuffer size: 1080 pixels wide and as tall as the aspect ratio of the default
      frame allows, truncated. */
  function GenDims(): (d: Engine.Dims)
    ensures d == Engine.Dims(1080, 771)
  {
    var (frameMin, frameMax) := Engine.MakeDefaultFrame();
    var aspect := (frameMax.x - frameMin.x) / (frameMax.y - frameMin.y);
    var width := 1080.0;
    var height := width / aspect;
    assert aspect == 1.4;
    assert 771.0 <= height < 772.0;
    Engine.Dims(AsU32(width), AsU32(height))
  }

  /** The configuration gen.rs renders with: the default frame on a GenDims framebuffer. */
  function GenConfig(): (cfg: Engine.SimConfig)
    ensures cfg.fbDims == Engine.Dims(1080, 771) && Engine.NonDegenerate(cfg)
  {
    var (frameMin, frameMax) := Engine.MakeDefaultFrame();
    Engine.SimConfig(GenDims(), frameMin, frameMax)
  }

  /** The rendering of gen.rs without the timing and the file: a fresh simulation of the
      default frame updated Steps times, drawn with the plain palette into a zeroed
      framebuffer, then re-encoded as RGBA. Neither assertion fires, and every pixel is the
      RGBA form of the plain colour of its cell after Steps updates. */
  method RenderImage() returns (fb: array<bv32>, ok: bool)
    ensures ok
    ensures fb.Length == Engine.Size(GenConfig())
    ensures forall i :: 0 <= i < fb.Length ==>
      fb[i] == ToRgba(Engine.PixelColor(Palette.PlainColors(Engine.Run(GenConfig(), Steps)[i])))
  {
    var cfg := GenConfig();
    var sim := new Engine.Sim(cfg);
    for step := 0 to Steps
      invariant sim.Valid() && sim.config == cfg && sim.updates == step
    {
      sim.Update();
    }
    fb := new bv32[cfg.fbDims.x * cfg.fbDims.y](_ => 0);
    var drawn := sim.Draw(fb, Palette.PlainColors);
    if !drawn {
      return fb, false;
    }
    ghost var pixels := fb[..];
    forall i | 0 <= i < |pixels|
      ensures pixels[i] >> 24 == 0
    {
      DrawnPixelIsZeroTop(Palette.PlainColors(sim.grid[i]));
    }
    ZeroTopFramePasses(pixels);
    ok := ReencodeRgba(fb);
  }

  /** After the Steps updates every cell has taken at most Steps steps. */
  lemma RenderedCellsBounded(i: nat)
    requires i < Engine.Size(GenConfig())
    ensures Engine.Run(GenConfig(), Steps)[i].iters <= Steps
  {
    Engine.RunCells(GenConfig(), Steps, i);
  }
}
