/** Exact stand-ins for the floating-point values of the renderer: complex numbers
    (num::Complex<f64>) and the 2- and 3-component vectors of ultraviolet (DVec2, DVec3),
    all over Dafny's unbounded `real`. No rounding, NaN or infinity is modelled. */
module Numerics {

  datatype Complex = Complex(re: real, im: real)

  const Zero: Complex := Complex(0.0, 0.0)
  const One: Complex := Complex(1.0, 0.0)

  function Add(a: Complex, b: Complex): Complex {
    Complex(a.re + b.re, a.im + b.im)
  }

  function Mul(a: Complex, b: Complex): Complex {
    Complex(a.re * b.re - a.im * b.im, a.re * b.im + a.im * b.re)
  }

  /** A complex number times a real scalar (`dz * 2.` in the source). */
  function Scale(a: Complex, k: real): Complex {
    Complex(a.re * k, a.im * k)
  }

  function Square(x: real): (s: real)
    ensures s >= 0.0
  {
    x * x
  }

  /** The squared magnitude |a|^2, num's `norm_sqr`. */
  function NormSqr(a: Complex): (n: real)
    ensures n >= 0.0
  {
    Square(a.re) + Square(a.im)
  }

  datatype Vec2 = Vec2(x: real, y: real)

  datatype Vec3 = Vec3(x: real, y: real, z: real)

  /** ultraviolet's `DVec3::broadcast`: the same value in every channel. */
  function Broadcast(v: real): Vec3 {
    Vec3(v, v, v)
  }

  function Times(k: real, v: Vec3): Vec3 {
    Vec3(k * v.x, k * v.y, k * v.z)
  }

  function Div(v: Vec3, k: real): Vec3
    requires k != 0.0
  {
    Vec3(v.x / k, v.y / k, v.z / k)
  }

  predicate InUnitInterval(v: real) {
    0.0 <= v <= 1.0
  }

  /** Every channel of a colour lies in [0, 1]. */
  predicate InUnitCube(v: Vec3) {
    InUnitInterval(v.x) && InUnitInterval(v.y) && InUnitInterval(v.z)
  }

  function Max(a: real, b: real): real {
    if a >= b then a else b
  }

  function Min(a: real, b: real): real {
    if a <= b then a else b
  }

  /** `v.max(0.).min(1.)`: one channel of ultraviolet's `clamp` to [0, 1]. */
  function Clamp01(v: real): (r: real)
    ensures InUnitInterval(r)
    ensures InUnitInterval(v) ==> r == v
    ensures v < 0.0 ==> r == 0.0
    ensures v > 1.0 ==> r == 1.0
  {
    Min(Max(v, 0.0), 1.0)
  }

  /** A coordinate `x` of `0..w` normalised to [0, 1), as `(x as f64) / (w as f64)`. */
  lemma FractionBounds(x: nat, w: nat)
    requires x < w
    ensures 0.0 <= x as real / w as real < 1.0
  {
    assert (x as real / w as real) * w as real == x as real;
  }

  lemma FractionStrict(a: nat, b: nat, w: nat)
    requires a < b && w > 0
    ensures a as real / w as real < b as real / w as real
  {
    assert b as real / w as real - a as real / w as real == (b - a) as real / w as real;
  }

  /** Linear interpolation from `lo` towards `hi` is strictly monotone in the parameter. */
  lemma LerpStrict(lo: real, hi: real, s: real, t: real)
    requires lo < hi && s < t
    ensures lo + (hi - lo) * s < lo + (hi - lo) * t
  {
    assert (hi - lo) * t - (hi - lo) * s == (hi - lo) * (t - s);
    assert (hi - lo) * (t - s) > 0.0;
  }

  /** The product of two reals that are not negative is not negative. */
  lemma MulNonNeg(a: real, b: real)
    requires a >= 0.0 && b >= 0.0
    ensures a * b >= 0.0
  {
    if a > 0.0 && b > 0.0 {
      assert a * b > 0.0;
    }
  }

  lemma LerpMonotone(lo: real, hi: real, s: real, t: real)
    requires lo <= hi && s <= t
    ensures lo + (hi - lo) * s <= lo + (hi - lo) * t
  {
    assert (hi - lo) * t - (hi - lo) * s == (hi - lo) * (t - s);
    MulNonNeg(hi - lo, t - s);
  }
}
