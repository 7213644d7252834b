/** Reference definitions of the escape-time orbit of a sample point `c`, independent of
    any grid cell: the iterates z_n of z <- z^2 + c from z_0 = 0, the derivatives dz_n of
    dz <- 2*dz*z + dc from dz_0 = dc = 1, and the first index at which |z_n|^2 passes a bound.
    Both stepping rules of the engine are proved against these. */
module Orbits {
  import opened Numerics

  /** z_n: z_0 = 0 and z_{n+1} = z_n^2 + c. */
  function Orbit(c: Complex, n: nat): Complex {
    if n == 0 then Zero
    else
      var z := Orbit(c, n - 1);
      Add(Mul(z, z), c)
  }

  /** dz_n: dz_0 = 1 and dz_{n+1} = 2 * dz_n * z_n + 1 (the seed dc is always 1 + 0i). */
  function DOrbit(c: Complex, n: nat): Complex {
    if n == 0 then One
    else Add(Mul(Scale(DOrbit(c, n - 1), 2.0), Orbit(c, n - 1)), One)
  }

  /** The least n < k with f(n) > bound, or k when there is none. */
  function FirstAbove(f: nat -> real, bound: real, k: nat): (n: nat)
    ensures n <= k
    ensures forall j :: 0 <= j < n ==> f(j) <= bound
    ensures n < k ==> f(n) > bound
  {
    if k == 0 then 0
    else
      var p := FirstAbove(f, bound, k - 1);
      if p < k - 1 then p
      else if f(k - 1) > bound then k - 1
      else k
  }

  /** The squared magnitudes |z_n|^2 along the orbit of c. */
  function OrbitNorms(c: Complex): nat -> real {
    (j: nat) => NormSqr(Orbit(c, j))
  }

  /** The least n < k with |z_n|^2 > bound, or k when there is none. */
  function FirstExceeding(c: Complex, bound: real, k: nat): (n: nat)
    ensures n <= k
  {
    FirstAbove(OrbitNorms(c), bound, k)
  }

  /** Every iterate before the first exceeding index stays within the bound. */
  lemma FirstExceedingBelow(c: Complex, bound: real, k: nat, j: nat)
    requires j < FirstExceeding(c, bound, k)
    ensures NormSqr(Orbit(c, j)) <= bound
  {
    assert OrbitNorms(c)(j) <= bound;
  }

  /** A first exceeding index below the cap is an iterate whose |z|^2 exceeds the bound. */
  lemma FirstExceedingHit(c: Complex, bound: real, k: nat)
    ensures FirstExceeding(c, bound, k) < k ==> NormSqr(Orbit(c, FirstExceeding(c, bound, k))) > bound
  {
    var n := FirstExceeding(c, bound, k);
    if n < k {
      assert OrbitNorms(c)(n) > bound;
    }
  }

  /** One more step of the cap either keeps the first exceeding index (when it was found
      below k - 1, or the iterate z_{k-1} exceeds), or moves it to k. */
  lemma FirstExceedingStep(c: Complex, bound: real, k: nat)
    requires k > 0
    ensures var p := FirstExceeding(c, bound, k - 1);
      FirstExceeding(c, bound, k)
        == if p < k - 1 then p else if NormSqr(Orbit(c, k - 1)) > bound then k - 1 else k
  {
  }

  /** Whether one of z_1 .. z_n has squared magnitude above 4. */
  function EscapedBy(c: Complex, n: nat): bool {
    if n == 0 then false
    else EscapedBy(c, n - 1) || NormSqr(Orbit(c, n)) > 4.0
  }

  /** EscapedBy(c, n) holds exactly when some z_j with 1 <= j <= n has |z_j|^2 > 4. */
  lemma {:induction false} EscapedByMeaning(c: Complex, n: nat)
    ensures !EscapedBy(c, n) <==> forall j :: 1 <= j <= n ==> NormSqr(Orbit(c, j)) <= 4.0
  {
    if n > 0 {
      EscapedByMeaning(c, n - 1);
      assert EscapedBy(c, n) == (EscapedBy(c, n - 1) || NormSqr(Orbit(c, n)) > 4.0);
      if !EscapedBy(c, n) {
        assert forall j :: 1 <= j <= n ==> NormSqr(Orbit(c, j)) <= 4.0;
      } else {
        assert !forall j :: 1 <= j <= n ==> NormSqr(Orbit(c, j)) <= 4.0;
      }
    }
  }

  /** The orbit of c = 0 stays at its starting point: z_n = 0 for every n. */
  lemma {:induction false} OrbitOfZero(n: nat)
    ensures Orbit(Zero, n) == Zero
  {
    if n > 0 {
      OrbitOfZero(n - 1);
      var z := Orbit(Zero, n - 1);
      assert Mul(z, z) == Zero;
    }
  }

  /** Along the orbit of c = 0 the derivative stays at its seed: dz_n = 1 for every n. */
  lemma {:induction false} DOrbitOfZero(n: nat)
    ensures DOrbit(Zero, n) == One
  {
    if n > 0 {
      DOrbitOfZero(n - 1);
      OrbitOfZero(n - 1);
      var dz := DOrbit(Zero, n - 1);
      assert Mul(Scale(dz, 2.0), Orbit(Zero, n - 1)) == Zero;
    }
  }

  /** |z_n|^2 stays 0 on the orbit of 0. */
  lemma OrbitOfZeroNorm(n: nat)
    ensures NormSqr(Orbit(Zero, n)) == 0.0
  {
    OrbitOfZero(n);
    assert NormSqr(Zero) == 0.0;
  }

  /** The first exceeding index of the orbit of 0, for any bound that is not negative, is
      the cap. */
  lemma ZeroNeverExceeds(bound: real, k: nat)
    requires bound >= 0.0
    ensures FirstExceeding(Zero, bound, k) == k
  {
    FirstExceedingHit(Zero, bound, k);
    OrbitOfZeroNorm(FirstExceeding(Zero, bound, k));
  }

  /** The orbit of 0 never escapes. */
  lemma ZeroNeverEscapedBy(k: nat)
    ensures !EscapedBy(Zero, k)
  {
    EscapedByMeaning(Zero, k);
    forall j | 1 <= j <= k
      ensures NormSqr(Orbit(Zero, j)) <= 4.0
    {
      OrbitOfZeroNorm(j);
    }
  }
}
