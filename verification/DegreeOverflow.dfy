/** Degrees are accumulated in 32-bit unsigned integers: exactly when that is harmless. */
module DegreeOverflow {
  import opened Ir
  import opened LoweringState

  /** The degree of `e` as the machine adds it up. */
  function MachineDegree(e: Expr): (d: nat)
    ensures d < UNSIGNED_RANGE
  {
    match e
    case EConst(_) => 0
    case ELeaf(_) => 1
    case EBin(k, l, r) => if k == AddK || k == SubK then Max(MachineDegree(l), MachineDegree(r))
      else (MachineDegree(l) + MachineDegree(r)) % UNSIGNED_RANGE
    case ENeg(x) => MachineDegree(x)
  }

  /** The machine degree is right exactly when the true degree fits. */
  lemma {:induction false} MachineDegreeExact(e: Expr)
    ensures MachineDegree(e) == Degree(e) <==> Degree(e) < UNSIGNED_RANGE
  {
    match e {
      case EBin(_, l, r) => MachineDegreeExact(l); MachineDegreeExact(r);
      case ENeg(x) => MachineDegreeExact(x);
      case _ =>
    }
  }

  /** A signal squared `n` times over. */
  function Squared(n: nat): Expr {
    if n == 0 then ELeaf(Arg(1)) else EBin(MulK, Squared(n - 1), Squared(n - 1))
  }

  function Pow2(n: nat): nat { if n == 0 then 1 else 2 * Pow2(n - 1) }

  lemma {:induction false} SquaredDegree(n: nat)
    ensures Degree(Squared(n)) == Pow2(n) && MachineDegree(Squared(n)) == Pow2(n) % UNSIGNED_RANGE
  {
    if n == 0 {
    } else {
      SquaredDegree(n - 1);
      DoubleMod(Pow2(n - 1));
    }
  }

  lemma DoubleMod(d: nat)
    ensures (d % UNSIGNED_RANGE + d % UNSIGNED_RANGE) % UNSIGNED_RANGE == (2 * d) % UNSIGNED_RANGE
  {
    var q, r := d / UNSIGNED_RANGE, d % UNSIGNED_RANGE;
    assert d == q * UNSIGNED_RANGE + r;
    if 2 * r < UNSIGNED_RANGE {
      assert 2 * d == (2 * q) * UNSIGNED_RANGE + 2 * r;
    } else {
      assert 2 * d == (2 * q + 1) * UNSIGNED_RANGE + (2 * r - UNSIGNED_RANGE);
    }
  }

  lemma {:induction false} Pow2Add(a: nat, b: nat)
    ensures Pow2(a + b) == Pow2(a) * Pow2(b)
  {
    if a == 0 {
    } else {
      Pow2Add(a - 1, b);
    }
  }

  /** From thirty-two nested squarings on, the true degree is at least 2^32 and the machine takes it for a constant. */
  lemma OverflowHidesDegree(n: nat)
    requires n >= 32
    ensures Degree(Squared(n)) >= UNSIGNED_RANGE && MachineDegree(Squared(n)) == 0
  {
    hide Degree, MachineDegree, Squared, Pow2;
    SquaredDegree(n);
    Pow2Add(32, n - 32);
    Pow2Range();
    Pow2Positive(n - 32);
    Multiple(Pow2(n - 32));
  }

  lemma Pow2Range()
    ensures Pow2(32) == UNSIGNED_RANGE
  {
    Pow2Add(8, 8);
    Pow2Add(16, 16);
    assert Pow2(8) == 0x100;
  }

  lemma {:induction false} Pow2Positive(n: nat)
    ensures Pow2(n) >= 1
  {
    if n == 0 {
    } else {
      Pow2Positive(n - 1);
    }
  }

  lemma Multiple(k: nat)
    requires k >= 1
    ensures UNSIGNED_RANGE * k >= UNSIGNED_RANGE && (UNSIGNED_RANGE * k) % UNSIGNED_RANGE == 0
  {}
}
