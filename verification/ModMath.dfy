/** Arithmetic modulo a prime: Euclid's lemma and Fermat's little theorem. */
module ModMath {
  function Pow(b: int, e: nat): int { if e == 0 then 1 else b * Pow(b, e - 1) }

  ghost predicate IsPrime(p: int) {
    p >= 2 && forall d :: 2 <= d < p ==> p % d != 0
  }

  // ---------- remainders ----------

  lemma SmallMultiple(k: int, m: int)
    requires m > 0 && -m < k * m < m
    ensures k == 0
  {
    if k >= 1 { AtLeastOnce(k, m); }
    if k <= -1 { AtMostMinusOnce(k, m); }
  }

  lemma AtLeastOnce(k: int, m: int)
    requires k >= 1 && m > 0
    ensures k * m >= m
  {
    assert (k - 1) * m >= 0;
    assert k * m == (k - 1) * m + m;
  }

  lemma AtMostMinusOnce(k: int, m: int)
    requires k <= -1 && m > 0
    ensures k * m <= -m
  {
    assert (-k - 1) * m >= 0;
    assert k * m == -((-k - 1) * m) - m;
  }

  lemma ModUnique(x: int, m: int, q: int, r: int)
    requires m > 0 && 0 <= r < m && x == q * m + r
    ensures x % m == r && x / m == q
  {
    var q', r' := x / m, x % m;
    assert x == q' * m + r' && 0 <= r' < m;
    assert (q - q') * m == q * m - q' * m;
    SmallMultiple(q - q', m);
  }

  lemma ModShift(x: int, k: int, m: int)
    requires m > 0
    ensures (x + k * m) % m == x % m
  {
    assert x + k * m == (x / m + k) * m + x % m;
    ModUnique(x + k * m, m, x / m + k, x % m);
  }

  lemma ModAdd(x: int, y: int, m: int)
    requires m > 0
    ensures (x % m + y % m) % m == (x + y) % m
  {
    assert x + y == (x % m + y % m) + (x / m + y / m) * m;
    ModShift(x % m + y % m, x / m + y / m, m);
  }

  lemma ModMul(x: int, y: int, m: int)
    requires m > 0
    ensures ((x % m) * y) % m == (x * y) % m
  {
    assert x * y == (x % m) * y + ((x / m) * y) * m by {
      assert x == (x / m) * m + x % m;
      assert ((x / m) * m) * y == ((x / m) * y) * m;
    }
    ModShift((x % m) * y, (x / m) * y, m);
  }

  /** Products of congruent factors are congruent. */
  lemma ModMul2(x: int, x': int, y: int, y': int, m: int)
    requires m > 0 && x % m == x' % m && y % m == y' % m
    ensures (x * y) % m == (x' * y') % m
  {
    ModMul(x, y, m);
    ModMul(x', y, m);
    ModMul(y, x', m);
    ModMul(y', x', m);
    assert x' * y == y * x' && x' * y' == y' * x';
  }

  lemma {:induction false} ModPow(x: int, x': int, e: nat, m: int)
    requires m > 0 && x % m == x' % m
    ensures Pow(x, e) % m == Pow(x', e) % m
  {
    if e == 0 {
    } else {
      ModPow(x, x', e - 1, m);
      ModMul2(x, x', Pow(x, e - 1), Pow(x', e - 1), m);
    }
  }

  lemma ModSub(x: int, y: int, m: int)
    requires m > 0
    ensures (x - y) % m == 0 <==> x % m == y % m
  {
    ModAdd(x - y, y, m);
    if (x - y) % m == 0 {
      assert (0 + y % m) % m == y % m;
    }
    if x % m == y % m {
      assert x - y == (x / m - y / m) * m + 0;
      ModUnique(x - y, m, x / m - y / m, 0);
    }
  }

  // ---------- Euclid ----------

  /** A prime that divides a product divides a factor. */
  lemma Euclid(a: int, b: int, p: int)
    requires IsPrime(p) && (a * b) % p == 0
    ensures a % p == 0 || b % p == 0
  {
    if a % p != 0 {
      ModMul(a, b, p);
      EuclidBelow(a % p, b, p);
    }
  }

  lemma EuclidStep(a: int, b: int, p: int, q: int, r: int)
    requires p > 0 && p == q * a + r && (a * b) % p == 0
    ensures (r * b) % p == 0
  {
    var k := (a * b) / p;
    assert a * b == k * p;
    assert r * b == (b - q * k) * p by {
      assert r * b == p * b - (q * a) * b;
      assert (q * a) * b == q * (a * b) == q * (k * p) == (q * k) * p;
      assert p * b == b * p;
      assert (b - q * k) * p == b * p - (q * k) * p;
    }
    ModUnique(r * b, p, b - q * k, 0);
  }

  lemma {:induction false} EuclidBelow(a: int, b: int, p: int)
    requires IsPrime(p) && 0 < a < p && (a * b) % p == 0
    ensures b % p == 0
    decreases a
  {
    if a > 1 {
      var q, r := p / a, p % a;
      assert r != 0 && p == q * a + r;
      EuclidStep(a, b, p, q, r);
      EuclidBelow(r, b, p);
    }
  }

  // ---------- Fermat ----------

  function Choose(n: nat, k: nat): nat {
    if k == 0 then 1 else if n == 0 then 0 else Choose(n - 1, k - 1) + Choose(n - 1, k)
  }

  lemma {:induction false} ChooseAbove(n: nat, k: nat)
    requires k > n
    ensures Choose(n, k) == 0
  {
    if n == 0 {
    } else {
      ChooseAbove(n - 1, k - 1);
      ChooseAbove(n - 1, k);
    }
  }

  lemma {:induction false} ChooseAll(n: nat)
    ensures Choose(n, n) == 1
  {
    if n == 0 {
    } else {
      ChooseAll(n - 1);
      ChooseAbove(n - 1, n);
    }
  }

  lemma {:induction false} Absorb(n: nat, k: nat)
    requires n >= 1 && k >= 1
    ensures k * Choose(n, k) == n * Choose(n - 1, k - 1)
  {
    if n == 1 {
      if k > 1 { ChooseAbove(0, k - 1); ChooseAbove(0, k); }
    } else {
      Absorb(n - 1, k);
      if k == 1 {
        assert Choose(n, 1) == 1 + Choose(n - 1, 1);
      } else {
        Absorb(n - 1, k - 1);
        AbsorbStep(n, k, Choose(n - 2, k - 2), Choose(n - 2, k - 1), Choose(n - 1, k - 1), Choose(n - 1, k));
      }
    }
  }

  lemma AbsorbStep(n: int, k: int, u: int, v: int, x: int, y: int)
    requires x == u + v && k * y == (n - 1) * v && (k - 1) * x == (n - 1) * u
    ensures k * (x + y) == n * x
  {
    assert k * (x + y) == (k - 1) * x + x + k * y;
    assert (n - 1) * u + (n - 1) * v == (n - 1) * x;
    assert n * x == (n - 1) * x + x;
  }

  function BinomialSum(a: int, n: nat, m: nat): int {
    Choose(n, m) * Pow(a, m) + if m == 0 then 0 else BinomialSum(a, n, m - 1)
  }

  lemma {:induction false} BinomialStep(a: int, n: nat, m: nat)
    requires m >= 1
    ensures BinomialSum(a, n + 1, m) == BinomialSum(a, n, m) + a * BinomialSum(a, n, m - 1)
  {
    var x, y, w := Choose(n, m - 1), Choose(n, m), Pow(a, m - 1);
    if m == 1 {
      assert BinomialSum(a, n + 1, 0) == 1 && BinomialSum(a, n, 0) == 1;
      StepSum(a, x, y, w, 1, 0);
    } else {
      BinomialStep(a, n, m - 1);
      StepSum(a, x, y, w, BinomialSum(a, n, m - 1), BinomialSum(a, n, m - 2));
    }
  }

  lemma StepSum(a: int, x: int, y: int, w: int, b: int, s: int)
    ensures (x + y) * (a * w) + (b + a * s) == (y * (a * w) + b) + a * (x * w + s)
  {
    assert (x + y) * (a * w) == x * (a * w) + y * (a * w);
    assert x * (a * w) == a * (x * w);
    assert a * (x * w + s) == a * (x * w) + a * s;
  }

  lemma {:induction false} Binomial(a: int, n: nat)
    ensures Pow(a + 1, n) == BinomialSum(a, n, n)
  {
    if n == 0 {
    } else {
      hide BinomialSum, Choose;
      Binomial(a, n - 1);
      BinomialStep(a, n - 1, n);
      SumEnds(a, n - 1);
      PlusOne(a, BinomialSum(a, n - 1, n - 1));
    }
  }

  /** Behind its last term the sum grows no more. */
  lemma SumEnds(a: int, n: nat)
    ensures BinomialSum(a, n, n + 1) == BinomialSum(a, n, n)
  {
    hide Pow;
    ChooseAbove(n, n + 1);
  }

  lemma PlusOne(a: int, s: int)
    ensures (a + 1) * s == s + a * s
  {}

  /** A prime divides the inner binomial coefficients of its own row. */
  lemma ChooseDivisible(p: nat, k: nat)
    requires IsPrime(p) && 1 <= k < p
    ensures Choose(p, k) % p == 0
  {
    Absorb(p, k);
    ModUnique(k * Choose(p, k), p, Choose(p - 1, k - 1), 0);
    Euclid(k, Choose(p, k), p);
    ModUnique(k, p, 0, k);
  }

  lemma {:induction false} InnerSum(a: int, p: nat, m: nat)
    requires IsPrime(p) && m < p
    ensures BinomialSum(a, p, m) % p == 1
  {
    if m == 0 {
      ModUnique(1, p, 0, 1);
    } else {
      InnerSum(a, p, m - 1);
      ChooseDivisible(p, m);
      DropMultiple(Choose(p, m), Pow(a, m), BinomialSum(a, p, m - 1), p);
    }
  }

  lemma DropMultiple(x: int, y: int, z: int, p: int)
    requires p > 0 && x % p == 0
    ensures (x * y + z) % p == z % p
  {
    var k := x / p;
    assert x * y == (k * y) * p;
    ModShift(z, k * y, p);
  }

  /** Fermat's little theorem. */
  lemma {:induction false} Fermat(a: nat, p: nat)
    requires IsPrime(p)
    ensures Pow(a, p) % p == a % p
  {
    if a == 0 {
      assert 0 * Pow(0, p - 1) == 0;
    } else {
      Fermat(a - 1, p);
      Binomial(a - 1, p);
      InnerSum(a - 1, p, p - 1);
      ChooseAll(p);
      SumStep(Pow(a - 1, p), BinomialSum(a - 1, p, p - 1), a - 1, p);
    }
  }

  lemma SumStep(x: int, s: int, a: int, p: int)
    requires p >= 2 && x % p == a % p && s % p == 1
    ensures (x + s) % p == (a + 1) % p
  {
    ModAdd(x, s, p);
    ModAdd(a, 1, p);
    ModUnique(1, p, 0, 1);
  }

  /** The multiplicative form: a^(p-1) is 1 for every a that p does not divide. */
  lemma FermatInverse(a: nat, p: nat)
    requires IsPrime(p) && a % p != 0
    ensures Pow(a, p - 1) % p == 1
  {
    Fermat(a, p);
    CancelFactor(a, Pow(a, p - 1), p);
  }

  lemma CancelFactor(a: int, w: int, p: int)
    requires IsPrime(p) && a % p != 0 && (a * w) % p == a % p
    ensures w % p == 1
  {
    ModSub(a * w, a, p);
    assert a * w - a == a * (w - 1);
    Euclid(a, w - 1, p);
    ModSub(w, 1, p);
    ModUnique(1, p, 0, 1);
  }
}
