/** The transfer functions of the range analysis, each proved to cover the operation it stands for. */
module IntervalOps {
  import opened ModMath
  import opened DynamicInt
  import opened Intervals

  // ---------- ranges of integers ----------

  function NegUnreduced(u: Unreduced): Unreduced { if Width(u) == 0 then u else Unreduced(-u.b, -u.a) }

  function AddUnreduced(u: Unreduced, v: Unreduced): Unreduced { Unreduced(u.a + v.a, u.b + v.b) }

  function Min4(w: int, x: int, y: int, z: int): int { Lesser(Lesser(w, x), Lesser(y, z)) }
  function Max4(w: int, x: int, y: int, z: int): int { Greater(Greater(w, x), Greater(y, z)) }
  function Lesser(x: int, y: int): int { if y < x then y else x }
  function Greater(x: int, y: int): int { if y > x then y else x }

  function MulUnreduced(u: Unreduced, v: Unreduced): Unreduced {
    Unreduced(Min4(u.a * v.a, u.a * v.b, u.b * v.a, u.b * v.b), Max4(u.a * v.a, u.a * v.b, u.b * v.a, u.b * v.b))
  }

  lemma ScaledRange(x: int, c: int, d: int, y: int)
    requires c <= y <= d
    ensures Lesser(x * c, x * d) <= x * y <= Greater(x * c, x * d)
  {
    if x >= 0 {
      assert x * (y - c) >= 0 && x * (d - y) >= 0;
    } else {
      assert (-x) * (y - c) >= 0 && (-x) * (d - y) >= 0;
    }
  }

  /** A product of two ranges is bounded by the products of their ends. */
  lemma ProductRange(u: Unreduced, v: Unreduced, x: int, y: int)
    requires u.a <= x <= u.b && v.a <= y <= v.b
    ensures MulUnreduced(u, v).a <= x * y <= MulUnreduced(u, v).b
  {
    ScaledRange(x, v.a, v.b, y);
    ScaledRange(v.a, u.a, u.b, x);
    ScaledRange(v.b, u.a, u.b, x);
  }

  // ---------- field operations ----------

  function Add(f: Field, lhs: Interval, rhs: Interval): Interval
    requires f.Valid()
  {
    if lhs.kind.Empty? || rhs.kind.Entire? then rhs
    else if rhs.kind.Empty? || lhs.kind.Entire? then lhs
    else ReduceInterval(f, AddUnreduced(FirstUnreduced(f, lhs), FirstUnreduced(f, rhs)))
  }

  function Negate(f: Field, i: Interval): Interval
    requires f.Valid()
  {
    ReduceInterval(f, NegUnreduced(FirstUnreduced(f, i)))
  }

  function Sub(f: Field, lhs: Interval, rhs: Interval): Interval
    requires f.Valid()
  {
    Add(f, lhs, Negate(f, rhs))
  }

  function Mul(f: Field, lhs: Interval, rhs: Interval): Interval
    requires f.Valid()
  {
    if lhs == Point(f, 0) || rhs == Point(f, 0) then Point(f, 0)
    else if lhs.kind.Empty? || rhs.kind.Empty? then EmptyInterval()
    else if lhs.kind.Entire? || rhs.kind.Entire? then EntireInterval()
    else if Are(lhs, rhs, TypeB, TypeB)
      then ReduceInterval(f, MulUnreduced(SecondUnreduced(f, lhs), SecondUnreduced(f, rhs)))
    else ReduceInterval(f, MulUnreduced(FirstUnreduced(f, lhs), FirstUnreduced(f, rhs)))
  }

  lemma ModInRange(f: Field, z: int)
    requires f.Valid()
    ensures 0 <= z % f.prime < f.prime
  {}

  /** Sums stay inside. */
  lemma AddSound(f: Field, lhs: Interval, rhs: Interval, x: int, y: int)
    requires f.Valid() && Proper(f, lhs) && Proper(f, rhs) && Contains(f, lhs, x) && Contains(f, rhs, y)
    ensures Proper(f, Add(f, lhs, rhs)) && Contains(f, Add(f, lhs, rhs), (x + y) % f.prime)
  {
    if !lhs.kind.Entire? && !rhs.kind.Entire? {
      RepresentativeFits(f, lhs, x);
      RepresentativeFits(f, rhs, y);
      var u, v := Representative(f, lhs, x), Representative(f, rhs, y);
      ReduceSound(f, AddUnreduced(FirstUnreduced(f, lhs), FirstUnreduced(f, rhs)), u + v);
      ModAdd(u, v, f.prime);
      ModAdd(x, y, f.prime);
      Periods(f, x);
      Periods(f, y);
    }
  }

  /** So do negatives. */
  lemma NegateSound(f: Field, i: Interval, x: int)
    requires f.Valid() && Proper(f, i) && Contains(f, i, x)
    ensures Proper(f, Negate(f, i)) && Contains(f, Negate(f, i), (-x) % f.prime)
  {
    RepresentativeFits(f, i, x);
    var u := Representative(f, i, x);
    ReduceSound(f, NegUnreduced(FirstUnreduced(f, i)), -u);
    Periods(f, x);
    assert -u == (-1) * u && -x == (-1) * x;
    ModMul2(-1, -1, u, x, f.prime);
  }

  /** Differences. */
  lemma SubSound(f: Field, lhs: Interval, rhs: Interval, x: int, y: int)
    requires f.Valid() && Proper(f, lhs) && Proper(f, rhs) && Contains(f, lhs, x) && Contains(f, rhs, y)
    ensures Proper(f, Sub(f, lhs, rhs)) && Contains(f, Sub(f, lhs, rhs), (x - y) % f.prime)
  {
    hide Contains, Add, Negate;
    NegateSound(f, rhs, y);
    AddSound(f, lhs, Negate(f, rhs), x, (-y) % f.prime);
    SubReduced(x, y, f.prime);
  }

  lemma SubReduced(x: int, y: int, p: int)
    requires p > 0
    ensures (x + (-y) % p) % p == (x - y) % p
  {
    AddReduced(x, -y, p);
    assert x + -y == x - y;
  }

  lemma AddReduced(x: int, y: int, p: int)
    requires p > 0
    ensures (x + y % p) % p == (x + y) % p
  {
    ModAdd(x, y % p, p);
    ModAdd(x, y, p);
    ModUnique(y % p, p, 0, y % p);
  }

  /** Products. */
  lemma MulSound(f: Field, lhs: Interval, rhs: Interval, x: int, y: int)
    requires f.Valid() && Proper(f, lhs) && Proper(f, rhs) && Contains(f, lhs, x) && Contains(f, rhs, y)
    ensures Proper(f, Mul(f, lhs, rhs)) && Contains(f, Mul(f, lhs, rhs), (x * y) % f.prime)
  {
    hide MulUnreduced;
    Canonical(f, 0);
    if lhs == Point(f, 0) || rhs == Point(f, 0) {
      ZeroProduct(x, y, f.prime);
    } else if lhs.kind.Entire? || rhs.kind.Entire? {
      ModInRange(f, x * y);
    } else if Are(lhs, rhs, TypeB, TypeB) {
      MulReduced(f, SecondUnreduced(f, lhs), SecondUnreduced(f, rhs), x - f.prime, y - f.prime, x, y);
    } else {
      RepresentativeFits(f, lhs, x);
      RepresentativeFits(f, rhs, y);
      MulReduced(f, FirstUnreduced(f, lhs), FirstUnreduced(f, rhs), Representative(f, lhs, x),
        Representative(f, rhs, y), x, y);
    }
  }

  lemma ZeroProduct(x: int, y: int, p: int)
    requires p > 0 && (x == 0 || y == 0)
    ensures (x * y) % p == 0
  {
    assert x * y == 0;
    ModUnique(0, p, 0, 0);
  }

  lemma MulReduced(f: Field, u: Unreduced, v: Unreduced, x': int, y': int, x: int, y: int)
    requires f.Valid() && u.a <= x' <= u.b && v.a <= y' <= v.b && 0 <= x < f.prime && 0 <= y < f.prime
    requires (x' == x || x' == x - f.prime) && (y' == y || y' == y - f.prime)
    ensures var i := ReduceInterval(f, MulUnreduced(u, v)); Proper(f, i) && Contains(f, i, (x * y) % f.prime)
  {
    ProductRange(u, v, x', y');
    hide MulUnreduced;
    ReduceSound(f, MulUnreduced(u, v), x' * y');
    Periods(f, x);
    Periods(f, y);
    ModMul2(x', x, y', y, f.prime);
  }

  // ---------- nothing else is inside ----------

  lemma FormHolds(f: Field, i: Interval, z: int)
    requires f.Valid() && Proper(f, i) && FirstUnreduced(f, i).a <= z <= FirstUnreduced(f, i).b
    ensures Contains(f, i, z % f.prime)
  {
    if z < 0 { ModUnique(z, f.prime, -1, z + f.prime); } else { ModUnique(z, f.prime, 0, z); }
  }

  lemma SplitSum(u: Unreduced, v: Unreduced, z: int) returns (x: int, y: int)
    requires u.a <= u.b && v.a <= v.b && u.a + v.a <= z <= u.b + v.b
    ensures x + y == z && u.a <= x <= u.b && v.a <= y <= v.b
  {
    x := if z - v.a <= u.b then z - v.a else u.b;
    y := z - x;
  }

  /** A sum holds nothing but sums, unless it gives up; and it gives up only on an operand that already has or on sums
      that reach too far. */
  lemma AddExact(f: Field, lhs: Interval, rhs: Interval)
    requires f.Valid() && Proper(f, lhs) && Proper(f, rhs) && !lhs.kind.Empty? && !rhs.kind.Empty?
    ensures Add(f, lhs, rhs).kind.Entire? <==> (lhs.kind.Entire? || rhs.kind.Entire? ||
        TooWide(f, AddUnreduced(FirstUnreduced(f, lhs), FirstUnreduced(f, rhs))))
    ensures !Add(f, lhs, rhs).kind.Entire? ==> forall z :: Contains(f, Add(f, lhs, rhs), z) ==>
        exists x, y :: Contains(f, lhs, x) && Contains(f, rhs, y) && (x + y) % f.prime == z
  {
    var u, v := FirstUnreduced(f, lhs), FirstUnreduced(f, rhs);
    ReduceGivesUp(f, AddUnreduced(u, v));
    hide ReduceInterval, TooWide;
    if !Add(f, lhs, rhs).kind.Entire? {
      forall z | Contains(f, Add(f, lhs, rhs), z)
        ensures exists x, y :: Contains(f, lhs, x) && Contains(f, rhs, y) && (x + y) % f.prime == z
      {
        var t := ReduceExact(f, AddUnreduced(u, v), z);
        var x, y := SplitSum(u, v, t);
        FormHolds(f, lhs, x);
        FormHolds(f, rhs, y);
        AddReduced(x % f.prime, y, f.prime);
        AddReduced(y, x, f.prime);
        assert (x % f.prime + y % f.prime) % f.prime == z;
      }
    }
  }

  /** An empty operand is taken for zero: the other operand is the answer. */
  lemma AddEmpty(f: Field, i: Interval)
    requires f.Valid() && Proper(f, i)
    ensures Add(f, EmptyInterval(), i) == i && Add(f, i, EmptyInterval()) == i
  {}

  /** Negatives likewise. */
  lemma NegateExact(f: Field, i: Interval)
    requires f.Valid() && Proper(f, i)
    ensures Negate(f, i).kind.Entire? <==> TooWide(f, NegUnreduced(FirstUnreduced(f, i)))
    ensures !Negate(f, i).kind.Entire? ==>
        forall z :: Contains(f, Negate(f, i), z) ==> exists x :: Contains(f, i, x) && (-x) % f.prime == z
  {
    var u := FirstUnreduced(f, i);
    ReduceGivesUp(f, NegUnreduced(u));
    if !Negate(f, i).kind.Entire? {
      forall z | Contains(f, Negate(f, i), z) ensures exists x :: Contains(f, i, x) && (-x) % f.prime == z {
        var t := ReduceExact(f, NegUnreduced(u), z);
        FormHolds(f, i, -t);
        NegReduced(-t, f.prime);
      }
    }
  }

  lemma NegReduced(x: int, p: int)
    requires p > 0
    ensures (-(x % p)) % p == (-x) % p
  {
    assert x == (x / p) * p + x % p;
    var r := (-(x % p)) % p;
    var k := (-(x % p)) / p;
    assert -(x % p) == k * p + r;
    assert (k - x / p) * p == k * p - (x / p) * p;
    ModUnique(-x, p, k - x / p, r);
  }

  /** Differences. */
  lemma SubExact(f: Field, lhs: Interval, rhs: Interval)
    requires f.Valid() && Proper(f, lhs) && Proper(f, rhs) && !lhs.kind.Empty? && !rhs.kind.Empty?
    ensures !Sub(f, lhs, rhs).kind.Entire? ==> forall z :: Contains(f, Sub(f, lhs, rhs), z) ==>
        exists x, y :: Contains(f, lhs, x) && Contains(f, rhs, y) && (x - y) % f.prime == z
  {
    NegateExact(f, rhs);
    ReduceProper(f, NegUnreduced(FirstUnreduced(f, rhs)));
    AddExact(f, lhs, Negate(f, rhs));
    if !Sub(f, lhs, rhs).kind.Entire? {
      hide Add, Negate, Contains;
      forall z | Contains(f, Sub(f, lhs, rhs), z)
        ensures exists x, y :: Contains(f, lhs, x) && Contains(f, rhs, y) && (x - y) % f.prime == z
      {
        var x, n :| Contains(f, lhs, x) && Contains(f, Negate(f, rhs), n) && (x + n) % f.prime == z;
        var y :| Contains(f, rhs, y) && (-y) % f.prime == n;
        SubReduced(x, y, f.prime);
      }
    }
  }

  /** An integer of absolute value below the prime that stands for a value of the interval. */
  ghost predicate StandsIn(f: Field, i: Interval, x: int)
    requires f.Valid()
  {
    -f.prime <= x < f.prime && Contains(f, i, x % f.prime)
  }

  /** `t` lies between two products of values of the operands. */
  ghost predicate Between(f: Field, lhs: Interval, rhs: Interval, t: int)
    requires f.Valid()
  {
    && (exists x, y :: StandsIn(f, lhs, x) && StandsIn(f, rhs, y) && x * y <= t)
    && (exists x, y :: StandsIn(f, lhs, x) && StandsIn(f, rhs, y) && t <= x * y)
  }

  /** The ends are themselves products. */
  lemma ProductEnds(u: Unreduced, v: Unreduced) returns (x: int, y: int, x': int, y': int)
    ensures x in {u.a, u.b} && y in {v.a, v.b} && x * y == MulUnreduced(u, v).a
    ensures x' in {u.a, u.b} && y' in {v.a, v.b} && x' * y' == MulUnreduced(u, v).b
  {
    var w := MulUnreduced(u, v);
    x, y := if w.a == u.a * v.a || w.a == u.a * v.b then u.a else u.b,
      if w.a == u.a * v.a || (w.a != u.a * v.b && w.a == u.b * v.a) then v.a else v.b;
    x', y' := if w.b == u.a * v.a || w.b == u.a * v.b then u.a else u.b,
      if w.b == u.a * v.a || (w.b != u.a * v.b && w.b == u.b * v.a) then v.a else v.b;
  }

  /** The integer ranges two factors are multiplied as: both below zero when both lie in the upper half. */
  ghost function Factors(f: Field, lhs: Interval, rhs: Interval): (r: (Unreduced, Unreduced)) {
    if Are(lhs, rhs, TypeB, TypeB) then (SecondUnreduced(f, lhs), SecondUnreduced(f, rhs))
    else (FirstUnreduced(f, lhs), FirstUnreduced(f, rhs))
  }

  lemma FactorStands(f: Field, i: Interval, z: int)
    requires f.Valid() && Proper(f, i) && !i.kind.Empty?
    requires z in {FirstUnreduced(f, i).a, FirstUnreduced(f, i).b} ||
        (i.kind.TypeB? && z in {SecondUnreduced(f, i).a, SecondUnreduced(f, i).b})
    ensures StandsIn(f, i, z)
  {
    if z < 0 { ModUnique(z, f.prime, -1, z + f.prime); } else { ModUnique(z, f.prime, 0, z); }
  }

  /** Unless it gives up, a product holds only residues of integers that lie between two products of values. It gives
      up exactly when an operand has, and the other is not zero, or when the products reach too far. */
  lemma MulExact(f: Field, lhs: Interval, rhs: Interval)
    requires f.Valid() && Proper(f, lhs) && Proper(f, rhs) && !lhs.kind.Empty? && !rhs.kind.Empty?
    ensures Mul(f, lhs, rhs).kind.Entire? <==> (lhs != Point(f, 0) && rhs != Point(f, 0) &&
        (lhs.kind.Entire? || rhs.kind.Entire? ||
          TooWide(f, MulUnreduced(Factors(f, lhs, rhs).0, Factors(f, lhs, rhs).1))))
    ensures !Mul(f, lhs, rhs).kind.Entire? ==>
        forall z :: Contains(f, Mul(f, lhs, rhs), z) ==> exists t :: Between(f, lhs, rhs, t) && t % f.prime == z
  {
    hide MulUnreduced;
    var (u, v) := Factors(f, lhs, rhs);
    ReduceGivesUp(f, MulUnreduced(u, v));
    Canonical(f, 0);
    var x, y, x', y' := ProductEnds(u, v);
    FactorStands(f, lhs, x);
    FactorStands(f, lhs, x');
    FactorStands(f, rhs, y);
    FactorStands(f, rhs, y');
    hide StandsIn, ReduceInterval, TooWide, Proper, FirstUnreduced, SecondUnreduced;
    if !Mul(f, lhs, rhs).kind.Entire? {
      forall z | Contains(f, Mul(f, lhs, rhs), z) ensures exists t :: Between(f, lhs, rhs, t) && t % f.prime == z {
        if lhs == Point(f, 0) || rhs == Point(f, 0) {
          ZeroBetween(f, lhs, rhs, x, y);
        } else {
          var t := ReduceExact(f, MulUnreduced(u, v), z);
          assert x * y <= t && t <= x' * y';
          assert Between(f, lhs, rhs, t);
        }
      }
    }
  }

  lemma ZeroBetween(f: Field, lhs: Interval, rhs: Interval, x: int, y: int)
    requires f.Valid() && (lhs == Point(f, 0) || rhs == Point(f, 0)) && StandsIn(f, lhs, x) && StandsIn(f, rhs, y)
    ensures Between(f, lhs, rhs, 0) && 0 % f.prime == 0
    ensures forall z :: Contains(f, Point(f, 0), z) ==> z == 0
  {
    Canonical(f, 0);
    ModUnique(0, f.prime, 0, 0);
    var x', y' := if lhs == Point(f, 0) then 0 else x, if lhs == Point(f, 0) then y else 0;
    assert x' * y' == 0;
    assert StandsIn(f, lhs, x') && StandsIn(f, rhs, y') && x' * y' <= 0;
  }

  datatype Result<T> = Success(value: T) | Failure

  /** Two inverses of the same value are congruent. */
  lemma InverseUnique(y: int, v: int, w: int, p: int)
    requires p >= 2 && (y * v) % p == 1 && (y * w) % p == 1
    ensures v % p == w % p
  {
    ModMul2(y * v, 1, w, w, p);
    ModMul2(y * w, 1, v, v, p);
    ModUnique(1, p, 0, 1);
    assert (y * v) * w == (y * w) * v;
  }

  /** Division by a nonzero point. */
  method FeltDiv(f: Field, lhs: Interval, rhs: Interval) returns (r: Result<Interval>)
    requires f.Valid() && IsPrime(f.prime) && Proper(f, lhs) && Proper(f, rhs)
    ensures r.Failure? <==> !lhs.kind.Empty? && !rhs.kind.Empty? && !(rhs.kind.Degenerate? && rhs.a != 0)
    ensures r.Success? ==>
        forall x, y, w ::
        Contains(f, lhs, x) && Contains(f, rhs, y) && (y * w) % f.prime == 1 ==> Contains(f, r.value, (x * w) % f.prime)
    ensures r.Success? ==>
        forall x, y :: Contains(f, lhs, x) && Contains(f, rhs, y) ==> exists w :: (y * w) % f.prime == 1
  {
    Canonical(f, 0);
    if lhs.kind.Empty? || rhs.kind.Empty? {
      return Success(EmptyInterval());
    }
    if !rhs.kind.Degenerate? || rhs.a == f.Reduce(0) {
      return Failure;
    }
    ModUnique(rhs.a, f.prime, 0, rhs.a);
    var inv := ModInversePrime(rhs.a, f.prime);
    r := Success(Mul(f, lhs, Point(f, inv)));
    Canonical(f, inv);
    forall x, y, w | Contains(f, lhs, x) && Contains(f, rhs, y) && (y * w) % f.prime == 1
      ensures Contains(f, r.value, (x * w) % f.prime)
    {
      MulSound(f, lhs, Point(f, inv), x, inv);
      InverseUnique(y, inv, w, f.prime);
      ModMul2(x, x, inv, w, f.prime);
    }
    assert (rhs.a * inv) % f.prime == 1;
  }

  // ---------- integer operations on canonical values ----------

  /** The one or two integer ranges an interval stands for. */
  function UnsignedParts(f: Field, i: Interval): seq<Unreduced> {
    if i.kind.Empty? then []
    else if i.kind.Entire? then [Unreduced(0, f.MaxVal())]
    else if i.kind.TypeF? then [Unreduced(i.a, f.MaxVal()), Unreduced(0, i.b)]
    else [Unreduced(i.a, i.b)]
  }

  predicate Within(u: Unreduced, x: int) { u.a <= x <= u.b }

  lemma PartsExact(f: Field, i: Interval, x: int)
    requires f.Valid() && Proper(f, i)
    ensures Contains(f, i, x) <==> exists k :: 0 <= k < |UnsignedParts(f, i)| && Within(UnsignedParts(f, i)[k], x)
    ensures forall k ::
        0 <= k < |UnsignedParts(f, i)| ==> 0 <= UnsignedParts(f, i)[k].a <= UnsignedParts(f, i)[k].b < f.prime
  {
    var parts := UnsignedParts(f, i);
    if Contains(f, i, x) {
      assert !i.kind.TypeF? || x >= i.a ==> Within(parts[0], x);
      assert i.kind.TypeF? && x < i.a ==> Within(parts[1], x);
    }
  }

  function DivisionPiece(f: Field, acc: Interval, q0: int, q1: int, q2: int, q3: int): Interval
    requires f.Valid()
  {
    Join(f, acc, ReduceInterval(f, Unreduced(Min4(q0, q1, q2, q3), Max4(q0, q1, q2, q3))))
  }

  lemma QuotientMonotone(x: int, x': int, y: int, y': int)
    requires 0 <= x <= x' && 0 < y' <= y
    ensures 0 <= TDiv(x, y) <= TDiv(x', y') <= x'
  {
    QuotientOrder(x, x', y, y', x / y, x' / y', x % y, x' % y');
  }

  lemma QuotientOrder(x: int, x': int, y: int, y': int, q: int, q': int, r: int, r': int)
    requires 0 <= x <= x' && 0 < y' <= y && x == y * q + r && 0 <= r < y && x' == y' * q' + r' && 0 <= r' < y'
    ensures 0 <= q <= q' <= x'
  {
    if q < 0 { MulOrder(q, -1, y); }
    MulOrder(y', y, q);
    assert y' * (q' + 1) == y' * q' + y';
    if q > q' { MulOrder(q' + 1, q, y'); }
    MulOrder(1, y', q');
  }

  lemma MulOrder(a: int, b: int, c: int)
    requires a <= b && c >= 0
    ensures a * c <= b * c && c * a <= c * b
  {
    assert (b - a) * c >= 0;
    assert (b - a) * c == b * c - a * c;
  }

  /** An interval that is not wrapped around zero. */
  ghost predicate Unwrapped(f: Field, i: Interval) { Proper(f, i) && !i.kind.TypeF? }

  /** The quotients of one pair of ranges, joined to what is there: everything is covered. */
  lemma PieceCovers(f: Field, acc: Interval, u: Unreduced, v: Unreduced)
    requires f.Valid() && Unwrapped(f, acc) && 0 <= u.a <= u.b < f.prime && 0 < v.a <= v.b
    ensures var r := DivisionPiece(f, acc, TDiv(u.a, v.b), TDiv(u.a, v.a), TDiv(u.b, v.b), TDiv(u.b, v.a));
            && Proper(f, r)
            && (forall q :: Contains(f, acc, q) ==> Contains(f, r, q))
            && (forall x, y :: Within(u, x) && Within(v, y) ==> Contains(f, r, TDiv(x, y)))
  {
    var q0, q1, q2, q3 := TDiv(u.a, v.b), TDiv(u.a, v.a), TDiv(u.b, v.b), TDiv(u.b, v.a);
    QuotientMonotone(u.a, u.b, v.b, v.a);
    QuotientMonotone(u.a, u.a, v.b, v.a);
    QuotientMonotone(u.b, u.b, v.b, v.a);
    QuotientMonotone(u.a, u.b, v.a, v.a);
    QuotientMonotone(u.a, u.b, v.b, v.b);
    var w := Unreduced(q0, q3);
    assert w == Unreduced(Min4(q0, q1, q2, q3), Max4(q0, q1, q2, q3));
    var piece := ReduceInterval(f, w);
    ReduceProper(f, w);
    Canonical(f, w.a);
    Canonical(f, w.b);
    assert !piece.kind.TypeF?;
    forall q | Contains(f, acc, q) ensures Contains(f, Join(f, acc, piece), q) { JoinCovers(f, acc, piece, q); }
    forall x, y | Within(u, x) && Within(v, y) ensures Contains(f, Join(f, acc, piece), TDiv(x, y)) {
      QuotientMonotone(u.a, x, v.b, y);
      QuotientMonotone(x, u.b, y, v.a);
      ReduceSound(f, w, TDiv(x, y));
      Periods(f, TDiv(x, y));
      JoinCovers(f, acc, piece, TDiv(x, y));
    }
    ReduceSound(f, w, w.a);
    JoinCovers(f, acc, piece, w.a % f.prime);
  }

  /** Some value of the one divided by some value of the other. */
  ghost predicate Quotient(f: Field, lhs: Interval, rhs: Interval, q: int) {
    exists x, y :: Contains(f, lhs, x) && Contains(f, rhs, y) && y != 0 && TDiv(x, y) == q
  }

  /** The ends of a result are quotients; what has no ends holds quotients from the least to the greatest value. */
  ghost predicate EndsReached(f: Field, lhs: Interval, rhs: Interval, r: Interval) {
    if r.kind.Entire? then Quotient(f, lhs, rhs, 0) && Quotient(f, lhs, rhs, f.prime - 1)
    else !r.kind.Empty? && Quotient(f, lhs, rhs, r.a) && Quotient(f, lhs, rhs, r.b)
  }

  /** A join of two ranges of quotients starts and ends at quotients. */
  lemma JoinReached(f: Field, lhs: Interval, rhs: Interval, i: Interval, j: Interval)
    requires f.Valid() && Unwrapped(f, i) && Unwrapped(f, j)
    requires EndsReached(f, lhs, rhs, i) && EndsReached(f, lhs, rhs, j)
    ensures EndsReached(f, lhs, rhs, Join(f, i, j))
  {
    hide Quotient, Join;
    JoinNarrow(f, i, j);
    if Join(f, i, j).kind.Entire? && !i.kind.Entire? && !j.kind.Entire? && !FarEnds(f, i, j) {
      assert Contains(f, i, 0) || Contains(f, j, 0);
      assert Contains(f, i, f.prime - 1) || Contains(f, j, f.prime - 1);
    }
  }

  /** The quotients of one pair of ranges, joined to what is there. */
  lemma PieceReached(f: Field, lhs: Interval, rhs: Interval, acc: Interval, u: Unreduced, v: Unreduced)
    requires f.Valid() && Unwrapped(f, acc) && (acc.kind.Empty? || EndsReached(f, lhs, rhs, acc))
    requires 0 <= u.a <= u.b < f.prime && 0 < v.a <= v.b
    requires Contains(f, lhs, u.a) && Contains(f, lhs, u.b) && Contains(f, rhs, v.a) && Contains(f, rhs, v.b)
    ensures EndsReached(f, lhs, rhs, DivisionPiece(f, acc, TDiv(u.a, v.b), TDiv(u.a, v.a), TDiv(u.b, v.b),
        TDiv(u.b, v.a)))
  {
    QuotientMonotone(u.a, u.b, v.b, v.a);
    QuotientMonotone(u.a, u.a, v.b, v.a);
    QuotientMonotone(u.b, u.b, v.b, v.a);
    QuotientMonotone(u.a, u.b, v.a, v.a);
    QuotientMonotone(u.a, u.b, v.b, v.b);
    var w := Unreduced(TDiv(u.a, v.b), TDiv(u.b, v.a));
    assert Quotient(f, lhs, rhs, w.a) && Quotient(f, lhs, rhs, w.b);
    hide Quotient;
    ReduceProper(f, w);
    UnionReduced(f, w);
    var piece := ReduceInterval(f, w);
    if !acc.kind.Empty? { JoinReached(f, lhs, rhs, acc, piece); }
  }

  /** Integer division of canonical values: refused exactly when the divisor may be zero. */
  method UnsignedIntDiv(f: Field, lhs: Interval, rhs: Interval) returns (r: Result<Interval>)
    requires f.Valid() && Proper(f, lhs) && Proper(f, rhs)
    ensures r.Failure? <==> !lhs.kind.Empty? && !rhs.kind.Empty? && Contains(f, rhs, 0)
    ensures r.Success? ==>
        forall x, y :: Contains(f, lhs, x) && Contains(f, rhs, y) ==> Contains(f, r.value, TDiv(x, y))
    ensures r.Success? ==> if lhs.kind.Empty? || rhs.kind.Empty? then r.value.kind.Empty?
        else EndsReached(f, lhs, rhs, r.value) && (r.value.kind.TypeF? ==> lhs.kind.TypeF?)
  {
    hide DivisionPiece, EndsReached;
    Canonical(f, 0);
    if lhs.kind.Empty? || rhs.kind.Empty? {
      return Success(EmptyInterval());
    }
    var lhsParts, rhsParts := UnsignedParts(f, lhs), UnsignedParts(f, rhs);
    PartsExact(f, rhs, 0);
    forall x
      ensures Contains(f, lhs, x) <==> exists k :: 0 <= k < |lhsParts| && Within(lhsParts[k], x)
    {
      PartsExact(f, lhs, x);
    }
    forall y
      ensures Contains(f, rhs, y) <==> exists k :: 0 <= k < |rhsParts| && Within(rhsParts[k], y)
    {
      PartsExact(f, rhs, y);
    }
    var i := 0;
    while i < |rhsParts|
      invariant 0 <= i <= |rhsParts| && forall k :: 0 <= k < i ==> rhsParts[k].a != 0
    {
      if rhsParts[i].a == f.Reduce(0) {
        assert Within(rhsParts[i], 0);
        return Failure;
      }
      i := i + 1;
    }
    assert !Contains(f, rhs, 0) && |rhsParts| == 1;
    PartsExact(f, lhs, 0);
    var result := EmptyInterval();
    i := 0;
    while i < |lhsParts|
      invariant 0 <= i <= |lhsParts| && Proper(f, result) && (i == 0 ==> result == EmptyInterval())
      invariant (i == 1 ==> Unwrapped(f, result)) && (i > 0 ==> EndsReached(f, lhs, rhs, result))
      invariant forall k, x, y ::
          0 <= k < i && Within(lhsParts[k], x) && Within(rhsParts[0], y) ==> Contains(f, result, TDiv(x, y))
    {
      var j := 0;
      ghost var before := result;
      while j < |rhsParts|
        invariant 0 <= j <= |rhsParts| && Proper(f, result) && (j == 0 ==> result == before)
        invariant forall q :: Contains(f, before, q) ==> Contains(f, result, q)
        invariant j > 0 ==>
            forall x, y :: Within(lhsParts[i], x) && Within(rhsParts[0], y) ==> Contains(f, result, TDiv(x, y))
        invariant j > 0 && before == EmptyInterval() ==> Unwrapped(f, result)
        invariant j > 0 ==> EndsReached(f, lhs, rhs, result)
      {
        var u, v := lhsParts[i], rhsParts[j];
        assert Within(u, u.a) && Within(u, u.b) && Within(v, v.a) && Within(v, v.b);
        PieceReached(f, lhs, rhs, result, u, v);
        PieceCovers(f, result, u, v);
        FirstPieceUnwrapped(f, u, v);
        result := DivisionPiece(f, result, TDiv(u.a, v.b), TDiv(u.a, v.a), TDiv(u.b, v.b), TDiv(u.b, v.a));
        j := j + 1;
      }
      i := i + 1;
    }
    r := Success(result);
    forall x, y | Contains(f, lhs, x) && Contains(f, rhs, y) ensures Contains(f, result, TDiv(x, y)) {
      var k :| 0 <= k < |lhsParts| && Within(lhsParts[k], x);
      var m :| 0 <= m < |rhsParts| && Within(rhsParts[m], y);
    }
  }

  lemma FirstPieceUnwrapped(f: Field, u: Unreduced, v: Unreduced)
    requires f.Valid() && 0 <= u.a <= u.b < f.prime && 0 < v.a <= v.b
    ensures Unwrapped(f, DivisionPiece(f, EmptyInterval(), TDiv(u.a, v.b), TDiv(u.a, v.a), TDiv(u.b, v.b),
        TDiv(u.b, v.a)))
  {
    QuotientMonotone(u.a, u.b, v.b, v.a);
    QuotientMonotone(u.a, u.a, v.b, v.a);
    QuotientMonotone(u.b, u.b, v.b, v.a);
    QuotientMonotone(u.a, u.b, v.a, v.a);
    QuotientMonotone(u.a, u.b, v.b, v.b);
    var w := Unreduced(TDiv(u.a, v.b), TDiv(u.b, v.a));
    ReduceProper(f, w);
    Canonical(f, w.a);
    Canonical(f, w.b);
  }

  function Modulo(f: Field, lhs: Interval, rhs: Interval): Interval
    requires f.Valid()
  {
    if lhs.kind.Empty? || rhs.kind.Empty? then EmptyInterval()
    else if lhs.kind.Degenerate? && rhs.kind.Degenerate? && rhs.a != 0 then Point(f, TMod(lhs.a, rhs.a))
    else if rhs.kind.Degenerate? then
      if rhs.a == 0 then EntireInterval() else ReduceInterval(f, Unreduced(0, rhs.a - 1))
    else if rhs.kind.TypeF? || rhs.kind.Entire? then EntireInterval()
    else if Intersect(f, rhs, Point(f, 0)) == Point(f, 0) then EntireInterval()
    else ReduceInterval(f, Unreduced(0, rhs.b - 1))
  }

  /** Remainders by every nonzero divisor stay inside. */
  lemma ModuloSound(f: Field, lhs: Interval, rhs: Interval, x: int, y: int)
    requires f.Valid() && Proper(f, lhs) && Proper(f, rhs) && Contains(f, lhs, x) && Contains(f, rhs, y) && y != 0
    ensures Proper(f, Modulo(f, lhs, rhs)) && Contains(f, Modulo(f, lhs, rhs), TMod(x, y))
  {
    var r := RemainderFacts(f, x, y);
    hide TMod;
    if rhs.kind.Degenerate? {
      ReduceSound(f, Unreduced(0, rhs.a - 1), r);
    } else if !rhs.kind.TypeF? && !rhs.kind.Entire? {
      ReduceSound(f, Unreduced(0, rhs.b - 1), r);
    }
  }

  lemma RemainderFacts(f: Field, x: int, y: int) returns (r: int)
    requires f.Valid() && 0 <= x < f.prime && 0 < y < f.prime
    ensures r == TMod(x, y) && 0 <= r < y && r < f.prime && f.Reduce(r) == r && r % f.prime == r
  {
    TModSigned(x, y);
    r := x % y;
    Canonical(f, r);
    ModUnique(r, f.prime, 0, r);
  }

  /** A divisor range that may be zero always gives Entire. */
  lemma ModuloByZero(f: Field, lhs: Interval, rhs: Interval)
    requires f.Valid() && Proper(f, lhs) && Proper(f, rhs) && !lhs.kind.Empty? && Contains(f, rhs, 0)
    ensures Modulo(f, lhs, rhs).kind.Entire?
  {
    Canonical(f, 0);
    if Ranged(rhs) && !rhs.kind.TypeF? { IntersectPoint(f, Point(f, 0), rhs); }
  }

  /** Away from a zero divisor the remainder of two points is the one value, and a range of divisors gives exactly what
      is below some divisor. */
  lemma ModuloExact(f: Field, lhs: Interval, rhs: Interval, r: int)
    requires f.Valid() && Proper(f, lhs) && Proper(f, rhs) && !lhs.kind.Empty? && !rhs.kind.Empty?
    requires !Contains(f, rhs, 0)
    ensures lhs.kind.Degenerate? && rhs.kind.Degenerate? ==>
        (Contains(f, Modulo(f, lhs, rhs), r) <==> r == lhs.a % rhs.a)
    ensures !(lhs.kind.Degenerate? && rhs.kind.Degenerate?) ==>
        (Contains(f, Modulo(f, lhs, rhs), r) <==> exists y :: Contains(f, rhs, y) && 0 <= r < y)
  {
    Canonical(f, 0);
    var u := Unreduced(0, rhs.b - 1);
    assert 0 < rhs.b < f.prime;
    UnionReduced(f, u);
    NoZero(f, rhs);
    hide ReduceInterval, Intersect;
    if lhs.kind.Degenerate? && rhs.kind.Degenerate? {
      var m := RemainderFacts(f, lhs.a, rhs.a);
      TModSigned(lhs.a, rhs.a);
      assert Modulo(f, lhs, rhs) == Interval(Degenerate, m, m);
    } else {
      assert Contains(f, Modulo(f, lhs, rhs), r) <==> 0 <= r <= rhs.b - 1;
      if 0 <= r < rhs.b { assert Contains(f, rhs, rhs.b); }
    }
  }

  lemma NoZero(f: Field, i: Interval)
    requires f.Valid() && Proper(f, i) && !Contains(f, i, 0) && !i.kind.Empty?
    ensures Intersect(f, i, Point(f, 0)) != Point(f, 0)
  {
    Canonical(f, 0);
    assert !i.kind.TypeF? && !i.kind.Entire? && i.a > 0;
    if !i.kind.Degenerate? {
      var t := Tagged(f, TypeA, 0, 0);
      assert t == Interval(TypeA, 0, 0);
    }
  }

  /** Bitwise and of canonical values. */
  method BitAnd(f: Field, lhs: Interval, rhs: Interval) returns (r: Interval)
    requires f.Valid() && Proper(f, lhs) && Proper(f, rhs)
    ensures Proper(f, r)
    ensures forall x, y, z :: Contains(f, lhs, x) && Contains(f, rhs, y) && IsAnd(x, y, z) ==> Contains(f, r, z)
    ensures r.kind.Empty? <==> lhs.kind.Empty? || rhs.kind.Empty?
    ensures lhs.kind.Degenerate? ==> forall z :: Contains(f, r, z) ==> z <= lhs.a
    ensures rhs.kind.Degenerate? ==> forall z :: Contains(f, r, z) ==> z <= rhs.a
    ensures lhs.kind.Degenerate? && rhs.kind.Degenerate? ==> forall z :: Contains(f, r, z) ==> IsAnd(lhs.a, rhs.a, z)
  {
    forall x, y, z | 0 <= x && 0 <= y && IsAnd(x, y, z) ensures 0 <= z <= x && z <= y { AndBounded(x, y, z); }
    if lhs.kind.Empty? || rhs.kind.Empty? {
      return EmptyInterval();
    }
    if lhs.kind.Degenerate? && rhs.kind.Degenerate? {
      var v := And(lhs.a, rhs.a);
      Canonical(f, v);
      forall z | IsAnd(lhs.a, rhs.a, z) ensures z == v { AndUnique(lhs.a, rhs.a, v, z); }
      return Point(f, v);
    } else if lhs.kind.Degenerate? {
      AndBelow(f, lhs.a);
      return ReduceInterval(f, Unreduced(0, lhs.a));
    } else if rhs.kind.Degenerate? {
      AndBelow(f, rhs.a);
      return ReduceInterval(f, Unreduced(0, rhs.a));
    }
    return EntireInterval();
  }

  /** `z` is the bitwise and of `x` and `y`. */
  ghost predicate IsAnd(x: int, y: int, z: int) {
    x >= 0 && y >= 0 && z >= 0 && forall i: nat :: Bit(z, i) == (Bit(x, i) && Bit(y, i))
  }

  lemma AndBounded(x: int, y: int, z: int)
    requires x >= 0 && y >= 0 && IsAnd(x, y, z)
    ensures 0 <= z <= x && z <= y
  {
    BitsBound(z, x);
    BitsBound(z, y);
  }

  lemma AndUnique(x: int, y: int, v: int, z: int)
    requires IsAnd(x, y, v) && IsAnd(x, y, z)
    ensures v == z
  {
    BitsBound(v, z);
    BitsBound(z, v);
  }

  lemma AndBelow(f: Field, v: int)
    requires f.Valid() && 0 <= v < f.prime
    ensures var r := ReduceInterval(f, Unreduced(0, v)); Proper(f, r) && forall z :: Contains(f, r, z) <==> 0 <= z <= v
  {
    UnionReduced(f, Unreduced(0, v));
    ReduceProper(f, Unreduced(0, v));
    forall z | 0 <= z <= v ensures Contains(f, ReduceInterval(f, Unreduced(0, v)), z) {
      ReduceSound(f, Unreduced(0, v), z);
      Periods(f, z);
    }
  }
}
