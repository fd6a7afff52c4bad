/** Prime fields, and the interval domain of the range analysis: what an interval contains, and that
    every transfer function covers the field operation it stands for. */
module Intervals {
  import opened ModMath
  import opened DynamicInt

  // ---------- the field ----------

  datatype Field = Field(prime: int)
  {
    predicate Valid() { prime >= 3 && prime % 2 == 1 }

    /** The least integer that counts as negative. */
    function Half(): int { TDiv(prime + 1, 2) }

    function MaxVal(): int { prime - 1 }

    function Reduce(i: int): int
      requires prime > 0
    {
      var m := TMod(i, prime);
      if m < 0 then prime + m else m
    }

    function ToSigned(i: int): int { if i < Half() then i else i - prime }
  }

  /** Reduction is the canonical remainder, for negative integers too. */
  lemma ReduceIsMod(f: Field, i: int)
    requires f.Valid()
    ensures f.Reduce(i) == i % f.prime
  {
    TModSigned(i, f.prime);
    if i < 0 {
      var q, r := -i / f.prime, -i % f.prime;
      assert -i == f.prime * q + r;
      if r == 0 {
        assert i == (-q) * f.prime + 0;
        ModUnique(i, f.prime, -q, 0);
      } else {
        assert (-q - 1) * f.prime == -(f.prime * q) - f.prime;
        ModUnique(i, f.prime, -q - 1, f.prime - r);
      }
    }
  }

  /** The signed representative of a canonical value is the one nearest to zero, and reduces back to it. */
  lemma ToSignedNearest(f: Field, i: int)
    requires f.Valid() && 0 <= i < f.prime
    ensures f.Reduce(f.ToSigned(i)) == i && -f.prime < 2 * f.ToSigned(i) < f.prime
  {
    ReduceIsMod(f, f.ToSigned(i));
    ModUnique(i, f.prime, 0, i);
    if i >= f.Half() { ModUnique(i - f.prime, f.prime, -1, i); }
  }

  // ---------- intervals ----------

  datatype Kind = TypeA | TypeB | TypeC | TypeF | Empty | Degenerate | Entire

  datatype Interval = Interval(kind: Kind, a: int, b: int)

  datatype Unreduced = Unreduced(a: int, b: int)

  function EmptyInterval(): Interval { Interval(Empty, 0, 0) }
  function EntireInterval(): Interval { Interval(Entire, 0, 0) }
  function Point(f: Field, v: int): Interval
    requires f.Valid()
  {
    Interval(Degenerate, f.Reduce(v), f.Reduce(v))
  }
  function Tagged(f: Field, kind: Kind, a: int, b: int): Interval
    requires f.Valid()
  {
    Interval(kind, f.Reduce(a), f.Reduce(b))
  }

  /** The kinds as the header defines them: internal below half, above half, across half; external around zero. */
  ghost predicate Proper(f: Field, i: Interval) {
    match i.kind
    case TypeA => 0 <= i.a < i.b < f.Half()
    case TypeB => f.Half() <= i.a < i.b < f.prime
    case TypeC => 0 <= i.a < f.Half() <= i.b < f.prime
    case TypeF => 0 <= i.b < f.Half() <= i.a < f.prime
    case Degenerate => 0 <= i.a == i.b < f.prime
    case Empty => i.a == i.b == 0
    case Entire => i.a == i.b == 0
  }

  /** The canonical values an interval stands for. */
  ghost predicate Contains(f: Field, i: Interval, x: int) {
    0 <= x < f.prime &&
    match i.kind
    case Empty => false
    case Entire => true
    case TypeF => x >= i.a || x <= i.b
    case _ => i.a <= x <= i.b
  }

  function Width(u: Unreduced): int { if u.a > u.b then 0 else u.b - u.a + 1 }

  function ReduceInterval(f: Field, u: Unreduced): Interval
    requires f.Valid()
  {
    if u.a > u.b then EmptyInterval()
    else if Width(u) >= f.prime then EntireInterval()
    else
      var lhs, rhs := f.Reduce(u.a), f.Reduce(u.b);
      if rhs == lhs then Point(f, lhs)
      else if lhs <= rhs then
        if lhs < f.Half() && rhs < f.Half() then Tagged(f, TypeA, lhs, rhs)
        else if lhs < f.Half() then Tagged(f, TypeC, lhs, rhs)
        else Tagged(f, TypeB, lhs, rhs)
      else if lhs >= f.Half() && rhs < f.Half() then Tagged(f, TypeF, lhs, rhs)
      else EntireInterval()
  }

  lemma Canonical(f: Field, x: int)
    requires f.Valid() && 0 <= x < f.prime
    ensures f.Reduce(x) == x
  {
    ReduceIsMod(f, x);
    ModUnique(x, f.prime, 0, x);
  }

  /** The shape of a reduced range: its ends are the remainders `l` and `r`, in the same or in adjacent periods. */
  lemma ReduceShape(f: Field, u: Unreduced) returns (k: int, l: int, r: int)
    requires f.Valid() && u.a <= u.b && Width(u) < f.prime
    ensures 0 <= l < f.prime && 0 <= r < f.prime && u.a == k * f.prime + l
    ensures f.Reduce(u.a) == l && f.Reduce(u.b) == r && f.Reduce(l) == l && f.Reduce(r) == r
    ensures if l <= r then u.b == k * f.prime + r else u.b == k * f.prime + f.prime + r
  {
    var p := f.prime;
    k, l := u.a / p, u.a % p;
    assert u.a == k * p + l;
    var d := u.b - u.a;
    r := if l + d < p then l + d else l + d - p;
    assert (k + 1) * p == k * p + p;
    ModUnique(u.b, p, if l + d < p then k else k + 1, r);
    ReduceIsMod(f, u.a);
    ReduceIsMod(f, u.b);
    Canonical(f, l);
    Canonical(f, r);
  }

  /** Reduction covers every residue of the range. */
  lemma ReduceSound(f: Field, u: Unreduced, z: int)
    requires f.Valid() && u.a <= z <= u.b
    ensures Proper(f, ReduceInterval(f, u)) && Contains(f, ReduceInterval(f, u), z % f.prime)
  {
    if Width(u) < f.prime {
      var k, l, r := ReduceShape(f, u);
      var x := z - k * f.prime;
      if x < f.prime {
        ModUnique(z, f.prime, k, x);
      } else {
        assert (k + 1) * f.prime == k * f.prime + f.prime;
        ModUnique(z, f.prime, k + 1, x - f.prime);
      }
    }
  }

  /** Unless it gives up and answers Entire, reduction adds nothing. */
  lemma ReduceExact(f: Field, u: Unreduced, x: int) returns (z: int)
    requires f.Valid() && !ReduceInterval(f, u).kind.Entire? && Contains(f, ReduceInterval(f, u), x)
    ensures u.a <= z <= u.b && z % f.prime == x
  {
    var k, l, r := ReduceShape(f, u);
    z := k * f.prime + x;
    if x < l {
      z := z + f.prime;
      assert (k + 1) * f.prime == k * f.prime + f.prime;
      ModUnique(z, f.prime, k + 1, x);
    } else {
      ModUnique(z, f.prime, k, x);
    }
  }

  /** The range steps over a multiple of the prime. */
  ghost predicate CrossesZero(f: Field, u: Unreduced) { exists k: int :: u.a < k * f.prime <= u.b }

  /** The range steps from the lower into the upper half of a period. */
  ghost predicate CrossesHalf(f: Field, u: Unreduced) { exists k: int :: u.a < k * f.prime + f.Half() <= u.b }

  ghost predicate TooWide(f: Field, u: Unreduced) { Width(u) >= f.prime || (CrossesZero(f, u) && CrossesHalf(f, u)) }

  /** A later period starts at least one prime further on. */
  lemma LaterPeriod(p: int, k: int, m: int)
    requires p > 0
    ensures if m > k then m * p >= k * p + p else m * p <= k * p
  {
    if m > k { assert (m - k - 1) * p >= 0; } else { assert (k - m) * p >= 0; }
    assert (m - k - 1) * p == m * p - k * p - p && (k - m) * p == k * p - m * p;
  }

  /** Reduction gives up exactly on a range that holds every residue, or that crosses both from the end of a period to
      the next and from a lower to an upper half. */
  lemma ReduceGivesUp(f: Field, u: Unreduced)
    requires f.Valid()
    ensures ReduceInterval(f, u).kind.Entire? <==> TooWide(f, u)
  {
    if u.a <= u.b && Width(u) < f.prime {
      var p, half := f.prime, f.Half();
      var k, l, r := ReduceShape(f, u);
      assert (k + 1) * p == k * p + p;
      if l > r {
        assert CrossesZero(f, u) by { assert u.a < (k + 1) * p <= u.b; }
        if l < half { assert u.a < k * p + half <= u.b; }
        if r >= half { assert u.a < (k + 1) * p + half <= u.b; }
        if l >= half && r < half && CrossesHalf(f, u) {
          var m: int :| u.a < m * p + half <= u.b;
          LaterPeriod(p, k, m);
        }
      } else if CrossesZero(f, u) {
        var m: int :| u.a < m * p <= u.b;
        LaterPeriod(p, k, m);
      }
    }
  }

  lemma ReduceProper(f: Field, u: Unreduced)
    requires f.Valid()
    ensures Proper(f, ReduceInterval(f, u))
  {
    if u.a <= u.b { ReduceSound(f, u, u.a); }
  }

  /** The range itself, as integers. */
  function ToUnreduced(f: Field, i: Interval): Unreduced {
    match i.kind
    case Empty => Unreduced(1, 0)
    case Entire => Unreduced(0, f.MaxVal())
    case _ => Unreduced(i.a, i.b)
  }

  function FirstUnreduced(f: Field, i: Interval): Unreduced {
    if i.kind.TypeF? then Unreduced(i.a - f.prime, i.b) else ToUnreduced(f, i)
  }

  function SecondUnreduced(f: Field, i: Interval): Unreduced
    requires i.kind.TypeA? || i.kind.TypeB? || i.kind.TypeC?
  {
    Unreduced(i.a - f.prime, i.b - f.prime)
  }

  /** The integer that stands for `x` in the first form of `i`. */
  ghost function Representative(f: Field, i: Interval, x: int): int {
    if i.kind.TypeF? && x >= i.a then x - f.prime else x
  }

  lemma RepresentativeFits(f: Field, i: Interval, x: int)
    requires f.Valid() && Proper(f, i) && Contains(f, i, x)
    ensures FirstUnreduced(f, i).a <= Representative(f, i, x) <= FirstUnreduced(f, i).b
    ensures Representative(f, i, x) % f.prime == x
  {
    Periods(f, x);
  }

  // ---------- union and intersection ----------

  function DoUnion(u: Unreduced, v: Unreduced): Unreduced {
    Unreduced(if u.a < v.a then u.a else v.a, if u.b > v.b then u.b else v.b)
  }

  function DoIntersect(u: Unreduced, v: Unreduced): Unreduced {
    Unreduced(if u.a > v.a then u.a else v.a, if u.b < v.b then u.b else v.b)
  }

  predicate Are(l: Interval, r: Interval, k: Kind, m: Kind) { l.kind == k && r.kind == m }

  /** The operand order in which join and intersect work out the pair. */
  predicate Straight(l: Interval, r: Interval) {
    || l.kind == r.kind || Are(l, r, TypeA, TypeB) || Are(l, r, TypeA, TypeC) || Are(l, r, TypeA, TypeF)
    || Are(l, r, TypeB, TypeC) || Are(l, r, TypeB, TypeF) || Are(l, r, TypeC, TypeF)
  }

  predicate Ranged(i: Interval) { i.kind.TypeA? || i.kind.TypeB? || i.kind.TypeC? || i.kind.TypeF? }

  function Join(f: Field, lhs: Interval, rhs: Interval): Interval
    requires f.Valid()
    decreases if Straight(lhs, rhs) then 0 else 1
  {
    if lhs.kind.Entire? || rhs.kind.Entire? then EntireInterval()
    else if lhs.kind.Empty? then rhs
    else if rhs.kind.Empty? then lhs
    else if lhs.kind.Degenerate? || rhs.kind.Degenerate?
      then ReduceInterval(f, DoUnion(ToUnreduced(f, lhs), ToUnreduced(f, rhs)))
    else if (lhs.kind == rhs.kind && !lhs.kind.TypeF?) || Are(lhs, rhs, TypeA, TypeC) ||
      Are(lhs, rhs, TypeB, TypeC) then
      var u := DoUnion(Unreduced(lhs.a, lhs.b), Unreduced(rhs.a, rhs.b));
      if u.a == u.b then Point(f, u.a) else Tagged(f, rhs.kind, u.a, u.b)
    else if Are(lhs, rhs, TypeA, TypeB) then
      var lhsUnred := FirstUnreduced(f, lhs);
      var opt1, opt2 := DoUnion(FirstUnreduced(f, rhs), lhsUnred), DoUnion(SecondUnreduced(f, rhs), lhsUnred);
      if Width(opt1) <= Width(opt2) then ReduceInterval(f, opt1) else ReduceInterval(f, opt2)
    else if Are(lhs, rhs, TypeF, TypeF) || Are(lhs, rhs, TypeA, TypeF) then
      ReduceInterval(f, DoUnion(FirstUnreduced(f, lhs), FirstUnreduced(f, rhs)))
    else if Are(lhs, rhs, TypeB, TypeF) then ReduceInterval(f, DoUnion(SecondUnreduced(f, lhs), FirstUnreduced(f, rhs)))
    else if Are(lhs, rhs, TypeC, TypeF) then EntireInterval()
    else Join(f, rhs, lhs)
  }

  /** A single point joined with a range around zero: the point's raw ends are mixed with the range's. */
  predicate PointAndExternal(lhs: Interval, rhs: Interval) {
    Are(lhs, rhs, Degenerate, TypeF) || Are(lhs, rhs, TypeF, Degenerate)
  }

  lemma Periods(f: Field, x: int)
    requires f.Valid() && 0 <= x < f.prime
    ensures x % f.prime == x && (x - f.prime) % f.prime == x
  {
    ModUnique(x, f.prime, 0, x);
    ModUnique(x - f.prime, f.prime, -1, x);
  }

  lemma JoinEnds(f: Field, lhs: Interval, rhs: Interval, x: int)
    requires f.Valid() && Proper(f, lhs) && Proper(f, rhs) && (Contains(f, lhs, x) || Contains(f, rhs, x))
    requires (lhs.kind == rhs.kind && (lhs.kind.TypeA? || lhs.kind.TypeB? || lhs.kind.TypeC?)) ||
        Are(lhs, rhs, TypeA, TypeC) || Are(lhs, rhs, TypeB, TypeC)
    ensures Proper(f, Join(f, lhs, rhs)) && Contains(f, Join(f, lhs, rhs), x)
  {
    var u := DoUnion(Unreduced(lhs.a, lhs.b), Unreduced(rhs.a, rhs.b));
    Canonical(f, u.a);
    Canonical(f, u.b);
  }

  lemma JoinHalves(f: Field, lhs: Interval, rhs: Interval, x: int)
    requires f.Valid() && Proper(f, lhs) && Proper(f, rhs) && (Contains(f, lhs, x) || Contains(f, rhs, x))
    requires Are(lhs, rhs, TypeA, TypeB)
    ensures Proper(f, Join(f, lhs, rhs)) && Contains(f, Join(f, lhs, rhs), x)
  {
    var opt1, opt2 := DoUnion(FirstUnreduced(f, rhs), FirstUnreduced(f, lhs)),
        DoUnion(SecondUnreduced(f, rhs), FirstUnreduced(f, lhs));
    Periods(f, x);
    ReduceSound(f, opt1, x);
    ReduceSound(f, opt2, if Contains(f, lhs, x) then x else x - f.prime);
  }

  lemma JoinAround(f: Field, lhs: Interval, rhs: Interval, x: int)
    requires f.Valid() && Proper(f, lhs) && Proper(f, rhs) && (Contains(f, lhs, x) || Contains(f, rhs, x))
    requires rhs.kind.TypeF? && (lhs.kind.TypeF? || lhs.kind.TypeA? || lhs.kind.TypeB?)
    ensures Proper(f, Join(f, lhs, rhs)) && Contains(f, Join(f, lhs, rhs), x)
  {
    Periods(f, x);
    var u := DoUnion(if lhs.kind.TypeB? then SecondUnreduced(f, lhs)
        else FirstUnreduced(f, lhs), FirstUnreduced(f, rhs));
    assert Join(f, lhs, rhs) == ReduceInterval(f, u);
    ReduceSound(f, u, if !Contains(f, lhs, x) then Representative(f, rhs, x) else if lhs.kind.TypeB? then x - f.prime
      else Representative(f, lhs, x));
  }

  lemma JoinCovers(f: Field, lhs: Interval, rhs: Interval, x: int)
    requires f.Valid() && Proper(f, lhs) && Proper(f, rhs) && !PointAndExternal(lhs, rhs)
    requires Contains(f, lhs, x) || Contains(f, rhs, x)
    ensures Proper(f, Join(f, lhs, rhs)) && Contains(f, Join(f, lhs, rhs), x)
    decreases if Straight(lhs, rhs) then 0 else 1
  {
    hide ReduceInterval, Tagged;
    if lhs.kind.Entire? || rhs.kind.Entire? || lhs.kind.Empty? || rhs.kind.Empty? {
    } else if lhs.kind.Degenerate? || rhs.kind.Degenerate? {
      Periods(f, x);
      ReduceSound(f, DoUnion(ToUnreduced(f, lhs), ToUnreduced(f, rhs)), x);
    } else if (lhs.kind == rhs.kind && !lhs.kind.TypeF?) || Are(lhs, rhs, TypeA, TypeC) || Are(lhs, rhs, TypeB, TypeC) {
      JoinEnds(f, lhs, rhs, x);
    } else if Are(lhs, rhs, TypeA, TypeB) {
      JoinHalves(f, lhs, rhs, x);
    } else if rhs.kind.TypeF? && !lhs.kind.TypeC? {
      JoinAround(f, lhs, rhs, x);
    } else if !Are(lhs, rhs, TypeC, TypeF) {
      JoinCovers(f, rhs, lhs, x);
    }
  }

  /** A range inside one period keeps its ends. */
  lemma UnionReduced(f: Field, u: Unreduced)
    requires f.Valid() && 0 <= u.a <= u.b < f.prime
    ensures var r := ReduceInterval(f, u);
            if r.kind.Entire? then u.a == 0 && u.b == f.prime - 1 else !r.kind.Empty? && r.a == u.a && r.b == u.b
  {
    Canonical(f, u.a);
    Canonical(f, u.b);
  }

  /** A range around zero keeps its ends, unless they meet. */
  lemma AroundReduced(f: Field, a: int, b: int)
    requires f.Valid() && 0 <= b < f.Half() <= a < f.prime
    ensures ReduceInterval(f, Unreduced(a - f.prime, b)) ==
      if b + 1 < a then Interval(TypeF, a, b) else EntireInterval()
  {
    Canonical(f, b);
    Canonical(f, a);
    ReduceIsMod(f, a - f.prime);
    ModUnique(a - f.prime, f.prime, -1, a);
  }

  predicate AcrossAndAroundPair(lhs: Interval, rhs: Interval) {
    Are(lhs, rhs, TypeC, TypeF) || Are(lhs, rhs, TypeF, TypeC)
  }

  /** A point is joined to what reaches the other end of a period. */
  ghost predicate FarEnds(f: Field, lhs: Interval, rhs: Interval) {
    (lhs.kind.Degenerate? || rhs.kind.Degenerate?) && (lhs.a == 0 || rhs.a == 0) &&
      (lhs.b == f.prime - 1 || rhs.b == f.prime - 1)
  }

  /** Between them the operands hold the values on both sides of zero and of half. */
  ghost predicate BothBorders(f: Field, lhs: Interval, rhs: Interval) {
    forall x :: x in {0, f.prime - 1, f.Half() - 1, f.Half()} ==> Contains(f, lhs, x) || Contains(f, rhs, x)
  }

  /** A join starts where one operand starts and ends where one ends, unless it gives up. It gives up only on an
      operand that has, on a range across half with one around zero, when the operands hold both sides of zero and of
      half, and when a point makes the two reach from 0 to the greatest value. */
  lemma JoinNarrow(f: Field, lhs: Interval, rhs: Interval)
    requires f.Valid() && Proper(f, lhs) && Proper(f, rhs) && !lhs.kind.Empty? && !rhs.kind.Empty?
    requires !PointAndExternal(lhs, rhs)
    ensures var j := Join(f, lhs, rhs);
        j.kind.Entire? || (!j.kind.Empty? && j.a in {lhs.a, rhs.a} && j.b in {lhs.b, rhs.b})
    ensures Join(f, lhs, rhs).kind.Entire? ==>
      (lhs.kind.Entire? || rhs.kind.Entire? || AcrossAndAroundPair(lhs, rhs) || FarEnds(f, lhs, rhs) ||
        BothBorders(f, lhs, rhs))
    decreases if Straight(lhs, rhs) then 0 else 1
  {
    hide ReduceInterval;
    if lhs.kind.Entire? || rhs.kind.Entire? {
    } else if lhs.kind.Degenerate? || rhs.kind.Degenerate? {
      UnionReduced(f, DoUnion(ToUnreduced(f, lhs), ToUnreduced(f, rhs)));
    } else if (lhs.kind == rhs.kind && !lhs.kind.TypeF?) || Are(lhs, rhs, TypeA, TypeC) || Are(lhs, rhs, TypeB, TypeC) {
      Canonical(f, lhs.a);
      Canonical(f, lhs.b);
      Canonical(f, rhs.a);
      Canonical(f, rhs.b);
    } else if Are(lhs, rhs, TypeA, TypeB) {
      UnionReduced(f, DoUnion(FirstUnreduced(f, rhs), FirstUnreduced(f, lhs)));
      AroundReduced(f, rhs.a, lhs.b);
    } else if rhs.kind.TypeF? && !lhs.kind.TypeC? {
      JoinNarrowAround(f, lhs, rhs);
    } else if !Are(lhs, rhs, TypeC, TypeF) {
      JoinNarrow(f, rhs, lhs);
    }
  }

  lemma AroundBorders(f: Field, lhs: Interval, rhs: Interval, a: int, b: int)
    requires f.Valid() && Proper(f, lhs) && Proper(f, rhs)
    requires rhs.kind.TypeF? && (lhs.kind.TypeF? || lhs.kind.TypeA? || lhs.kind.TypeB?)
    requires a in {lhs.a, rhs.a} && b in {lhs.b, rhs.b} && a == f.Half() && b == f.Half() - 1
    ensures BothBorders(f, lhs, rhs)
  {}

  lemma JoinNarrowAround(f: Field, lhs: Interval, rhs: Interval)
    requires f.Valid() && Proper(f, lhs) && Proper(f, rhs)
    requires rhs.kind.TypeF? && (lhs.kind.TypeF? || lhs.kind.TypeA? || lhs.kind.TypeB?)
    ensures var j := Join(f, lhs, rhs);
        j.kind.Entire? || (!j.kind.Empty? && j.a in {lhs.a, rhs.a} && j.b in {lhs.b, rhs.b})
    ensures Join(f, lhs, rhs).kind.Entire? ==> BothBorders(f, lhs, rhs)
  {
    hide ReduceInterval, Tagged, Contains;
    var a := if !lhs.kind.TypeA? && lhs.a < rhs.a then lhs.a else rhs.a;
    var b := if !lhs.kind.TypeB? && lhs.b > rhs.b then lhs.b else rhs.b;
    assert Join(f, lhs, rhs) == ReduceInterval(f, Unreduced(a - f.prime, b));
    hide Join;
    AroundReduced(f, a, b);
    if b + 1 >= a { AroundBorders(f, lhs, rhs, a, b); }
  }

  lemma JoinLoses(f: Field, lhs: Interval, rhs: Interval)
    requires f.Valid() && Proper(f, lhs) && Proper(f, rhs) && PointAndExternal(lhs, rhs)
    ensures exists x :: (Contains(f, lhs, x) || Contains(f, rhs, x)) && !Contains(f, Join(f, lhs, rhs), x)
  {
    var point, range := if lhs.kind.Degenerate? then lhs else rhs, if lhs.kind.Degenerate? then rhs else lhs;
    var u := DoUnion(ToUnreduced(f, lhs), ToUnreduced(f, rhs));
    var lost := if point.a >= range.a then 0 else range.a;
    assert Contains(f, range, lost);
    if Contains(f, Join(f, lhs, rhs), lost) && u.a <= u.b {
      Canonical(f, u.a);
      Canonical(f, u.b);
      assert false;
    }
  }

  /** A join covers both operands exactly when it does not mix a point with a range around zero. */
  lemma JoinSound(f: Field, lhs: Interval, rhs: Interval)
    requires f.Valid() && Proper(f, lhs) && Proper(f, rhs)
    ensures (forall x :: Contains(f, lhs, x) || Contains(f, rhs, x) ==> Contains(f, Join(f, lhs, rhs), x)) <==>
        !PointAndExternal(lhs, rhs)
  {
    hide Contains, Join, Proper;
    if PointAndExternal(lhs, rhs) {
      JoinLoses(f, lhs, rhs);
    } else {
      forall x | Contains(f, lhs, x) || Contains(f, rhs, x)
        ensures Contains(f, Join(f, lhs, rhs), x)
      {
        JoinCovers(f, lhs, rhs, x);
      }
    }
  }

  function Intersect(f: Field, lhs: Interval, rhs: Interval): Interval
    requires f.Valid()
    decreases (if lhs.kind.Degenerate? then 2 else 0) + (if rhs.kind.Degenerate? then 2 else 0) + if Straight(lhs, rhs)
        then 0 else 1
  {
    if lhs == rhs then lhs
    else if lhs.kind.Empty? || rhs.kind.Empty? then EmptyInterval()
    else if lhs.kind.Entire? then rhs
    else if rhs.kind.Entire? then lhs
    else if lhs.kind.Degenerate? && rhs.kind.Degenerate? then EmptyInterval()
    else if lhs.kind.Degenerate? then Intersect(f, Tagged(f, TypeA, lhs.a, lhs.a), rhs)
    else if rhs.kind.Degenerate? then Intersect(f, Tagged(f, TypeA, rhs.a, rhs.a), lhs)
    else if (lhs.kind == rhs.kind && !lhs.kind.TypeF?) || Are(lhs, rhs, TypeA, TypeC) ||
      Are(lhs, rhs, TypeB, TypeC) then
      var u := DoIntersect(Unreduced(lhs.a, lhs.b), Unreduced(rhs.a, rhs.b));
      if u.a < u.b then Tagged(f, lhs.kind, u.a, u.b) else if u.a == u.b then Point(f, u.a) else EmptyInterval()
    else if Are(lhs, rhs, TypeA, TypeB) then EmptyInterval()
    else if Are(lhs, rhs, TypeF, TypeF) || Are(lhs, rhs, TypeA, TypeF) then
      ReduceInterval(f, DoIntersect(FirstUnreduced(f, lhs), FirstUnreduced(f, rhs)))
    else if Are(lhs, rhs, TypeB, TypeF)
      then ReduceInterval(f, DoIntersect(SecondUnreduced(f, lhs), FirstUnreduced(f, rhs)))
    else if Are(lhs, rhs, TypeC, TypeF) then
      var rhsUnred := FirstUnreduced(f, rhs);
      var opt1, opt2 := ReduceInterval(f, DoIntersect(FirstUnreduced(f, lhs), rhsUnred)),
          ReduceInterval(f, DoIntersect(SecondUnreduced(f, lhs), rhsUnred));
      if opt1.kind.Empty? then opt2 else if opt2.kind.Empty? then opt1 else Join(f, opt1, opt2)
    else Intersect(f, rhs, lhs)
  }

  /** A point of the upper half inside a range that lies there: it is re-tagged as if it lay in the lower half. */
  ghost predicate MisplacedPoint(f: Field, point: Interval, range: Interval) {
    point.kind.Degenerate? && point.a >= f.Half() && (range.kind.TypeB? || range.kind.TypeF?) &&
      Contains(f, range, point.a)
  }

  lemma IntersectCovers(f: Field, lhs: Interval, rhs: Interval, x: int)
    requires f.Valid() && Proper(f, lhs) && Proper(f, rhs) && !lhs.kind.Degenerate? && !rhs.kind.Degenerate?
    requires Contains(f, lhs, x) && Contains(f, rhs, x)
    ensures Contains(f, Intersect(f, lhs, rhs), x)
    decreases if Straight(lhs, rhs) then 0 else 1
  {
    hide ReduceInterval;
    Periods(f, x);
    if lhs == rhs || lhs.kind.Empty? || rhs.kind.Empty? || lhs.kind.Entire? || rhs.kind.Entire? {
    } else if (lhs.kind == rhs.kind && !lhs.kind.TypeF?) || Are(lhs, rhs, TypeA, TypeC) || Are(lhs, rhs, TypeB, TypeC) {
      var u := DoIntersect(Unreduced(lhs.a, lhs.b), Unreduced(rhs.a, rhs.b));
      Canonical(f, u.a);
      Canonical(f, u.b);
    } else if Are(lhs, rhs, TypeA, TypeB) {
    } else if Are(lhs, rhs, TypeF, TypeF) || Are(lhs, rhs, TypeA, TypeF) {
      ReduceSound(f, DoIntersect(FirstUnreduced(f, lhs), FirstUnreduced(f, rhs)), Representative(f, rhs, x));
    } else if Are(lhs, rhs, TypeB, TypeF) {
      ReduceSound(f, DoIntersect(SecondUnreduced(f, lhs), FirstUnreduced(f, rhs)), x - f.prime);
    } else if Are(lhs, rhs, TypeC, TypeF) {
      AcrossAndAround(f, lhs, rhs, x);
    } else {
      IntersectCovers(f, rhs, lhs, x);
    }
  }

  /** A range that stays within one period does not reduce to one around zero. */
  lemma InternalReduction(f: Field, u: Unreduced, l: int, r: int)
    requires f.Valid() && 0 <= l < f.prime && 0 <= r < f.prime
    requires u == Unreduced(l, r) || u == Unreduced(l - f.prime, r - f.prime)
    ensures !ReduceInterval(f, u).kind.TypeF?
  {
    Periods(f, l);
    Periods(f, r);
    ReduceIsMod(f, u.a);
    ReduceIsMod(f, u.b);
  }

  lemma AcrossAndAround(f: Field, lhs: Interval, rhs: Interval, x: int)
    requires f.Valid() && Proper(f, lhs) && Proper(f, rhs) && Are(lhs, rhs, TypeC, TypeF)
    requires Contains(f, lhs, x) && Contains(f, rhs, x)
    ensures Contains(f, Intersect(f, lhs, rhs), x)
  {
    hide ReduceInterval, Tagged, Join;
    var u1, u2 := DoIntersect(FirstUnreduced(f, lhs), FirstUnreduced(f, rhs)),
        DoIntersect(SecondUnreduced(f, lhs), FirstUnreduced(f, rhs));
    var opt1, opt2 := ReduceInterval(f, u1), ReduceInterval(f, u2);
    ReduceProper(f, u1);
    ReduceProper(f, u2);
    Periods(f, x);
    if x <= rhs.b { ReduceSound(f, u1, x); } else { ReduceSound(f, u2, x - f.prime); }
    if !opt1.kind.Empty? && !opt2.kind.Empty? {
      InternalReduction(f, u1, lhs.a, rhs.b);
      InternalReduction(f, u2, rhs.a, lhs.b);
      JoinCovers(f, opt1, opt2, x);
    }
  }

  /** Intersecting with a point, in the form the code reduces it to. */
  lemma IntersectPoint(f: Field, point: Interval, range: Interval)
    requires f.Valid() && Proper(f, point) && Proper(f, range) && point.kind.Degenerate? && Ranged(range)
    ensures Contains(f, range, point.a) ==>
              (Contains(f, Intersect(f, Tagged(f, TypeA, point.a, point.a), range), point.a) <==>
                !MisplacedPoint(f, point, range))
  {
    var v := point.a;
    Canonical(f, v);
    var t := Tagged(f, TypeA, v, v);
    assert t == Interval(TypeA, v, v);
    ModUnique(v, f.prime, 0, v);
    if Contains(f, range, v) {
      if range.kind.TypeF? {
        var u := DoIntersect(FirstUnreduced(f, t), FirstUnreduced(f, range));
        assert Intersect(f, t, range) == ReduceInterval(f, u);
        if v < f.Half() { ReduceSound(f, u, v); }
      }
    }
  }

  /** An intersection covers every common value exactly when it does not involve a misplaced point. */
  lemma IntersectSound(f: Field, lhs: Interval, rhs: Interval)
    requires f.Valid() && Proper(f, lhs) && Proper(f, rhs)
    ensures (forall x :: Contains(f, lhs, x) && Contains(f, rhs, x) ==> Contains(f, Intersect(f, lhs, rhs), x))
       <==> !MisplacedPoint(f, lhs, rhs) && !MisplacedPoint(f, rhs, lhs)
  {
    if lhs.kind.Degenerate? && Ranged(rhs) {
      IntersectPoint(f, lhs, rhs);
      if MisplacedPoint(f, lhs, rhs) { assert Contains(f, lhs, lhs.a) && Contains(f, rhs, lhs.a); }
    } else if rhs.kind.Degenerate? && Ranged(lhs) {
      IntersectPoint(f, rhs, lhs);
      if MisplacedPoint(f, rhs, lhs) { assert Contains(f, rhs, rhs.a) && Contains(f, lhs, rhs.a); }
    } else if !lhs.kind.Degenerate? && !rhs.kind.Degenerate? {
      forall x | Contains(f, lhs, x) && Contains(f, rhs, x)
        ensures Contains(f, Intersect(f, lhs, rhs), x)
      {
        IntersectCovers(f, lhs, rhs, x);
      }
    }
  }

  /** A range inside the lower half, inside the upper half below zero, or around zero. */
  predicate OneStretch(f: Field, u: Unreduced) {
    || (0 <= u.a && u.b < f.Half()) || (f.Half() - f.prime <= u.a && u.b < 0)
    || (f.Half() - f.prime <= u.a < 0 <= u.b < f.Half() && u.b + 1 < u.a + f.prime)
  }

  /** It reduces to nothing but its residues. */
  lemma StretchReduced(f: Field, u: Unreduced, x: int)
    requires f.Valid() && OneStretch(f, u) && Contains(f, ReduceInterval(f, u), x)
    ensures u.a <= x <= u.b || u.a <= x - f.prime <= u.b
  {
    if u.a > u.b {
    } else if 0 <= u.a {
      UnionReduced(f, u);
    } else if u.b < 0 {
      BelowReduced(f, u);
    } else {
      AroundReduced(f, u.a + f.prime, u.b);
    }
    var z := ReduceExact(f, u, x);
    Periods(f, x);
    assert z == x || z == x - f.prime by {
      if z < 0 { ModUnique(z, f.prime, -1, z + f.prime); } else { ModUnique(z, f.prime, 0, z); }
    }
  }

  lemma BelowReduced(f: Field, u: Unreduced)
    requires f.Valid() && -f.prime <= u.a <= u.b < 0 && Width(u) < f.prime
    ensures !ReduceInterval(f, u).kind.Entire?
  {
    ReduceIsMod(f, u.a);
    ReduceIsMod(f, u.b);
    ModUnique(u.a, f.prime, -1, u.a + f.prime);
    ModUnique(u.b, f.prime, -1, u.b + f.prime);
  }

  lemma PointNarrow(f: Field, point: Interval, range: Interval, x: int)
    requires f.Valid() && Proper(f, point) && Proper(f, range) && point.kind.Degenerate? && Ranged(range)
    requires Contains(f, Intersect(f, Tagged(f, TypeA, point.a, point.a), range), x)
    ensures x == point.a && Contains(f, range, x)
  {
    hide ReduceInterval;
    var v := point.a;
    Canonical(f, v);
    var t := Tagged(f, TypeA, v, v);
    assert t == Interval(TypeA, v, v);
    if range.kind.TypeF? {
      var u := DoIntersect(FirstUnreduced(f, t), FirstUnreduced(f, range));
      assert Intersect(f, t, range) == ReduceInterval(f, u);
      StretchReduced(f, u, x);
    }
  }

  lemma AroundNarrow(f: Field, lhs: Interval, rhs: Interval, x: int)
    requires f.Valid() && Proper(f, lhs) && Proper(f, rhs) && rhs.kind.TypeF? && Ranged(lhs) && lhs != rhs
    requires Contains(f, Intersect(f, lhs, rhs), x)
    requires lhs.kind.TypeC? ==> lhs.a > rhs.b || rhs.a > lhs.b
    ensures Contains(f, lhs, x) && Contains(f, rhs, x)
  {
    hide ReduceInterval, Join;
    var u := DoIntersect(if lhs.kind.TypeB? then SecondUnreduced(f, lhs) else FirstUnreduced(f, lhs),
                         FirstUnreduced(f, rhs));
    if lhs.kind.TypeC? {
      var w := DoIntersect(SecondUnreduced(f, lhs), FirstUnreduced(f, rhs));
      EmptyReduced(f, u);
      EmptyReduced(f, w);
      StretchReduced(f, if lhs.a > rhs.b then w else u, x);
    } else {
      StretchReduced(f, u, x);
    }
  }

  lemma CommonEnds(f: Field, lhs: Interval, rhs: Interval)
    requires Proper(f, lhs) && Proper(f, rhs) && Are(lhs, rhs, TypeC, TypeF)
    ensures lhs.a <= rhs.b ==> Contains(f, lhs, lhs.a) && Contains(f, rhs, lhs.a)
    ensures rhs.a <= lhs.b ==> Contains(f, lhs, lhs.b) && Contains(f, rhs, lhs.b)
  {}

  lemma EmptyReduced(f: Field, u: Unreduced)
    requires f.Valid()
    ensures u.a > u.b ==> ReduceInterval(f, u).kind.Empty?
  {}

  lemma EndsNarrow(f: Field, lhs: Interval, rhs: Interval, x: int)
    requires f.Valid() && Proper(f, lhs) && Proper(f, rhs) && lhs != rhs && Contains(f, Intersect(f, lhs, rhs), x)
    requires (lhs.kind == rhs.kind && (lhs.kind.TypeA? || lhs.kind.TypeB? || lhs.kind.TypeC?)) ||
        Are(lhs, rhs, TypeA, TypeC) || Are(lhs, rhs, TypeB, TypeC)
    ensures Contains(f, lhs, x) && Contains(f, rhs, x)
  {
    var u := DoIntersect(Unreduced(lhs.a, lhs.b), Unreduced(rhs.a, rhs.b));
    Canonical(f, u.a);
    Canonical(f, u.b);
  }

  /** An intersection holds common values only, unless a range across half and one around zero meet in both halves. */
  lemma IntersectNarrow(f: Field, lhs: Interval, rhs: Interval, x: int)
    requires f.Valid() && Proper(f, lhs) && Proper(f, rhs) && Contains(f, Intersect(f, lhs, rhs), x)
    requires AcrossAndAroundPair(lhs, rhs) ==> forall y, z ::
        Contains(f, lhs, y) && Contains(f, rhs, y) && Contains(f, lhs, z) && Contains(f, rhs, z) ==>
          (y < f.Half() <==> z < f.Half())
    ensures Contains(f, lhs, x) && Contains(f, rhs, x)
    decreases (if lhs.kind.Degenerate? then 2 else 0) + (if rhs.kind.Degenerate? then 2 else 0) + if Straight(lhs, rhs)
        then 0 else 1
  {
    hide ReduceInterval, Join, Tagged;
    if lhs == rhs || lhs.kind.Empty? || rhs.kind.Empty? || lhs.kind.Entire? || rhs.kind.Entire? {
    } else if lhs.kind.Degenerate? && rhs.kind.Degenerate? {
    } else if lhs.kind.Degenerate? {
      PointNarrow(f, lhs, rhs, x);
    } else if rhs.kind.Degenerate? {
      PointNarrow(f, rhs, lhs, x);
    } else if (lhs.kind == rhs.kind && !lhs.kind.TypeF?) || Are(lhs, rhs, TypeA, TypeC) || Are(lhs, rhs, TypeB, TypeC) {
      EndsNarrow(f, lhs, rhs, x);
    } else if Are(lhs, rhs, TypeA, TypeB) {
    } else if rhs.kind.TypeF? {
      if lhs.kind.TypeC? { CommonEnds(f, lhs, rhs); }
      AroundNarrow(f, lhs, rhs, x);
    } else {
      IntersectNarrow(f, rhs, lhs, x);
    }
  }
}
