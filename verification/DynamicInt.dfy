/** Arbitrary-precision integer helpers: truncating division, shifts, bit operations by repeated
    halving, fast exponentiation and inverses modulo a prime. */
module DynamicInt {
  import opened ModMath

  // ---------- the integer type's own division: it truncates toward zero ----------

  function TDiv(a: int, b: int): int
    requires b != 0
  {
    if a >= 0 then (if b > 0 then a / b else -(a / -b)) else (if b > 0 then -(-a / b) else -a / -b)
  }

  function TMod(a: int, b: int): int
    requires b != 0
  {
    a - b * TDiv(a, b)
  }

  lemma TModSigned(a: int, b: int)
    requires b > 0
    ensures a >= 0 ==> TMod(a, b) == a % b
    ensures a < 0 ==> TMod(a, b) == -(-a % b)
  {}

  // ---------- shifts ----------

  lemma {:induction false} PowPositive(b: int, e: nat)
    requires b > 0
    ensures Pow(b, e) > 0
  {
    if e == 0 {
    } else {
      PowPositive(b, e - 1);
    }
  }

  function Po2(e: int): (r: int)
    requires 0 <= e < 0xFFFF_FFFF
    ensures r > 0
  {
    PowPositive(2, e);
    Pow(2, e)
  }

  function ShiftLeft(lhs: int, rhs: int): int
    requires 0 <= rhs < 0xFFFF_FFFF
  {
    lhs * Po2(rhs)
  }

  function ShiftRight(lhs: int, rhs: int): int
    requires 0 <= rhs < 0xFFFF_FFFF
  {
    var divisor := Po2(rhs);
    if lhs >= 0 then TDiv(lhs, divisor)
    else if TMod(lhs, divisor) == 0 then TDiv(lhs, divisor)
    else TDiv(lhs - (divisor - 1), divisor)
  }

  /** A right shift rounds toward negative infinity, whatever the sign. */
  lemma ShiftRightFloors(lhs: int, rhs: int)
    requires 0 <= rhs < 0xFFFF_FFFF
    ensures ShiftRight(lhs, rhs) * Po2(rhs) <= lhs < (ShiftRight(lhs, rhs) + 1) * Po2(rhs)
  {
    FloorDivision(lhs, Po2(rhs));
  }

  lemma FloorDivision(x: int, d: int)
    requires d > 0
    ensures var r := if x >= 0 then TDiv(x, d) else if TMod(x, d) == 0 then TDiv(x, d) else TDiv(x - (d - 1), d);
            r * d <= x < (r + 1) * d
  {
    if x >= 0 {
      FloorAt(x, d, x / d, x % d);
    } else {
      var q, r := -x / d, -x % d;
      TModSigned(x, d);
      if r == 0 {
        FloorBelow(x, d, -q, 0);
      } else {
        RoundUp(-x, d, q, r);
        FloorBelow(x, d, -q - 1, d - r);
      }
    }
  }

  lemma FloorAt(x: int, d: int, q: int, r: int)
    requires 0 <= r < d && x == d * q + r
    ensures q * d <= x < (q + 1) * d
  {}

  lemma FloorBelow(x: int, d: int, q: int, r: int)
    requires 0 <= r < d && -x == d * -q - r
    ensures q * d <= x < (q + 1) * d
  {
    assert d * -q == -(d * q);
    FloorAt(x, d, q, r);
  }

  lemma RoundUp(m: int, d: int, q: int, r: int)
    requires 0 < r < d && m == d * q + r
    ensures (m + (d - 1)) / d == q + 1 && m == d * -(-q - 1) - (d - r)
  {
    assert d * (q + 1) == d * q + d;
    assert d * (q + 1) == (q + 1) * d;
    ModUnique(m + (d - 1), d, q + 1, r - 1);
  }

  /** Shifting left and back gives the original value. */
  lemma ShiftRoundTrip(lhs: int, rhs: int)
    requires 0 <= rhs < 0xFFFF_FFFF
    ensures ShiftRight(ShiftLeft(lhs, rhs), rhs) == lhs
  {
    var d, x := Po2(rhs), ShiftLeft(lhs, rhs);
    ShiftRightFloors(x, rhs);
    var r := ShiftRight(x, rhs);
    assert (lhs - r) * d == lhs * d - r * d;
    assert (r + 1) * d == r * d + d;
    SmallMultiple(lhs - r, d);
  }

  // ---------- bits ----------

  /** Bit `i` of a non-negative integer. */
  predicate Bit(x: nat, i: nat) { if i == 0 then x % 2 == 1 else Bit(x / 2, i - 1) }

  /** Bit `i` of the infinite two's complement form of `x`. */
  predicate SignedBit(x: int, i: nat) { if x >= 0 then Bit(x, i) else !Bit(-x - 1, i) }

  function BitsValue(bits: seq<bool>): nat {
    if bits == [] then 0 else (if bits[0] then 1 else 0) + 2 * BitsValue(bits[1..])
  }

  /** The signed value of a fixed-width integer given by its bits, least significant first. */
  function SignedValue(bits: seq<bool>): int {
    if bits == [] then 0 else BitsValue(bits) - (if bits[|bits| - 1] then Pow(2, |bits|) else 0)
  }

  /** Bit `i` of `bits` read as a signed integer of that width. */
  predicate Extended(bits: seq<bool>, i: nat)
    requires bits != []
  {
    if i < |bits| then bits[i] else bits[|bits| - 1]
  }

  lemma {:induction false} BitsValueBelow(bits: seq<bool>)
    ensures BitsValue(bits) < Pow(2, |bits|)
    ensures bits != [] && !bits[|bits| - 1] ==> 2 * BitsValue(bits) < Pow(2, |bits|)
    ensures bits != [] && bits[|bits| - 1] ==> 2 * BitsValue(bits) >= Pow(2, |bits|)
  {
    if |bits| == 1 {
      assert BitsValue(bits[1..]) == 0;
    } else if bits != [] {
      BitsValueBelow(bits[1..]);
    }
  }

  /** Halving a fixed-width integer drops its lowest bit. */
  lemma SignedHalf(bits: seq<bool>)
    requires |bits| >= 2
    ensures SignedValue(bits) == (if bits[0] then 1 else 0) + 2 * SignedValue(bits[1..])
  {}

  lemma {:induction false} SignedValueBit(bits: seq<bool>, i: nat)
    requires bits != []
    ensures SignedBit(SignedValue(bits), i) == Extended(bits, i)
    decreases i + |bits|
  {
    BitsValueBelow(bits);
    var x := SignedValue(bits);
    if |bits| == 1 {
      assert BitsValue(bits[1..]) == 0;
      assert x == if bits[0] then -1 else 0;
      ZeroBits(i);
    } else {
      SignedHalf(bits);
      BitsValueBelow(bits[1..]);
      var y := SignedValue(bits[1..]);
      if i == 0 {
        if x < 0 { assert -x - 1 == 2 * (-y - 1) + if bits[0] then 0 else 1; }
      } else {
        SignedValueBit(bits[1..], i - 1);
        if x >= 0 { assert x / 2 == y; } else { assert (-x - 1) / 2 == -y - 1; }
      }
    }
  }

  lemma {:induction false} ZeroBits(i: nat)
    ensures !Bit(0, i)
  {
    if i == 0 {
    } else {
      ZeroBits(i - 1);
    }
  }

  /** The bit of `x` the halving loop sees in round `i`: halving truncates toward zero, so for negative `x`
      it is a bit of the magnitude, followed by sign bits once the magnitude is used up. */
  predicate Seen(x: int, i: nat) {
    if x >= 0 then Bit(x, i) else SeenMagnitude(-x, i)
  }

  predicate SeenMagnitude(m: nat, i: nat) {
    if m == 0 then true else if i == 0 then m % 2 == 1 else SeenMagnitude(m / 2, i - 1)
  }

  /** One operation per round until both operands are used up, then the sign bit, then the bits read
      back as a signed integer. */
  method BinaryBitOp(lhs: int, rhs: int, fn: (bool, bool) -> bool) returns (r: int)
    ensures forall i: nat :: SignedBit(r, i) == fn(Seen(lhs, i), Seen(rhs, i))
  {
    var a, b := lhs, rhs;
    var bits: seq<bool> := [];
    while a != 0 || b != 0
      invariant (a >= 0 || lhs < 0) && (a <= 0 || lhs > 0) && (b >= 0 || rhs < 0) && (b <= 0 || rhs > 0)
      invariant forall i :: 0 <= i < |bits| ==> bits[i] == fn(Seen(lhs, i), Seen(rhs, i))
      invariant forall i: nat :: i >= |bits| ==> Seen(lhs, i) == SeenFrom(a, lhs < 0, i - |bits|)
      invariant forall i: nat :: i >= |bits| ==> Seen(rhs, i) == SeenFrom(b, rhs < 0, i - |bits|)
      decreases Abs(a) + Abs(b)
    {
      var abit := if a != 0 then TMod(a, 2) != 0 else lhs < 0;
      var bbit := if b != 0 then TMod(b, 2) != 0 else rhs < 0;
      SeenHere(a, lhs < 0);
      SeenHere(b, rhs < 0);
      ghost var n := |bits|;
      assert Seen(lhs, n) == abit && Seen(rhs, n) == bbit;
      bits := bits + [fn(abit, bbit)];
      forall i: nat | i >= n + 1
        ensures Seen(lhs, i) == SeenFrom(TDiv(a, 2), lhs < 0, i - n - 1)
        ensures Seen(rhs, i) == SeenFrom(TDiv(b, 2), rhs < 0, i - n - 1)
      {
        SeenNext(a, lhs < 0, i - n - 1);
        SeenNext(b, rhs < 0, i - n - 1);
      }
      a := TDiv(a, 2);
      b := TDiv(b, 2);
    }
    bits := bits + [fn(lhs < 0, rhs < 0)];
    r := SignedValue(bits);
    forall i: nat ensures SignedBit(r, i) == fn(Seen(lhs, i), Seen(rhs, i)) {
      SignedValueBit(bits, i);
      if i >= |bits| - 1 {
        ZeroBits(i - (|bits| - 1));
      }
    }
  }

  function Abs(x: int): nat { if x < 0 then -x else x }

  /** What is left to see of an operand of the given sign once it has been halved down to `a`. */
  predicate SeenFrom(a: int, negative: bool, i: nat)
    requires if negative then a <= 0 else a >= 0
  {
    if negative then SeenMagnitude(-a, i) else Bit(a, i)
  }

  lemma SeenHere(a: int, negative: bool)
    requires if negative then a <= 0 else a >= 0
    ensures SeenFrom(a, negative, 0) == if a != 0 then TMod(a, 2) != 0 else negative
  {
    TModSigned(a, 2);
  }

  lemma SeenNext(a: int, negative: bool, i: nat)
    requires if negative then a <= 0 else a >= 0
    ensures SeenFrom(a, negative, 1 + i) == SeenFrom(TDiv(a, 2), negative, i)
  {}

  /** The loop sees the two's complement bits of `x` exactly when `x` is not negative or the
      negation of a power of two. */
  lemma SeenExact(x: int)
    ensures (forall i: nat :: Seen(x, i) == SignedBit(x, i)) <==> x >= 0 || IsPowerOfTwo(-x)
  {
    if x < 0 {
      if IsPowerOfTwo(-x) {
        forall i: nat ensures Seen(x, i) == SignedBit(x, i) { MagnitudeOfPower(-x, i); }
      } else {
        var i := MagnitudeDiffers(-x);
        assert Seen(x, i) != SignedBit(x, i);
      }
    }
  }

  predicate IsPowerOfTwo(m: nat) { m == 1 || (m > 0 && m % 2 == 0 && IsPowerOfTwo(m / 2)) }

  lemma {:induction false} MagnitudeOfPower(m: nat, i: nat)
    requires IsPowerOfTwo(m)
    ensures SeenMagnitude(m, i) == !Bit(m - 1, i)
    decreases i
  {
    if m == 1 {
      ZeroBits(i);
    } else if i > 0 {
      assert (m - 1) / 2 == m / 2 - 1;
      MagnitudeOfPower(m / 2, i - 1);
    }
  }

  lemma {:induction false} MagnitudeDiffers(m: nat) returns (i: nat)
    requires m > 0 && !IsPowerOfTwo(m)
    ensures SeenMagnitude(m, i) == Bit(m - 1, i)
    decreases m
  {
    if m % 2 == 0 {
      i := MagnitudeDiffers(m / 2);
      i := i + 1;
      assert (m - 1) / 2 == m / 2 - 1;
    } else {
      i := TopBit(m / 2);
      i := i + 1;
      assert (m - 1) / 2 == m / 2;
      SeenIsBit(m / 2, i - 1);
    }
  }

  lemma {:induction false} TopBit(m: nat) returns (i: nat)
    requires m > 0
    ensures Bit(m, i)
  {
    if m == 1 {
      i := 0;
    } else {
      i := TopBit(m / 2);
      i := i + 1;
    }
  }

  lemma {:induction false} SeenIsBit(m: nat, i: nat)
    requires Bit(m, i)
    ensures SeenMagnitude(m, i)
  {
    if i > 0 && m != 0 { SeenIsBit(m / 2, i - 1); }
  }

  lemma {:induction false} BitsBound(x: nat, y: nat)
    requires forall i: nat :: Bit(x, i) ==> Bit(y, i)
    ensures x <= y
    decreases x
  {
    if x == 0 {
    } else {
      assert Bit(x, 0) ==> Bit(y, 0);
      forall i: nat ensures Bit(x / 2, i) ==> Bit(y / 2, i) {
        assert Bit(x, i + 1) ==> Bit(y, i + 1);
      }
      BitsBound(x / 2, y / 2);
    }
  }

  /** Bitwise and of non-negative operands: bit by bit, and bounded by each operand. */
  method And(lhs: int, rhs: int) returns (r: int)
    ensures lhs >= 0 && rhs >= 0 ==>
        0 <= r <= lhs && r <= rhs && forall i: nat :: Bit(r, i) == (Bit(lhs, i) && Bit(rhs, i))
  {
    r := BinaryBitOp(lhs, rhs, (a, b) => a && b);
    if lhs >= 0 && rhs >= 0 {
      if r < 0 {
        AndSign(lhs, rhs, r);
      }
      forall i: nat
        ensures Bit(r, i) == (Bit(lhs, i) && Bit(rhs, i))
      {
        assert SignedBit(r, i) == (Seen(lhs, i) && Seen(rhs, i));
      }
      BitsBound(r, lhs);
      BitsBound(r, rhs);
    }
  }

  /** A negative integer has bits set beyond any bit of a non-negative one. */
  lemma AndSign(lhs: int, rhs: int, r: int)
    requires lhs >= 0 && rhs >= 0 && forall i: nat :: SignedBit(r, i) == (Seen(lhs, i) && Seen(rhs, i))
    ensures r >= 0
  {
    if r < 0 { var i := SetOnlyThere(lhs, r); }
  }

  lemma SetOnlyThere(x: int, r: int) returns (i: nat)
    requires x >= 0 && r < 0
    ensures SignedBit(r, i) && !Seen(x, i)
  {
    i := BothClear(x, -r - 1);
  }

  lemma {:induction false} BothClear(x: nat, y: nat) returns (i: nat)
    ensures !Bit(x, i) && !Bit(y, i)
    decreases x + y
  {
    if x == 0 && y == 0 {
      i := 0;
    } else {
      i := BothClear(x / 2, y / 2);
      i := i + 1;
    }
  }

  // ---------- conversion from fixed-width integers ----------

  /** All bits flipped, then one added, within the width. */
  function Negated(bits: seq<bool>): (r: seq<bool>)
    ensures |r| == |bits|
  {
    if bits == [] then [] else if !bits[0] then [false] + Negated(bits[1..]) else [true] + Flipped(bits[1..])
  }

  function Flipped(bits: seq<bool>): (r: seq<bool>)
    ensures |r| == |bits|
  {
    if bits == [] then [] else [!bits[0]] + Flipped(bits[1..])
  }

  lemma {:induction false} FlippedValue(bits: seq<bool>)
    ensures BitsValue(Flipped(bits)) == Pow(2, |bits|) - 1 - BitsValue(bits)
  {
    if bits == [] {
    } else {
      FlippedValue(bits[1..]);
      assert Flipped(bits)[1..] == Flipped(bits[1..]);
    }
  }

  lemma {:induction false} NegatedValue(bits: seq<bool>)
    ensures BitsValue(Negated(bits)) == if BitsValue(bits) == 0 then 0 else Pow(2, |bits|) - BitsValue(bits)
  {
    if bits == [] {
    } else {
      NegatedValue(bits[1..]);
      FlippedValue(bits[1..]);
      assert bits[0] ==> Negated(bits)[1..] == Flipped(bits[1..]);
      assert !bits[0] ==> Negated(bits)[1..] == Negated(bits[1..]);
    }
  }

  /** Number of bits up to the highest one set. */
  function ActiveBits(bits: seq<bool>): (n: nat)
    ensures n <= |bits| && forall i :: n <= i < |bits| ==> !bits[i]
  {
    if bits == [] then 0 else if bits[|bits| - 1] then |bits| else ActiveBits(bits[..|bits| - 1])
  }

  lemma {:induction false} BitsValueSplit(bits: seq<bool>, n: nat)
    requires n < |bits|
    ensures BitsValue(bits[..n + 1]) == BitsValue(bits[..n]) + if bits[n] then Pow(2, n) else 0
  {
    if n == 0 {
      assert BitsValue(bits[..1][1..]) == 0;
    } else {
      BitsValueSplit(bits[1..], n - 1);
      assert bits[..n + 1][1..] == bits[1..][..n] && bits[..n][1..] == bits[1..][..n - 1];
    }
  }

  lemma {:induction false} BitsValueZeros(bits: seq<bool>, n: nat)
    requires n <= |bits| && forall i :: n <= i < |bits| ==> !bits[i]
    ensures BitsValue(bits) == BitsValue(bits[..n])
    decreases |bits| - n
  {
    if n == |bits| {
      assert bits[..n] == bits;
    } else {
      BitsValueSplit(bits, n);
      BitsValueZeros(bits, n + 1);
    }
  }

  /** The value of a fixed-width integer: directly up to 64 bits, bit by bit from its magnitude beyond. */
  method ToDynamicInt(bits: seq<bool>, signed: bool) returns (res: int)
    ensures res == if signed then SignedValue(bits) else BitsValue(bits)
  {
    var negative := signed && bits != [] && bits[|bits| - 1];
    if |bits| <= 64 && (signed || bits == [] || !bits[|bits| - 1]) {
      return if negative then SignedValue(bits) else BitsValue(bits);
    }
    var raw := if negative then Negated(bits) else bits;
    var po2 := 1;
    res := 0;
    var b := 0;
    while b < ActiveBits(raw)
      invariant 0 <= b <= ActiveBits(raw) && po2 == Pow(2, b) && res == BitsValue(raw[..b])
    {
      BitsValueSplit(raw, b);
      res := res + if raw[b] then po2 else 0;
      po2 := po2 * 2;
      b := b + 1;
    }
    BitsValueZeros(raw, b);
    NegatedValue(bits);
    BitsValueBelow(bits);
    PowPositive(2, |bits|);
    if negative && res > 0 {
      res := -res;
    }
  }

  // ---------- exponentiation ----------

  lemma {:induction false} PowSquare(b: int, e: nat)
    ensures Pow(b * b, e) == Pow(b, 2 * e)
  {
    if e == 0 {
    } else {
      PowSquare(b, e - 1);
      assert Pow(b, 2 * e) == b * (b * Pow(b, 2 * e - 2));
      assert b * (b * Pow(b, 2 * e - 2)) == (b * b) * Pow(b, 2 * e - 2);
    }
  }

  /** Square and multiply computes the power modulo `mod`. */
  method ModExp(base: int, exp: int, mod: int) returns (result: int)
    requires base >= 0 && exp >= 0 && mod >= 2
    ensures result == Pow(base, exp) % mod
  {
    result := 1;
    var b, e := base, exp;
    ModUnique(1, mod, 0, 1);
    while e != 0
      invariant e >= 0 && b >= 0 && 0 <= result < mod
      invariant (result * Pow(b, e)) % mod == Pow(base, exp) % mod
      decreases e
    {
      ghost var result0, b0, e0 := result, b, e;
      TModSigned(e, 2);
      if TMod(e, 2) != 0 {
        TModSigned(result * b, mod);
        result := TMod(result * b, mod);
      }
      TModSigned(b * b, mod);
      b := TMod(b * b, mod);
      e := HalveExponent(e);
      ExpStep(result0, b0, e0, mod);
    }
    assert result * Pow(b, 0) == result;
    ModUnique(result, mod, 0, result);
  }

  /** `e >> 1` */
  method HalveExponent(e: int) returns (h: int)
    requires e >= 0
    ensures h == e / 2
  {
    assert Pow(2, 1) == 2;
    h := ShiftRight(e, 1);
  }

  /** One round of square and multiply keeps the product of the result and the pending power. */
  lemma ExpStep(r: int, b: int, e: nat, mod: int)
    requires e > 0 && b >= 0 && r >= 0 && mod >= 2
    ensures var r' := if e % 2 == 1 then (r * b) % mod else r;
            (r' * Pow((b * b) % mod, e / 2)) % mod == (r * Pow(b, e)) % mod
  {
    var h := e / 2;
    ModPow((b * b) % mod, b * b, h, mod);
    PowSquare(b, h);
    if e % 2 == 1 {
      OddStep(r, b, Pow((b * b) % mod, h), Pow(b, 2 * h), mod);
    } else {
      ModMul2(r, r, Pow((b * b) % mod, h), Pow(b, 2 * h), mod);
    }
  }

  lemma OddStep(r: int, b: int, v: int, w: int, mod: int)
    requires mod > 0 && v % mod == w % mod
    ensures ((r * b) % mod * v) % mod == (r * (b * w)) % mod
  {
    ModMul(r * b, v, mod);
    ModMul2(r * b, r * b, v, w, mod);
    assert (r * b) * w == r * (b * w);
  }

  /** The inverse of `f` modulo the prime `p`; the code's own check that it is one never fails. */
  method ModInversePrime(f: int, p: int) returns (result: int)
    requires IsPrime(p) && f >= 0 && f % p != 0
    ensures 0 <= result < p && (f * result) % p == 1
    ensures result == Pow(f, p - 2) % p
  {
    var exp := p - 2;
    result := ModExp(f, exp, p);
    InverseCorrect(f, p);
    assert f * result >= 0;
    assert TMod(f * result, p) == 1 by { TModSigned(f * result, p); }
  }

  lemma InverseCorrect(f: nat, p: nat)
    requires IsPrime(p) && f % p != 0
    ensures (f * (Pow(f, p - 2) % p)) % p == 1
  {
    FermatInverse(f, p);
    var w := Pow(f, p - 2);
    assert Pow(f, p - 1) == f * w;
    ModMul(w, f, p);
    assert w * f == f * w && (w % p) * f == f * (w % p);
  }

  /** The check holds for exactly the values that have an inverse: a multiple of `p` fails it. */
  lemma InverseCheck(f: nat, p: nat)
    requires IsPrime(p)
    ensures (f * (Pow(f, p - 2) % p)) % p == 1 <==> f % p != 0
  {
    if f % p != 0 {
      InverseCorrect(f, p);
    } else {
      ModMul(f, Pow(f, p - 2) % p, p);
      assert 0 * (Pow(f, p - 2) % p) == 0;
    }
  }
}
