/** HammingDistance of internal/filter/dedup.go. */
module Hamming {

  // Operations on single words; the proofs below use only the laws stated here.

  function Half(x: bv64): bv64 { x >> 1 }

  predicate Odd(x: bv64) { x & 1 == 1 }

  /** x &= x - 1 */
  function ClearLow(x: bv64): bv64 { x & (x - 1) }

  function Xor(a: bv64, b: bv64): bv64 { a ^ b }

  lemma ZeroLaw(x: bv64)
    ensures x == 0 <==> Half(x) == 0 && !Odd(x)
  {
  }

  lemma ClearOdd(x: bv64)
    requires Odd(x)
    ensures Half(ClearLow(x)) == Half(x) && !Odd(ClearLow(x))
  {
  }

  lemma ClearEven(x: bv64)
    requires !Odd(x) && x != 0
    ensures Half(x) != 0 && Half(ClearLow(x)) == ClearLow(Half(x)) && !Odd(ClearLow(x))
  {
  }

  lemma XorBits(x: bv64, y: bv64)
    ensures Half(Xor(x, y)) == Xor(Half(x), Half(y))
    ensures Odd(Xor(x, y)) ==> Odd(x) || Odd(y)
  {
  }

  lemma XorSymmetric(x: bv64, y: bv64)
    ensures Xor(x, y) == Xor(y, x)
  {
  }

  lemma XorZero(x: bv64, y: bv64)
    ensures Xor(x, y) == 0 <==> x == y
  {
    if x ^ y == 0 {
      assert x == y;
    }
  }

  lemma XorChain(a: bv64, b: bv64, c: bv64)
    ensures Xor(Xor(a, b), Xor(b, c)) == Xor(a, c)
  {
  }

  /** Shifted out completely. */
  lemma ShiftOut(x: bv64)
    ensures x >> 8 >> 8 >> 8 >> 8 >> 8 >> 8 >> 8 >> 8 == 0
  {
  }

  lemma ShiftEight(x: bv64)
    ensures Half(Half(Half(Half(Half(Half(Half(Half(x)))))))) == x >> 8
  {
  }

  // ---- Counting bits -----------------------------------------------------------------------

  /** The number of one bits among the low k bits. */
  ghost function Ones(x: bv64, k: nat): nat {
    if k == 0 then 0 else (if Odd(x) then 1 else 0) + Ones(Half(x), k - 1)
  }

  /** No bit beyond the low k bits. */
  ghost predicate Fits(x: bv64, k: nat) {
    if k == 0 then x == 0 else Fits(Half(x), k - 1)
  }

  /** The number of positions in which a and b differ. */
  ghost function Distance(a: bv64, b: bv64): nat {
    Ones(Xor(a, b), 64)
  }

  lemma FitsFour(x: bv64, k: nat)
    requires Fits(Half(Half(Half(Half(x)))), k)
    ensures Fits(x, k + 4)
  {
    hide Half;
    assert Fits(Half(Half(Half(x))), k + 1);
    assert Fits(Half(Half(x)), k + 2);
    assert Fits(Half(x), k + 3);
  }

  lemma FitsShift(x: bv64, k: nat)
    requires Fits(x >> 8, k)
    ensures Fits(x, k + 8)
  {
    hide Half;
    ShiftEight(x);
    FitsFour(Half(Half(Half(Half(x)))), k);
    FitsFour(x, k + 4);
  }

  lemma AllFit(x: bv64)
    ensures Fits(x, 64)
  {
    hide Half;
    var y1 := x >> 8;
    var y2 := y1 >> 8;
    var y3 := y2 >> 8;
    var y4 := y3 >> 8;
    var y5 := y4 >> 8;
    var y6 := y5 >> 8;
    var y7 := y6 >> 8;
    ShiftOut(x);
    FitsShift(y7, 0);
    FitsShift(y6, 8);
    FitsShift(y5, 16);
    FitsShift(y4, 24);
    FitsShift(y3, 32);
    FitsShift(y2, 40);
    FitsShift(y1, 48);
    FitsShift(x, 56);
  }

  /** x & (x - 1) clears the lowest one bit and nothing else. */
  lemma {:induction false} ClearLowest(x: bv64, k: nat)
    requires x != 0 && Fits(x, k)
    ensures Ones(ClearLow(x), k) == Ones(x, k) - 1
    decreases k
  {
    hide Half, Odd, ClearLow;
    if Odd(x) {
      ClearOdd(x);
    } else {
      ClearEven(x);
      ClearLowest(Half(x), k - 1);
    }
  }

  lemma {:induction false} ZeroOnes(x: bv64, k: nat)
    requires Fits(x, k)
    ensures Ones(x, k) == 0 <==> x == 0
    decreases k
  {
    hide Half, Odd;
    ZeroLaw(x);
    if k > 0 {
      ZeroOnes(Half(x), k - 1);
    } else {
      assert x == 0;
    }
  }

  /** The loop ends after one round per differing bit. */
  method HammingDistance(a: bv64, b: bv64) returns (dist: nat)
    ensures dist == Distance(a, b)
  {
    hide ClearLow, Xor;
    var xor := Xor(a, b);
    dist := 0;
    while xor != 0
      invariant dist + Ones(xor, 64) == Distance(a, b)
      decreases Ones(xor, 64)
    {
      AllFit(xor);
      ClearLowest(xor, 64);
      dist := dist + 1;
      xor := ClearLow(xor);
    }
    AllFit(xor);
    ZeroOnes(xor, 64);
  }

  // ---- A metric ------------------------------------------------------------------------------

  lemma {:induction false} OnesBound(x: bv64, k: nat)
    ensures Ones(x, k) <= k
    decreases k
  {
    hide Half, Odd;
    if k > 0 {
      OnesBound(Half(x), k - 1);
    }
  }

  lemma {:induction false} OnesTriangle(x: bv64, y: bv64, k: nat)
    ensures Ones(Xor(x, y), k) <= Ones(x, k) + Ones(y, k)
    decreases k
  {
    hide Half, Odd, Xor;
    if k > 0 {
      OnesTriangle(Half(x), Half(y), k - 1);
      XorBits(x, y);
    }
  }

  /** Distance is a metric with values up to 64. */
  lemma Metric(a: bv64, b: bv64, c: bv64)
    ensures Distance(a, b) <= 64
    ensures Distance(a, b) == 0 <==> a == b
    ensures Distance(a, b) == Distance(b, a)
    ensures Distance(a, c) <= Distance(a, b) + Distance(b, c)
  {
    hide Xor, Half, Odd;
    var x := Xor(a, b);
    OnesBound(x, 64);
    AllFit(x);
    ZeroOnes(x, 64);
    XorZero(a, b);
    XorSymmetric(a, b);
    OnesTriangle(x, Xor(b, c), 64);
    XorChain(a, b, c);
  }
}
