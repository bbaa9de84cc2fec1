/** Bitwise "and" of numbers, bit by bit. */
module Bits {
  import opened Cyclic

  function Pow2(k: nat): (p: nat)
    ensures p > 0
  {
    if k == 0 then 1 else 2 * Pow2(k - 1)
  }

  /** Bit `k` of `x`. */
  predicate Bit(x: nat, k: nat) { x / Pow2(k) % 2 == 1 }

  /** `x & y` of numbers of `n` bits. */
  function And(x: nat, y: nat, n: nat): nat {
    if n == 0 then 0 else (if x % 2 == 1 && y % 2 == 1 then 1 else 0) + 2 * And(x / 2, y / 2, n - 1)
  }

  lemma {:induction false} Pow2Sum(a: nat, b: nat)
    ensures Pow2(a + b) == Pow2(a) * Pow2(b)
  {
    if a > 0 { Pow2Sum(a - 1, b); }
  }

  lemma Pow2Of32()
    ensures Pow2(32) == 0x1_0000_0000
  {
    assert Pow2(1) == 2 && Pow2(2) == 4;
    hide Pow2;
    Pow2Sum(2, 2);
    Pow2Sum(4, 4);
    Pow2Sum(8, 8);
    Pow2Sum(16, 16);
  }

  lemma BitOfHalf(x: nat, k: nat)
    requires k > 0
    ensures Bit(x, k) <==> Bit(x / 2, k - 1)
  {
    DivideTwice(x, Pow2(k - 1));
  }

  lemma DivideTwice(x: nat, p: nat)
    requires p > 0
    ensures x / (2 * p) == x / 2 / p
  {
    var q, r := x / 2 / p, x / 2 % p;
    assert x / 2 == q * p + r;
    var rest := 2 * r + x % 2;
    assert x == q * (2 * p) + rest && rest < 2 * p;
    QuotientIs(x, 2 * p, q, rest);
  }

  lemma QuotientIs(x: nat, d: nat, q: nat, r: nat)
    requires r < d && x == q * d + r
    ensures x / d == q
  {
    var q' := x / d;
    ModUnique(x, d, q, r);
    assert q * d == q' * d;
    if q' < q {
      MultiplesApart(q', q, d);
    } else if q < q' {
      MultiplesApart(q, q', d);
    }
  }

  lemma AndHalves(x: nat, y: nat, n: nat)
    requires n > 0
    ensures And(x, y, n) % 2 == 1 <==> x % 2 == 1 && y % 2 == 1
    ensures And(x, y, n) / 2 == And(x / 2, y / 2, n - 1)
  {
  }

  /** A bit of `x & y` is set exactly if it is set in both. */
  lemma {:induction false} AndBit(x: nat, y: nat, n: nat, k: nat)
    requires k < n
    ensures Bit(And(x, y, n), k) <==> Bit(x, k) && Bit(y, k)
    decreases n
  {
    AndHalves(x, y, n);
    hide And;
    if k > 0 {
      AndBit(x / 2, y / 2, n - 1, k - 1);
      hide Bit;
      BitOfHalf(And(x, y, n), k);
      BitOfHalf(x, k);
      BitOfHalf(y, k);
    }
  }

  /** `x & y` is zero exactly if no bit is set in both. */
  lemma {:induction false} AndIsZero(x: nat, y: nat, n: nat)
    ensures And(x, y, n) == 0 <==> forall k :: 0 <= k < n ==> !(Bit(x, k) && Bit(y, k))
  {
    if And(x, y, n) == 0 {
      forall k | 0 <= k < n
        ensures !(Bit(x, k) && Bit(y, k))
      {
        AndBit(x, y, n, k);
        ZeroHasNoBits(k);
      }
    } else {
      CommonBit(x, y, n);
    }
  }

  lemma ZeroHasNoBits(k: nat)
    ensures !Bit(0, k)
  {
    QuotientIs(0, Pow2(k), 0, 0);
  }

  lemma {:induction false} CommonBit(x: nat, y: nat, n: nat)
    requires And(x, y, n) != 0
    ensures exists k :: 0 <= k < n && Bit(x, k) && Bit(y, k)
  {
    if x % 2 == 1 && y % 2 == 1 {
      assert Bit(x, 0) && Bit(y, 0);
    } else {
      CommonBit(x / 2, y / 2, n - 1);
      var k :| 0 <= k < n - 1 && Bit(x / 2, k) && Bit(y / 2, k);
      BitOfHalf(x, k + 1);
      BitOfHalf(y, k + 1);
      assert Bit(x, k + 1) && Bit(y, k + 1);
    }
  }

  lemma {:induction false} AndBounds(x: nat, y: nat, n: nat)
    ensures And(x, y, n) < Pow2(n) && And(x, y, n) <= x && And(x, y, n) <= y
  {
    if n > 0 {
      AndBounds(x / 2, y / 2, n - 1);
    }
  }

  /** An even mask leaves out the lowest bit. */
  lemma AndEven(x: nat, m: nat, n: nat)
    requires n > 0
    ensures And(x, 2 * m, n) == 2 * And(x / 2, m, n - 1)
  {
  }

  /** A mask of ones changes nothing. */
  lemma {:induction false} AndOnes(x: nat, n: nat)
    requires x < Pow2(n)
    ensures And(x, Pow2(n) - 1, n) == x
  {
    if n > 0 { AndOnes(x / 2, n - 1); }
  }
}
