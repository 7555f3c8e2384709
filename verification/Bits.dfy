/** Unsigned integers as strings of bits, and the bit utilities of the address module. */
module Bits {

  function Pow2(n: nat): (r: nat)
    ensures r > 0
  {
    if n == 0 then 1 else 2 * Pow2(n - 1)
  }

  /** Bit i of v. */
  predicate Bit(v: nat, i: nat)
    decreases i
  {
    if i == 0 then v % 2 == 1 else Bit(v / 2, i - 1)
  }

  function And(a: nat, b: nat): nat
    decreases a
  {
    if a == 0 then 0 else 2 * And(a / 2, b / 2) + if a % 2 == 1 && b % 2 == 1 then 1 else 0
  }

  function Or(a: nat, b: nat): nat
    decreases a + b
  {
    if a == 0 then b else 2 * Or(a / 2, b / 2) + if a % 2 == 1 || b % 2 == 1 then 1 else 0
  }

  function Shl(v: nat, k: nat): nat {
    v * Pow2(k)
  }

  function Quotient(a: nat, d: nat): nat
    requires d > 0
  {
    a / d
  }

  function Shr(v: nat, k: nat): nat {
    Quotient(v, Pow2(k))
  }

  /** The k least significant bits. */
  function Low(v: nat, k: nat): nat {
    v % Pow2(k)
  }

  // ---------- bit by bit ----------

  lemma {:induction false} ZeroHasNoBits(i: nat)
    ensures !Bit(0, i)
  {
    if i > 0 { ZeroHasNoBits(i - 1); }
  }

  lemma {:induction false} EqualBits(a: nat, b: nat)
    requires forall i: nat :: Bit(a, i) == Bit(b, i)
    ensures a == b
    decreases a + b
  {
    assert Bit(a, 0) == Bit(b, 0);
    if a + b > 0 {
      forall i: nat ensures Bit(a / 2, i) == Bit(b / 2, i) {
        assert Bit(a, i + 1) == Bit(b, i + 1);
      }
      EqualBits(a / 2, b / 2);
    }
  }

  lemma {:induction false} AndBit(a: nat, b: nat, i: nat)
    ensures Bit(And(a, b), i) <==> Bit(a, i) && Bit(b, i)
    decreases i
  {
    if a == 0 {
      ZeroHasNoBits(i);
    } else if i > 0 {
      AndBit(a / 2, b / 2, i - 1);
    }
  }

  lemma {:induction false} OrBit(a: nat, b: nat, i: nat)
    ensures Bit(Or(a, b), i) <==> Bit(a, i) || Bit(b, i)
    decreases i
  {
    if a == 0 {
      ZeroHasNoBits(i);
    } else if i > 0 {
      OrBit(a / 2, b / 2, i - 1);
    }
  }

  lemma {:induction false} ShlBit(v: nat, k: nat, i: nat)
    ensures Bit(Shl(v, k), i) <==> i >= k && Bit(v, i - k)
    decreases k
  {
    if k > 0 {
      var half := Shl(v, k - 1);
      assert Shl(v, k) == 2 * half by {
        calc { Shl(v, k); v * (2 * Pow2(k - 1)); 2 * (v * Pow2(k - 1)); }
      }
      if i > 0 { ShlBit(v, k - 1, i - 1); }
    }
  }

  lemma {:induction false} ShrBit(v: nat, k: nat, i: nat)
    ensures Bit(Shr(v, k), i) == Bit(v, i + k)
    decreases k
  {
    if k > 0 {
      ShrStep(v, k);
      ShrBit(v / 2, k - 1, i);
    }
  }

  lemma ShrStep(v: nat, k: nat)
    requires k > 0
    ensures Shr(v, k) == Shr(v / 2, k - 1)
  {
    var p := Pow2(k - 1);
    var q, r := v / 2 / p, v / 2 % p;
    DivMod(v / 2, p);
    assert v == 2 * p * q + (2 * r + v % 2);
    assert 0 <= 2 * r + v % 2 < 2 * p;
    DivUnique(v, 2 * p, q, 2 * r + v % 2);
  }

  lemma DivMod(v: nat, p: nat)
    requires p > 0
    ensures v == p * (v / p) + v % p && 0 <= v % p < p
  {
  }

  lemma DivUnique(v: nat, p: nat, q: nat, r: nat)
    requires p > 0 && v == p * q + r && r < p
    ensures v / p == q && v % p == r
  {
    DivMod(v, p);
    var d := v / p - q;
    assert p * d == r - v % p by {
      calc { p * d; p * (v / p) - p * q; }
    }
    assert p * d == -(p * (-d));
    if d > 0 { MulGrows(p, d); } else if d < 0 { MulGrows(p, -d); }
  }

  lemma MulGrows(p: nat, d: nat)
    requires d > 0
    ensures p * d >= p
  {
    assert p * d == p * (d - 1) + p;
    assert p * (d - 1) >= 0;
  }

  lemma {:induction false} LowBit(v: nat, k: nat, i: nat)
    ensures Bit(Low(v, k), i) <==> i < k && Bit(v, i)
    decreases k
  {
    if k == 0 {
      ZeroHasNoBits(i);
    } else {
      LowStep(v, k);
      if i > 0 { LowBit(v / 2, k - 1, i - 1); }
    }
  }

  lemma LowStep(v: nat, k: nat)
    requires k > 0
    ensures Low(v, k) == 2 * Low(v / 2, k - 1) + v % 2
  {
    var p := Pow2(k - 1);
    DivMod(v / 2, p);
    var q, r := v / 2 / p, v / 2 % p;
    assert v == 2 * p * q + (2 * r + v % 2);
    DivUnique(v, 2 * p, q, 2 * r + v % 2);
  }

  /** A number below 2^k has no bits from k on. */
  lemma {:induction false} SmallBits(v: nat, k: nat, i: nat)
    requires v < Pow2(k) && i >= k
    ensures !Bit(v, i)
  {
    LowBit(v, k, i);
    DivUnique(v, Pow2(k), 0, v);
  }

  lemma {:induction false} Pow2Bit(k: nat, i: nat)
    ensures Bit(Pow2(k), i) <==> i == k
  {
    if i == 0 {
    } else if k == 0 {
      ZeroHasNoBits(i - 1);
    } else {
      assert Pow2(k) / 2 == Pow2(k - 1);
      Pow2Bit(k - 1, i - 1);
    }
  }

  /** 2^n - 1 is n ones. */
  lemma {:induction false} OnesBit(n: nat, i: nat)
    ensures Bit(Pow2(n) - 1, i) <==> i < n
  {
    if n == 0 {
      ZeroHasNoBits(i);
    } else if i > 0 {
      assert (Pow2(n) - 1) / 2 == Pow2(n - 1) - 1;
      OnesBit(n - 1, i - 1);
    }
  }

  lemma {:induction false} Pow2Monotonic(a: nat, b: nat)
    requires a <= b
    ensures Pow2(a) <= Pow2(b)
  {
    if a < b { Pow2Monotonic(a, b - 1); }
  }

  // ---------- sums without carries ----------

  ghost predicate Disjoint(a: nat, b: nat) {
    forall i: nat :: !(Bit(a, i) && Bit(b, i))
  }

  lemma {:induction false} AddIsOr(a: nat, b: nat)
    requires Disjoint(a, b)
    ensures a + b == Or(a, b)
    decreases a + b
  {
    if a > 0 {
      assert !(Bit(a, 0) && Bit(b, 0));
      forall i: nat ensures !(Bit(a / 2, i) && Bit(b / 2, i)) {
        assert !(Bit(a, i + 1) && Bit(b, i + 1));
      }
      AddIsOr(a / 2, b / 2);
    }
  }

  lemma {:induction false} AndZero(a: nat, b: nat)
    ensures And(a, b) == 0 <==> Disjoint(a, b)
  {
    if And(a, b) == 0 {
      forall i: nat ensures !(Bit(a, i) && Bit(b, i)) {
        AndBit(a, b, i);
        ZeroHasNoBits(i);
      }
    } else if Disjoint(a, b) {
      forall i: nat ensures Bit(And(a, b), i) == Bit(0, i) {
        AndBit(a, b, i);
        ZeroHasNoBits(i);
      }
      EqualBits(And(a, b), 0);
    }
  }

  ghost predicate Within(a: nat, b: nat) {
    forall i: nat :: Bit(a, i) ==> Bit(b, i)
  }

  lemma {:induction false} AndFull(a: nat, b: nat)
    ensures And(a, b) == a <==> Within(a, b)
  {
    if And(a, b) == a {
      forall i: nat | Bit(a, i) ensures Bit(b, i) { AndBit(a, b, i); }
    } else if Within(a, b) {
      forall i: nat ensures Bit(And(a, b), i) == Bit(a, i) { AndBit(a, b, i); }
      EqualBits(And(a, b), a);
    }
  }

  /** The n low bits of m, each turned round. */
  function Complement(m: nat, n: nat): nat {
    if n == 0 then 0 else 2 * Complement(m / 2, n - 1) + (1 - m % 2)
  }

  lemma {:induction false} ComplementBit(m: nat, n: nat, i: nat)
    ensures Bit(Complement(m, n), i) <==> i < n && !Bit(m, i)
  {
    if n == 0 {
      ZeroHasNoBits(i);
    } else if i > 0 {
      ComplementBit(m / 2, n - 1, i - 1);
    }
  }

  // ---------- single bits ----------

  function PopCount(v: nat): nat {
    if v == 0 then 0 else PopCount(v / 2) + v % 2
  }

  /** The position of the least significant one bit. */
  function LeastSet(v: nat): (r: nat)
    requires v > 0
    ensures Bit(v, r) && forall i: nat :: i < r ==> !Bit(v, i)
  {
    if v % 2 == 1 then 0
    else
      var r := LeastSet(v / 2);
      assert forall i: nat :: i < r + 1 ==> (Bit(v, i) <==> i > 0 && Bit(v / 2, i - 1));
      r + 1
  }

  /** The position of the most significant one bit. */
  function MostSet(v: nat): (r: nat)
    requires v > 0
    ensures Bit(v, r) && forall i: nat :: i > r ==> !Bit(v, i)
  {
    if v == 1 then
      assert forall i: nat :: i > 0 ==> (Bit(v, i) <==> Bit(0, i - 1));
      NoBitsOfZero();
      0
    else
      var r := MostSet(v / 2);
      assert forall i: nat :: i > r + 1 ==> (Bit(v, i) <==> Bit(v / 2, i - 1));
      r + 1
  }

  lemma NoBitsOfZero()
    ensures forall i: nat :: !Bit(0, i)
  {
    forall i: nat ensures !Bit(0, i) { ZeroHasNoBits(i); }
  }

  /** With one bit set, the number is the power of two at its position. */
  lemma {:induction false} OneBitIsPower(v: nat)
    requires PopCount(v) == 1
    ensures v > 0 && v == Pow2(LeastSet(v))
  {
    if v % 2 == 1 {
      NoPopIsZero(v / 2);
    } else {
      OneBitIsPower(v / 2);
    }
  }

  lemma {:induction false} NoPopIsZero(v: nat)
    requires PopCount(v) == 0
    ensures v == 0
  {
    if v > 0 { NoPopIsZero(v / 2); }
  }
}
