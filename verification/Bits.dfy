/** Binary numbers as masks: powers of two, single bits, disjunction and shifts. */
module Bits {
  import opened Division

  function Pow2(k: nat): (p: nat)
    ensures p >= 1
  {
    if k == 0 then 1 else 2 * Pow2(k - 1)
  }

  /** Whether bit `i` of a mask is set. */
  predicate Bit(m: nat, i: nat) {
    if i == 0 then m % 2 == 1 else Bit(m / 2, i - 1)
  }

  /** Dividing by a power of two and taking the remainder by two reads one bit. */
  lemma {:induction false} BitByDivision(m: nat, k: nat)
    ensures m / Pow2(k) % 2 == (if Bit(m, k) then 1 else 0)
  {
    if k > 0 {
      BitByDivision(m / 2, k - 1);
      DivideTwice(m, Pow2(k - 1));
    }
  }

  lemma DivideTwice(m: nat, p: nat)
    requires p >= 1
    ensures m / (2 * p) == m / 2 / p
  {
    var half := m / 2;
    var q := half / p;
    assert half == q * p + half % p;
    assert m == q * (2 * p) + (2 * (half % p) + m % 2) by {
      assert q * (2 * p) == 2 * (q * p);
    }
    DivisionIsUnique(m, q, 2 * (half % p) + m % 2, 2 * p);
  }

  /** Adding a power of two whose bit is clear sets that bit and no other. */
  lemma {:induction false} AddBit(m: nat, k: nat, i: nat)
    requires !Bit(m, k)
    ensures Bit(m + Pow2(k), i) == (i == k || Bit(m, i))
  {
    if k == 0 {
      assert (m + 1) / 2 == m / 2;
    } else {
      assert (m + Pow2(k)) / 2 == m / 2 + Pow2(k - 1) && (m + Pow2(k)) % 2 == m % 2;
      if i > 0 {
        AddBit(m / 2, k - 1, i - 1);
      }
    }
  }

  /** Subtracting a power of two whose bit is set clears that bit and no other. */
  lemma {:induction false} SubtractBit(m: nat, k: nat, i: nat)
    requires Bit(m, k)
    ensures m >= Pow2(k)
    ensures Bit(m - Pow2(k), i) == (i != k && Bit(m, i))
  {
    if k == 0 {
      assert (m - 1) / 2 == m / 2;
    } else {
      SubtractBit(m / 2, k - 1, if i > 0 then i - 1 else 0);
      assert (m - Pow2(k)) / 2 == m / 2 - Pow2(k - 1) && (m - Pow2(k)) % 2 == m % 2;
    }
  }

  lemma {:induction false} NoHighBits(m: nat, n: nat, i: nat)
    requires m < Pow2(n) && n <= i
    ensures !Bit(m, i)
  {
    if i > 0 {
      NoHighBits(m / 2, if n > 0 then n - 1 else 0, i - 1);
    }
  }

  /** Bitwise disjunction. */
  function Or(a: nat, b: nat): (m: nat)
    decreases a + b
  {
    if a == 0 then b
    else if b == 0 then a
    else 2 * Or(a / 2, b / 2) + if a % 2 == 1 || b % 2 == 1 then 1 else 0
  }

  lemma {:induction false} ZeroBits(i: nat)
    ensures !Bit(0, i)
  {
    if i > 0 {
      ZeroBits(i - 1);
    }
  }

  lemma {:induction false} OrBit(a: nat, b: nat, i: nat)
    ensures Bit(Or(a, b), i) == (Bit(a, i) || Bit(b, i))
    decreases a + b
  {
    ZeroBits(i);
    if a != 0 && b != 0 && i > 0 {
      OrBit(a / 2, b / 2, i - 1);
    }
  }

  /** Shifting left by `k` moves bit `i` to bit `i + k`. */
  lemma {:induction false} ShiftBit(m: nat, k: nat, i: nat)
    ensures Bit(m * Pow2(k), i) == (i >= k && Bit(m, i - k))
  {
    if k > 0 {
      assert m * Pow2(k) == 2 * (m * Pow2(k - 1));
      if i > 0 {
        ShiftBit(m, k - 1, i - 1);
      }
    }
  }

  /** Two masks with the same bits are the same number. */
  lemma {:induction false} SameBits(a: nat, b: nat)
    requires forall i: nat :: Bit(a, i) == Bit(b, i)
    ensures a == b
    decreases a + b
  {
    if a + b > 0 {
      assert Bit(a, 0) == Bit(b, 0);
      forall i: nat
        ensures Bit(a / 2, i) == Bit(b / 2, i)
      {
        assert Bit(a, i + 1) == Bit(b, i + 1);
      }
      SameBits(a / 2, b / 2);
    }
  }
}
