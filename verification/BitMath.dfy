/** Binary numerals as natural numbers, read and cut one bit at a time: slices, single bits, and
    the machine's shift, mask and or. */
module BitMath {

  function Pow2(n: nat): (r: nat)
    ensures r > 0
  {
    if n == 0 then 1 else 2 * Pow2(n - 1)
  }

  lemma Pow2Values()
    ensures Pow2(5) == 32 && Pow2(8) == 256 && Pow2(15) == 32768 && Pow2(16) == 65536
  {
    assert Pow2(8) == 256;
    assert Pow2(12) == 16 * Pow2(8);
    assert Pow2(15) == 8 * Pow2(12);
    assert Pow2(16) == 2 * Pow2(15);
  }

  /** `x` shifted right by `n`. */
  function Shr(x: nat, n: nat): nat {
    if n == 0 then x else Shr(x / 2, n - 1)
  }

  /** `x` shifted left by `n`. */
  function Shl(x: nat, n: nat): nat {
    if n == 0 then x else 2 * Shl(x, n - 1)
  }

  /** The low `n` bits of `x`. */
  function Low(x: nat, n: nat): (r: nat)
    ensures r < Pow2(n)
  {
    if n == 0 then 0 else 2 * Low(x / 2, n - 1) + x % 2
  }

  /** The `n` bits of `x` from bit `i` on. */
  function Slice(x: nat, i: nat, n: nat): nat {
    Low(Shr(x, i), n)
  }

  predicate Bit(x: nat, i: nat) {
    if i == 0 then x % 2 == 1 else Bit(x / 2, i - 1)
  }

  function Or(a: nat, b: nat): nat {
    if a == 0 && b == 0 then 0
    else 2 * Or(a / 2, b / 2) + (if a % 2 == 1 || b % 2 == 1 then 1 else 0)
  }

  function And(a: nat, b: nat): nat {
    if a == 0 || b == 0 then 0
    else 2 * And(a / 2, b / 2) + (if a % 2 == 1 && b % 2 == 1 then 1 else 0)
  }

  function Xor(a: nat, b: nat): nat {
    if a == 0 && b == 0 then 0
    else 2 * Xor(a / 2, b / 2) + (if a % 2 != b % 2 then 1 else 0)
  }

  // ---------- the arithmetic meaning ----------

  lemma DoubleProduct(q: nat, p: nat)
    ensures q * (2 * p) == 2 * (q * p)
  {
  }

  lemma {:induction false} ShlIsProduct(x: nat, n: nat)
    ensures Shl(x, n) == x * Pow2(n)
  {
    if n > 0 {
      ShlIsProduct(x, n - 1);
      DoubleProduct(x, Pow2(n - 1));
    }
  }

  /** Low part and shifted part are remainder and quotient by 2^n. */
  lemma {:induction false} SplitsAt(x: nat, n: nat)
    ensures x == Low(x, n) + Shl(Shr(x, n), n)
  {
    if n > 0 { SplitsAt(x / 2, n - 1); }
  }

  // ---------- single bits ----------

  lemma {:induction false} BitOfZero(i: nat)
    ensures !Bit(0, i)
  {
    if i > 0 { BitOfZero(i - 1); }
  }

  lemma {:induction false} BitOfOr(a: nat, b: nat, i: nat)
    ensures Bit(Or(a, b), i) <==> Bit(a, i) || Bit(b, i)
    decreases i
  {
    if a == 0 && b == 0 {
      BitOfZero(i);
    } else if i > 0 {
      BitOfOr(a / 2, b / 2, i - 1);
    }
  }

  lemma {:induction false} BitOfShr(x: nat, n: nat, i: nat)
    ensures Bit(Shr(x, n), i) <==> Bit(x, i + n)
    decreases n
  {
    if n > 0 { BitOfShr(x / 2, n - 1, i); }
  }

  lemma {:induction false} BitOfShl(x: nat, n: nat, i: nat)
    ensures Bit(Shl(x, n), i) <==> i >= n && Bit(x, i - n)
    decreases n
  {
    if n > 0 && i > 0 {
      BitOfShl(x, n - 1, i - 1);
      assert Shl(x, n) / 2 == Shl(x, n - 1);
    }
  }

  lemma {:induction false} BitOfLow(x: nat, n: nat, i: nat)
    ensures Bit(Low(x, n), i) <==> i < n && Bit(x, i)
    decreases n
  {
    if n == 0 {
      BitOfZero(i);
    } else if i > 0 {
      BitOfLow(x / 2, n - 1, i - 1);
    }
  }

  lemma BitOfSlice(x: nat, k: nat, n: nat, i: nat)
    ensures Bit(Slice(x, k, n), i) <==> i < n && Bit(x, i + k)
  {
    BitOfLow(Shr(x, k), n, i);
    BitOfShr(x, k, i);
  }

  lemma {:induction false} NoHighBits(x: nat, n: nat, i: nat)
    requires x < Pow2(n) && n <= i
    ensures !Bit(x, i)
  {
    if n == 0 { BitOfZero(i); } else { NoHighBits(x / 2, n - 1, i - 1); }
  }

  /** A number joined to a lower part that it does not overlap. */
  lemma {:induction false} BitOfJoin(a: nat, b: nat, k: nat, i: nat)
    requires a < Pow2(k)
    ensures Bit(a + Shl(b, k), i) <==> if i < k then Bit(a, i) else Bit(b, i - k)
    decreases k
  {
    if k > 0 && i > 0 {
      assert (a + Shl(b, k)) / 2 == a / 2 + Shl(b, k - 1);
      BitOfJoin(a / 2, b, k - 1, i - 1);
    }
  }

  /** Numbers with the same bits are equal. */
  lemma {:induction false} SameBits(a: nat, b: nat, n: nat)
    requires a < Pow2(n) && b < Pow2(n)
    requires forall i :: 0 <= i < n ==> (Bit(a, i) <==> Bit(b, i))
    ensures a == b
  {
    if n > 0 {
      assert Bit(a, 0) <==> Bit(b, 0);
      forall i | 0 <= i < n - 1 ensures Bit(a / 2, i) <==> Bit(b / 2, i) {
        assert Bit(a, i + 1) <==> Bit(b, i + 1);
      }
      SameBits(a / 2, b / 2, n - 1);
    }
  }

  // ---------- masks, disjoint ors, bounds ----------

  /** Masking with 2^n - 1 keeps the low bits. */
  lemma {:induction false} MaskIsLow(x: nat, n: nat)
    ensures And(x, Pow2(n) - 1) == Low(x, n)
  {
    if n > 0 {
      MaskIsLow(x / 2, n - 1);
      assert (Pow2(n) - 1) / 2 == Pow2(n - 1) - 1;
      if x == 0 { LowOfZero(n); }
    }
  }

  lemma {:induction false} LowOfZero(n: nat)
    ensures Low(0, n) == 0
  {
    if n > 0 { LowOfZero(n - 1); }
  }

  lemma {:induction false} OrZero(b: nat)
    ensures Or(0, b) == b
  {
    if b > 0 { OrZero(b / 2); }
  }

  lemma {:induction false} OrCommutes(a: nat, b: nat)
    ensures Or(a, b) == Or(b, a)
  {
    if a != 0 || b != 0 { OrCommutes(a / 2, b / 2); }
  }

  lemma OrBit(v: nat, bit: nat)
    requires bit < 2
    ensures Or(2 * v, bit) == 2 * v + bit
  {
    assert (2 * v) / 2 == v && bit / 2 == 0 && (2 * v) % 2 == 0;
    OrCommutes(v, 0);
    OrZero(v);
  }

  lemma {:induction false} OrAssociates(a: nat, b: nat, c: nat)
    ensures Or(Or(a, b), c) == Or(a, Or(b, c))
  {
    if a != 0 || b != 0 || c != 0 {
      OrAssociates(a / 2, b / 2, c / 2);
    }
  }

  lemma {:induction false} XorZero(a: nat)
    ensures Xor(a, 0) == a
  {
    if a > 0 { XorZero(a / 2); }
  }

  lemma XorEven(v: nat, h: nat)
    requires h > 0
    ensures Xor(v, 2 * h) == 2 * Xor(v / 2, h) + v % 2
  {
    var b := 2 * h;
    assert b / 2 == h && b % 2 == 0 && b != 0;
    assert Xor(v, b) == 2 * Xor(v / 2, b / 2) + (if v % 2 != b % 2 then 1 else 0);
    assert (if v % 2 != 0 then 1 else 0) == v % 2;
    hide Xor;
  }

  /** Flipping the top bit of an (n + 1)-bit number. */
  lemma {:induction false} XorTopBit(v: nat, n: nat)
    requires v < Pow2(n + 1)
    ensures Xor(v, Pow2(n)) == if v >= Pow2(n) then v - Pow2(n) else v + Pow2(n)
  {
    if n == 0 {
      assert v == 0 || v == 1;
    } else {
      XorTopBit(v / 2, n - 1);
      XorEven(v, Pow2(n - 1));
    }
  }

  /** An or of parts that do not overlap is a sum. */
  lemma {:induction false} OrIsSum(a: nat, b: nat, k: nat)
    requires a < Pow2(k)
    ensures Or(a, Shl(b, k)) == a + Shl(b, k)
  {
    if k == 0 { OrZero(b); } else { OrIsSum(a / 2, b, k - 1); }
  }

  lemma {:induction false} ShrBound(x: nat, i: nat, n: nat)
    requires x < Pow2(n) && i <= n
    ensures Shr(x, i) < Pow2(n - i)
  {
    if i > 0 { ShrBound(x / 2, i - 1, n - 1); }
  }

  lemma {:induction false} ShlBound(x: nat, i: nat, n: nat)
    requires x < Pow2(n)
    ensures Shl(x, i) < Pow2(n + i)
    ensures Shl(x, i) + Pow2(i) <= Pow2(n + i)
  {
    if i > 0 { ShlBound(x, i - 1, n); }
  }

  lemma {:induction false} OrBound(a: nat, b: nat, n: nat)
    requires a < Pow2(n) && b < Pow2(n)
    ensures Or(a, b) < Pow2(n)
  {
    if n > 0 { OrBound(a / 2, b / 2, n - 1); }
  }

  lemma {:induction false} LowOfSmall(x: nat, n: nat)
    requires x < Pow2(n)
    ensures Low(x, n) == x
  {
    if n > 0 { LowOfSmall(x / 2, n - 1); }
  }

  lemma {:induction false} ShrShr(x: nat, i: nat, j: nat)
    ensures Shr(Shr(x, i), j) == Shr(x, i + j)
  {
    if i > 0 { ShrShr(x / 2, i - 1, j); }
  }

  lemma {:induction false} ShlShl(a: nat, m: nat, n: nat)
    ensures Shl(Shl(a, m), n) == Shl(a, m + n)
  {
    if n > 0 { ShlShl(a, m, n - 1); }
  }

  lemma {:induction false} Pow2Mono(m: nat, n: nat)
    requires m <= n
    ensures Pow2(m) <= Pow2(n)
  {
    if m < n { Pow2Mono(m, n - 1); }
  }

  // ---------- a block of 128 bits in two words ----------

  predicate IsWord(x: nat) {
    x < Pow2(64)
  }

  function Value(low: nat, high: nat): nat {
    low + Shl(high, 64)
  }
}
