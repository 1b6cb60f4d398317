/** Binary digits of natural numbers, as the sort's key bits and the ring
    buffer's index masks use them. */
module Bits {

  /** The C expression `x >> k` on an unsigned operand. */
  function Shr(x: nat, k: nat): (r: nat)
    ensures r <= x
  {
    if k == 0 then x else Shr(x / 2, k - 1)
  }

  /** Binary digit `k` of `x`. */
  predicate Bit(x: nat, k: nat) {
    Shr(x, k) % 2 == 1
  }

  function Pow2(n: nat): (r: nat)
    ensures r >= 1
  {
    if n == 0 then 1 else 2 * Pow2(n - 1)
  }

  function Max(x: nat, y: nat): nat {
    if x < y then y else x
  }

  /** Bitwise or. */
  function Or(x: nat, y: nat): nat
    decreases x + y
  {
    if x == 0 && y == 0 then 0 else 2 * Or(x / 2, y / 2) + Max(x % 2, y % 2)
  }

  lemma {:induction false} Pow2Byte(n: nat)
    ensures Pow2(n + 8) == 256 * Pow2(n)
  {
    assert Pow2(n + 4) == 16 * Pow2(n) by {
      assert Pow2(n + 2) == 4 * Pow2(n);
      assert Pow2(n + 4) == 4 * Pow2(n + 2);
    }
    assert Pow2(n + 6) == 4 * Pow2(n + 4);
    assert Pow2(n + 8) == 4 * Pow2(n + 6);
  }

  lemma Pow2HalfWord()
    ensures Pow2(31) == 0x8000_0000 && Pow2(32) == 0x1_0000_0000
  {
    Pow2Byte(0);
    Pow2Byte(8);
    Pow2Byte(16);
    Pow2Byte(24);
    assert Pow2(32) == 2 * Pow2(31);
  }

  lemma Pow2Word()
    ensures Pow2(31) == 0x8000_0000 && Pow2(32) == 0x1_0000_0000
    ensures Pow2(64) == 0x1_0000_0000_0000_0000
  {
    Pow2HalfWord();
    hide Pow2;
    Pow2Byte(32);
    Pow2Byte(40);
    Pow2Byte(48);
    Pow2Byte(56);
  }

  lemma {:induction false} Pow2Grows(a: nat, b: nat)
    requires a <= b
    ensures Pow2(a) <= Pow2(b)
  {
    if a < b {
      Pow2Grows(a, b - 1);
    }
  }

  /** One more digit shifted out. */
  lemma {:induction false} ShrStep(x: nat, k: nat)
    ensures Shr(x, k + 1) == Shr(x, k) / 2
    ensures Shr(x, k) == 2 * Shr(x, k + 1) + (if Bit(x, k) then 1 else 0)
  {
    if k > 0 {
      ShrStep(x / 2, k - 1);
    }
  }

  lemma {:induction false} ShrAdd(x: nat, a: nat, b: nat)
    ensures Shr(Shr(x, a), b) == Shr(x, a + b)
  {
    if a > 0 {
      ShrAdd(x / 2, a - 1, b);
    }
  }

  /** Numbers that agree from digit `hi` up, and on every digit in `lo..hi`,
      agree from digit `lo` up. */
  lemma {:induction false} AgreeDown(x: nat, y: nat, lo: nat, hi: nat)
    requires lo <= hi
    requires Shr(x, hi) == Shr(y, hi)
    requires forall k :: lo <= k < hi ==> (Bit(x, k) <==> Bit(y, k))
    ensures Shr(x, lo) == Shr(y, lo)
    decreases hi - lo
  {
    if lo < hi {
      AgreeDown(x, y, lo + 1, hi);
      ShrStep(x, lo);
      ShrStep(y, lo);
    }
  }

  /** The order of two numbers is decided above digit `k` as soon as their
      shifted values differ. */
  lemma {:induction false} ShiftOrders(x: nat, y: nat, k: nat)
    requires Shr(x, k) < Shr(y, k)
    ensures x < y
  {
    if k > 0 {
      ShiftOrders(x / 2, y / 2, k - 1);
    }
  }

  /** The low `n` digits of `x`: the C expression `x & ((1 << n) - 1)`. */
  function Low(x: nat, n: nat): (r: nat)
    ensures r <= x
  {
    if n == 0 then 0 else 2 * Low(x / 2, n - 1) + x % 2
  }

  lemma {:induction false} LowBit(x: nat, n: nat, j: nat)
    requires j < n
    ensures Bit(Low(x, n), j) <==> Bit(x, j)
  {
    assert Low(x, n) / 2 == Low(x / 2, n - 1);
    if j > 0 {
      LowBit(x / 2, n - 1, j - 1);
    }
  }

  /** A digit of byte `i` of `x` is a digit of `x`. */
  lemma ByteBit(x: nat, i: nat, j: nat)
    requires j < 8
    ensures Bit(Low(Shr(x, 8 * i), 8), j) <==> Bit(x, 8 * i + j)
  {
    LowBit(Shr(x, 8 * i), 8, j);
    ShrAdd(x, 8 * i, j);
  }

  /** `q` with the `n` low digits of `r` appended: `q << n | r`. */
  function Join(q: nat, r: nat, n: nat): nat {
    if n == 0 then q else 2 * Join(q, r / 2, n - 1) + r % 2
  }

  lemma {:induction false} JoinBit(q: nat, r: nat, n: nat, k: nat)
    ensures Bit(Join(q, r, n), k) <==> if k < n then Bit(r, k) else Bit(q, k - n)
  {
    if n > 0 {
      assert Join(q, r, n) / 2 == Join(q, r / 2, n - 1);
      if k > 0 {
        JoinBit(q, r / 2, n - 1, k - 1);
      }
    }
  }

  /** Joined numbers are ordered by their upper part, then their lower. */
  lemma {:induction false} JoinOrder(q: nat, r: nat, q': nat, r': nat, n: nat)
    requires r < Pow2(n) && r' < Pow2(n)
    ensures Join(q, r, n) < Join(q', r', n) <==> q < q' || (q == q' && r < r')
    ensures Join(q, r, n) == Join(q', r', n) <==> q == q' && r == r'
  {
    if n > 0 {
      JoinOrder(q, r / 2, q', r' / 2, n - 1);
    }
  }

  lemma {:induction false} JoinBound(q: nat, r: nat, n: nat, m: nat)
    requires q < Pow2(m)
    ensures Join(q, r, n) < Pow2(n + m)
  {
    if n > 0 {
      JoinBound(q, r / 2, n - 1, m);
    }
  }

  /** `Or` has exactly the digits of either operand. */
  lemma {:induction false} OrBit(x: nat, y: nat, k: nat)
    ensures Bit(Or(x, y), k) <==> Bit(x, k) || Bit(y, k)
    decreases k
  {
    if x == 0 && y == 0 {
      assert Shr(0, k) == 0;
    } else {
      assert Or(x, y) / 2 == Or(x / 2, y / 2);
      if k > 0 {
        OrBit(x / 2, y / 2, k - 1);
      }
    }
  }

  lemma {:induction false} OrBound(x: nat, y: nat, n: nat)
    requires x < Pow2(n) && y < Pow2(n)
    ensures Or(x, y) < Pow2(n)
    decreases n
  {
    if n > 0 && (x != 0 || y != 0) {
      OrBound(x / 2, y / 2, n - 1);
    }
  }

  /** A number below `Pow2(n)` has no digits from `n` up. */
  lemma {:induction false} NoHighBits(x: nat, n: nat, k: nat)
    requires x < Pow2(n) && n <= k
    ensures Shr(x, k) == 0 && !Bit(x, k)
  {
    if k > 0 && x > 0 {
      NoHighBits(x / 2, if n == 0 then 0 else n - 1, k - 1);
    } else if k > 0 {
      NoHighBits(0, 0, k - 1);
    }
  }

  /** A non-zero number has a digit. */
  lemma {:induction false} SomeBit(x: nat, n: nat) returns (k: nat)
    requires 0 < x < Pow2(n)
    ensures k < n && Bit(x, k)
  {
    if x % 2 == 1 {
      k := 0;
      assert n > 0;
    } else {
      k := SomeBit(x / 2, n - 1);
      k := k + 1;
    }
  }

  // ----- Masks and indices modulo a power of two -----------------------------------

  /** Bitwise and. */
  function And(x: nat, y: nat): nat
    decreases x
  {
    if x == 0 then 0 else 2 * And(x / 2, y / 2) + (if x % 2 == 1 && y % 2 == 1 then 1 else 0)
  }

  /** Masking with a power of two less one keeps the low digits. */
  lemma {:induction false} AndMask(x: nat, k: nat)
    ensures And(x, Pow2(k) - 1) == Low(x, k)
  {
    if k == 0 {
      AndZero(x);
    } else if x == 0 {
      LowZero(k);
    } else {
      assert (Pow2(k) - 1) / 2 == Pow2(k - 1) - 1;
      AndMask(x / 2, k - 1);
    }
  }

  lemma {:induction false} AndZero(x: nat)
    ensures And(x, 0) == 0
  {
    if x > 0 {
      AndZero(x / 2);
    }
  }

  lemma {:induction false} LowZero(k: nat)
    ensures Low(0, k) == 0
  {
    if k > 0 {
      LowZero(k - 1);
    }
  }

  lemma {:induction false} LowBound(x: nat, k: nat)
    ensures Low(x, k) < Pow2(k)
  {
    if k > 0 {
      LowBound(x / 2, k - 1);
    }
  }

  lemma {:induction false} LowIdentity(x: nat, k: nat)
    requires x < Pow2(k)
    ensures Low(x, k) == x
  {
    if k > 0 {
      LowIdentity(x / 2, k - 1);
    }
  }

  lemma {:induction false} LowSplit(x: nat, k: nat)
    ensures x == Pow2(k) * Shr(x, k) + Low(x, k)
  {
    if k > 0 {
      LowSplit(x / 2, k - 1);
      var p, q := Pow2(k - 1), Shr(x / 2, k - 1);
      assert (2 * p) * q == 2 * (p * q);
    }
  }

  /** Counting on from `x`, the low digits count on and start over. */
  lemma {:induction false} LowNext(x: nat, k: nat)
    ensures Low(x + 1, k) == if Low(x, k) + 1 == Pow2(k) then 0 else Low(x, k) + 1
  {
    LowBound(x, k);
    if k > 0 {
      if x % 2 == 1 {
        assert (x + 1) / 2 == x / 2 + 1;
        LowNext(x / 2, k - 1);
      } else {
        assert (x + 1) / 2 == x / 2;
      }
    }
  }

  lemma {:induction false} LowPlus(x: nat, i: nat, k: nat)
    requires i < Pow2(k)
    ensures Low(x + i, k) == if Low(x, k) + i < Pow2(k) then Low(x, k) + i else Low(x, k) + i - Pow2(k)
  {
    LowBound(x, k);
    if i > 0 {
      LowPlus(x, i - 1, k);
      LowNext(x + i - 1, k);
    }
  }

  /** Numbers closer than `Pow2(k)` differ in their low digits. */
  lemma LowDistinct(x: nat, y: nat, k: nat)
    requires x < y < x + Pow2(k)
    ensures Low(x, k) != Low(y, k)
  {
    LowPlus(x, y - x, k);
    LowBound(x, k);
  }

  /** The C conversion to a 32-bit word, and the half that it drops. */
  lemma WordIsLow(x: nat)
    ensures x % 0x1_0000_0000 == Low(x, 32)
    ensures x / 0x1_0000_0000 == Shr(x, 32)
  {
    LowSplit(x, 32);
    LowBound(x, 32);
    Pow2Word();
    hide Low, Shr, Pow2;
  }

  /** Wrapping around at 32 digits does not change fewer low digits. */
  lemma LowOfWord(x: nat, k: nat)
    requires k <= 32
    ensures Low(x % 0x1_0000_0000, k) == Low(x, k)
  {
    WordIsLow(x);
    LowOfLow(x, 32, k);
  }

  lemma {:induction false} LowOfLow(x: nat, n: nat, k: nat)
    requires k <= n
    ensures Low(Low(x, n), k) == Low(x, k)
  {
    if k > 0 {
      assert Low(x, n) / 2 == Low(x / 2, n - 1);
      LowOfLow(x / 2, n - 1, k - 1);
    }
  }
}
