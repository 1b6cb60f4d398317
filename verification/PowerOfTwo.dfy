/** Rounding up to a power of two (data_structure/queue.c). */
module PowerOfTwo {
  import opened Basics
  import opened Bits

  const LONG := 0x1_0000_0000_0000_0000

  /** The number of binary digits of `x`. */
  function Digits(x: nat): nat {
    if x == 0 then 0 else 1 + Digits(x / 2)
  }

  lemma {:induction false} DigitsBracket(x: nat)
    requires x > 0
    ensures Digits(x) >= 1 && Pow2(Digits(x) - 1) <= x < Pow2(Digits(x))
  {
    if x > 1 {
      DigitsBracket(x / 2);
    }
  }

  lemma {:induction false} DigitsBelow(x: nat, n: nat)
    requires x < Pow2(n)
    ensures Digits(x) <= n
  {
    if x > 0 {
      DigitsBelow(x / 2, n - 1);
    }
  }

  /** `is_power_of_2` */
  predicate IsPowerOf2(n: nat) {
    n != 0 && And(n, n - 1) == 0
  }

  lemma {:induction false} PowersOf2(n: nat)
    requires n > 0
    ensures IsPowerOf2(n) <==> n == Pow2(Digits(n) - 1)
  {
    if n % 2 == 1 {
      assert (n - 1) / 2 == n / 2;
      AndSelf(n / 2);
      if n > 1 {
        DigitsBracket(n / 2);
      }
    } else {
      assert (n - 1) / 2 == n / 2 - 1;
      PowersOf2(n / 2);
      DigitsBracket(n / 2);
    }
  }

  lemma {:induction false} AndSelf(x: nat)
    ensures And(x, x) == x
  {
    if x > 0 {
      AndSelf(x / 2);
    }
  }

  /** `i >>= 1` on an `int`, `n` times. */
  function Shifted(i: int, n: nat): int
    decreases n
  {
    if n == 0 then i else Shifted(i / 2, n - 1)
  }

  /** The loop of `fls` reaches zero exactly when its argument is not
      negative. */
  lemma {:induction false} FlsEndsIffNotNegative(x: int)
    ensures (exists n: nat :: Shifted(x, n) == 0) <==> x >= 0
  {
    if x >= 0 {
      ShiftedEnds(x);
      assert Shifted(x, x) == 0;
    } else {
      forall n: nat
        ensures Shifted(x, n) != 0
      {
        ShiftedStaysNegative(x, n);
      }
    }
  }

  lemma {:induction false} ShiftedEnds(x: nat)
    ensures Shifted(x, x) == 0
  {
    if x > 0 {
      ShiftedReaches(x / 2, x - 1);
    }
  }

  lemma {:induction false} ShiftedReaches(x: nat, n: nat)
    requires x <= n
    ensures Shifted(x, n) == 0
  {
    if n > 0 {
      ShiftedReaches(x / 2, n - 1);
    }
  }

  lemma {:induction false} ShiftedStaysNegative(x: int, n: nat)
    requires x < 0
    ensures Shifted(x, n) < 0
    decreases n
  {
    if n > 0 {
      ShiftedStaysNegative(x / 2, n - 1);
    }
  }

  /** `fls`: the position of the last set bit, from 1, or 0. */
  method Fls(x: int) returns (r: int)
    requires x >= 0
    ensures r == Digits(x)
  {
    var position := -1;
    if x != 0 {
      var i := x / 2;
      position := 0;
      while i != 0
        invariant 0 <= i && position >= 0
        invariant position + 1 + Digits(i) == Digits(x)
        decreases i
      {
        i := i / 2;
        position := position + 1;
      }
    }
    return position + 1;
  }

  /** What `fls64` hands to `fls` for `roundup_pow_of_two (size)`. */
  function FlsArgument(size: nat): int {
    var x := (size + LONG - 1) % LONG;
    var h := x / WORD;
    if h != 0 then Signed(h) else Signed(x)
  }

  /** A power of two that fits a word is at most 2^31. */
  lemma PowerFits(n: nat)
    requires n < WORD && IsPowerOf2(n)
    ensures n == Pow2(Digits(n) - 1) && 1 <= Digits(n) <= 32 && n <= 0x8000_0000
  {
    PowersOf2(n);
    DigitsBracket(n);
    Pow2Word();
    DigitsBelow(n, 32);
    Pow2Grows(Digits(n) - 1, 31);
  }

  /** `queue_alloc` gets an answer for exactly these sizes: a power of two, or
      one whose predecessor is a positive `int`. For 0 and for sizes above 2^31
      the loop of `fls` does not end. */
  lemma AllocEndsIff(size: nat)
    requires size < WORD
    ensures (IsPowerOf2(size) || FlsArgument(size) >= 0) <==> 1 <= size <= 0x8000_0000
  {
    if IsPowerOf2(size) {
      PowerFits(size);
    }
  }

  lemma {:induction false} DigitsAbove(x: nat, n: nat)
    requires Shr(x, n) > 0
    ensures Digits(x) == n + Digits(Shr(x, n))
  {
    if n > 0 {
      DigitsAbove(x / 2, n - 1);
    }
  }

  /** `fls64`, where the half that it looks at is a positive `int`. */
  method Fls64(x: nat) returns (r: int)
    requires x < LONG
    requires if x / WORD != 0 then Signed(x / WORD) >= 0 else Signed(x) >= 0
    ensures r == Digits(x)
  {
    hide Digits, Shr, Low;
    var h := x / WORD;
    WordIsLow(x);
    if h != 0 {
      DigitsAbove(x, 32);
      r := Fls(Signed(h));
      return r + 32;
    }
    r := Fls(Signed(x));
  }

  /** `roundup_pow_of_two`, on the arguments that it ends on. */
  method RoundUp(x: nat) returns (r: nat)
    requires 1 <= x < LONG && FlsArgument(x) >= 0
    ensures r == Pow2(Digits(x - 1))
  {
    var a := Fls64(x - 1);
    r := Pow2(a);
  }

  /** The size of the buffer that `queue_alloc` allocates: the least power of two
      that is not smaller than the one asked for. */
  method BufferSize(size: nat) returns (r: nat, ghost k: nat)
    requires 1 <= size <= 0x8000_0000
    ensures r == Pow2(k) && k <= 31
    ensures size <= r && forall j: nat :: size <= Pow2(j) ==> r <= Pow2(j)
  {
    hide Pow2, Digits, And;
    AndZero(1);
    if IsPowerOf2(size) {
      PowerFits(size);
      r, k := size, Digits(size) - 1;
    } else {
      RoundingUp(size);
      r := RoundUp(size);
      k := Digits(size - 1);
    }
  }

  lemma RoundingUp(size: nat)
    requires 2 <= size <= 0x8000_0000
    ensures var k := Digits(size - 1);
      k <= 31 && size <= Pow2(k) && forall j: nat :: size <= Pow2(j) ==> Pow2(k) <= Pow2(j)
  {
    hide Digits, Pow2;
    var k := Digits(size - 1);
    Pow2Word();
    DigitsBracket(size - 1);
    DigitsBelow(size - 1, 31);
    forall j: nat | size <= Pow2(j)
      ensures Pow2(k) <= Pow2(j)
    {
      if j < k {
        Pow2Grows(j, k - 1);
      } else {
        Pow2Grows(k, j);
      }
    }
  }
}
