/** Index arithmetic of the ring buffer (data_structure/queue.c): indices run
    freely modulo 2^32 and are masked by a power-of-two size. */
module RingIndex {
  import opened Basics
  import opened Bits

  /** Storing a number in an unsigned word. */
  function Wrap(n: nat): nat {
    n % WORD
  }

  /** `in - out` on unsigned operands. */
  function Used(i: nat, o: nat): nat {
    Wrap(i + WORD - Wrap(o))
  }

  /** `size - in + out` on unsigned operands. */
  function Free(size: nat, i: nat, o: nat): nat {
    Wrap(size + (WORD - Wrap(i)) + o)
  }

  /** The slot of the byte with running number `n`. */
  function Slot(n: nat, k: nat): (r: nat) {
    Low(n, k)
  }

  /** The running number of the first byte `n`, stored in a word, masks to its
      slot. */
  lemma MaskIsSlot(n: nat, k: nat)
    requires k <= 31
    ensures And(Wrap(n), Pow2(k) - 1) == Slot(n, k) < Pow2(k)
  {
    AndMask(n % WORD, k);
    LowOfWord(n, k);
    LowBound(n, k);
  }

  /** The slot of the `i`th byte from `n` on: up to the end of the buffer, then
      from its start. */
  lemma SlotPlus(n: nat, i: nat, k: nat)
    requires i < Pow2(k)
    ensures Slot(n + i, k) == if Slot(n, k) + i < Pow2(k) then Slot(n, k) + i else Slot(n, k) + i - Pow2(k)
    ensures Slot(n + i, k) < Pow2(k)
  {
    LowPlus(n, i, k);
    LowBound(n, k);
  }

  lemma SizeBound(k: nat)
    requires k <= 31
    ensures Pow2(k) <= 0x8000_0000
  {
    Pow2Grows(k, 31);
    Pow2Word();
  }

  /** Unsigned differences give the true amounts, however often the indices have
      wrapped around. */
  lemma AmountsAreRight(written: nat, taken: nat, size: nat)
    requires taken <= written <= taken + size && size <= 0x8000_0000
    ensures Used(Wrap(written), Wrap(taken)) == written - taken
    ensures Free(size, Wrap(written), Wrap(taken)) == size - (written - taken)
    ensures Wrap(written) == Wrap(taken) <==> written == taken
  {
    var d := written - taken;
    WrapApart(taken, d);
    var w, t := Wrap(written), Wrap(taken);
    assert Wrap(w) == w && Wrap(t) == t;
    if w == t + d {
      assert Used(w, t) == (d + WORD) % WORD;
      assert Free(size, w, t) == (size - d + WORD) % WORD;
    } else {
      assert Used(w, t) == d % WORD;
      assert Free(size, w, t) == (size - d + 2 * WORD) % WORD;
    }
  }

  /** A stored index moves on by `d`, or by `d` less a word. */
  lemma WrapApart(n: nat, d: nat)
    requires d < WORD
    ensures Wrap(n + d) == Wrap(n) + d || Wrap(n + d) == Wrap(n) + d - WORD
  {
  }

  lemma WrapAdd(n: nat, len: nat)
    ensures Wrap(Wrap(n) + len) == Wrap(n + len)
  {
  }
}
