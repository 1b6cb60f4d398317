/** The ring buffer (data_structure/queue.c, data_structure/queue.h) as a bounded
    first-in-first-out sequence of bytes. */
module RingBuffer {
  import opened Basics
  import opened Bits
  import opened RingIndex
  import PowerOfTwo

  class Queue {
    var buffer: array<byte>
    var size: nat
    /** `in` and `out` of the C structure, unsigned. */
    var in_: nat
    var out: nat

    /** The size is `Pow2(k)`. */
    ghost var k: nat
    /** How many bytes went in and out since the indices were last reset. */
    ghost var written: nat
    ghost var taken: nat

    ghost predicate Valid()
      reads this
    {
      && k <= 31 && size == Pow2(k) == buffer.Length
      && taken <= written <= taken + size
      && in_ == Wrap(written) && out == Wrap(taken)
    }

    /** The bytes in the queue, oldest first. */
    ghost function Contents(): (s: seq<byte>)
      requires Valid()
      reads this, buffer
      ensures |s| == written - taken
    {
      Stretch(buffer[..], k, taken, written - taken)
    }

    /** `queue_alloc`: the least power of two that holds `wanted` bytes. */
    constructor (wanted: nat)
      requires 1 <= wanted <= 0x8000_0000
      ensures Valid() && fresh(buffer) && Contents() == []
      ensures wanted <= size && forall j: nat :: wanted <= Pow2(j) ==> size <= Pow2(j)
    {
      var n, e := PowerOfTwo.BufferSize(wanted);
      buffer := new byte[n];
      size, in_, out := n, 0, 0;
      k, written, taken := e, 0, 0;
    }

    /** `_queue_in`: takes as many bytes as there is room for. */
    method In(data: seq<byte>) returns (len: nat)
      requires Valid() && |data| < WORD
      modifies this, buffer
      ensures Valid() && buffer == old(buffer) && size == old(size)
      ensures len == Min(|data|, size - |old(Contents())|)
      ensures Contents() == old(Contents()) + data[..len]
    {
      hide Pow2, And, Slot, Used, Free, Wrap, Stretch, SlotOf;
      SizeBound(k);
      AmountsAreRight(written, taken, size);
      MaskIsSlot(written, k);
      len := Min(|data|, Free(size, in_, out));
      var pos := And(in_, size - 1);
      var l := Min(len, size - pos);
      ghost var b := buffer[..];
      CopyIn2(buffer, pos, data, l, len);
      Filled(b, buffer[..], k, taken, written, data, len, l);
      WrapAdd(written, len);
      in_ := Wrap(in_ + len);
      written := written + len;
    }

    /** `_queue_out`: gives as many of the oldest bytes as were asked for and are
        there. */
    method Out(dst: array<byte>, wanted: nat) returns (len: nat)
      requires Valid() && wanted <= dst.Length && wanted < WORD && dst != buffer
      modifies this, dst
      ensures Valid() && buffer == old(buffer) && size == old(size)
      ensures len == Min(wanted, |old(Contents())|)
      ensures dst[..len] == old(Contents())[..len] && dst[len..] == old(dst[len..])
      ensures Contents() == old(Contents())[len..]
      ensures written == old(written)
    {
      hide Pow2, And, Slot, Used, Free, Wrap, Stretch, SlotOf;
      SizeBound(k);
      AmountsAreRight(written, taken, size);
      MaskIsSlot(taken, k);
      len := Min(wanted, Used(in_, out));
      var pos := And(out, size - 1);
      var l := Min(len, size - pos);
      CopyOut2(buffer, pos, dst, l, len);
      Emptied(buffer[..], k, taken, written - taken, len, l);
      WrapAdd(taken, len);
      out := Wrap(out + len);
      taken := taken + len;
    }

    /** `_queue_reset` */
    method Reset()
      requires Valid()
      modifies this
      ensures Valid() && buffer == old(buffer) && size == old(size) && Contents() == []
    {
      in_, out := 0, 0;
      written, taken := 0, 0;
    }

    /** `queue_out`: like `_queue_out`, and puts the indices back to 0 when the
        queue has become empty. */
    method OutAndReset(dst: array<byte>, wanted: nat) returns (len: nat)
      requires Valid() && wanted <= dst.Length && wanted < WORD && dst != buffer
      modifies this, dst
      ensures Valid() && buffer == old(buffer) && size == old(size)
      ensures len == Min(wanted, |old(Contents())|)
      ensures dst[..len] == old(Contents())[..len] && dst[len..] == old(dst[len..])
      ensures Contents() == old(Contents())[len..]
      ensures Contents() == [] ==> in_ == out == 0
    {
      len := Out(dst, wanted);
      SizeBound(k);
      AmountsAreRight(written, taken, size);
      if in_ == out {
        in_, out := 0, 0;
        written, taken := 0, 0;
      }
    }

    /** `_queue_len` */
    method Length() returns (n: nat)
      requires Valid()
      ensures n == |Contents()|
    {
      SizeBound(k);
      AmountsAreRight(written, taken, size);
      n := Used(in_, out);
    }
  }

  /** The `n` bytes in the buffer from running number `first` on. */
  ghost function Stretch(b: seq<byte>, k: nat, first: nat, n: nat): (s: seq<byte>)
    requires |b| == Pow2(k)
    ensures |s| == n
  {
    seq(n, i requires 0 <= i < n => SlotOf(b, k, first + i))
  }

  ghost function SlotOf(b: seq<byte>, k: nat, n: nat): byte
    requires |b| == Pow2(k)
  {
    LowBound(n, k);
    b[Slot(n, k)]
  }

  /** The two copies of `_queue_in`: up to the end of the buffer, and the rest to
      its start. */
  method CopyIn2(buffer: array<byte>, pos: nat, data: seq<byte>, l: nat, len: nat)
    requires l <= len <= |data| && pos + l <= buffer.Length && len - l <= pos
    modifies buffer
    ensures forall i :: 0 <= i < l ==> buffer[pos + i] == data[i]
    ensures forall i :: l <= i < len ==> buffer[i - l] == data[i]
    ensures forall j :: 0 <= j < buffer.Length && !(pos <= j < pos + l) && !(0 <= j < len - l) ==>
      buffer[j] == old(buffer[j])
  {
    CopyIn(buffer, pos, data[..l]);
    forall i | 0 <= i < l
      ensures buffer[pos + i] == data[i]
    {
      assert buffer[pos..pos + l][i] == data[..l][i];
    }
    CopyIn(buffer, 0, data[l..len]);
    forall i | l <= i < len
      ensures buffer[i - l] == data[i]
    {
      assert buffer[0..len - l][i - l] == data[l..len][i - l];
    }
  }

  /** The two copies of `_queue_out`. */
  method CopyOut2(buffer: array<byte>, pos: nat, dst: array<byte>, l: nat, len: nat)
    requires l <= len <= dst.Length && pos + l <= buffer.Length && len - l <= buffer.Length && dst != buffer
    modifies dst
    ensures dst[..len] == buffer[pos..pos + l] + buffer[..len - l]
    ensures dst[len..] == old(dst[len..])
  {
    CopyIn(dst, 0, buffer[pos..pos + l]);
    ghost var d := dst[..];
    assert d[0..l] == buffer[pos..pos + l];
    CopyIn(dst, l, buffer[..len - l]);
    assert dst[..l] == d[0..l];
    assert dst[..len] == dst[..l] + dst[l..l + (len - l)];
  }

  /** The two copies of `_queue_in` fill the slots of the next `len` bytes and no
      slot of a byte that is still in the queue. */
  lemma Filled(b: seq<byte>, b': seq<byte>, k: nat, taken: nat, written: nat, data: seq<byte>, len: nat, l: nat)
    requires |b| == |b'| == Pow2(k) && taken <= written && written + len <= taken + Pow2(k)
    requires Slot(written, k) < Pow2(k) && len <= |data| && l == Min(len, Pow2(k) - Slot(written, k))
    requires forall i :: 0 <= i < l ==> b'[Slot(written, k) + i] == data[i]
    requires forall i :: l <= i < len ==> b'[i - l] == data[i]
    requires forall j :: 0 <= j < |b| && !(Slot(written, k) <= j < Slot(written, k) + l) && !(0 <= j < len - l) ==>
      b'[j] == b[j]
    ensures Stretch(b', k, taken, written + len - taken) == Stretch(b, k, taken, written - taken) + data[..len]
  {
    forall i | 0 <= i < len
      ensures SlotOf(b', k, written + i) == data[i]
    {
      SlotPlus(written, i, k);
    }
    forall n | taken <= n < written
      ensures SlotOf(b', k, n) == SlotOf(b, k, n)
    {
      OldSlotSpared(n, taken, written, len, k);
    }
    var s := Stretch(b', k, taken, written + len - taken);
    forall i | 0 <= i < |s|
      ensures s[i] == (Stretch(b, k, taken, written - taken) + data[..len])[i]
    {
      if i >= written - taken {
        assert s[i] == SlotOf(b', k, written + (i - (written - taken)));
      }
    }
  }

  /** A byte in the queue does not lie where the next bytes go. */
  lemma OldSlotSpared(n: nat, taken: nat, written: nat, len: nat, k: nat)
    requires taken <= n < written && written + len <= taken + Pow2(k) && 0 <= len
    ensures Slot(written, k) < Pow2(k) && Slot(n, k) < Pow2(k)
    ensures var pos, j, l := Slot(written, k), Slot(n, k), Min(len, Pow2(k) - Slot(written, k));
      !(pos <= j < pos + l) && !(j < len - l)
  {
    var pos, j := Slot(written, k), Slot(n, k);
    LowBound(written, k);
    LowBound(n, k);
    var l := Min(len, Pow2(k) - pos);
    if pos <= j < pos + l {
      SlotPlus(written, j - pos, k);
      LowDistinct(n, written + (j - pos), k);
    } else if j < len - l {
      SlotPlus(written, l + j, k);
      LowDistinct(n, written + (l + j), k);
    }
  }

  /** The two copies of `_queue_out` read the oldest `len` bytes. */
  lemma Emptied(b: seq<byte>, k: nat, taken: nat, n: nat, len: nat, l: nat)
    requires |b| == Pow2(k) && len <= n <= Pow2(k)
    requires Slot(taken, k) < Pow2(k) && l == Min(len, Pow2(k) - Slot(taken, k))
    ensures b[Slot(taken, k)..Slot(taken, k) + l] + b[..len - l] == Stretch(b, k, taken, n)[..len]
    ensures Stretch(b, k, taken + len, n - len) == Stretch(b, k, taken, n)[len..]
  {
    var pos := Slot(taken, k);
    var read := b[pos..pos + l] + b[..len - l];
    forall i | 0 <= i < len
      ensures read[i] == SlotOf(b, k, taken + i)
    {
      if i < Pow2(k) {
        SlotPlus(taken, i, k);
      }
    }
    forall i | 0 <= i < n - len
      ensures Stretch(b, k, taken + len, n - len)[i] == Stretch(b, k, taken, n)[len..][i]
    {
      assert taken + len + i == taken + (len + i);
    }
  }
}
