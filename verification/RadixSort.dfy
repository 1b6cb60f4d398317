/** The in-place radix pass of the directory sort, with its explicit stack
    (libeio/eio.c), proved to compute `RadixSpec.Radix`. */
module RadixSort {
  import opened Basics
  import opened Bits
  import opened Dirents
  import opened RadixSpec

  /** A pending part of the array: an entry of the C stacks `base_stk`, `end_stk`
      and `bit_stk`. */
  datatype Segment = Segment(base: nat, end: nat, bit: nat)

  const TABLE_SIZE := 73

  ghost predicate WellStacked(st: seq<Segment>, size: nat, bits: seq<nat>) {
    && (forall k :: 0 <= k < |st| ==> st[k].base <= st[k].end <= size)
    && (forall k :: 0 <= k < |st| ==> 1 <= st[k].bit && st[k].bit + k < |bits|)
  }

  /** What remains to be done: the pending parts, the top of the stack first. */
  ghost function Finish(w: seq<Dirent>, st: seq<Segment>, bits: seq<nat>): seq<Dirent>
    requires WellStacked(st, |w|, bits) && Readable(bits)
    decreases |st|
  {
    if st == [] then w
    else
      var top := st[|st| - 1];
      Finish(Radix(w, top.base, top.end, bits, top.bit), st[..|st| - 1], bits)
  }

  /** Bounds the work left in the pending parts. */
  ghost function Weight(st: seq<Segment>): nat {
    if st == [] then 0 else Pow2(st[|st| - 1].bit) + Weight(st[..|st| - 1])
  }

  method BuildKeyBits(scoreBits: nat, inodeBits: nat) returns (bits: array<nat>, last: nat)
    ensures fresh(bits) && bits.Length == TABLE_SIZE && last < TABLE_SIZE
    ensures bits[..last + 1] == KeyBits(scoreBits, inodeBits)
  {
    bits := new nat[TABLE_SIZE];
    bits[0] := 0;
    var bit := 1;
    var i := 0;
    while i < 8
      invariant i <= 8 && 1 <= bit <= 1 + 8 * i
      invariant bits[..bit] == [0] + InodeSelectors(inodeBits, 8 * i)
    {
      var j := 0;
      while j < 8
        invariant j <= 8 && 1 <= bit <= 1 + 8 * i + j
        invariant bits[..bit] == [0] + InodeSelectors(inodeBits, 8 * i + j)
      {
        if Bit(inodeBits, 8 * i + j) {
          bits[bit] := 8 * (INODE_OFFSET + i) + j;
          bit := bit + 1;
        }
        j := j + 1;
      }
      i := i + 1;
    }
    var j := 0;
    while j < 8
      invariant j <= 8 && 1 <= bit <= 65 + j
      invariant bits[..bit] == [0] + InodeSelectors(inodeBits, 64) + ScoreSelectors(scoreBits, j)
    {
      if Bit(scoreBits, j) {
        bits[bit] := 8 * SCORE_OFFSET + j;
        bit := bit + 1;
      }
      j := j + 1;
    }
    last := bit - 1;
  }

  /** The two-ended partition loop. */
  method PartitionInPlace(dents: array<Dirent>, base: nat, end: nat, sel: nat) returns (a: nat)
    requires base < end <= dents.Length && sel < 128
    modifies dents
    ensures (dents[..], a) == Partition(old(dents[..]), base, end, Ones(sel))
  {
    a := base;
    var b := end;
    while true
      invariant base <= a < b <= end
      invariant Partition(dents[..], a, b, Ones(sel)) == Partition(old(dents[..]), base, end, Ones(sel))
      decreases b - a
    {
      ghost var w := dents[..];
      if !TestBit(dents[a], sel) {
        a := a + 1;
      } else {
        b := b - 1;
        if !TestBit(dents[b], sel) {
          dents[a], dents[b] := dents[b], dents[a];
          assert dents[..] == w[a := w[b]][b := w[a]];
          a := a + 1;
        }
      }
      if a >= b {
        break;
      }
    }
  }

  /** One partitioning step, then either the sentinel, or the upper half on the
      stack and the lower half next. */
  lemma StepDown(w: seq<Dirent>, w': seq<Dirent>, base: nat, a: nat, end: nat, bits: seq<nat>, bit: nat,
          st: seq<Segment>)
    requires base <= end <= |w| && end - base >= SORT_CUTOFF
    requires Readable(bits) && 1 <= bit && bit + |st| < |bits|
    requires WellStacked(st, |w|, bits)
    requires (w', a) == Partition(w, base, end, Ones(bits[bit]))
    ensures bit == 1 ==> Finish(w', st, bits) == Finish(Radix(w, base, end, bits, bit), st, bits)
    ensures bit > 1 ==>
      var st' := st + [Segment(a, end, bit - 1)];
      && WellStacked(st', |w|, bits)
      && Finish(Radix(w', base, a, bits, bit - 1), st', bits) == Finish(Radix(w, base, end, bits, bit), st, bits)
      && Weight(st') + Pow2(bit - 1) == Weight(st) + Pow2(bit)
  {
    if bit == 1 {
      assert Radix(w, base, end, bits, bit) == w';
    } else {
      var st' := st + [Segment(a, end, bit - 1)];
      assert st'[..|st'| - 1] == st;
    }
  }

  lemma RadixSmall(w: seq<Dirent>, base: nat, end: nat, bits: seq<nat>, bit: nat)
    requires base <= end <= |w| && end - base < SORT_CUTOFF && bit < |bits| && Readable(bits)
    ensures Radix(w, base, end, bits, bit) == w
  {
  }

  /** The inner loop: split off upper parts onto the stack until the lower part
      is small or the bits run out. */
  method Descend(dents: array<Dirent>, bits: seq<nat>, stk: array<Segment>, stkIdx0: nat, base: nat, end0: nat,
          bit0: nat)
    returns (stkIdx: nat)
    requires base <= end0 <= dents.Length && 1 <= bit0 && stkIdx0 + bit0 < |bits| <= TABLE_SIZE == stk.Length
    requires Readable(bits) && bits[0] == 0 && (forall k :: 1 <= k < |bits| ==> bits[k] != 0)
    requires WellStacked(stk[..stkIdx0], dents.Length, bits)
    modifies dents, stk
    ensures stkIdx <= |bits| - 2 && WellStacked(stk[..stkIdx], dents.Length, bits)
    ensures Finish(dents[..], stk[..stkIdx], bits)
         == Finish(Radix(old(dents[..]), base, end0, bits, bit0), old(stk[..stkIdx0]), bits)
    ensures Weight(stk[..stkIdx]) < Weight(old(stk[..stkIdx0])) + Pow2(bit0)
  {
    hide Finish, Radix, Weight, Partition;
    var end, bit := end0, bit0;
    stkIdx := stkIdx0;
    ghost var target := Finish(Radix(dents[..], base, end, bits, bit), stk[..stkIdx], bits);
    while end - base >= SORT_CUTOFF
      invariant base <= end <= dents.Length && 1 <= bit
      invariant stkIdx + bit < |bits|
      invariant WellStacked(stk[..stkIdx], dents.Length, bits)
      invariant Finish(Radix(dents[..], base, end, bits, bit), stk[..stkIdx], bits) == target
      invariant Weight(stk[..stkIdx]) + Pow2(bit) == old(Weight(stk[..stkIdx0])) + Pow2(bit0)
      decreases bit
    {
      ghost var w, st := dents[..], stk[..stkIdx];
      var a := PartitionInPlace(dents, base, end, bits[bit]);
      StepDown(w, dents[..], base, a, end, bits, bit, st);
      bit := bit - 1;
      if bits[bit] == 0 {
        break;
      }
      stk[stkIdx] := Segment(a, end, bit);
      stkIdx := stkIdx + 1;
      assert stk[..stkIdx] == st + [Segment(a, end, bit)];
      end := a;
    }
    if end - base < SORT_CUTOFF {
      RadixSmall(dents[..], base, end, bits, bit);
    }
  }

  /** The outer loop: take pending parts off the stack until it is empty. */
  method RunStack(dents: array<Dirent>, size: nat, bits: seq<nat>)
    requires size <= dents.Length && 1 < |bits| <= TABLE_SIZE
    requires Readable(bits) && bits[0] == 0 && (forall k :: 1 <= k < |bits| ==> bits[k] != 0)
    modifies dents
    ensures dents[..] == Radix(old(dents[..]), 0, size, bits, |bits| - 1)
  {
    var stk := new Segment[TABLE_SIZE];
    var stkIdx := 0;
    stk[0] := Segment(0, size, |bits| - 1);
    ghost var target := Radix(dents[..], 0, size, bits, |bits| - 1);
    assert stk[..1] == [Segment(0, size, |bits| - 1)] && stk[..0] == [];
    assert Finish(dents[..], stk[..1], bits) == target;
    while true
      invariant 0 <= stkIdx < |bits| - 1
      invariant WellStacked(stk[..stkIdx + 1], dents.Length, bits)
      invariant Finish(dents[..], stk[..stkIdx + 1], bits) == target
      decreases Weight(stk[..stkIdx + 1])
    {
      ghost var st := stk[..stkIdx + 1];
      assert st[..stkIdx] == stk[..stkIdx] && st[stkIdx] == stk[stkIdx];
      stkIdx := Descend(dents, bits, stk, stkIdx, stk[stkIdx].base, stk[stkIdx].end, stk[stkIdx].bit);
      if stkIdx == 0 {
        break;
      }
      stkIdx := stkIdx - 1;
    }
  }

  /** `eio_dent_radix_sort`. Without a key bit the pass would step below the
      sentinel of the table, so beyond the fast size one is demanded. */
  method RadixSort(dents: array<Dirent>, size: nat, scoreBits: nat, inodeBits: nat)
    requires size <= dents.Length
    requires size > SORT_FAST ==> |KeyBits(scoreBits, inodeBits)| > 1
    modifies dents
    ensures Readable(KeyBits(scoreBits, inodeBits))
    ensures dents[..] ==
      if size <= SORT_FAST then old(dents[..])
      else Radix(old(dents[..]), 0, size, KeyBits(scoreBits, inodeBits), |KeyBits(scoreBits, inodeBits)| - 1)
  {
    KeyBitsShape(scoreBits, inodeBits);
    if size > SORT_FAST {
      var table, last := BuildKeyBits(scoreBits, inodeBits);
      RunStack(dents, size, table[..last + 1]);
    }
  }
}
