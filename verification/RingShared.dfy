/** `_queue_in` and `_queue_out` run side by side by one writer and one reader,
    without a lock (data_structure/queue.c): each reads the other's index once,
    copies bytes in any order, and then publishes its own index. */
module RingShared {
  import opened Basics
  import opened Bits
  import opened RingIndex

  /** Where the writer is: `data` are the bytes that found room. */
  datatype Writer = WIdle | WCopying(data: seq<byte>, copied: set<nat>)

  /** Where the reader is: `got` has a place for each byte to be read. */
  datatype Reader = RIdle | RCopying(got: seq<byte>, copied: set<nat>)

  /** The shared structure, both threads, and what went in and came out. */
  datatype State = State(
    k: nat, buffer: seq<byte>, in_: nat, out: nat,
    writer: Writer, reader: Reader,
    input: seq<byte>, output: seq<byte>)

  datatype Step =
    | WriterStarts(data: seq<byte>) | WriterCopies(i: nat) | WriterPublishes
    | ReaderStarts(wanted: nat) | ReaderCopies(i: nat) | ReaderPublishes

  /** The slot of byte `i` of a copy that starts at index `idx`: first to the end
      of the buffer, then from its start. */
  function CopySlot(idx: nat, i: nat, k: nat): int {
    var pos := And(idx, Pow2(k) - 1);
    if pos + i < Pow2(k) then pos + i else pos + i - Pow2(k)
  }

  predicate Enabled(s: State, step: Step) {
    match step
    case WriterStarts(data) => s.writer.WIdle?
    case WriterCopies(i) => s.writer.WCopying? && i < |s.writer.data| && i !in s.writer.copied
    case WriterPublishes => s.writer.WCopying? && forall i: nat :: i < |s.writer.data| ==> i in s.writer.copied
    case ReaderStarts(wanted) => s.reader.RIdle?
    case ReaderCopies(i) => s.reader.RCopying? && i < |s.reader.got| && i !in s.reader.copied
    case ReaderPublishes => s.reader.RCopying? && forall i: nat :: i < |s.reader.got| ==> i in s.reader.copied
  }

  /** Both copies stay inside the buffer. */
  predicate InBuffer(s: State) {
    && |s.buffer| == Pow2(s.k)
    && (s.writer.WCopying? ==> forall i: nat :: i < |s.writer.data| ==> 0 <= CopySlot(s.in_, i, s.k) < |s.buffer|)
    && (s.reader.RCopying? ==> forall i: nat :: i < |s.reader.got| ==> 0 <= CopySlot(s.out, i, s.k) < |s.buffer|)
  }

  function Apply(s: State, step: Step): State
    requires Enabled(s, step) && InBuffer(s)
  {
    match step
    case WriterStarts(data) =>
      s.(writer := WCopying(data[..Min(|data|, Free(Pow2(s.k), s.in_, s.out))], {}))
    case WriterCopies(i) =>
      s.(buffer := s.buffer[CopySlot(s.in_, i, s.k) := s.writer.data[i]],
         writer := s.writer.(copied := s.writer.copied + {i}))
    case WriterPublishes =>
      s.(in_ := Wrap(s.in_ + |s.writer.data|), writer := WIdle, input := s.input + s.writer.data)
    case ReaderStarts(wanted) =>
      s.(reader := RCopying(seq(Min(wanted, Used(s.in_, s.out)), i => 0), {}))
    case ReaderCopies(i) =>
      s.(reader := RCopying(s.reader.got[i := s.buffer[CopySlot(s.out, i, s.k)]], s.reader.copied + {i}))
    case ReaderPublishes =>
      s.(out := Wrap(s.out + |s.reader.got|), reader := RIdle, output := s.output + s.reader.got)
  }

  /** Indices and amounts. */
  ghost predicate IndicesAgree(s: State) {
    && s.k <= 31 && |s.buffer| == Pow2(s.k)
    && |s.output| <= |s.input| <= |s.output| + Pow2(s.k)
    && s.in_ == Wrap(|s.input|) && s.out == Wrap(|s.output|)
    && (s.writer.WCopying? ==> |s.input| + |s.writer.data| <= |s.output| + Pow2(s.k))
    && (s.reader.RCopying? ==> |s.output| + |s.reader.got| <= |s.input|)
  }

  /** The bytes of `input` from number `from` on are in their slots. */
  ghost predicate Holds(b: seq<byte>, k: nat, input: seq<byte>, from: nat) {
    forall n: nat :: from <= n < |input| ==> Slot(n, k) < |b| && b[Slot(n, k)] == input[n]
  }

  /** The bytes of `data` that have been copied are in the slots from number
      `start` on. */
  ghost predicate HasCopied(b: seq<byte>, k: nat, start: nat, data: seq<byte>, copied: set<nat>) {
    forall i: nat :: i < |data| && i in copied ==> Slot(start + i, k) < |b| && b[Slot(start + i, k)] == data[i]
  }

  /** What has been written is in its slots, and what has been read is what was
      written. */
  ghost predicate BytesAgree(s: State)
    requires IndicesAgree(s)
  {
    && Holds(s.buffer, s.k, s.input, |s.output|)
    && (s.writer.WCopying? ==> HasCopied(s.buffer, s.k, |s.input|, s.writer.data, s.writer.copied))
    && (s.reader.RCopying? ==> forall i: nat :: i < |s.reader.got| && i in s.reader.copied ==>
          s.reader.got[i] == s.input[|s.output| + i])
  }

  ghost predicate Invariant(s: State) {
    && IndicesAgree(s) && BytesAgree(s)
    && s.output <= s.input
  }

  lemma CopySlotIsSlot(n: nat, i: nat, k: nat)
    requires k <= 31 && i < Pow2(k)
    ensures CopySlot(Wrap(n), i, k) == Slot(n + i, k) < Pow2(k)
  {
    MaskIsSlot(n, k);
    SlotPlus(n, i, k);
  }

  lemma StaysInBuffer(s: State)
    requires IndicesAgree(s)
    ensures InBuffer(s)
  {
    hide Pow2, CopySlot, Slot;
    if s.writer.WCopying? {
      forall i: nat | i < |s.writer.data|
        ensures 0 <= CopySlot(s.in_, i, s.k) < |s.buffer|
      {
        CopySlotIsSlot(|s.input|, i, s.k);
      }
    }
    if s.reader.RCopying? {
      forall i: nat | i < |s.reader.got|
        ensures 0 <= CopySlot(s.out, i, s.k) < |s.buffer|
      {
        CopySlotIsSlot(|s.output|, i, s.k);
      }
    }
  }

  /** The slots that a writer and a reader touch at the same time are apart. */
  lemma CopiesDoNotOverlap(s: State, i: nat, j: nat)
    requires IndicesAgree(s) && s.writer.WCopying? && s.reader.RCopying?
    requires i < |s.writer.data| && j < |s.reader.got|
    ensures CopySlot(s.in_, i, s.k) != CopySlot(s.out, j, s.k)
  {
    hide Pow2, CopySlot, Slot;
    CopySlotIsSlot(|s.input|, i, s.k);
    CopySlotIsSlot(|s.output|, j, s.k);
    SlotsApart(|s.output| + j, |s.input| + i, s.k);
  }

  lemma SlotsApart(a: nat, b: nat, k: nat)
    requires a < b < a + Pow2(k)
    ensures Slot(a, k) != Slot(b, k)
  {
    LowDistinct(a, b, k);
  }

  lemma IndicesKept(s: State, step: Step)
    requires Invariant(s) && Enabled(s, step) && InBuffer(s)
    ensures IndicesAgree(Apply(s, step))
  {
    hide Pow2, CopySlot, Slot, Used, Free, Wrap;
    SizeBound(s.k);
    AmountsAreRight(|s.input|, |s.output|, Pow2(s.k));
    if step.WriterPublishes? {
      WrapAdd(|s.input|, |s.writer.data|);
    } else if step.ReaderPublishes? {
      WrapAdd(|s.output|, |s.reader.got|);
    }
  }

  /** Copying one more byte spares the bytes that are there and those copied
      before. */
  lemma OneMoreByte(b: seq<byte>, k: nat, input: seq<byte>, from: nat, data: seq<byte>, copied: set<nat>, i: nat)
    requires Holds(b, k, input, from) && HasCopied(b, k, |input|, data, copied)
    requires i < |data| && from <= |input| && |input| + |data| <= from + Pow2(k) && Slot(|input| + i, k) < |b|
    ensures var b' := b[Slot(|input| + i, k) := data[i]];
      Holds(b', k, input, from) && HasCopied(b', k, |input|, data, copied + {i})
  {
    hide Pow2, Slot;
    var at := |input| + i;
    var b' := b[Slot(at, k) := data[i]];
    forall n: nat | from <= n < |input|
      ensures Slot(n, k) < |b'| && b'[Slot(n, k)] == input[n]
    {
      SlotsApart(n, at, k);
    }
    forall j: nat | j < |data| && j in copied + {i}
      ensures Slot(|input| + j, k) < |b'| && b'[Slot(|input| + j, k)] == data[j]
    {
      if j < i {
        SlotsApart(|input| + j, at, k);
      } else if j > i {
        SlotsApart(at, |input| + j, k);
      }
    }
  }

  lemma WriterCopyKeepsBytes(s: State, i: nat)
    requires Invariant(s) && Enabled(s, WriterCopies(i)) && InBuffer(s) && IndicesAgree(Apply(s, WriterCopies(i)))
    ensures BytesAgree(Apply(s, WriterCopies(i)))
  {
    CopySlotIsSlot(|s.input|, i, s.k);
    OneMoreByte(s.buffer, s.k, s.input, |s.output|, s.writer.data, s.writer.copied, i);
    hide Pow2, CopySlot, Slot, Wrap, Used, Free, Holds, HasCopied, InBuffer;
  }

  /** What all has been copied when the writer publishes. */
  lemma AllCopied(b: seq<byte>, k: nat, input: seq<byte>, from: nat, data: seq<byte>, copied: set<nat>)
    requires Holds(b, k, input, from) && HasCopied(b, k, |input|, data, copied)
    requires forall i :: 0 <= i < |data| ==> i in copied
    ensures Holds(b, k, input + data, from)
  {
    hide Slot;
    forall n: nat | from <= n < |input + data|
      ensures Slot(n, k) < |b| && b[Slot(n, k)] == (input + data)[n]
    {
      if n >= |input| {
        var i := n - |input|;
        assert i in copied && |input| + i == n;
      }
    }
  }

  lemma BytesKept(s: State, step: Step)
    requires Invariant(s) && Enabled(s, step) && InBuffer(s) && IndicesAgree(Apply(s, step))
    ensures BytesAgree(Apply(s, step))
  {
    hide Pow2, CopySlot, Slot, Wrap, Used, Free;
    if step.WriterCopies? {
      WriterCopyKeepsBytes(s, step.i);
    } else if step.WriterPublishes? {
      AllCopied(s.buffer, s.k, s.input, |s.output|, s.writer.data, s.writer.copied);
    } else if step.ReaderCopies? {
      CopySlotIsSlot(|s.output|, step.i, s.k);
    }
  }

  lemma InvariantKept(s: State, step: Step)
    requires Invariant(s) && Enabled(s, step)
    ensures InBuffer(s) && Invariant(Apply(s, step))
  {
    hide Pow2, CopySlot, Slot, Wrap, Used, Free;
    StaysInBuffer(s);
    IndicesKept(s, step);
    BytesKept(s, step);
    if step.ReaderPublishes? {
      var got := s.reader.got;
      assert forall i :: 0 <= i < |got| ==> got[i] == s.input[|s.output| + i];
      assert s.output + got == s.input[..|s.output| + |got|];
    }
  }

  /** The writer takes all bytes for which there is room, the reader all that it
      wants and that are there; both as of the moment when they look. */
  lemma StartsTakeAll(s: State, data: seq<byte>, wanted: nat)
    requires Invariant(s) && InBuffer(s)
    ensures s.writer.WIdle? ==>
      var room, d := Pow2(s.k) - (|s.input| - |s.output|), Apply(s, WriterStarts(data)).writer.data;
      d == if |data| <= room then data else data[..room]
    ensures s.reader.RIdle? ==>
      var there, got := |s.input| - |s.output|, Apply(s, ReaderStarts(wanted)).reader.got;
      |got| == if wanted <= there then wanted else there
  {
    SizeBound(s.k);
    AmountsAreRight(|s.input|, |s.output|, Pow2(s.k));
    hide BytesAgree, Pow2, Used, Free, Wrap;
  }

  /** Publishing adds to what has been written and read just what was copied. */
  lemma PublishingAdds(s: State)
    requires InBuffer(s)
    ensures Enabled(s, WriterPublishes) ==>
      Apply(s, WriterPublishes).input == s.input + s.writer.data && Apply(s, WriterPublishes).output == s.output
    ensures Enabled(s, ReaderPublishes) ==>
      Apply(s, ReaderPublishes).output == s.output + s.reader.got && Apply(s, ReaderPublishes).input == s.input
  {
  }

  // ----- Whole runs ------------------------------------------------------------------

  ghost predicate IsRun(s: State, steps: seq<Step>)
    decreases |steps|
  {
    InBuffer(s) && (steps != [] ==> Enabled(s, steps[0]) && IsRun(Apply(s, steps[0]), steps[1..]))
  }

  ghost function RunFrom(s: State, steps: seq<Step>): State
    requires IsRun(s, steps)
    decreases |steps|
  {
    if steps == [] then s else RunFrom(Apply(s, steps[0]), steps[1..])
  }

  /** A new queue, of any size that `queue_alloc` gives. */
  ghost predicate Initial(s: State) {
    && s.k <= 31 && |s.buffer| == Pow2(s.k) && s.in_ == 0 && s.out == 0
    && s.writer == WIdle && s.reader == RIdle && s.input == [] && s.output == []
  }

  lemma {:induction false} EveryRunKeepsInvariant(s: State, steps: seq<Step>)
    requires Invariant(s) && IsRun(s, steps)
    ensures Invariant(RunFrom(s, steps))
    decreases |steps|
  {
    if steps != [] {
      hide IndicesAgree, BytesAgree, Enabled, Apply, InBuffer;
      InvariantKept(s, steps[0]);
      EveryRunKeepsInvariant(Apply(s, steps[0]), steps[1..]);
    }
  }

  /** In every run the bytes read are a prefix of the bytes written, and what is
      missing fits the buffer. */
  lemma ReadsPrefixOfWrites(s: State, steps: seq<Step>)
    requires Initial(s) && IsRun(s, steps)
    ensures var r := RunFrom(s, steps);
      r.output <= r.input && |r.input| - |r.output| <= Pow2(s.k)
  {
    EveryRunKeepsInvariant(s, steps);
    SizeStays(s, steps);
  }

  lemma {:induction false} SizeStays(s: State, steps: seq<Step>)
    requires IsRun(s, steps)
    ensures RunFrom(s, steps).k == s.k
    decreases |steps|
  {
    if steps != [] {
      SizeStays(Apply(s, steps[0]), steps[1..]);
    }
  }
}
