/** Notions that several components share: C's integer widths and conversions, the
    priorities, changes of one element of a sequence, and copying. */
module Basics {

  datatype Option<+T> = None | Some(value: T)

  type byte = bv8

  /** One more than the largest `unsigned int`. */
  const WORD := 0x1_0000_0000

  const INT_LIMIT := 0x8000_0000

  /** The values of a C `int`. */
  type int32 = x: int | -INT_LIMIT <= x < INT_LIMIT

  predicate FitsInt(x: int) {
    -INT_LIMIT <= x < INT_LIMIT
  }

  /** Priorities of requests. */
  const PRI_MIN := -4
  const PRI_MAX := 4
  const NUM_PRI := PRI_MAX - PRI_MIN + 1

  /** Conversion of an unsigned value to `int`. */
  function Signed(x: nat): (r: int)
    ensures -INT_LIMIT <= r < INT_LIMIT
  {
    if x % WORD < INT_LIMIT then x % WORD else x % WORD - WORD
  }

  /** Conversion of an `int` or a `long` to `size_t`. */
  function AsSize(x: int): nat {
    x % 0x1_0000_0000_0000_0000
  }

  /** Conversion of an `int` to `signed char`. */
  function SignedChar(x: int): int {
    (x + 128) % 256 - 128
  }

  function Min(a: nat, b: nat): (r: nat)
    ensures r <= a && r <= b && (r == a || r == b)
  {
    if a < b then a else b
  }

  function InsertAt<T>(s: seq<T>, k: nat, x: T): seq<T>
    requires k <= |s|
  {
    s[..k] + [x] + s[k..]
  }

  function Without<T>(s: seq<T>, k: nat): seq<T>
    requires k < |s|
  {
    s[..k] + s[k + 1..]
  }

  lemma InsertAtMovesUp<T>(s: seq<T>, k: nat, x: T, i: nat)
    requires k <= |s| && i <= |s|
    ensures |InsertAt(s, k, x)| == |s| + 1
    ensures InsertAt(s, k, x)[i] == if i < k then s[i] else if i == k then x else s[i - 1]
  {
  }

  lemma WithoutMovesDown<T>(s: seq<T>, k: nat, i: nat)
    requires k < |s| && i < |s| - 1
    ensures |Without(s, k)| == |s| - 1
    ensures Without(s, k)[i] == if i < k then s[i] else s[i + 1]
  {
  }

  /** `memcpy` of a block that does not overlap its target. */
  method CopyIn<T>(buf: array<T>, dst: nat, s: seq<T>)
    requires dst + |s| <= buf.Length
    modifies buf
    ensures buf[dst..dst + |s|] == s
    ensures forall k :: 0 <= k < buf.Length && !(dst <= k < dst + |s|) ==> buf[k] == old(buf[k])
  {
    forall k | 0 <= k < |s| {
      buf[dst + k] := s[k];
    }
  }
}
