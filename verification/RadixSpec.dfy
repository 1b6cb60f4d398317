/** The radix pass of the directory sort as a recursive function, and what that
    function achieves. */
module RadixSpec {
  import opened Bits
  import opened Dirents

  /** Selectors are memory bit numbers, so that bytes and masks exist. */
  predicate Readable(bits: seq<nat>) {
    forall i :: 0 <= i < |bits| ==> bits[i] < 128
  }

  /** The test that one partitioning step splits on. */
  function Ones(sel: nat): Dirent -> bool
    requires sel < 128
  {
    e => TestBit(e, sel)
  }

  /** Split `w[a..b]` on one test, walking in from both ends; also gives the
      index at which the ones start. */
  function Partition(w: seq<Dirent>, a: nat, b: nat, one: Dirent -> bool): (r: (seq<Dirent>, nat))
    requires a <= b <= |w|
    ensures |r.0| == |w| && a <= r.1 <= b
    decreases b - a
  {
    if a == b then (w, a)
    else if !one(w[a]) then Partition(w, a + 1, b, one)
    else if !one(w[b - 1]) then Partition(w[a := w[b - 1]][b - 1 := w[a]], a + 1, b - 1, one)
    else Partition(w, a, b - 1, one)
  }

  /** MSD radix partitioning of `w[lo..hi]` on the selectors `bits[1..n+1]`,
      the last of them first, leaving alone what is below the cutoff. */
  function Radix(w: seq<Dirent>, lo: nat, hi: nat, bits: seq<nat>, n: nat): (r: seq<Dirent>)
    requires lo <= hi <= |w| && n < |bits| && Readable(bits)
    ensures |r| == |w|
    decreases n
  {
    if hi - lo < SORT_CUTOFF || n == 0 then w
    else
      var (w', m) := Partition(w, lo, hi, Ones(bits[n]));
      Radix(Radix(w', lo, m, bits, n - 1), m, hi, bits, n - 1)
  }

  // ----- Frames, permutation and element-wise properties --------------------

  /** `r` differs from `w` only inside `lo..hi`. */
  ghost predicate SameOutside(w: seq<Dirent>, r: seq<Dirent>, lo: nat, hi: nat) {
    |r| == |w| && forall i :: 0 <= i < |w| && !(lo <= i < hi) ==> r[i] == w[i]
  }

  ghost predicate AllIn(w: seq<Dirent>, lo: nat, hi: nat, p: Dirent -> bool)
    requires hi <= |w|
  {
    forall i :: lo <= i < hi ==> p(w[i])
  }

  lemma SwapPermutes(w: seq<Dirent>, i: nat, j: nat)
    requires i < j < |w|
    ensures multiset(w[i := w[j]][j := w[i]]) == multiset(w)
  {
  }

  lemma {:induction false} PartitionFrame(w: seq<Dirent>, a: nat, b: nat, one: Dirent -> bool)
    requires a <= b <= |w|
    ensures SameOutside(w, Partition(w, a, b, one).0, a, b)
    decreases b - a
  {
    if a < b {
      if !one(w[a]) {
        PartitionFrame(w, a + 1, b, one);
      } else if !one(w[b - 1]) {
        PartitionFrame(w[a := w[b - 1]][b - 1 := w[a]], a + 1, b - 1, one);
      } else {
        PartitionFrame(w, a, b - 1, one);
      }
    }
  }

  /** One turn of the partitioning. */
  lemma PartitionTurn(w: seq<Dirent>, a: nat, b: nat, one: Dirent -> bool)
    requires a < b <= |w|
    ensures !one(w[a]) ==> Partition(w, a, b, one) == Partition(w, a + 1, b, one)
    ensures one(w[a]) && one(w[b - 1]) ==> Partition(w, a, b, one) == Partition(w, a, b - 1, one)
    ensures one(w[a]) && !one(w[b - 1]) ==>
      a < b - 1 && Partition(w, a, b, one) == Partition(w[a := w[b - 1]][b - 1 := w[a]], a + 1, b - 1, one)
  {
  }

  lemma {:induction false} PartitionPermutes(w: seq<Dirent>, a: nat, b: nat, one: Dirent -> bool)
    requires a <= b <= |w|
    ensures multiset(Partition(w, a, b, one).0) == multiset(w)
    decreases b - a
  {
    if a < b {
      PartitionTurn(w, a, b, one);
      hide Partition;
      if !one(w[a]) {
        PartitionPermutes(w, a + 1, b, one);
      } else if !one(w[b - 1]) {
        var w' := w[a := w[b - 1]][b - 1 := w[a]];
        SwapPermutes(w, a, b - 1);
        PartitionPermutes(w', a + 1, b - 1, one);
      } else {
        PartitionPermutes(w, a, b - 1, one);
      }
    }
  }

  lemma {:induction false} PartitionKeeps(w: seq<Dirent>, a: nat, b: nat, one: Dirent -> bool, p: Dirent -> bool)
    requires a <= b <= |w|
    requires AllIn(w, a, b, p)
    ensures AllIn(Partition(w, a, b, one).0, a, b, p)
    decreases b - a
  {
    if a < b {
      if !one(w[a]) {
        PartitionKeeps(w, a + 1, b, one, p);
        PartitionFrame(w, a + 1, b, one);
      } else if !one(w[b - 1]) {
        var w' := w[a := w[b - 1]][b - 1 := w[a]];
        PartitionKeeps(w', a + 1, b - 1, one, p);
        PartitionFrame(w', a + 1, b - 1, one);
      } else {
        PartitionKeeps(w, a, b - 1, one, p);
        PartitionFrame(w, a, b - 1, one);
      }
    }
  }

  ghost predicate Split(r: seq<Dirent>, a: nat, m: nat, b: nat, one: Dirent -> bool)
    requires a <= m <= b <= |r|
  {
    forall i :: a <= i < b ==> (one(r[i]) <==> m <= i)
  }

  /** Zeros end up in front of ones. */
  lemma {:induction false} PartitionSplits(w: seq<Dirent>, a: nat, b: nat, one: Dirent -> bool)
    requires a <= b <= |w|
    ensures Split(Partition(w, a, b, one).0, a, Partition(w, a, b, one).1, b, one)
    decreases b - a
  {
    if a < b {
      if !one(w[a]) {
        PartitionSplits(w, a + 1, b, one);
        PartitionFrame(w, a + 1, b, one);
      } else if !one(w[b - 1]) {
        var w' := w[a := w[b - 1]][b - 1 := w[a]];
        PartitionSplits(w', a + 1, b - 1, one);
        PartitionFrame(w', a + 1, b - 1, one);
      } else {
        PartitionSplits(w, a, b - 1, one);
        PartitionFrame(w, a, b - 1, one);
      }
    }
  }

  lemma {:induction false} RadixFrame(w: seq<Dirent>, lo: nat, hi: nat, bits: seq<nat>, n: nat)
    requires lo <= hi <= |w| && n < |bits| && Readable(bits)
    ensures SameOutside(w, Radix(w, lo, hi, bits, n), lo, hi)
    decreases n
  {
    if hi - lo >= SORT_CUTOFF && n > 0 {
      var (w', m) := Partition(w, lo, hi, Ones(bits[n]));
      PartitionFrame(w, lo, hi, Ones(bits[n]));
      RadixFrame(w', lo, m, bits, n - 1);
      RadixFrame(Radix(w', lo, m, bits, n - 1), m, hi, bits, n - 1);
    }
  }

  lemma {:induction false} RadixPermutes(w: seq<Dirent>, lo: nat, hi: nat, bits: seq<nat>, n: nat)
    requires lo <= hi <= |w| && n < |bits| && Readable(bits)
    ensures multiset(Radix(w, lo, hi, bits, n)) == multiset(w)
    decreases n
  {
    if hi - lo >= SORT_CUTOFF && n > 0 {
      var (w', m) := Partition(w, lo, hi, Ones(bits[n]));
      PartitionPermutes(w, lo, hi, Ones(bits[n]));
      RadixPermutes(w', lo, m, bits, n - 1);
      RadixPermutes(Radix(w', lo, m, bits, n - 1), m, hi, bits, n - 1);
    }
  }

  lemma {:induction false} RadixKeeps(w: seq<Dirent>, lo: nat, hi: nat, bits: seq<nat>, n: nat, p: Dirent -> bool)
    requires lo <= hi <= |w| && n < |bits| && Readable(bits)
    requires AllIn(w, lo, hi, p)
    ensures AllIn(Radix(w, lo, hi, bits, n), lo, hi, p)
    decreases n
  {
    if hi - lo >= SORT_CUTOFF && n > 0 {
      var (w', m) := Partition(w, lo, hi, Ones(bits[n]));
      PartitionKeeps(w, lo, hi, Ones(bits[n]), p);
      RadixKeeps(w', lo, m, bits, n - 1, p);
      RadixFrame(w', lo, m, bits, n - 1);
      var w'' := Radix(w', lo, m, bits, n - 1);
      RadixKeeps(w'', m, hi, bits, n - 1, p);
      RadixFrame(w'', m, hi, bits, n - 1);
    }
  }

  // ----- Pieces --------------------------------------------------------------

  /** Element `i` belongs to the piece that starts at `st[i]`: the piece is
      shorter than the cutoff or has one key, and all before it is smaller. */
  ghost predicate PieceAt(w: seq<Dirent>, st: seq<nat>, lo: nat, i: nat)
    requires |st| == |w| && i < |w|
  {
    && lo <= st[i] <= i
    && (st[i] == i || st[i] == st[i - 1])
    && (forall k :: lo <= k < st[i] ==> Key(w[k]) < Key(w[i]))
    && (i - st[i] > SORT_CUTOFF - 2 ==> forall k :: st[i] <= k <= i ==> Key(w[k]) == Key(w[i]))
  }

  /** `w[lo..hi]` is cut into consecutive pieces, each shorter than the cutoff
      or of one key throughout, with keys growing strictly from piece to piece. */
  ghost predicate Pieces(w: seq<Dirent>, st: seq<nat>, lo: nat, hi: nat)
    requires hi <= |w|
  {
    |st| == |w| && forall i :: lo <= i < hi ==> PieceAt(w, st, lo, i)
  }

  /** All keys of `w[lo..hi]` are `q` once the digits below `p` are dropped. */
  ghost predicate Prefixed(w: seq<Dirent>, lo: nat, hi: nat, p: nat, q: nat)
    requires hi <= |w|
  {
    forall i :: lo <= i < hi ==> Shr(Key(w[i]), p) == q
  }

  /** `e` agrees with key `z` on the digits that the table leaves out. */
  ghost predicate Fits(e: Dirent, bits: seq<nat>, z: nat)
    requires SelectorTable(bits)
  {
    Scored(e) && forall p: nat :: p < 72 && !Selected(bits, p) ==> (Bit(Key(e), p) <==> Bit(z, p))
  }

  ghost predicate AllFit(w: seq<Dirent>, lo: nat, hi: nat, bits: seq<nat>, z: nat)
    requires hi <= |w| && SelectorTable(bits)
  {
    forall i :: lo <= i < hi ==> Fits(w[i], bits, z)
  }

  /** One above the most significant digit that `bits[1..n+1]` select. */
  ghost function Top(bits: seq<nat>, n: nat): nat
    requires SelectorTable(bits) && n < |bits|
  {
    if n == 0 then 0 else Position(bits[n]) + 1
  }

  /** Digits between two consecutive selectors are the same in all keys. */
  lemma SkipUnselected(w: seq<Dirent>, lo: nat, hi: nat, bits: seq<nat>, n: nat, p: nat, z: nat, q: nat)
    returns (q': nat)
    requires lo <= hi <= |w| && SelectorTable(bits) && n < |bits|
    requires Top(bits, n) <= p <= 72
    requires n + 1 < |bits| ==> p <= Position(bits[n + 1])
    requires AllFit(w, lo, hi, bits, z) && Prefixed(w, lo, hi, p, q)
    ensures Prefixed(w, lo, hi, Top(bits, n), q')
  {
    q' := if lo < hi then Shr(Key(w[lo]), Top(bits, n)) else 0;
    forall i | lo <= i < hi
      ensures Shr(Key(w[i]), Top(bits, n)) == q'
    {
      forall k: nat | Top(bits, n) <= k < p
        ensures Bit(Key(w[i]), k) <==> Bit(Key(w[lo]), k)
      {
        assert !Selected(bits, k);
        assert Fits(w[i], bits, z) && Fits(w[lo], bits, z);
      }
      AgreeDown(Key(w[i]), Key(w[lo]), Top(bits, n), p);
    }
  }

  /** What one partitioning step leaves: both halves fit, and the split digit
      separates them. */
  lemma PartitionPrefixes(w: seq<Dirent>, lo: nat, hi: nat, bits: seq<nat>, n: nat, z: nat, q: nat)
    requires lo <= hi <= |w| && SelectorTable(bits) && Readable(bits) && 1 <= n < |bits|
    requires AllFit(w, lo, hi, bits, z) && Prefixed(w, lo, hi, Top(bits, n), q)
    ensures var (w', m) := Partition(w, lo, hi, Ones(bits[n]));
      && AllFit(w', lo, hi, bits, z)
      && Prefixed(w', lo, m, Position(bits[n]), 2 * q)
      && Prefixed(w', m, hi, Position(bits[n]), 2 * q + 1)
  {
    var (w', m) := Partition(w, lo, hi, Ones(bits[n]));
    var p: Dirent -> bool := e => Fits(e, bits, z) && Shr(Key(e), Top(bits, n)) == q;
    PartitionKeeps(w, lo, hi, Ones(bits[n]), p);
    PartitionSplits(w, lo, hi, Ones(bits[n]));
    forall i | lo <= i < hi
      ensures Fits(w'[i], bits, z)
      ensures Shr(Key(w'[i]), Position(bits[n])) == 2 * q + if i < m then 0 else 1
    {
      assert p(w'[i]);
      assert TestBit(w'[i], bits[n]) <==> i >= m;
      SelectorReadsKey(w'[i], bits[n]);
      ShrStep(Key(w'[i]), Position(bits[n]));
    }
  }

  /** Radix partitioning keeps what all keys of the segment have in common. */
  lemma RadixPrefixes(w: seq<Dirent>, lo: nat, hi: nat, bits: seq<nat>, n: nat, z: nat, p: nat, q: nat)
    requires lo <= hi <= |w| && SelectorTable(bits) && Readable(bits) && n < |bits|
    requires AllFit(w, lo, hi, bits, z) && Prefixed(w, lo, hi, p, q)
    ensures var r := Radix(w, lo, hi, bits, n);
      AllFit(r, lo, hi, bits, z) && Prefixed(r, lo, hi, p, q)
  {
    var r := Radix(w, lo, hi, bits, n);
    var prop: Dirent -> bool := e => Fits(e, bits, z) && Shr(Key(e), p) == q;
    RadixKeeps(w, lo, hi, bits, n, prop);
    assert forall i :: lo <= i < hi ==> prop(r[i]);
  }

  /** A segment on which every key digit is settled has a single key. */
  lemma SettledPiece(w: seq<Dirent>, lo: nat, hi: nat, q: nat) returns (st: seq<nat>)
    requires lo <= hi <= |w| && Prefixed(w, lo, hi, 0, q)
    ensures Pieces(w, st, lo, hi)
  {
    st := seq(|w|, i => lo);
    assert forall i :: lo <= i < hi ==> Shr(Key(w[i]), 0) == Key(w[i]);
  }

  lemma SmallPiece(w: seq<Dirent>, lo: nat, hi: nat) returns (st: seq<nat>)
    requires lo <= hi <= |w| && hi - lo < SORT_CUTOFF
    ensures Pieces(w, st, lo, hi)
  {
    st := seq(|w|, i => lo);
  }

  /** Pieces of two adjoining segments, all of whose keys are ordered, are
      pieces of the whole. */
  lemma JoinPieces(w: seq<Dirent>, l: seq<nat>, r: seq<nat>, lo: nat, m: nat, hi: nat) returns (st: seq<nat>)
    requires lo <= m <= hi <= |w|
    requires Pieces(w, l, lo, m) && Pieces(w, r, m, hi)
    requires forall i, j :: lo <= i < m <= j < hi ==> Key(w[i]) < Key(w[j])
    ensures Pieces(w, st, lo, hi)
  {
    st := seq(|w|, i requires 0 <= i < |w| => if i < m then l[i] else r[i]);
    forall i | lo <= i < hi
      ensures PieceAt(w, st, lo, i)
    {
      if i < m {
        assert PieceAt(w, l, lo, i);
      } else {
        assert PieceAt(w, r, m, i);
      }
    }
  }

  lemma PiecesElsewhere(w: seq<Dirent>, r: seq<Dirent>, st: seq<nat>, lo: nat, hi: nat)
    requires hi <= |w| == |r| && Pieces(w, st, lo, hi)
    requires forall i :: lo <= i < hi ==> r[i] == w[i]
    ensures Pieces(r, st, lo, hi)
  {
    forall i | lo <= i < hi
      ensures PieceAt(r, st, lo, i)
    {
      assert PieceAt(w, st, lo, i);
    }
  }

  /** Pieces of the two halves of a split, the lower one sorted first. */
  lemma JoinHalves(w2: seq<Dirent>, w3: seq<Dirent>, l: seq<nat>, r: seq<nat>, lo: nat, m: nat, hi: nat, p: nat, q: nat)
    returns (st: seq<nat>)
    requires lo <= m <= hi <= |w2| && SameOutside(w2, w3, m, hi)
    requires Pieces(w2, l, lo, m) && Pieces(w3, r, m, hi)
    requires Prefixed(w2, lo, m, p, 2 * q) && Prefixed(w3, m, hi, p, 2 * q + 1)
    ensures Pieces(w3, st, lo, hi)
  {
    PiecesElsewhere(w2, w3, l, lo, m);
    forall i, j | lo <= i < m <= j < hi
      ensures Key(w3[i]) < Key(w3[j])
    {
      assert Shr(Key(w2[i]), p) == 2 * q;
      assert Shr(Key(w3[j]), p) == 2 * q + 1;
      ShiftOrders(Key(w3[i]), Key(w3[j]), p);
    }
    st := JoinPieces(w3, l, r, lo, m, hi);
  }

  /** The radix pass leaves pieces. */
  lemma {:induction false} RadixPieces(w: seq<Dirent>, lo: nat, hi: nat, bits: seq<nat>, n: nat, z: nat, q: nat)
    returns (st: seq<nat>)
    requires lo <= hi <= |w| && SelectorTable(bits) && Readable(bits) && n < |bits|
    requires AllFit(w, lo, hi, bits, z) && Prefixed(w, lo, hi, Top(bits, n), q)
    ensures Pieces(Radix(w, lo, hi, bits, n), st, lo, hi)
    decreases n, 0
  {
    if hi - lo < SORT_CUTOFF {
      st := SmallPiece(w, lo, hi);
    } else if n == 0 {
      st := SettledPiece(w, lo, hi, q);
    } else {
      var (w1, m) := Partition(w, lo, hi, Ones(bits[n]));
      var p := Position(bits[n]);
      PartitionPrefixes(w, lo, hi, bits, n, z, q);
      var w2, l := HalfPieces(w1, lo, m, bits, n, z, 2 * q);
      var w3, r := HalfPieces(w2, m, hi, bits, n, z, 2 * q + 1);
      st := JoinHalves(w2, w3, l, r, lo, m, hi, p, q);
    }
  }

  /** One half of a split: the selector above it is used up. */
  lemma {:induction false} HalfPieces(w: seq<Dirent>, lo: nat, hi: nat, bits: seq<nat>, n: nat, z: nat, q: nat)
    returns (r: seq<Dirent>, st: seq<nat>)
    requires lo <= hi <= |w| && SelectorTable(bits) && Readable(bits) && 1 <= n < |bits|
    requires AllFit(w, lo, hi, bits, z) && Prefixed(w, lo, hi, Position(bits[n]), q)
    ensures r == Radix(w, lo, hi, bits, n - 1)
    ensures SameOutside(w, r, lo, hi)
    ensures AllFit(r, lo, hi, bits, z) && Prefixed(r, lo, hi, Position(bits[n]), q)
    ensures Pieces(r, st, lo, hi)
    decreases n - 1, 1
  {
    r := Radix(w, lo, hi, bits, n - 1);
    RadixFrame(w, lo, hi, bits, n - 1);
    RadixPrefixes(w, lo, hi, bits, n - 1, z, Position(bits[n]), q);
    var q' := SkipUnselected(w, lo, hi, bits, n - 1, Position(bits[n]), z, q);
    st := RadixPieces(w, lo, hi, bits, n - 1, z, q');
  }
}
