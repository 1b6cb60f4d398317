/** Directory entries, their comparison, and the key bits that the radix pass
    reads out of their memory image (libeio/eio.c). */
module Dirents {
  import opened Basics
  import opened Bits

  /** `eio_ino_t` on a 64-bit system. */
  type Ino = x: nat | x < 0x1_0000_0000_0000_0000

  /** `struct eio_dirent`; `score` is a signed char. */
  datatype Dirent = Dirent(nameofs: nat, namelen: nat, dtype: nat, score: int, inode: Ino)

  const SORT_CUTOFF := 30
  const SORT_FAST := 60

  function DentCmp(a: Dirent, b: Dirent): int {
    if a.score - b.score != 0 then SignedChar(a.score - b.score)
    else if a.inode < b.inode then -1
    else if a.inode > b.inode then 1
    else 0
  }

  /** Scores of directory entries are non-negative signed chars. */
  predicate Scored(e: Dirent) {
    0 <= e.score < 0x80
  }

  ghost predicate AllScored(w: seq<Dirent>, n: nat)
    requires n <= |w|
  {
    forall i :: 0 <= i < n ==> Scored(w[i])
  }

  /** The number whose binary digits the radix pass sorts on: the score above
      the inode. */
  function Key(e: Dirent): nat {
    if e.score < 0 then 0 else Join(e.score, e.inode, 64)
  }

  /** `eio_dent_cmp` is the order of the keys. */
  lemma DentCmpIsKeyOrder(a: Dirent, b: Dirent)
    requires Scored(a) && Scored(b)
    ensures DentCmp(a, b) < 0 <==> Key(a) < Key(b)
    ensures DentCmp(a, b) > 0 <==> Key(a) > Key(b)
    ensures DentCmp(a, b) == 0 <==> Key(a) == Key(b)
  {
    Pow2Word();
    JoinOrder(a.score, a.inode, b.score, b.inode, 64);
    JoinOrder(b.score, b.inode, a.score, a.inode, 64);
  }

  /** That is, by score, and by inode for entries of one score. */
  lemma KeyOrder(a: Dirent, b: Dirent)
    requires Scored(a) && Scored(b)
    ensures Key(a) <= Key(b) <==> a.score < b.score || (a.score == b.score && a.inode <= b.inode)
  {
    Pow2Word();
    JoinOrder(a.score, a.inode, b.score, b.inode, 64);
    JoinOrder(b.score, b.inode, a.score, a.inode, 64);
  }

  lemma KeyBound(e: Dirent)
    requires Scored(e)
    ensures Key(e) < Pow2(72)
  {
    assert Pow2(7) == 128;
    JoinBound(e.score, e.inode, 64, 8);
  }

  // ----- Key bits ---------------------------------------------------------

  /** Byte `o` of an entry in memory: nameofs in bytes 0-3, namelen in 4-5,
      type in 6, score in 7 and a little-endian inode in 8-15. */
  function ByteAt(e: Dirent, o: nat): nat
    requires o < 16
  {
    if o < 4 then Low(Shr(e.nameofs, 8 * o), 8)
    else if o < 6 then Low(Shr(e.namelen, 8 * (o - 4)), 8)
    else if o == 6 then Low(e.dtype, 8)
    else if o == 7 then e.score % 256
    else Low(Shr(e.inode, 8 * (o - 8)), 8)
  }

  const SCORE_OFFSET := 7
  const INODE_OFFSET := 8

  /** `((unsigned char *)e)[sel >> 3] & (1 << (sel & 7))`. */
  predicate TestBit(e: Dirent, sel: nat)
    requires sel < 128
  {
    Bit(ByteAt(e, sel / 8), sel % 8)
  }

  /** The digit of the key that a bit selector reads. */
  function Position(sel: nat): nat
    requires IsSelector(sel)
  {
    if sel >= 64 then sel - 64 else sel + 8
  }

  predicate IsSelector(sel: nat) {
    8 * SCORE_OFFSET <= sel < 128
  }

  /** A selector tests exactly one digit of the key. */
  lemma SelectorReadsKey(e: Dirent, sel: nat)
    requires IsSelector(sel) && Scored(e)
    ensures TestBit(e, sel) <==> Bit(Key(e), Position(sel))
  {
    JoinBit(e.score, e.inode, 64, Position(sel));
    if sel >= 64 {
      ByteBit(e.inode, sel / 8 - 8, sel % 8);
    }
  }

  // ----- The table of key bits --------------------------------------------

  function InodeSelectors(inodeBits: nat, n: nat): seq<nat> {
    if n == 0 then []
    else InodeSelectors(inodeBits, n - 1) + if Bit(inodeBits, n - 1) then [8 * INODE_OFFSET + (n - 1)] else []
  }

  function ScoreSelectors(scoreBits: nat, n: nat): seq<nat> {
    if n == 0 then []
    else ScoreSelectors(scoreBits, n - 1) + if Bit(scoreBits, n - 1) then [8 * SCORE_OFFSET + (n - 1)] else []
  }

  /** The table that the radix pass builds: a 0 sentinel, then one selector for
      each set bit, the least significant first. */
  function KeyBits(scoreBits: nat, inodeBits: nat): seq<nat> {
    [0] + InodeSelectors(inodeBits, 64) + ScoreSelectors(scoreBits, 8)
  }

  /** Above the sentinel, selectors in order of significance. */
  ghost predicate SelectorTable(bits: seq<nat>) {
    && |bits| > 0
    && (forall i :: 1 <= i < |bits| ==> IsSelector(bits[i]))
    && (forall i, j :: 1 <= i < j < |bits| ==> Position(bits[i]) < Position(bits[j]))
  }

  ghost predicate Selected(bits: seq<nat>, pos: nat)
    requires SelectorTable(bits)
  {
    exists i :: 1 <= i < |bits| && Position(bits[i]) == pos
  }

  lemma {:induction false} InodeSelectorsSpec(x: nat, n: nat)
    requires n <= 64
    ensures var s := InodeSelectors(x, n);
      && |s| <= n
      && (forall i :: 0 <= i < |s| ==> 64 <= s[i] < 64 + n)
      && (forall i, j :: 0 <= i < j < |s| ==> s[i] < s[j])
      && (forall k: nat | k < n :: 64 + k in s <==> Bit(x, k))
  {
    if n > 0 {
      InodeSelectorsSpec(x, n - 1);
    }
  }

  lemma {:induction false} ScoreSelectorsSpec(x: nat, n: nat)
    requires n <= 8
    ensures var s := ScoreSelectors(x, n);
      && |s| <= n
      && (forall i :: 0 <= i < |s| ==> 56 <= s[i] < 56 + n)
      && (forall i, j :: 0 <= i < j < |s| ==> s[i] < s[j])
      && (forall k: nat | k < n :: 56 + k in s <==> Bit(x, k))
  {
    if n > 0 {
      ScoreSelectorsSpec(x, n - 1);
    }
  }

  lemma KeyBitsShape(scoreBits: nat, inodeBits: nat)
    ensures SelectorTable(KeyBits(scoreBits, inodeBits))
    ensures |KeyBits(scoreBits, inodeBits)| <= 73
  {
    InodeSelectorsSpec(inodeBits, 64);
    ScoreSelectorsSpec(scoreBits, 8);
  }

  /** The table selects a digit of the key exactly when one of the two masks
      has it. */
  lemma KeyBitsComplete(scoreBits: nat, inodeBits: nat, pos: nat)
    requires pos < 72
    ensures SelectorTable(KeyBits(scoreBits, inodeBits))
    ensures Selected(KeyBits(scoreBits, inodeBits), pos)
       <==> if pos < 64 then Bit(inodeBits, pos) else Bit(scoreBits, pos - 64)
  {
    KeyBitsShape(scoreBits, inodeBits);
    InodeSelectorsSpec(inodeBits, 64);
    ScoreSelectorsSpec(scoreBits, 8);
    if pos < 64 {
      MemberSelects(scoreBits, inodeBits, 64 + pos);
    } else {
      MemberSelects(scoreBits, inodeBits, 56 + (pos - 64));
    }
  }

  /** A digit is selected just when its selector is in one of the two halves of
      the table. */
  lemma MemberSelects(scoreBits: nat, inodeBits: nat, sel: nat)
    requires 56 <= sel < 128
    ensures SelectorTable(KeyBits(scoreBits, inodeBits))
    ensures Selected(KeyBits(scoreBits, inodeBits), Position(sel))
       <==> sel in InodeSelectors(inodeBits, 64) || sel in ScoreSelectors(scoreBits, 8)
  {
    KeyBitsShape(scoreBits, inodeBits);
    var s, t := InodeSelectors(inodeBits, 64), ScoreSelectors(scoreBits, 8);
    var bits := KeyBits(scoreBits, inodeBits);
    if sel in s {
      var i :| 0 <= i < |s| && s[i] == sel;
      assert bits[i + 1] == sel;
    } else if sel in t {
      var i :| 0 <= i < |t| && t[i] == sel;
      assert bits[i + 1 + |s|] == sel;
    } else {
      assert forall i :: 1 <= i < |bits| ==> bits[i] == if i < 1 + |s| then s[i - 1] else t[i - 1 - |s|];
    }
  }

  // ----- What the caller promises -----------------------------------------

  /** `inodeBits` holds the first `n` inodes ored together, and their scores
      differ only in `scoreBits`. */
  ghost predicate Covered(w: seq<Dirent>, n: nat, scoreBits: nat, inodeBits: nat)
    requires n <= |w|
  {
    && AllScored(w, n)
    && (forall i, k: nat {:trigger Bit(w[i].inode, k)} :: 0 <= i < n && Bit(w[i].inode, k) ==> Bit(inodeBits, k))
    && (forall i, j, k: nat {:trigger Bit(w[i].score, k), Bit(w[j].score, k)} ::
          0 <= i < n && 0 <= j < n && !Bit(scoreBits, k) ==> (Bit(w[i].score, k) <==> Bit(w[j].score, k)))
  }

  /** Then all keys agree on every digit that the table leaves out. */
  lemma UnselectedDigitsAgree(w: seq<Dirent>, n: nat, scoreBits: nat, inodeBits: nat, i: nat, j: nat, pos: nat)
    requires n <= |w| && Covered(w, n, scoreBits, inodeBits)
    requires i < n && j < n && pos < 72
    requires SelectorTable(KeyBits(scoreBits, inodeBits))
    requires !Selected(KeyBits(scoreBits, inodeBits), pos)
    ensures Bit(Key(w[i]), pos) <==> Bit(Key(w[j]), pos)
  {
    KeyBitsComplete(scoreBits, inodeBits, pos);
    JoinBit(w[i].score, w[i].inode, 64, pos);
    JoinBit(w[j].score, w[j].inode, 64, pos);
  }

  /** The table has a key bit exactly when one of the masks is not zero. */
  lemma KeyBitExists(scoreBits: nat, inodeBits: Ino)
    requires scoreBits < 0x80
    ensures |KeyBits(scoreBits, inodeBits)| > 1 <==> scoreBits != 0 || inodeBits != 0
  {
    hide KeyBits, Bit, Pow2;
    var bits := KeyBits(scoreBits, inodeBits);
    KeyBitsShape(scoreBits, inodeBits);
    if scoreBits != 0 {
      var k := SomeBitBelow(scoreBits, 8, 0x80);
      KeyBitsComplete(scoreBits, inodeBits, 64 + k);
    } else if inodeBits != 0 {
      var k := SomeBitBelow(inodeBits, 64, 0x1_0000_0000_0000_0000);
      KeyBitsComplete(scoreBits, inodeBits, k);
    } else if |bits| > 1 {
      var pos := Position(bits[1]);
      assert Selected(bits, pos);
      KeyBitsComplete(0, 0, pos);
      NoBits(if pos < 64 then pos else pos - 64);
    }
  }

  lemma SomeBitBelow(x: nat, n: nat, bound: nat) returns (k: nat)
    requires 0 < x < bound
    requires (n == 8 && bound == 0x80) || (n == 64 && bound == 0x1_0000_0000_0000_0000)
    ensures k < n && Bit(x, k)
  {
    if n == 8 {
      Pow2Byte(0);
    } else {
      Pow2Word();
    }
    k := SomeBit(x, n);
  }

  lemma {:induction false} NoBits(k: nat)
    ensures !Bit(0, k)
  {
    if k > 0 {
      NoBits(k - 1);
    }
  }
}
