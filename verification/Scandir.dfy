/** Reading a directory into entries and arranging them (`eio__scandir` in
    libeio/eio.c), down to the promises that the sort relies on. */
module Scandir {
  import opened Bits
  import opened Dirents
  import opened RadixSpec
  import opened DirentSort

  /** What `readdir` gives for one entry. */
  datatype Entry = Entry(name: string, dtype: int, ino: Ino)

  /** The `eio_readdir` flags; `custom` stands for those that are left to the
      application. */
  datatype Flags = Flags(dents: bool, dirsFirst: bool, statOrder: bool, foundUnknown: bool, custom: bool)

  const ECANCELED := 125

  const DT_UNKNOWN := 0
  const DT_DIR := 4

  /** The file types that the switch over `d_type` knows on Linux. */
  predicate KnownType(t: int) {
    t == 1 || t == 2 || t == 4 || t == 6 || t == 8 || t == 10 || t == 12 || t == 14
  }

  predicate IsDotOrDotDot(name: string) {
    name == "." || name == ".."
  }

  /** The guess at how likely an entry is a directory; smaller comes first. */
  function Score(name: string, dtype: nat, dirsFirst: bool): (s: int)
    ensures 0 <= s <= 7 && (!dirsFirst ==> s == 7)
    ensures dirsFirst && dtype != DT_UNKNOWN ==> (s == 0 <==> dtype == DT_DIR)
    ensures dtype == DT_UNKNOWN ==> s > 0
  {
    var len := |name| + 1;
    if !dirsFirst then 7
    else if dtype == DT_UNKNOWN then
      if name != "" && name[0] == '.' then 1
      else if '.' in name then 7
      else if len <= 2 then 4 - len else if len <= 4 then 4 else if len <= 7 then 5 else 6
    else if dtype == DT_DIR then 0
    else 7
  }

  /** How the guess ranks names of unknown type: names with a leading dot, then
      names without a dot, the shorter the earlier, then all others. */
  lemma ScoreRanksNames(a: string, b: string)
    requires a != "" && b != ""
    ensures a[0] == '.' && b[0] != '.' ==> Score(a, DT_UNKNOWN, true) < Score(b, DT_UNKNOWN, true)
    ensures '.' !in a && '.' !in b && |a| <= |b| ==> Score(a, DT_UNKNOWN, true) <= Score(b, DT_UNKNOWN, true)
    ensures '.' !in a && '.' in b && b[0] != '.' ==> Score(a, DT_UNKNOWN, true) < Score(b, DT_UNKNOWN, true)
  {
  }

  /** The scores in full: 0 for directories, 7 for all else that is known and when
      directories do not go first, and a guess by the name when the type is
      not known. */
  lemma ScoreTable(name: string, dtype: nat)
    ensures Score(name, dtype, false) == 7
    ensures Score(name, 4, true) == 0
    ensures dtype != 4 && dtype != 0 ==> Score(name, dtype, true) == 7
    ensures name != "" && name[0] == '.' ==> Score(name, 0, true) == 1
    ensures '.' in name && name[0] != '.' ==> Score(name, 0, true) == 7
    ensures '.' !in name ==>
      && (|name| == 1 ==> Score(name, 0, true) == 2)
      && (2 <= |name| <= 3 ==> Score(name, 0, true) == 4)
      && (4 <= |name| <= 6 ==> Score(name, 0, true) == 5)
      && (7 <= |name| ==> Score(name, 0, true) == 6)
  {
  }

  /** What reading has collected so far: the entries, the buffer of
      null-terminated names, the inodes ored together, and whether some type was
      not known. */
  datatype Scan = Scan(dents: seq<Dirent>, names: string, inodeBits: Ino, unknown: bool)

  function AddEntry(s: Scan, e: Entry, dirsFirst: bool): Scan {
    if IsDotOrDotDot(e.name) then s
    else
      var dtype := if KnownType(e.dtype) then e.dtype else DT_UNKNOWN;
      OrIno(s.inodeBits, e.ino);
      Scan(
        s.dents + [Dirent(|s.names|, |e.name|, dtype, Score(e.name, dtype, dirsFirst), e.ino)],
        s.names + e.name + ['\0'],
        Or(s.inodeBits, e.ino),
        s.unknown || !KnownType(e.dtype))
  }

  lemma OrIno(x: Ino, y: Ino)
    ensures Or(x, y) < 0x1_0000_0000_0000_0000
  {
    Pow2Word();
    OrBound(x, y, 64);
  }

  function ScanAll(entries: seq<Entry>, dirsFirst: bool): Scan {
    if entries == [] then Scan([], [], 0, false)
    else AddEntry(ScanAll(entries[..|entries| - 1], dirsFirst), entries[|entries| - 1], dirsFirst)
  }

  // ----- What a scan guarantees ---------------------------------------------

  /** `d` points at a name in the buffer that holds `name`. */
  predicate NameAt(names: string, d: Dirent, name: string) {
    && d.namelen == |name| && d.nameofs + |name| < |names|
    && names[d.nameofs..d.nameofs + |name|] == name
    && names[d.nameofs + |name|] == '\0'
  }

  function Kept(entries: seq<Entry>): seq<Entry> {
    if entries == [] then []
    else
      var last := entries[|entries| - 1];
      Kept(entries[..|entries| - 1]) + if IsDotOrDotDot(last.name) then [] else [last]
  }

  /** That leaves out only the names "." and ".." and keeps the order: an entry
      stands behind those that are kept of the ones before it. */
  lemma {:induction false} KeptAt(entries: seq<Entry>, i: nat)
    requires i < |entries| && entries[i].name != "." && entries[i].name != ".."
    ensures |Kept(entries[..i])| < |Kept(entries)| && Kept(entries)[|Kept(entries[..i])|] == entries[i]
  {
    var front := entries[..|entries| - 1];
    if i < |front| {
      KeptAt(front, i);
      assert front[..i] == entries[..i];
    }
  }

  /** And nothing else is there. */
  lemma {:induction false} KeptFrom(entries: seq<Entry>, k: nat) returns (i: nat)
    requires k < |Kept(entries)|
    ensures i < |entries| && entries[i] == Kept(entries)[k] && |Kept(entries[..i])| == k
    ensures entries[i].name != "." && entries[i].name != ".."
  {
    var front := entries[..|entries| - 1];
    if k < |Kept(front)| {
      i := KeptFrom(front, k);
      assert front[..i] == entries[..i];
    } else {
      i := |front|;
    }
  }

  /** `d` stands for the entry: it has its inode, finds its name in the name buffer,
      and has its type when that is one of those known, else 0. */
  predicate Describes(d: Dirent, e: Entry, names: string) {
    && NameAt(names, d, e.name) && d.inode == e.ino
    && var t := e.dtype;
    d.dtype == if t == 1 || t == 2 || t == 4 || t == 6 || t == 8 || t == 10 || t == 12 || t == 14 then t else 0
  }

  /** Entry `i` of the scan stands for the `i`th directory entry that is not
      "." or "..". */
  lemma {:induction false} ScanDescribes(entries: seq<Entry>, dirsFirst: bool)
    ensures var s := ScanAll(entries, dirsFirst);
      && |s.dents| == |Kept(entries)|
      && (forall i :: 0 <= i < |s.dents| ==>
            && Describes(s.dents[i], Kept(entries)[i], s.names)
            && s.dents[i].score == Score(Kept(entries)[i].name, s.dents[i].dtype, dirsFirst))
  {
    if entries != [] {
      var prev, e := entries[..|entries| - 1], entries[|entries| - 1];
      ScanDescribes(prev, dirsFirst);
      var s, s' := ScanAll(prev, dirsFirst), ScanAll(entries, dirsFirst);
      assert s.names <= s'.names;
      forall i | 0 <= i < |s'.dents|
        ensures Describes(s'.dents[i], Kept(entries)[i], s'.names)
      {
        if i < |s.dents| {
          var d, name := s.dents[i], Kept(prev)[i].name;
          assert Describes(d, Kept(prev)[i], s.names);
          assert s'.names[d.nameofs..d.nameofs + |name|] == s.names[d.nameofs..d.nameofs + |name|];
        }
      }
    }
  }

  /** The score of every entry follows from its type and the flags. */
  ghost predicate ScoredBy(d: Dirent, dirsFirst: bool) {
    && 0 <= d.score <= 7
    && (!dirsFirst ==> d.score == 7)
    && (dirsFirst && d.dtype != DT_UNKNOWN ==> (d.score == 0 <==> d.dtype == DT_DIR))
    && (dirsFirst && d.dtype == DT_UNKNOWN ==> d.score > 0)
  }

  lemma {:induction false} ScanScores(entries: seq<Entry>, dirsFirst: bool)
    ensures var s := ScanAll(entries, dirsFirst);
      && (forall i :: 0 <= i < |s.dents| ==> ScoredBy(s.dents[i], dirsFirst))
      && (s.unknown <==> exists i :: 0 <= i < |s.dents| && s.dents[i].dtype == DT_UNKNOWN)
  {
    if entries != [] {
      ScanScores(entries[..|entries| - 1], dirsFirst);
      var s, s' := ScanAll(entries[..|entries| - 1], dirsFirst), ScanAll(entries, dirsFirst);
      if |s'.dents| > |s.dents| {
        assert s'.dents[|s.dents|].dtype == DT_UNKNOWN <==> !KnownType(entries[|entries| - 1].dtype);
        assert forall i :: 0 <= i < |s.dents| ==> s'.dents[i] == s.dents[i];
      }
    }
  }

  /** The mask holds the digits of all inodes and no others. */
  lemma {:induction false} ScanInodes(entries: seq<Entry>, dirsFirst: bool, k: nat)
    ensures var s := ScanAll(entries, dirsFirst);
      Bit(s.inodeBits, k) <==> exists i :: 0 <= i < |s.dents| && Bit(s.dents[i].inode, k)
  {
    if entries == [] {
      NoBits(k);
    } else {
      var e := entries[|entries| - 1];
      ScanInodes(entries[..|entries| - 1], dirsFirst, k);
      var s, s' := ScanAll(entries[..|entries| - 1], dirsFirst), ScanAll(entries, dirsFirst);
      if |s'.dents| > |s.dents| {
        OrBit(s.inodeBits, e.ino, k);
        assert s'.dents[|s.dents|].inode == e.ino;
        assert forall i :: 0 <= i < |s.dents| ==> s'.dents[i] == s.dents[i];
      }
    }
  }

  /** A score below 8 has no digit beyond the mask 7. */
  lemma ScoreDigits(x: nat, k: nat)
    requires x <= 7 && Bit(x, k)
    ensures Bit(7, k)
  {
    if k >= 3 {
      assert Pow2(3) == 8;
      NoHighBits(x, 3, k);
    }
  }

  /** Any selection of scanned entries meets what the sort asks for, with the
      masks that `eio__scandir` passes. */
  lemma ScanIsCovered(entries: seq<Entry>, dirsFirst: bool, w: seq<Dirent>, n: nat, scoreBits: nat)
    requires n <= |w|
    requires forall i :: 0 <= i < n ==> w[i] in ScanAll(entries, dirsFirst).dents
    requires scoreBits == 7 || (scoreBits == 0 && forall i, j :: 0 <= i < n && 0 <= j < n ==> w[i].score == w[j].score)
    ensures Covered(w, n, scoreBits, ScanAll(entries, dirsFirst).inodeBits)
  {
    var s := ScanAll(entries, dirsFirst);
    ScanScores(entries, dirsFirst);
    forall i | 0 <= i < n
      ensures Scored(w[i])
    {
      var m :| 0 <= m < |s.dents| && s.dents[m] == w[i];
      assert ScoredBy(s.dents[m], dirsFirst);
    }
    forall i, k: nat | 0 <= i < n && Bit(w[i].inode, k)
      ensures Bit(s.inodeBits, k)
    {
      var m :| 0 <= m < |s.dents| && s.dents[m] == w[i];
      ScanInodes(entries, dirsFirst, k);
    }
    forall i, j, k: nat | 0 <= i < n && 0 <= j < n && !Bit(scoreBits, k)
      ensures Bit(w[i].score, k) <==> Bit(w[j].score, k)
    {
      if scoreBits == 7 {
        var a :| 0 <= a < |s.dents| && s.dents[a] == w[i];
        var b :| 0 <= b < |s.dents| && s.dents[b] == w[j];
        assert ScoredBy(s.dents[a], dirsFirst) && ScoredBy(s.dents[b], dirsFirst);
        if Bit(w[i].score, k) {
          ScoreDigits(w[i].score, k);
        } else if Bit(w[j].score, k) {
          ScoreDigits(w[j].score, k);
        }
      }
    }
  }

  // ----- Arranging the entries ----------------------------------------------

  /** Directories in front, everything else behind: two walks towards each
      other. */
  method PartitionDirs(dents: array<Dirent>, n: nat) returns (dir: nat)
    requires n <= dents.Length
    modifies dents
    ensures dir <= n
    ensures multiset(dents[..]) == multiset(old(dents[..]))
    ensures forall k :: n <= k < dents.Length ==> dents[k] == old(dents[k])
    ensures forall k :: 0 <= k < n ==> (dents[k].dtype == DT_DIR <==> k < dir)
  {
    var oth := n;
    dir := 0;
    while oth > dir
      invariant dir <= oth <= n
      invariant multiset(dents[..]) == multiset(old(dents[..]))
      invariant Parted(old(dents[..]), dents[..], dir, oth, n)
      decreases oth - dir
    {
      ghost var w := dents[..];
      if dents[dir].dtype == DT_DIR {
        dir := dir + 1;
      } else {
        oth := oth - 1;
        if dents[oth].dtype == DT_DIR {
          dents[dir], dents[oth] := dents[oth], dents[dir];
          SwapPermutes(w, dir, oth);
          assert dents[..] == w[dir := w[oth]][oth := w[dir]];
          dir := dir + 1;
        }
      }
    }
  }

  /** Directories before `dir`, others from `oth` on, and nothing changed behind. */
  ghost predicate Parted(w: seq<Dirent>, v: seq<Dirent>, dir: nat, oth: nat, n: nat) {
    && dir <= oth <= n <= |w| == |v|
    && (forall k :: n <= k < |w| ==> v[k] == w[k])
    && (forall k :: 0 <= k < dir ==> v[k].dtype == DT_DIR)
    && (forall k :: oth <= k < n ==> v[k].dtype != DT_DIR)
  }

  /** Flags that do not go with dirents are dropped. */
  function Effective(flags: Flags): Flags {
    if flags.dents then flags else flags.(dirsFirst := false, statOrder := false)
  }

  /** Any flag that is left gets a table of entries besides the names. */
  predicate WithTable(flags: Flags) {
    flags.dents || flags.dirsFirst || flags.statOrder || flags.foundUnknown || flags.custom
  }

  /** Which order the caller gets. */
  ghost predicate Arranged(w: seq<Dirent>, s: Scan, flags: Flags) {
    && multiset(w) == multiset(s.dents)
    && (if flags.statOrder || (flags.dirsFirst && (s.unknown || flags.foundUnknown)) then Sorted(w, |w|)
        else if flags.dirsFirst then exists d :: DirsFirst(w, d)
        else w == s.dents)
  }

  /** The first `d` entries are the directories, by inode. */
  ghost predicate DirsFirst(w: seq<Dirent>, d: nat) {
    && d <= |w|
    && (forall k :: 0 <= k < |w| ==> (w[k].dtype == DT_DIR <==> k < d))
    && (forall i, j :: 0 <= i < j < d ==> w[i].inode <= w[j].inode)
  }

  function CountDirs(w: seq<Dirent>): nat {
    if w == [] then 0 else CountDirs(w[..|w| - 1]) + if w[|w| - 1].dtype == DT_DIR then 1 else 0
  }

  /** How many entries go through the sort, and with which score mask. */
  function SortSize(s: Scan, flags: Flags): (r: (nat, nat)) {
    if flags.statOrder then (|s.dents|, if flags.dirsFirst then 7 else 0)
    else if flags.dirsFirst && (s.unknown || flags.foundUnknown) then (|s.dents|, 7)
    else if flags.dirsFirst then (CountDirs(s.dents), 0)
    else (0, 0)
  }

  lemma {:induction false} CountDirsAppend(a: seq<Dirent>, b: seq<Dirent>)
    ensures CountDirs(a + b) == CountDirs(a) + CountDirs(b)
  {
    if b == [] {
      assert a + b == a;
    } else {
      CountDirsAppend(a, b[..|b| - 1]);
      assert (a + b)[..|a + b| - 1] == a + b[..|b| - 1];
    }
  }

  lemma WithoutOne(a: seq<Dirent>, m: nat)
    requires m < |a|
    ensures multiset(a[..m] + a[m + 1..]) == multiset(a) - multiset{a[m]}
  {
    assert a == a[..m] + [a[m]] + a[m + 1..];
  }

  /** Rearranging entries keeps the number of directories. */
  lemma {:induction false} CountDirsPermuted(a: seq<Dirent>, b: seq<Dirent>)
    requires multiset(a) == multiset(b)
    ensures CountDirs(a) == CountDirs(b)
    decreases |a|
  {
    if a == [] {
      assert |multiset(b)| == 0;
    } else {
      var e := a[|a| - 1];
      assert e in multiset(b);
      var m :| 0 <= m < |b| && b[m] == e;
      assert a == a[..|a| - 1] + [e];
      assert b == (b[..m] + [e]) + b[m + 1..];
      WithoutOne(a, |a| - 1);
      WithoutOne(b, m);
      assert a[..|a| - 1] + a[|a|..] == a[..|a| - 1];
      CountDirsPermuted(a[..|a| - 1], b[..m] + b[m + 1..]);
      CountDirsAppend(b[..m], b[m + 1..]);
      CountDirsAppend(b[..m] + [e], b[m + 1..]);
    }
  }

  lemma {:induction false} CountDirsPartitioned(w: seq<Dirent>, d: nat)
    requires d <= |w| && forall k :: 0 <= k < |w| ==> (w[k].dtype == DT_DIR <==> k < d)
    ensures CountDirs(w) == d
  {
    if w != [] {
      CountDirsPartitioned(w[..|w| - 1], if d == |w| then d - 1 else d);
    }
  }

  /** The guard under which the radix pass stays inside its table of key bits:
      a large sort needs a score mask or an inode that is not zero. */
  predicate StaysInTable(s: Scan, flags: Flags) {
    SortSize(s, flags).0 > SORT_FAST ==> SortSize(s, flags).1 != 0 || s.inodeBits != 0
  }

  /** Where the first `*--bit` of the radix pass reads: the pass starts at the last
      selector. This is a formula beside the loop: `RadixSort.Descend` is only
      entered when the index is in the table. */
  function FirstStepDown(bits: seq<nat>): int {
    |bits| - 1 - 1
  }

  /** The guard is exact: the radix pass has a selector besides the sentinel
      wherever it looks for one, or else its table is the lone sentinel and the
      first step down reads the index -1. */
  lemma StaysInTableIsExact(s: Scan, flags: Flags)
    ensures var (n, mask) := SortSize(s, flags);
      && (StaysInTable(s, flags) <==> n <= SORT_FAST || FirstStepDown(KeyBits(mask, s.inodeBits)) >= 0)
      && (!StaysInTable(s, flags) <==> n > SORT_FAST && KeyBits(mask, s.inodeBits) == [0])
      && (KeyBits(mask, s.inodeBits) == [0] <==> FirstStepDown(KeyBits(mask, s.inodeBits)) == -1)
  {
    var (n, mask) := SortSize(s, flags);
    KeyBitExists(mask, s.inodeBits);
    KeyBitsShape(mask, s.inodeBits);
  }

  /** Without inode numbers the guard says how many entries may be sorted without
      their scores. */
  lemma ZeroInodesLeaveTable(entries: seq<Entry>, flags: Flags)
    requires forall i :: 0 <= i < |entries| ==> entries[i].ino == 0
    ensures var s := ScanAll(entries, flags.dirsFirst);
      StaysInTable(s, flags) <==> SortSize(s, flags).0 <= SORT_FAST || SortSize(s, flags).1 != 0
  {
    ZeroInodeScan(entries, flags.dirsFirst);
  }

  lemma {:induction false} ZeroInodeScan(entries: seq<Entry>, dirsFirst: bool)
    requires forall i :: 0 <= i < |entries| ==> entries[i].ino == 0
    ensures ScanAll(entries, dirsFirst).inodeBits == 0
  {
    if entries != [] {
      ZeroInodeScan(entries[..|entries| - 1], dirsFirst);
      assert Or(0, 0) == 0;
    }
  }

  /** A file with a name of `n + 1` letters and without an inode number. */
  function NamelessFile(n: nat): Entry {
    Entry(seq(n + 1, _ => 'x'), 8, 0)
  }

  /** As many such files, all names different. */
  function ManyFiles(n: nat): (es: seq<Entry>)
    ensures |es| == n
    ensures forall i :: 0 <= i < n ==> es[i] == NamelessFile(i)
  {
    if n == 0 then [] else ManyFiles(n - 1) + [NamelessFile(n - 1)]
  }

  ghost predicate NamesDiffer(es: seq<Entry>) {
    forall i, j :: 0 <= i < j < |es| ==> es[i].name != es[j].name
  }

  lemma ManyNamesDiffer(n: nat)
    ensures NamesDiffer(ManyFiles(n))
  {
    forall i, j | 0 <= i < j < n
      ensures NamelessFile(i).name != NamelessFile(j).name
    {
      assert |NamelessFile(i).name| == i + 1 && |NamelessFile(j).name| == j + 1;
    }
  }

  lemma NotDots(name: string)
    requires name != "" && name[0] != '.'
    ensures !IsDotOrDotDot(name)
  {
  }

  lemma {:induction false} ManyFilesAreKept(n: nat)
    ensures |Kept(ManyFiles(n))| == n
  {
    if n > 0 {
      ManyFilesAreKept(n - 1);
      var es, name := ManyFiles(n), NamelessFile(n - 1).name;
      assert name[0] == 'x';
      NotDots(name);
      assert es[..|es| - 1] == ManyFiles(n - 1) && es[|es| - 1] == NamelessFile(n - 1);
      hide ManyFiles, NamelessFile, IsDotOrDotDot;
    }
  }

  /** Sixty-one of them, in stat order, break the guard. */
  lemma SixtyOneFilesLeaveTable()
    ensures |ManyFiles(61)| == 61 && NamesDiffer(ManyFiles(61))
    ensures !StaysInTable(ScanAll(ManyFiles(61), false), Flags(true, false, true, false, false))
  {
    ManyNamesDiffer(61);
    hide ManyFiles, NamesDiffer, Kept, ScanAll;
    ZeroInodesLeaveTable(ManyFiles(61), Flags(true, false, true, false, false));
    ScanDescribes(ManyFiles(61), false);
    ManyFilesAreKept(61);
  }

  // ----- What the caller gets -------------------------------------------------------

  /** Place `k` holds entry `at[k]`, and each entry is in one place. */
  ghost predicate Lists(w: seq<Dirent>, kept: seq<Entry>, names: string, dirsFirst: bool, at: seq<nat>) {
    && |w| == |kept| == |at|
    && (forall k :: 0 <= k < |at| ==>
          && at[k] < |kept| && Describes(w[k], kept[at[k]], names)
          && w[k].score == Score(kept[at[k]].name, w[k].dtype, dirsFirst))
    && (forall j, k :: 0 <= j < k < |at| ==> at[j] != at[k])
  }

  /** `readdir` has given a type that is known for every entry. */
  ghost predicate AllKnown(kept: seq<Entry>) {
    forall i :: 0 <= i < |kept| ==> kept[i].dtype in {1, 2, 4, 6, 8, 10, 12, 14}
  }

  /** By score and then by inode; or what `readdir` calls directories in front, by
      inode; or as `readdir` gave them. */
  ghost predicate InOrder(w: seq<Dirent>, kept: seq<Entry>, at: seq<nat>, flags: Flags)
    requires |w| == |at| && forall k :: 0 <= k < |at| ==> at[k] < |kept|
  {
    if flags.statOrder || (flags.dirsFirst && (flags.foundUnknown || !AllKnown(kept))) then
      forall j, k :: 0 <= j < k < |w| ==>
        w[j].score < w[k].score || (w[j].score == w[k].score && w[j].inode <= w[k].inode)
    else if flags.dirsFirst then
      forall j, k :: 0 <= j < k < |at| && kept[at[k]].dtype == 4 ==>
        kept[at[j]].dtype == 4 && kept[at[j]].ino <= kept[at[k]].ino
    else forall k :: 0 <= k < |at| ==> at[k] == k
  }

  ghost predicate Delivered(w: seq<Dirent>, kept: seq<Entry>, names: string, flags: Flags) {
    exists at: seq<nat> :: Lists(w, kept, names, flags.dirsFirst, at) && InOrder(w, kept, at, flags)
  }

  /** Where the elements of `a` are in a permutation `b` of it. */
  ghost predicate Places(a: seq<Dirent>, b: seq<Dirent>, at: seq<nat>) {
    && |at| == |a| == |b|
    && (forall k :: 0 <= k < |a| ==> at[k] < |b| && a[k] == b[at[k]])
    && (forall j, k :: 0 <= j < k < |a| ==> at[j] != at[k])
  }

  lemma {:induction false} FindPlaces(a: seq<Dirent>, b: seq<Dirent>) returns (at: seq<nat>)
    requires multiset(a) == multiset(b)
    ensures Places(a, b, at)
    decreases |a|
  {
    if a == [] {
      assert |multiset(b)| == 0;
      at := [];
    } else {
      var n := |a| - 1;
      assert a[n] in multiset(b);
      var m :| 0 <= m < |b| && b[m] == a[n];
      WithoutOne(a, n);
      WithoutOne(b, m);
      assert a[..n] + a[n + 1..] == a[..n];
      var rest := FindPlaces(a[..n], b[..m] + b[m + 1..]);
      at := PlaceLast(a, b, m, rest);
    }
  }

  /** Put an element back into the permutation, at place `m`. */
  lemma PlaceLast(a: seq<Dirent>, b: seq<Dirent>, m: nat, rest: seq<nat>) returns (at: seq<nat>)
    requires a != [] && m < |b| && b[m] == a[|a| - 1]
    requires Places(a[..|a| - 1], b[..m] + b[m + 1..], rest)
    ensures Places(a, b, at)
  {
    var n := |a| - 1;
    at := seq(n, k requires 0 <= k < n => if rest[k] < m then rest[k] else rest[k] + 1) + [m];
    forall k | 0 <= k < n
      ensures at[k] < |b| && a[k] == b[at[k]] && at[k] != m
    {
      assert a[..n][k] == (b[..m] + b[m + 1..])[rest[k]];
    }
  }

  lemma UnknownIsSeen(entries: seq<Entry>, dirsFirst: bool)
    ensures ScanAll(entries, dirsFirst).unknown <==> !AllKnown(Kept(entries))
  {
    ScanScores(entries, dirsFirst);
    ScanDescribes(entries, dirsFirst);
    hide ScanAll, Kept, Score, NameAt;
    var s, kept := ScanAll(entries, dirsFirst), Kept(entries);
    assert forall i :: 0 <= i < |kept| ==> Describes(s.dents[i], kept[i], s.names);
  }

  lemma ListsScan(entries: seq<Entry>, dirsFirst: bool, w: seq<Dirent>, at: seq<nat>)
    requires Places(w, ScanAll(entries, dirsFirst).dents, at)
    ensures Lists(w, Kept(entries), ScanAll(entries, dirsFirst).names, dirsFirst, at)
  {
    ScanDescribes(entries, dirsFirst);
    hide ScanAll, Kept, Score, Describes;
  }

  /** Arranging a scan in the order of its flags delivers the entries in the order
      that these ask for. */
  lemma ScanIsDelivered(entries: seq<Entry>, w: seq<Dirent>, flags: Flags)
    requires Arranged(w, ScanAll(entries, flags.dirsFirst), flags)
    ensures Delivered(w, Kept(entries), ScanAll(entries, flags.dirsFirst).names, flags)
  {
    var s, kept := ScanAll(entries, flags.dirsFirst), Kept(entries);
    UnknownIsSeen(entries, flags.dirsFirst);
    hide ScanAll, Kept, Describes, Score, AllKnown, Key, Sorted;
    var at: seq<nat> := seq(|w|, k => k);
    if w != s.dents {
      at := FindPlaces(w, s.dents);
    }
    ListsScan(entries, flags.dirsFirst, w, at);
    if flags.statOrder || (flags.dirsFirst && (flags.foundUnknown || s.unknown)) {
      SortedByScore(entries, flags.dirsFirst, w);
    } else if flags.dirsFirst {
      DirectoriesLead(w, kept, s.names, at);
    }
    assert InOrder(w, kept, at, flags);
  }

  lemma SortedByScore(entries: seq<Entry>, dirsFirst: bool, w: seq<Dirent>)
    requires multiset(w) == multiset(ScanAll(entries, dirsFirst).dents) && Sorted(w, |w|)
    ensures forall j, k :: 0 <= j < k < |w| ==>
      w[j].score < w[k].score || (w[j].score == w[k].score && w[j].inode <= w[k].inode)
  {
    var s := ScanAll(entries, dirsFirst);
    ScanScores(entries, dirsFirst);
    hide ScanAll, Key;
    forall j | 0 <= j < |w|
      ensures Scored(w[j])
    {
      assert w[j] in multiset(s.dents);
      var m :| 0 <= m < |s.dents| && s.dents[m] == w[j];
      assert ScoredBy(s.dents[m], dirsFirst);
    }
    forall j, k | 0 <= j < k < |w|
      ensures w[j].score < w[k].score || (w[j].score == w[k].score && w[j].inode <= w[k].inode)
    {
      KeyOrder(w[j], w[k]);
    }
  }

  lemma DirectoriesLead(w: seq<Dirent>, kept: seq<Entry>, names: string, at: seq<nat>)
    requires Lists(w, kept, names, true, at) && exists d :: DirsFirst(w, d)
    ensures forall j, k :: 0 <= j < k < |at| && kept[at[k]].dtype == 4 ==>
      kept[at[j]].dtype == 4 && kept[at[j]].ino <= kept[at[k]].ino
  {
    var d :| DirsFirst(w, d);
    hide Score, NameAt;
    assert forall k :: 0 <= k < |at| ==> Describes(w[k], kept[at[k]], names);
  }

  // ----- Reading ------------------------------------------------------------------

  /** What reading comes to: `entries` from `readdir`, then the error `last`, 0 at
      the end of the directory; `cancelled` says when the request is found
      cancelled, after which entry. */
  datatype Reading = Reading(entries: seq<Entry>, last: int, cancelled: nat -> bool)

  /** The number of entries that are read. */
  function CountRead(r: Reading, from: nat): (k: nat)
    requires from <= |r.entries|
    ensures from <= k <= |r.entries|
    ensures forall i :: from <= i < k - 1 ==> !r.cancelled(i)
    ensures k < |r.entries| ==> k > from && r.cancelled(k - 1)
    decreases |r.entries| - from
  {
    if from == |r.entries| then from
    else if r.cancelled(from) then from + 1
    else CountRead(r, from + 1)
  }

  /** The error of a reading, or 0. */
  function ReadError(r: Reading): int {
    var k := CountRead(r, 0);
    if k > 0 && r.cancelled(k - 1) then ECANCELED else r.last
  }

  /** Being cancelled comes first, then the error of `readdir`. */
  lemma ReadErrorSpec(r: Reading)
    ensures (exists i :: 0 <= i < |r.entries| && r.cancelled(i)) ==> ReadError(r) == ECANCELED
    ensures (forall i :: 0 <= i < |r.entries| ==> !r.cancelled(i)) ==>
      ReadError(r) == r.last && CountRead(r, 0) == |r.entries|
  {
    var k := CountRead(r, 0);
    if i :| 0 <= i < |r.entries| && r.cancelled(i) {
      assert !(i < k - 1);
      assert i == k - 1 || k - 1 < i;
    }
  }

  lemma NothingScanned(entries: seq<Entry>, dirsFirst: bool)
    ensures ScanAll(entries[..0], dirsFirst) == Scan([], [], 0, false)
  {
  }

  /** Read entries into a growing array, if there is one, and their names into a
      buffer. */
  method Collect(r: Reading, dirsFirst: bool, table: bool)
    returns (errno: int, dents: array<Dirent>, n: nat, names: string, inodeBits: Ino, unknown: bool)
    ensures errno == ReadError(r)
    ensures fresh(dents)
    ensures var s := ScanAll(r.entries[..CountRead(r, 0)], dirsFirst);
      && names == s.names && n == |s.dents|
      && (table ==> n <= dents.Length && s == Scan(dents[..n], names, inodeBits, unknown))
      && (!table ==> inodeBits == 0 && !unknown)
  {
    hide ScanAll;
    NothingScanned(r.entries, dirsFirst);
    dents := new Dirent[if table then 128 else 0];
    n, names, inodeBits, unknown := 0, [], 0, false;
    var i := 0;
    ghost var all := CountRead(r, 0);
    while true
      invariant 0 <= i <= |r.entries| && CountRead(r, i) == all
      invariant forall k :: 0 <= k < i ==> !r.cancelled(k)
      invariant fresh(dents)
      invariant Collected(ScanAll(r.entries[..i], dirsFirst), dents, n, names, inodeBits, unknown, table)
      decreases |r.entries| - i
    {
      if i == |r.entries| {
        errno := r.last;
        break;
      }
      dents, n, names, inodeBits, unknown :=
        CollectOne(r.entries[..i], r.entries[i], dirsFirst, table, dents, n, names, inodeBits, unknown);
      assert r.entries[..i] + [r.entries[i]] == r.entries[..i + 1];
      i := i + 1;
      if r.cancelled(i - 1) {
        errno := ECANCELED;
        break;
      }
    }
    assert i == all;
  }

  /** What has been collected so far; without a table only names and their
      number. */
  ghost predicate Collected(s: Scan, dents: array<Dirent>, n: nat, names: string, inodeBits: Ino,
          unknown: bool, table: bool)
    reads dents
  {
    && names == s.names && n == |s.dents|
    && (table ==> n <= dents.Length && dents.Length > 0 && s == Scan(dents[..n], names, inodeBits, unknown))
    && (!table ==> inodeBits == 0 && !unknown)
  }

  /** One entry of the directory. */
  method CollectOne(ghost before: seq<Entry>, e: Entry, dirsFirst: bool, table: bool, dents0: array<Dirent>,
          n0: nat, names0: string, inodeBits0: Ino, unknown0: bool)
    returns (dents: array<Dirent>, n: nat, names: string, inodeBits: Ino, unknown: bool)
    requires Collected(ScanAll(before, dirsFirst), dents0, n0, names0, inodeBits0, unknown0, table)
    modifies dents0
    ensures dents == dents0 || fresh(dents)
    ensures Collected(ScanAll(before + [e], dirsFirst), dents, n, names, inodeBits, unknown, table)
  {
    dents, n, names, inodeBits, unknown := dents0, n0, names0, inodeBits0, unknown0;
    assert (before + [e])[..|before|] == before;
    if !IsDotOrDotDot(e.name) {
      if table {
        if n == dents.Length {
          dents := Grow(dents, n);
        }
        var dtype := DT_UNKNOWN;
        if KnownType(e.dtype) {
          dtype := e.dtype;
        } else {
          unknown := true;
        }
        OrIno(inodeBits, e.ino);
        dents[n] := Dirent(|names|, |e.name|, dtype, Score(e.name, dtype, dirsFirst), e.ino);
        inodeBits := Or(inodeBits, e.ino);
      }
      n, names := n + 1, names + e.name + ['\0'];
    }
  }

  method Grow(dents: array<Dirent>, n: nat) returns (r: array<Dirent>)
    requires n == dents.Length > 0
    ensures fresh(r) && r.Length == 2 * n && r[..n] == dents[..n]
  {
    r := new Dirent[2 * n];
    forall k | 0 <= k < n {
      r[k] := dents[k];
    }
  }

  /** Sort the collected entries as the flags ask. */
  method Arrange(dents: array<Dirent>, n: nat, inodeBits: Ino, unknown: bool, flags: Flags,
          ghost entries: seq<Entry>, ghost names: string)
    requires n <= dents.Length
    requires ScanAll(entries, flags.dirsFirst) == Scan(dents[..n], names, inodeBits, unknown)
    requires StaysInTable(ScanAll(entries, flags.dirsFirst), flags)
    modifies dents
    ensures Arranged(dents[..n], ScanAll(entries, flags.dirsFirst), flags)
  {
    hide KeyBits, Key, ScanAll, Replays, Counted, AfterRadix, Swapped, Short;
    ghost var s := ScanAll(entries, flags.dirsFirst);
    ghost var w := dents[..];
    StaysInTableIsExact(s, flags);
    if flags.statOrder || (flags.dirsFirst && (unknown || flags.foundUnknown)) {
      var mask := if flags.dirsFirst then 7 else 0;
      if mask == 0 {
        ScanScores(entries, flags.dirsFirst);
        assert forall i :: 0 <= i < n ==> w[i] == s.dents[i];
      }
      ScanIsCovered(entries, flags.dirsFirst, w, n, mask);
      ghost var _, _ := DentSort(dents, n, mask, inodeBits);
      PrefixPermutes(w, dents[..], n);
    } else if flags.dirsFirst {
      var dir := PartitionDirs(dents, n);
      PrefixPermutes(w, dents[..], n);
      DirsAreCovered(entries, w, dents[..], n, dir);
      ghost var v := dents[..];
      ghost var _, _ := DentSort(dents, dir, 0, inodeBits);
      DirsArranged(v, dents[..], n, dir);
      PrefixPermutes(v, dents[..], n);
    }
  }

  /** A permutation that leaves the tail alone permutes the front. */
  lemma PrefixPermutes(w: seq<Dirent>, v: seq<Dirent>, n: nat)
    requires n <= |w| == |v| && multiset(v) == multiset(w)
    requires forall k :: n <= k < |w| ==> v[k] == w[k]
    ensures multiset(v[..n]) == multiset(w[..n])
  {
    assert v == v[..n] + v[n..] && w == w[..n] + w[n..] && v[n..] == w[n..];
    assert multiset(v[..n]) == multiset(v) - multiset(v[n..]);
    assert multiset(w[..n]) == multiset(w) - multiset(w[n..]);
  }

  /** When all types are known, the directories meet what the sort asks for
      with a score mask of 0. */
  lemma DirsAreCovered(entries: seq<Entry>, w: seq<Dirent>, v: seq<Dirent>, n: nat, dir: nat)
    requires dir <= n <= |w| == |v|
    requires w[..n] == ScanAll(entries, true).dents && multiset(v[..n]) == multiset(w[..n])
    requires forall k :: 0 <= k < n ==> (v[k].dtype == DT_DIR <==> k < dir)
    ensures Covered(v, dir, 0, ScanAll(entries, true).inodeBits)
    ensures CountDirs(ScanAll(entries, true).dents) == dir
    ensures forall k :: 0 <= k < dir ==> v[k].score == 0
  {
    hide ScanAll, Covered;
    var s := ScanAll(entries, true);
    ScanScores(entries, true);
    forall i | 0 <= i < dir
      ensures v[i] in s.dents && v[i].score == 0
    {
      assert v[i] in multiset(v[..n]);
      assert v[i] in multiset(w[..n]);
      var m :| 0 <= m < |s.dents| && s.dents[m] == v[i];
      assert ScoredBy(s.dents[m], true);
    }
    ScanIsCovered(entries, true, v, dir, 0);
    CountDirsPermuted(v[..n], w[..n]);
    CountDirsPartitioned(v[..n], dir);
  }

  lemma DirsArranged(v: seq<Dirent>, r: seq<Dirent>, n: nat, dir: nat)
    requires dir <= n <= |v| == |r| && multiset(r) == multiset(v)
    requires forall k :: 0 <= k < n ==> (v[k].dtype == DT_DIR <==> k < dir)
    requires forall k :: dir <= k < |v| ==> r[k] == v[k]
    requires forall k :: 0 <= k < dir ==> v[k].score == 0
    requires Sorted(r, dir)
    ensures DirsFirst(r[..n], dir)
  {
    PrefixPermutes(v, r, dir);
    forall k | 0 <= k < dir
      ensures r[k].dtype == DT_DIR && r[k].score == 0
    {
      assert r[k] in multiset(r[..dir]);
      assert r[k] in multiset(v[..dir]);
      var m :| 0 <= m < dir && v[m] == r[k];
    }
    forall i, j | 0 <= i < j < dir
      ensures r[i].inode <= r[j].inode
    {
      Pow2Word();
      JoinOrder(0, r[i].inode, 0, r[j].inode, 64);
      JoinOrder(0, r[j].inode, 0, r[i].inode, 64);
    }
  }

  /** `eio__scandir`: -1 and the error when reading fails or is cancelled; else the
      number of entries, every one but "." and ".." exactly once, in the order
      that the flags ask for. */
  method Scandir(r: Reading, flags0: Flags)
    returns (result: int, errno: int, dents: array<Dirent>, names: string, flags: Flags)
    requires ReadError(r) == 0 ==> StaysInTable(ScanAll(r.entries, Effective(flags0).dirsFirst), Effective(flags0))
    ensures fresh(dents) && errno == ReadError(r)
    ensures var s := ScanAll(r.entries[..CountRead(r, 0)], Effective(flags0).dirsFirst);
      && names == s.names
      && (errno != 0 ==> result == -1 && flags == flags0)
      && (errno == 0 ==>
            && result == |Kept(r.entries)| == |s.dents|
            && flags == Effective(flags0).(foundUnknown :=
                 flags0.foundUnknown || (WithTable(Effective(flags0)) && s.unknown))
            && (WithTable(Effective(flags0)) ==>
                  result <= dents.Length && Arranged(dents[..result], s, Effective(flags0))))
    ensures errno == 0 ==>
      && flags.dents == flags0.dents && flags.custom == flags0.custom
      && flags.dirsFirst == (flags0.dents && flags0.dirsFirst)
      && flags.statOrder == (flags0.dents && flags0.statOrder)
    ensures errno == 0 && (flags0.dents || flags0.foundUnknown || flags0.custom) ==>
      && result <= dents.Length
      && Delivered(dents[..result], Kept(r.entries), names, flags.(foundUnknown := flags0.foundUnknown))
      && (flags.foundUnknown <==> flags0.foundUnknown || !AllKnown(Kept(r.entries)))
  {
    var eff := Effective(flags0);
    var n, inodeBits, unknown;
    errno, dents, n, names, inodeBits, unknown := Collect(r, eff.dirsFirst, WithTable(eff));
    result, flags := -1, flags0;
    ReadErrorSpec(r);
    if errno == 0 {
      assert r.entries[..|r.entries|] == r.entries;
      ScanDescribes(r.entries, eff.dirsFirst);
      if WithTable(eff) {
        Arrange(dents, n, inodeBits, unknown, eff, r.entries, names);
        ScanIsDelivered(r.entries, dents[..n], eff);
        UnknownIsSeen(r.entries, eff.dirsFirst);
      }
      result, flags := n, eff.(foundUnknown := eff.foundUnknown || unknown);
    }
  }
}
