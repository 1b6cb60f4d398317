/** The insertion pass of the directory sort, with its unguarded inner loop,
    and the whole sort (libeio/eio.c). */
module DirentSort {
  import opened Bits
  import opened Dirents
  import opened RadixSpec
  import RadixSort

  /** The first `n` entries are in `eio_dent_cmp` order. */
  ghost predicate Sorted(w: seq<Dirent>, n: nat)
    requires n <= |w|
  {
    forall i, j :: 0 <= i < j < n ==> Key(w[i]) <= Key(w[j])
  }

  /** `w` with the element at `i` moved down to `p`. */
  function MoveDown(w: seq<Dirent>, p: nat, i: nat): (r: seq<Dirent>)
    requires p <= i < |w|
    ensures |r| == |w|
  {
    seq(|w|, k requires 0 <= k < |w| => if k < p || k > i then w[k] else if k == p then w[i] else w[k - 1])
  }

  lemma MoveDownPermutes(w: seq<Dirent>, p: nat, i: nat)
    requires p <= i < |w|
    ensures multiset(MoveDown(w, p, i)) == multiset(w)
  {
    var r := MoveDown(w, p, i);
    assert w == w[..p] + w[p..i] + [w[i]] + w[i + 1..];
    assert r == w[..p] + [w[i]] + w[p..i] + w[i + 1..];
  }

  /** `w` with the elements at 0 and `at` exchanged. */
  function Swapped(w: seq<Dirent>, at: nat): seq<Dirent>
    requires at < |w|
  {
    w[0 := w[at]][at := w[0]]
  }

  /** The state of the shifting loop: the hole is at `j + 1`, everything from
      there up to `i` has moved up one slot and is greater than the value. */
  ghost predicate Shifted(w: seq<Dirent>, v: seq<Dirent>, j: int, i: nat)
    requires -1 <= j < i < |w|
  {
    && |v| == |w|
    && (forall k :: 0 <= k < |w| && (k <= j || k > i) ==> v[k] == w[k])
    && (forall k :: j + 1 < k <= i ==> v[k] == w[k - 1])
    && (forall k :: j < k < i ==> Key(w[k]) > Key(w[i]))
  }

  lemma ShiftedDone(w: seq<Dirent>, v: seq<Dirent>, j: int, i: nat)
    requires -1 <= j < i < |w| && Shifted(w, v, j, i)
    requires Sorted(w, i) && (j < 0 || Key(w[j]) <= Key(w[i]))
    ensures v[j + 1 := w[i]] == MoveDown(w, j + 1, i)
    ensures Sorted(MoveDown(w, j + 1, i), i + 1)
    ensures Above(w, i, Key(w[i])) == i - 1 - j
  {
    AboveFrom(w, i, j + 1, Key(w[i]));
  }

  /** How many of the first `n` entries have a key above `key`. */
  ghost function Above(w: seq<Dirent>, n: nat, key: nat): nat
    requires n <= |w|
  {
    if n == 0 then 0 else Above(w, n - 1, key) + if Key(w[n - 1]) > key then 1 else 0
  }

  lemma {:induction false} AboveFrom(w: seq<Dirent>, n: nat, p: nat, key: nat)
    requires p <= n <= |w|
    requires forall k :: 0 <= k < p ==> Key(w[k]) <= key
    requires forall k :: p <= k < n ==> Key(w[k]) > key
    ensures Above(w, n, key) == n - p
  {
    if n > 0 {
      AboveFrom(w, n - 1, if p == n then p - 1 else p, key);
    }
  }

  lemma {:induction false} MoveDownAbove(w: seq<Dirent>, p: nat, i: nat, n: nat, key: nat)
    requires p <= i < |w| && n <= i + 1
    ensures Above(MoveDown(w, p, i), n, key)
         == if n <= p then Above(w, n, key) else Above(w, n - 1, key) + if Key(w[i]) > key then 1 else 0
  {
    if n > 0 {
      MoveDownAbove(w, p, i, n - 1, key);
    }
  }

  /** One round of the insertion loop. Nothing in the loop test stops `j` at the
      front of the array; the entry at 0 being a minimum does. The loop also
      stops at `c` when everything before `c` is smaller than the value. */
  method Insert(dents: array<Dirent>, i: nat, ghost c: nat) returns (ghost shifts: nat)
    requires 1 <= i < dents.Length && c <= i
    requires AllScored(dents[..], i + 1) && Sorted(dents[..], i)
    requires Key(dents[0]) <= Key(dents[i])
    requires forall k :: 0 <= k < c ==> Key(dents[k]) < Key(dents[i])
    modifies dents
    ensures shifts <= i - 1 && shifts <= i - c
    ensures shifts > 0 ==> Key(old(dents[i - 1])) > Key(old(dents[i]))
    ensures shifts == Above(old(dents[..]), i, Key(old(dents[i])))
    ensures dents[..] == MoveDown(old(dents[..]), i - shifts, i)
    ensures Sorted(dents[..], i + 1)
  {
    hide Key, DentCmp, Sorted, MoveDown;
    ghost var w := dents[..];
    var value := dents[i];
    var j := i - 1;
    assert Scored(w[i]);
    DentCmpIsKeyOrder(w[j], value);
    while DentCmp(dents[j], value) > 0
      invariant 0 <= j < i && c <= j + 1
      invariant Shifted(w, dents[..], j, i)
      invariant dents[j] == w[j]
      invariant DentCmp(w[j], value) > 0 <==> Key(w[j]) > Key(value)
      decreases j
    {
      assert c <= j;
      assert j > 0;
      ghost var v := dents[..];
      dents[j + 1] := dents[j];
      assert dents[..] == v[j + 1 := w[j]];
      j := j - 1;
      assert Scored(w[j]);
      DentCmpIsKeyOrder(w[j], value);
    }
    ShiftedDone(w, dents[..], j, i);
    dents[j + 1] := value;
    shifts := i - 1 - j;
  }

  /** Bring a smallest entry to the front, looking only at the first `limit`
      slots: the one that is there already or the last one. */
  method MoveMinToFront(dents: array<Dirent>, limit: nat) returns (ghost at: nat)
    requires 1 <= limit <= dents.Length
    requires AllScored(dents[..], limit)
    modifies dents
    ensures at < limit
    ensures forall k :: 0 <= k < limit ==> Key(old(dents[at])) <= Key(old(dents[k]))
    ensures at > 0 ==> Key(old(dents[at])) < Key(old(dents[0]))
    ensures at > 0 ==> forall k :: at < k < limit ==> Key(old(dents[at])) < Key(old(dents[k]))
    ensures dents[..] == Swapped(old(dents[..]), at)
  {
    ghost var w := dents[..];
    var min := 0;
    var i := limit - 1;
    while i != 0
      invariant 0 <= i < limit && 0 <= min < limit && dents[..] == w
      invariant forall k :: i < k < limit ==> Key(dents[min]) <= Key(dents[k])
      invariant Key(dents[min]) <= Key(dents[0])
      invariant min > 0 ==> Key(dents[min]) < Key(dents[0])
      invariant min > 0 ==> i < min && forall k :: min < k < limit ==> Key(dents[min]) < Key(dents[k])
      decreases i
    {
      assert Scored(w[i]) && Scored(w[min]);
      DentCmpIsKeyOrder(dents[i], dents[min]);
      if DentCmp(dents[i], dents[min]) < 0 {
        min := i;
      }
      i := i - 1;
    }
    at := min;
    dents[0], dents[min] := dents[min], dents[0];
  }

  // ----- Why the early slots suffice, and why the pass is linear ----------

  /** In an array cut into pieces a minimum lies in the first `SORT_CUTOFF + 1`
      slots: it is in the first piece, which is short or has a single key. */
  lemma MinimumIsEarly(w: seq<Dirent>, st: seq<nat>, n: nat, k: nat)
    requires n <= |w| && k < n && Pieces(w, st, 0, n)
    ensures exists m :: 0 <= m <= SORT_CUTOFF && m < n && Key(w[m]) <= Key(w[k])
  {
    assert PieceAt(w, st, 0, k);
    var m := if k > SORT_CUTOFF then 0 else k;
    assert Key(w[m]) <= Key(w[k]);
  }

  /** Pieces do not overlap: no element of an earlier piece lies at or beyond
      the start of a later one. */
  lemma {:induction false} StartsGrow(w: seq<Dirent>, st: seq<nat>, n: nat, a: nat, i: nat)
    requires a < n <= |w| && i < n && Pieces(w, st, 0, n)
    ensures st[a] < st[i] ==> a < st[i]
    decreases a + i
  {
    assert PieceAt(w, st, 0, i) && PieceAt(w, st, 0, a);
    if a < i && st[i] != i && a < i - 1 {
      StartsGrow(w, st, n, a, i - 1);
    } else if a > i && st[a] != a {
      StartsGrow(w, st, n, a - 1, i);
    }
  }

  /** Swapping a minimum to the front stays inside the first piece. */
  lemma SwapKeepsPieces(w: seq<Dirent>, st: seq<nat>, n: nat, at: nat)
    requires at < n <= |w| && Pieces(w, st, 0, n)
    requires forall k :: 0 <= k < n ==> Key(w[at]) <= Key(w[k])
    requires at > 0 ==> Key(w[at]) < Key(w[0])
    ensures Pieces(Swapped(w, at), st, 0, n)
  {
    var w' := Swapped(w, at);
    assert PieceAt(w, st, 0, at);
    assert st[at] == 0;
    forall i | 0 <= i < n
      ensures PieceAt(w', st, 0, i)
    {
      assert PieceAt(w, st, 0, i);
      StartsGrow(w, st, n, at, i);
      assert PieceAt(w, st, 0, 0);
      StartsGrow(w, st, n, 0, i);
    }
  }

  /** How far the insertion loop has come on an array cut into pieces: `v` is
      sorted up to `i`, and `c` is the start of the piece reached last. */
  ghost predicate Progress(w: seq<Dirent>, v: seq<Dirent>, st: seq<nat>, n: nat, i: nat, c: nat)
    requires i <= n <= |w|
  {
    && |v| == |st| == |w| && c <= i
    && (forall k, m :: 0 <= k < c <= m < n ==> Key(v[k]) < Key(w[m]))
    && (forall k, m :: 0 <= k < i <= m < n && i <= st[m] ==> Key(v[k]) < Key(w[m]))
    && ((forall m :: c <= m < i ==> Key(w[m]) == Key(w[c])) ==> forall k :: c <= k < i ==> Key(v[k]) == Key(w[c]))
  }

  /** At the next element the piece either goes on or a new one starts; in both
      cases all before it is smaller. */
  lemma NextPiece(w: seq<Dirent>, v: seq<Dirent>, st: seq<nat>, n: nat, i: nat, c: nat) returns (c': nat)
    requires 1 <= i < n <= |w| && Pieces(w, st, 0, n)
    requires Progress(w, v, st, n, i, c) && c == st[i - 1]
    ensures c' == st[i] && Progress(w, v, st, n, i, c')
    ensures forall k :: 0 <= k < c' ==> Key(v[k]) < Key(w[i])
    ensures i - c' > SORT_CUTOFF - 2 ==> Key(v[i - 1]) == Key(w[i])
  {
    c' := st[i];
    assert PieceAt(w, st, 0, i);
    if c' == i {
      forall k, m | 0 <= k < i <= m < n
        ensures Key(v[k]) < Key(w[m])
      {
        assert PieceAt(w, st, 0, m);
        StartsGrow(w, st, n, m, i);
      }
    }
  }

  lemma ProgressStep(w: seq<Dirent>, v: seq<Dirent>, st: seq<nat>, n: nat, i: nat, c: nat, p: nat)
    requires 1 <= i < n <= |w| && Pieces(w, st, 0, n)
    requires Progress(w, v, st, n, i, c) && c == st[i] <= p <= i && v[i] == w[i]
    ensures Progress(w, MoveDown(v, p, i), st, n, i + 1, c)
  {
    forall m | i + 1 <= m < n && i + 1 <= st[m]
      ensures Key(w[i]) < Key(w[m])
    {
      assert PieceAt(w, st, 0, m);
    }
  }

  /** No element moves beyond the front. */
  ghost predicate Fitting(moves: seq<nat>) {
    forall k :: 0 <= k < |moves| ==> moves[k] <= k + 1
  }

  /** `w` after element 1, element 2 and so on have been moved down by `moves`. */
  ghost function Inserted(w: seq<Dirent>, moves: seq<nat>): (v: seq<Dirent>)
    requires |moves| < |w| && Fitting(moves)
    ensures |v| == |w|
  {
    var n := |moves|;
    if n == 0 then w else MoveDown(Inserted(w, moves[..n - 1]), n - moves[n - 1], n)
  }

  /** The moves lead from `w` to `v`. */
  ghost predicate Replays(w: seq<Dirent>, v: seq<Dirent>, moves: seq<nat>) {
    |moves| < |w| && Fitting(moves) && v == Inserted(w, moves)
  }

  lemma StartReplays(w: seq<Dirent>)
    requires w != []
    ensures Replays(w, w, []) && Counted(w, w, [])
  {
  }

  lemma ReplaysMore(w: seq<Dirent>, v: seq<Dirent>, moves: seq<nat>, shifts: nat)
    requires Replays(w, v, moves) && |moves| + 1 < |w| && shifts <= |moves| + 1
    ensures Replays(w, MoveDown(v, |moves| + 1 - shifts, |moves| + 1), moves + [shifts])
  {
    assert (moves + [shifts])[..|moves|] == moves;
  }

  ghost predicate MovesCounted(w: seq<Dirent>, moves: seq<nat>)
    requires |moves| < |w|
  {
    forall k :: 0 <= k < |moves| ==> moves[k] == Above(w, k + 1, Key(w[k + 1]))
  }

  ghost predicate SameAbove(w: seq<Dirent>, v: seq<Dirent>, n: nat)
    requires n <= |w| && n <= |v|
  {
    forall key: nat :: Above(v, n, key) == Above(w, n, key)
  }

  /** Each element has moved past those before it with a greater key, and no
      others. */
  ghost predicate Counted(w: seq<Dirent>, v: seq<Dirent>, moves: seq<nat>) {
    var n := |moves|;
    && n < |w| == |v|
    && MovesCounted(w, moves)
    && SameAbove(w, v, n + 1)
  }

  lemma CountedMore(w: seq<Dirent>, v: seq<Dirent>, moves: seq<nat>, shifts: nat)
    requires Counted(w, v, moves) && |moves| + 1 < |w| && shifts <= |moves| + 1
    requires v[|moves| + 1] == w[|moves| + 1]
    requires shifts == Above(v, |moves| + 1, Key(v[|moves| + 1]))
    ensures Counted(w, MoveDown(v, |moves| + 1 - shifts, |moves| + 1), moves + [shifts])
  {
    var i := |moves| + 1;
    var j, v' := i + 1, MoveDown(v, i - shifts, i);
    forall key: nat
      ensures Above(v', j, key) == Above(w, j, key)
    {
      MoveDownAbove(v, i - shifts, i, j, key);
    }
  }

  /** Element `k + 1` has moved down `moves[k]` slots, on large arrays at most 28. */
  ghost predicate Short(moves: seq<nat>, size: nat, i: nat) {
    |moves| + 1 == i && (size > SORT_FAST ==> forall k :: 0 <= k < |moves| ==> moves[k] <= SORT_CUTOFF - 2)
  }

  /** The insertion loop before round `i`, with the moves that it has made. */
  ghost predicate Looping(w: seq<Dirent>, v: seq<Dirent>, st: seq<nat>, size: nat, i: nat, c: nat, moves: seq<nat>) {
    && 1 <= i <= size <= |w| == |v|
    && multiset(v) == multiset(w)
    && AllScored(v, size)
    && v[0] == w[0] && (forall k :: 0 <= k < size ==> Key(w[0]) <= Key(w[k]))
    && Sorted(v, i)
    && (forall k :: i <= k < |w| ==> v[k] == w[k])
    && (size > SORT_FAST ==>
          Pieces(w, st, 0, size) && Progress(w, v, st, size, i, c) && c == st[i - 1])
    && Short(moves, size, i)
  }

  /** A round may start: where its piece begins, and what holds there. */
  lemma RoundStarts(w: seq<Dirent>, v: seq<Dirent>, st: seq<nat>, size: nat, i: nat, c: nat, moves: seq<nat>)
    returns (c': nat)
    requires Looping(w, v, st, size, i, c, moves) && i < size
    ensures AllScored(v, i + 1) && Sorted(v, i) && Key(v[0]) <= Key(v[i]) && c' <= i
    ensures forall k :: 0 <= k < c' ==> Key(v[k]) < Key(v[i])
    ensures size > SORT_FAST ==>
      c' == st[i] && Progress(w, v, st, size, i, c') && (i - c' > SORT_CUTOFF - 2 ==> Key(v[i - 1]) == Key(v[i]))
  {
    c' := 0;
    if size > SORT_FAST {
      c' := NextPiece(w, v, st, size, i, c);
    }
  }

  lemma NotYetReached(w: seq<Dirent>, v: seq<Dirent>, st: seq<nat>, size: nat, i: nat, c: nat, moves: seq<nat>)
    requires Looping(w, v, st, size, i, c, moves) && i < size
    ensures v[i] == w[i]
  {
  }

  lemma RoundEnds(w: seq<Dirent>, v: seq<Dirent>, st: seq<nat>, size: nat, i: nat, c: nat, c': nat, moves: seq<nat>,
          shifts: nat)
    requires Looping(w, v, st, size, i, c, moves) && i < size && c' <= i
    requires size > SORT_FAST ==>
      c' == st[i] && Progress(w, v, st, size, i, c') && (i - c' > SORT_CUTOFF - 2 ==> Key(v[i - 1]) == Key(v[i]))
    requires shifts <= i - 1 && shifts <= i - c'
    requires shifts > 0 ==> Key(v[i - 1]) > Key(v[i])
    requires Sorted(MoveDown(v, i - shifts, i), i + 1)
    ensures Looping(w, MoveDown(v, i - shifts, i), st, size, i + 1, c', moves + [shifts])
  {
    hide Key, Progress, Pieces, PieceAt, Sorted, Scored;
    var v' := MoveDown(v, i - shifts, i);
    assert multiset(v') == multiset(v) by {
      MoveDownPermutes(v, i - shifts, i);
    }
    assert AllScored(v', size) by {
      assert forall k :: 0 <= k < size ==> Scored(v[k]);
    }
    if size > SORT_FAST {
      ProgressStep(w, v, st, size, i, c', i - shifts);
    }
  }

  /** The second half of `eio_dent_insertion_sort`: insert element after element. */
  method InsertAll(dents: array<Dirent>, size: nat, ghost w: seq<Dirent>, ghost st: seq<nat>)
    returns (ghost c: nat, ghost moves: seq<nat>)
    requires 1 <= size <= dents.Length && Looping(w, dents[..], st, size, 1, 0, []) && dents[..] == w
    modifies dents
    ensures Looping(w, dents[..], st, size, size, c, moves) && Replays(w, dents[..], moves)
    ensures Counted(w, dents[..], moves)
  {
    hide Progress, MoveDown, Pieces, PieceAt, Key, Sorted, Looping, Scored, AllScored, Replays, Counted;
    StartReplays(w);
    c, moves := 0, [];
    var i := 1;
    while i < size
      invariant 1 <= i <= size
      invariant Looping(w, dents[..], st, size, i, c, moves)
      invariant |moves| + 1 == i && Replays(w, dents[..], moves) && Counted(w, dents[..], moves)
    {
      ghost var v := dents[..];
      ghost var c' := RoundStarts(w, v, st, size, i, c, moves);
      ghost var shifts := Insert(dents, i, c');
      RoundEnds(w, v, st, size, i, c, c', moves, shifts);
      ReplaysMore(w, v, moves, shifts);
      NotYetReached(w, v, st, size, i, c, moves);
      CountedMore(w, v, moves, shifts);
      c, moves := c', moves + [shifts];
      i := i + 1;
    }
  }

  lemma ScoredPrefix(w: seq<Dirent>, size: nat, limit: nat)
    requires limit <= size <= |w| && AllScored(w, size)
    ensures AllScored(w, limit)
  {
  }

  function Sum(moves: seq<nat>): nat {
    if moves == [] then 0 else Sum(moves[..|moves| - 1]) + moves[|moves| - 1]
  }

  /** The pairs among the first `n` entries that stand in the wrong order. */
  ghost function Inversions(w: seq<Dirent>, n: nat): nat
    requires n <= |w|
  {
    if n == 0 then 0 else Inversions(w, n - 1) + Above(w, n - 1, Key(w[n - 1]))
  }

  /** The work of the insertion loop is the disorder that it finds. */
  lemma {:induction false} MovesAreInversions(w: seq<Dirent>, moves: seq<nat>)
    requires |moves| < |w| && MovesCounted(w, moves)
    ensures Sum(moves) == Inversions(w, |moves| + 1)
  {
    if moves != [] {
      MovesAreInversions(w, moves[..|moves| - 1]);
    }
  }

  /** So on large arrays the second pass is linear. */
  lemma {:induction false} ShortIsLinear(moves: seq<nat>, size: nat)
    requires size > SORT_FAST && Short(moves, size, |moves| + 1)
    ensures Sum(moves) <= (SORT_CUTOFF - 2) * |moves|
  {
    if moves != [] {
      ShortIsLinear(moves[..|moves| - 1], size);
    }
  }

  /** `eio_dent_insertion_sort`, with the slot that the first minimum comes from
      and the slots that each element then moves down. On large arrays that the
      radix pass has cut into pieces they are few. */
  method InsertionSort(dents: array<Dirent>, size: nat, ghost st: seq<nat>)
    returns (ghost at: nat, ghost moves: seq<nat>)
    requires 1 <= size <= dents.Length
    requires AllScored(dents[..], size)
    requires size > SORT_FAST ==> Pieces(dents[..], st, 0, size)
    modifies dents
    ensures multiset(dents[..]) == multiset(old(dents[..]))
    ensures forall k :: size <= k < dents.Length ==> dents[k] == old(dents[k])
    ensures Sorted(dents[..], size)
    ensures at < size && Short(moves, size, size)
    ensures Replays(Swapped(old(dents[..]), at), dents[..], moves)
    ensures Counted(Swapped(old(dents[..]), at), dents[..], moves)
  {
    hide Progress, MoveDown, Replays, Counted, Pieces, PieceAt, Key, Sorted, Looping, Scored, AllScored;
    ghost var w0 := dents[..];
    var limit := if size > SORT_FAST then SORT_CUTOFF + 1 else size;
    ScoredPrefix(w0, size, limit);
    at := MoveMinToFront(dents, limit);
    ghost var w := dents[..];
    FrontIsMinimum(w0, w, st, size, at);
    ghost var c;
    c, moves := InsertAll(dents, size, w, st);
    LoopingDone(w, dents[..], st, size, c, moves);
  }

  lemma LoopingDone(w: seq<Dirent>, v: seq<Dirent>, st: seq<nat>, size: nat, c: nat, moves: seq<nat>)
    requires Looping(w, v, st, size, size, c, moves)
    ensures multiset(v) == multiset(w)
    ensures forall k :: size <= k < |w| ==> v[k] == w[k]
    ensures Sorted(v, size)
    ensures Short(moves, size, size)
  {
  }

  lemma FrontIsMinimum(w0: seq<Dirent>, w: seq<Dirent>, st: seq<nat>, size: nat, at: nat)
    requires 1 <= size <= |w0| && at < size && AllScored(w0, size)
    requires size > SORT_FAST ==> Pieces(w0, st, 0, size) && at <= SORT_CUTOFF
    requires forall k :: 0 <= k < size && (size > SORT_FAST ==> k <= SORT_CUTOFF) ==> Key(w0[at]) <= Key(w0[k])
    requires at > 0 ==> Key(w0[at]) < Key(w0[0])
    requires w == Swapped(w0, at)
    ensures multiset(w) == multiset(w0)
    ensures Looping(w, w, st, size, 1, 0, [])
  {
    forall k | 0 <= k < size
      ensures Key(w0[at]) <= Key(w0[k])
    {
      if size > SORT_FAST {
        MinimumIsEarly(w0, st, size, k);
      }
    }
    if size > SORT_FAST {
      SwapKeepsPieces(w0, st, size, at);
      forall m | 1 <= m < size && 1 <= st[m]
        ensures Key(w[0]) < Key(w[m])
      {
        assert PieceAt(w, st, 0, m);
      }
      assert PieceAt(w, st, 0, 0);
    }
  }

  /** The radix pass cuts the array into pieces. */
  lemma RadixPassCuts(w: seq<Dirent>, size: nat, scoreBits: nat, inodeBits: nat) returns (st: seq<nat>)
    requires 0 < size <= |w| && Covered(w, size, scoreBits, inodeBits)
    requires Readable(KeyBits(scoreBits, inodeBits))
    ensures var bits := KeyBits(scoreBits, inodeBits);
      |bits| > 0 && var r := Radix(w, 0, size, bits, |bits| - 1);
      && Pieces(r, st, 0, size)
      && SameOutside(w, r, 0, size) && multiset(r) == multiset(w) && AllScored(r, size)
  {
    hide KeyBits, Key, Radix, Pieces;
    var bits := KeyBits(scoreBits, inodeBits);
    KeyBitsShape(scoreBits, inodeBits);
    var z := Key(w[0]);
    forall i | 0 <= i < size
      ensures Fits(w[i], bits, z) && Shr(Key(w[i]), 72) == 0
    {
      forall p: nat | p < 72 && !Selected(bits, p)
        ensures Bit(Key(w[i]), p) <==> Bit(z, p)
      {
        UnselectedDigitsAgree(w, size, scoreBits, inodeBits, i, 0, p);
      }
      KeyBound(w[i]);
      NoHighBits(Key(w[i]), 72, 72);
    }
    var n := |bits| - 1;
    var q := SkipUnselected(w, 0, size, bits, n, 72, z, 0);
    st := RadixPieces(w, 0, size, bits, n, z, q);
    RadixFrame(w, 0, size, bits, n);
    RadixPermutes(w, 0, size, bits, n);
    RadixPrefixes(w, 0, size, bits, n, z, 72, 0);
  }

  /** The array between the two passes. */
  ghost function AfterRadix(w: seq<Dirent>, size: nat, scoreBits: nat, inodeBits: nat): (r: seq<Dirent>)
    requires size <= |w| && (size > SORT_FAST ==> |KeyBits(scoreBits, inodeBits)| > 1)
    ensures |r| == |w|
  {
    KeyBitsShape(scoreBits, inodeBits);
    var bits := KeyBits(scoreBits, inodeBits);
    if size <= SORT_FAST then w else Radix(w, 0, size, bits, |bits| - 1)
  }

  /** `eio_dent_sort`: the first `size` entries end up sorted, nothing is lost
      and nothing else is touched. In the second pass each entry moves past those
      with a greater key, on large arrays fewer than `SORT_CUTOFF - 1`; these moves
      lead from what the first pass left to the result. */
  method DentSort(dents: array<Dirent>, size: nat, scoreBits: nat, inodeBits: nat)
    returns (ghost at: nat, ghost moves: seq<nat>)
    requires size <= dents.Length
    requires Covered(dents[..], size, scoreBits, inodeBits)
    requires size > SORT_FAST ==> |KeyBits(scoreBits, inodeBits)| > 1
    modifies dents
    ensures multiset(dents[..]) == multiset(old(dents[..]))
    ensures forall k :: size <= k < dents.Length ==> dents[k] == old(dents[k])
    ensures Sorted(dents[..], size)
    ensures size > 1 ==> at < size && Short(moves, size, size)
    ensures size > 1 ==>
      var front := Swapped(AfterRadix(old(dents[..]), size, scoreBits, inodeBits), at);
      Replays(front, dents[..], moves) && Counted(front, dents[..], moves)
  {
    hide KeyBits, Key, Radix, Pieces, Replays, Counted, Swapped;
    at, moves := 0, [];
    if size <= 1 {
      return;
    }
    ghost var w := dents[..];
    RadixSort.RadixSort(dents, size, scoreBits, inodeBits);
    ghost var st := RadixPassCuts(w, size, scoreBits, inodeBits);
    at, moves := InsertionSort(dents, size, st);
  }
}
