/** An array of first-in-first-out queues, one for each priority: the meaning of
    `etp_reqq` (libeio/etp.c). */
module PriorityFifo {

  /** One sequence for each priority, index 0 the least urgent. */
  type Fifo<T> = seq<seq<T>>

  function Size<T>(q: Fifo<T>): nat {
    if q == [] then 0 else Size(q[..|q| - 1]) + |q[|q| - 1]|
  }

  /** All elements, whatever their priority. */
  ghost function Bag<T>(q: Fifo<T>): multiset<T> {
    if q == [] then multiset{} else Bag(q[..|q| - 1]) + multiset(q[|q| - 1])
  }

  function Push<T>(q: Fifo<T>, pri: nat, x: T): (r: Fifo<T>)
    requires pri < |q|
    ensures |r| == |q|
  {
    q[pri := q[pri] + [x]]
  }

  /** The highest priority below `n` that has an element, or -1. */
  function Highest<T>(q: Fifo<T>, n: nat): (p: int)
    requires n <= |q|
    ensures -1 <= p < n
    ensures p >= 0 ==> q[p] != []
    ensures forall k :: p < k < n ==> q[k] == []
  {
    if n == 0 then -1 else if q[n - 1] != [] then n - 1 else Highest(q, n - 1)
  }

  /** The element that comes out next: the oldest of the highest priority. */
  function Next<T>(q: Fifo<T>): T
    requires Highest(q, |q|) >= 0
  {
    q[Highest(q, |q|)][0]
  }

  function Rest<T>(q: Fifo<T>): (r: Fifo<T>)
    requires Highest(q, |q|) >= 0
    ensures |r| == |q|
  {
    var p := Highest(q, |q|);
    q[p := q[p][1..]]
  }

  lemma {:induction false} SizeIsBagSize<T>(q: Fifo<T>)
    ensures Size(q) == |Bag(q)|
  {
    if q != [] {
      SizeIsBagSize(q[..|q| - 1]);
    }
  }

  /** Replacing one sequence changes the bag by just that sequence. */
  lemma {:induction false} BagUpdate<T>(q: Fifo<T>, p: nat, s: seq<T>)
    requires p < |q|
    ensures Bag(q[p := s]) + multiset(q[p]) == Bag(q) + multiset(s)
    ensures Size(q[p := s]) + |q[p]| == Size(q) + |s|
  {
    var n := |q| - 1;
    if p == n {
      assert q[p := s][..n] == q[..n];
    } else {
      var r := q[p := s];
      assert r[..n] == q[..n][p := s];
      BagUpdate(q[..n], p, s);
      var a, a', c := Bag(q[..n]), Bag(r[..n]), multiset(q[n]);
      assert (a' + c) + multiset(q[p]) == (a' + multiset(q[p])) + c;
      assert (a + c) + multiset(s) == (a + multiset(s)) + c;
    }
  }

  lemma Cancel<T>(a: multiset<T>, b: multiset<T>, c: multiset<T>)
    requires a + c == b + c
    ensures a == b
  {
    forall x
      ensures a[x] == b[x]
    {
      assert (a + c)[x] == a[x] + c[x];
      assert (b + c)[x] == b[x] + c[x];
    }
  }

  lemma PushBag<T>(q: Fifo<T>, pri: nat, x: T)
    requires pri < |q|
    ensures Bag(Push(q, pri, x)) == Bag(q) + multiset{x}
    ensures Size(Push(q, pri, x)) == Size(q) + 1
  {
    BagUpdate(q, pri, q[pri] + [x]);
    Cancel(Bag(Push(q, pri, x)), Bag(q) + multiset{x}, multiset(q[pri]));
  }

  lemma RestBag<T>(q: Fifo<T>)
    requires Highest(q, |q|) >= 0
    ensures Bag(q) == Bag(Rest(q)) + multiset{Next(q)}
    ensures Size(q) == Size(Rest(q)) + 1
  {
    hide Bag, Size, Highest;
    var p := Highest(q, |q|);
    var head, tail := q[p][0], q[p][1..];
    BagUpdate(q, p, tail);
    assert q[p] == [head] + tail;
    assert multiset(q[p]) == multiset{head} + multiset(tail);
    Cancel(Bag(q), Bag(Rest(q)) + multiset{head}, multiset(tail));
  }

  lemma PushSize<T>(q: Fifo<T>, pri: nat, x: T)
    requires pri < |q|
    ensures Size(Push(q, pri, x)) == Size(q) + 1
  {
    PushBag(q, pri, x);
  }

  lemma RestSize<T>(q: Fifo<T>)
    requires Highest(q, |q|) >= 0
    ensures Size(q) == Size(Rest(q)) + 1
  {
    RestBag(q);
  }

  /** Nothing comes out exactly when nothing is in. */
  lemma {:induction false} EmptyIffNoHighest<T>(q: Fifo<T>, n: nat)
    requires n <= |q|
    ensures Highest(q, n) < 0 <==> Size(q[..n]) == 0
  {
    if n > 0 {
      EmptyIffNoHighest(q, n - 1);
      assert q[..n][..n - 1] == q[..n - 1];
    }
  }

  lemma EmptyIffSizeZero<T>(q: Fifo<T>)
    ensures Highest(q, |q|) < 0 <==> Size(q) == 0
  {
    EmptyIffNoHighest(q, |q|);
    assert q[..|q|] == q;
  }

  // ----- Sums over all elements ---------------------------------------------

  function SeqSum<T>(s: seq<T>, f: T -> nat): nat {
    if s == [] then 0 else SeqSum(s[..|s| - 1], f) + f(s[|s| - 1])
  }

  function Sum<T>(q: Fifo<T>, f: T -> nat): nat {
    if q == [] then 0 else Sum(q[..|q| - 1], f) + SeqSum(q[|q| - 1], f)
  }

  lemma {:induction false} SeqSumConcat<T>(a: seq<T>, b: seq<T>, f: T -> nat)
    ensures SeqSum(a + b, f) == SeqSum(a, f) + SeqSum(b, f)
  {
    if b == [] {
      assert a + b == a;
    } else {
      SeqSumConcat(a, b[..|b| - 1], f);
      assert (a + b)[..|a + b| - 1] == a + b[..|b| - 1];
    }
  }

  lemma {:induction false} SeqSumUpdate<T>(s: seq<T>, i: nat, x: T, f: T -> nat)
    requires i < |s|
    ensures SeqSum(s[i := x], f) + f(s[i]) == SeqSum(s, f) + f(x)
  {
    var n := |s| - 1;
    if i == n {
      assert s[i := x][..n] == s[..n];
    } else {
      assert s[i := x][..n] == s[..n][i := x];
      SeqSumUpdate(s[..n], i, x, f);
    }
  }

  lemma {:induction false} SeqSumTerm<T>(s: seq<T>, i: nat, f: T -> nat)
    requires i < |s|
    ensures SeqSum(s, f) >= f(s[i])
  {
    if i < |s| - 1 {
      SeqSumTerm(s[..|s| - 1], i, f);
    }
  }

  /** A sum has a positive term exactly when it is positive. */
  lemma {:induction false} SeqSumPositive<T>(s: seq<T>, f: T -> nat)
    ensures SeqSum(s, f) > 0 <==> exists i :: 0 <= i < |s| && f(s[i]) > 0
  {
    if s != [] {
      var t := s[..|s| - 1];
      SeqSumPositive(t, f);
      if f(s[|s| - 1]) == 0 && SeqSum(s, f) > 0 {
        var i :| 0 <= i < |t| && f(t[i]) > 0;
        assert f(s[i]) > 0;
      }
    }
  }

  lemma {:induction false} SumUpdate<T>(q: Fifo<T>, p: nat, s: seq<T>, f: T -> nat)
    requires p < |q|
    ensures Sum(q[p := s], f) + SeqSum(q[p], f) == Sum(q, f) + SeqSum(s, f)
  {
    var n := |q| - 1;
    if p == n {
      assert q[p := s][..n] == q[..n];
    } else {
      assert q[p := s][..n] == q[..n][p := s];
      SumUpdate(q[..n], p, s, f);
    }
  }

  lemma PushSum<T>(q: Fifo<T>, pri: nat, x: T, f: T -> nat)
    requires pri < |q|
    ensures Sum(Push(q, pri, x), f) == Sum(q, f) + f(x)
  {
    SumUpdate(q, pri, q[pri] + [x], f);
    assert (q[pri] + [x])[..|q[pri]|] == q[pri];
  }

  lemma RestSum<T>(q: Fifo<T>, f: T -> nat)
    requires Highest(q, |q|) >= 0
    ensures Sum(q, f) == Sum(Rest(q), f) + f(Next(q))
  {
    var p := Highest(q, |q|);
    SumUpdate(q, p, q[p][1..], f);
    assert q[p] == [q[p][0]] + q[p][1..];
    SeqSumConcat([q[p][0]], q[p][1..], f);
    assert [q[p][0]][..0] == [];
    assert SeqSum([q[p][0]], f) == f(q[p][0]);
  }
}
