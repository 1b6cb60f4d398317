/** What the users of a queue with priorities see of it (libeio/etp.c): over any
    run of pushes and shifts, requests of one priority come out in the order in
    which they went in, and none comes out while a more urgent one is queued. */
module QueueOrder {
  import opened Basics
  import opened PriorityFifo

  datatype Op<T> = Put(x: T) | Get

  /** Every element that is put in has one of the first `n` priorities. */
  ghost predicate Placed<T>(ops: seq<Op<T>>, pri: T -> nat, n: nat) {
    forall i :: 0 <= i < |ops| && ops[i].Put? ==> pri(ops[i].x) < n
  }

  /** The queue after the run, from `n` empty priorities. */
  ghost function After<T>(ops: seq<Op<T>>, pri: T -> nat, n: nat): (q: Fifo<T>)
    requires Placed(ops, pri, n)
    ensures |q| == n
  {
    if ops == [] then seq(n, _ => [])
    else
      var q := After(ops[..|ops| - 1], pri, n);
      match ops[|ops| - 1]
      case Put(x) => Push(q, pri(x), x)
      case Get => if Highest(q, n) >= 0 then Rest(q) else q
  }

  /** What one shift gives. */
  ghost function Given<T>(q: Fifo<T>): Option<T> {
    if Highest(q, |q|) >= 0 then Some(Next(q)) else None
  }

  /** What has come out in the run, in order. */
  ghost function Out<T>(ops: seq<Op<T>>, pri: T -> nat, n: nat): seq<T>
    requires Placed(ops, pri, n)
  {
    if ops == [] then []
    else
      var before := ops[..|ops| - 1];
      var given := if ops[|ops| - 1].Get? then Given(After(before, pri, n)) else None;
      Out(before, pri, n) + if given.Some? then [given.value] else []
  }

  /** What has gone in, in order. */
  ghost function In<T>(ops: seq<Op<T>>): seq<T> {
    if ops == [] then []
    else In(ops[..|ops| - 1]) + if ops[|ops| - 1].Put? then [ops[|ops| - 1].x] else []
  }

  /** The elements of one priority. */
  ghost function Of<T>(s: seq<T>, pri: T -> nat, p: nat): seq<T> {
    if s == [] then []
    else Of(s[..|s| - 1], pri, p) + if pri(s[|s| - 1]) == p then [s[|s| - 1]] else []
  }

  lemma OfMore<T>(s: seq<T>, pri: T -> nat, p: nat, x: T)
    ensures Of(s + [x], pri, p) == Of(s, pri, p) + if pri(x) == p then [x] else []
  {
    assert (s + [x])[..|s|] == s;
  }

  /** What has come out of one priority and what is queued there make up what
      went in. */
  ghost predicate Accounted<T>(out: seq<T>, q: Fifo<T>, went: seq<T>, pri: T -> nat, p: nat)
    requires p < |q|
  {
    && Of(out, pri, p) + q[p] == Of(went, pri, p)
    && forall i :: 0 <= i < |q[p]| ==> pri(q[p][i]) == p
  }

  lemma PutAccounts<T>(out: seq<T>, q: Fifo<T>, went: seq<T>, pri: T -> nat, p: nat, x: T)
    requires p < |q| && pri(x) < |q| && Accounted(out, q, went, pri, p)
    ensures Accounted(out, Push(q, pri(x), x), went + [x], pri, p)
  {
    OfMore(went, pri, p, x);
    hide Of;
  }

  lemma FirstMoves<T>(gone: seq<T>, queued: seq<T>, went: seq<T>)
    requires queued != [] && gone + queued == went
    ensures (gone + [queued[0]]) + queued[1..] == went
  {
  }

  lemma RestAt<T>(q: Fifo<T>, p: nat)
    requires p < |q| && Highest(q, |q|) >= 0
    ensures Rest(q)[p] == (if p == Highest(q, |q|) then q[p][1..] else q[p])
    ensures p == Highest(q, |q|) ==> q[p] != [] && Next(q) == q[p][0]
  {
    hide Highest;
  }

  lemma GetAccounts<T>(out: seq<T>, q: Fifo<T>, went: seq<T>, pri: T -> nat, p: nat)
    requires p < |q| && Highest(q, |q|) >= 0 && Accounted(out, q, went, pri, p)
    requires pri(Next(q)) == Highest(q, |q|)
    ensures Accounted(out + [Next(q)], Rest(q), went, pri, p)
  {
    OfMore(out, pri, p, Next(q));
    RestAt(q, p);
    hide Of, Highest, Rest, Next;
    if p == Highest(q, |q|) {
      FirstMoves(Of(out, pri, p), q[p], Of(went, pri, p));
    }
  }

  lemma NextAt<T>(out: seq<T>, q: Fifo<T>, went: seq<T>, pri: T -> nat)
    requires Highest(q, |q|) >= 0 && Accounted(out, q, went, pri, Highest(q, |q|))
    ensures pri(Next(q)) == Highest(q, |q|)
  {
    hide Highest, Of;
    assert pri(q[Highest(q, |q|)][0]) == Highest(q, |q|);
  }

  lemma {:induction false} OutThenQueued<T>(ops: seq<Op<T>>, pri: T -> nat, n: nat, p: nat)
    requires Placed(ops, pri, n) && p < n
    ensures Accounted(Out(ops, pri, n), After(ops, pri, n), In(ops), pri, p)
  {
    hide Accounted, Highest;
    if ops == [] {
      NothingYet(pri, n, p);
    } else {
      var before, op := ops[..|ops| - 1], ops[|ops| - 1];
      OutThenQueued(before, pri, n, p);
      var q, out := After(before, pri, n), Out(before, pri, n);
      if op.Put? {
        assert Out(ops, pri, n) == out;
        PutAccounts(out, q, In(before), pri, p, op.x);
      } else {
        assert In(ops) == In(before);
        if Highest(q, n) >= 0 {
          OutThenQueued(before, pri, n, Highest(q, n));
          NextAt(out, q, In(before), pri);
          GetAccounts(out, q, In(before), pri, p);
        } else {
          assert Out(ops, pri, n) == out;
        }
      }
    }
  }

  lemma NothingYet<T>(pri: T -> nat, n: nat, p: nat)
    requires p < n
    ensures Accounted([], seq(n, _ => []), [], pri, p)
  {
  }

  /** First in, first out: in each priority the run has given out a prefix of what
      was put in. */
  lemma FirstInFirstOut<T>(ops: seq<Op<T>>, pri: T -> nat, n: nat, p: nat)
    requires Placed(ops, pri, n) && p < n
    ensures Of(Out(ops, pri, n), pri, p) <= Of(In(ops), pri, p)
  {
    OutThenQueued(ops, pri, n, p);
  }

  /** Everything of priority `p` that went in has come out. */
  ghost predicate Served<T>(ops: seq<Op<T>>, pri: T -> nat, n: nat, p: nat)
    requires Placed(ops, pri, n)
  {
    Of(Out(ops, pri, n), pri, p) == Of(In(ops), pri, p)
  }

  /** One more shift gives nothing exactly when everything has come out, and
      otherwise the oldest element that is left of the most urgent priority that
      has one left. */
  lemma MostUrgentFirst<T>(ops: seq<Op<T>>, pri: T -> nat, n: nat)
    requires Placed(ops, pri, n)
    ensures var out, out' := Out(ops, pri, n), Out(ops + [Get], pri, n);
      if forall p :: 0 <= p < n ==> Served(ops, pri, n, p) then out' == out
      else
        && |out'| == |out| + 1 && out'[..|out|] == out
        && var x := out'[|out|];
        && pri(x) < n && (forall p :: pri(x) < p < n ==> Served(ops, pri, n, p))
        && var gone, went := Of(out, pri, pri(x)), Of(In(ops), pri, pri(x));
        |gone| < |went| && x == went[|gone|]
  {
    assert (ops + [Get])[..|ops|] == ops;
    var q := After(ops, pri, n);
    forall p | 0 <= p < n
      ensures Of(Out(ops, pri, n), pri, p) + q[p] == Of(In(ops), pri, p)
      ensures Served(ops, pri, n, p) <==> q[p] == []
    {
      OutThenQueued(ops, pri, n, p);
    }
    var h := Highest(q, n);
    if h >= 0 {
      OutThenQueued(ops, pri, n, h);
      assert pri(q[h][0]) == h;
      assert !Served(ops, pri, n, h);
    }
  }
}
