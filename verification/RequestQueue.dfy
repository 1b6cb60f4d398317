/** `etp_reqq` (libeio/etp.c): one linked list with head and tail for each
    priority, and a total size. */
module RequestQueue {
  import opened Basics
  import opened PriorityFifo
  import opened Requests

  /** The priority index that `etp_submit` computes in place: the subtraction is
      stored in a signed char before it is clamped. */
  function PriorityIndex(pri: int): (r: int)
    requires -128 <= pri < 128
    ensures 0 <= r < NUM_PRI
  {
    var p := SignedChar(pri - PRI_MIN);
    var q := if p < 0 then 0 else p;
    if q > PRI_MAX - PRI_MIN then PRI_MAX - PRI_MIN else q
  }

  function Clamp(x: int, lo: int, hi: int): int {
    if x < lo then lo else if x > hi then hi else x
  }

  /** The index is the nearest legal priority, except that priorities from 124
      up wrap around and become the least urgent. */
  lemma PriorityIndexClamps(pri: int)
    requires -128 <= pri < 128
    ensures PriorityIndex(pri) == Clamp(pri, PRI_MIN, PRI_MAX) - PRI_MIN <==> pri < 124
    ensures pri >= 124 ==> PriorityIndex(pri) == 0
  {
  }

  /** The linked list of priority `pri` is the sequence `s`. */
  ghost predicate Chain(s: seq<Request>, pri: int, head: Request?, tail: Request?)
    reads s
  {
    && (s == [] <==> head == null)
    && (s == [] <==> tail == null)
    && (s != [] ==> head == s[0] && tail == s[|s| - 1] && s[|s| - 1].next == null)
    && (forall i :: 0 <= i < |s| - 1 ==> s[i].next == s[i + 1])
    && (forall i :: 0 <= i < |s| ==> s[i].pri == pri)
    && (forall i, j :: 0 <= i < j < |s| ==> s[i] != s[j])
  }

  class ReqQueue {
    var qs: array<Request?>
    var qe: array<Request?>
    var size: int
    ghost var Q: Fifo<Request>
    /** The requests in the queue. */
    ghost var Nodes: set<Request>

    ghost predicate Valid()
      reads this, qs, qe, Nodes
    {
      && qs != qe && qs.Length == qe.Length == |Q| == NUM_PRI
      && size == Size(Q)
      && (forall p, r :: 0 <= p < NUM_PRI && r in Q[p] ==> r in Nodes)
      && forall p :: 0 <= p < NUM_PRI ==> Chain(Q[p], p, qs[p], qe[p])
    }

    /** `reqq_init` */
    constructor ()
      ensures Valid() && fresh(qs) && fresh(qe)
      ensures Q == seq(NUM_PRI, i => []) && Nodes == {}
    {
      qs := new Request?[NUM_PRI](i => null);
      qe := new Request?[NUM_PRI](i => null);
      size := 0;
      Q := seq(NUM_PRI, i => []);
      Nodes := {};
      new;
      EmptySize(Q);
    }

    /** `reqq_push`: the request goes to the end of its priority; the result is
        the old size. */
    method Push(req: Request) returns (oldSize: int)
      requires Valid() && 0 <= req.pri < NUM_PRI && req !in Nodes
      modifies this, qs, qe, req`next, Nodes`next
      ensures Valid() && qs == old(qs) && qe == old(qe)
      ensures Q == PriorityFifo.Push(old(Q), req.pri, req) && Nodes == old(Nodes) + {req}
      ensures oldSize == Size(old(Q))
    {
      hide Size, Bag, Highest;
      var pri := req.pri;
      ghost var s := Q[pri];
      PushSize(Q, pri, req);
      assert forall i :: 0 <= i < |s| ==> s[i] in Q[pri];
      req.next := null;
      if qe[pri] != null {
        assert qe[pri] == s[|s| - 1];
        qe[pri].next := req;
        qe[pri] := req;
      } else {
        qe[pri] := req;
        qs[pri] := req;
      }
      oldSize := size;
      size := size + 1;
      ghost var before := Q;
      Q := PriorityFifo.Push(Q, pri, req);
      Nodes := Nodes + {req};
      forall p | 0 <= p < NUM_PRI
        ensures Chain(Q[p], p, qs[p], qe[p])
      {
        assert old(Chain(before[p], p, qs[p], qe[p]));
        if p == pri {
          assert forall i :: 0 <= i < |s| ==> s[i] in before[pri];
          assert Q[p] == s + [req];
        } else {
          assert forall i :: 0 <= i < |before[p]| ==> before[p][i] in before[p];
          assert Q[p] == before[p];
        }
      }
    }

    /** Unlink the first request of one priority. */
    method TakeFirst(pri: nat) returns (req: Request)
      requires Valid() && pri < NUM_PRI && Highest(Q, NUM_PRI) == pri
      modifies this, qs, qe
      ensures Valid() && qs == old(qs) && qe == old(qe)
      ensures req == Next(old(Q)) && Q == Rest(old(Q)) && req.pri == pri
      ensures req in old(Nodes) && Nodes == old(Nodes) - {req}
    {
      hide Size, Bag, Highest;
      ghost var s := Q[pri];
      assert Chain(s, pri, qs[pri], qe[pri]) && s != [] && s[0] in Q[pri];
      assert |s| > 1 ==> s[0].next == s[1];
      RestBag(Q);
      req := qs[pri];
      size := size - 1;
      qs[pri] := req.next;
      if qs[pri] == null {
        qe[pri] := null;
      }
      assert Chain(s[1..], pri, qs[pri], qe[pri]);
      Q := Rest(Q);
      Nodes := Nodes - {req};
    }

    /** `reqq_shift`: null when there is nothing, otherwise the oldest request of
        the highest priority. The `abort ()` behind the loop is unreachable. */
    method Shift() returns (req: Request?)
      requires Valid()
      modifies this, qs, qe
      ensures Valid() && qs == old(qs) && qe == old(qe)
      ensures req == null <==> Size(old(Q)) == 0
      ensures req == null ==> Q == old(Q) && Nodes == old(Nodes)
      ensures req != null ==>
        && Highest(old(Q), NUM_PRI) >= 0 && req == Next(old(Q)) && Q == Rest(old(Q))
        && req.pri == Highest(old(Q), NUM_PRI)
        && req in old(Nodes) && Nodes == old(Nodes) - {req}
    {
      EmptyIffSizeZero(Q);
      if size == 0 {
        return null;
      }
      var pri := NUM_PRI - 1;
      while qs[pri] == null
        invariant 0 <= pri < NUM_PRI
        invariant Highest(Q, NUM_PRI) == Highest(Q, pri + 1)
        decreases pri
      {
        assert Chain(Q[pri], pri, qs[pri], qe[pri]);
        pri := pri - 1;
      }
      assert Chain(Q[pri], pri, qs[pri], qe[pri]);
      req := TakeFirst(pri);
    }
  }

  lemma {:induction false} EmptySize(q: Fifo<Request>)
    requires forall i :: 0 <= i < |q| ==> q[i] == []
    ensures Size(q) == 0
  {
    if q != [] {
      EmptySize(q[..|q| - 1]);
    }
  }
}
