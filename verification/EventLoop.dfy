/** The timer list of the event loop (pubsub/ae.c): linked nodes, and the pass
    that restarts from the head after every callback. */
module EventLoop {
  import opened Basics
  import opened TimerPass
  import opened Timers
  import TimerResults

  /** `aeTimeEvent` */
  class Node {
    var id: int
    var sec: int
    var ms: int
    var next: Node?

    constructor (id: int, sec: int, ms: int, next: Node?)
      ensures this.id == id && this.sec == sec && this.ms == ms && this.next == next
    {
      this.id, this.sec, this.ms, this.next := id, sec, ms, next;
    }
  }

  /** Node `i` holds timer `i` and is linked to the node behind it. */
  ghost predicate NodeOk(nodes: seq<Node>, ts: seq<Timer>, i: nat)
    requires i < |nodes| == |ts|
    reads nodes
  {
    && Timer(nodes[i].id, nodes[i].sec, nodes[i].ms) == ts[i]
    && nodes[i].next == (if i == |nodes| - 1 then null else nodes[i + 1])
  }

  class Loop {
    var head: Node?
    var nextId: int
    var lastTime: int
    /** The nodes, first to last, and the timers that they hold. */
    ghost var Nodes: seq<Node>
    ghost var Contents: seq<Timer>

    ghost predicate Valid()
      reads this, Nodes
    {
      && |Nodes| == |Contents|
      && head == (if Nodes == [] then null else Nodes[0])
      && (forall i :: 0 <= i < |Nodes| ==> NodeOk(Nodes, Contents, i))
      && Descending(Contents)
      && (forall i :: 0 <= i < |Contents| ==> Contents[i].id < nextId)
    }

    constructor (now: Clock)
      ensures Valid() && Contents == [] && nextId == 0 && lastTime == now.sec
    {
      head, nextId, lastTime, Nodes, Contents := null, 0, now.sec, [], [];
    }

    /** Different timers are in different nodes. */
    lemma NodesDiffer(i: nat, j: nat)
      requires Valid() && i < j < |Nodes|
      ensures Nodes[i] != Nodes[j]
    {
      assert NodeOk(Nodes, Contents, i) && NodeOk(Nodes, Contents, j);
      assert Contents[i].id > Contents[j].id;
    }

    /** `aeCreateTimeEvent`: the new timer becomes the head. */
    method Create(delay: int, now: Clock) returns (id: int)
      requires Valid()
      modifies this
      ensures Valid() && Nodes != [] && fresh(Nodes[0]) && Nodes[1..] == old(Nodes)
      ensures id == old(nextId) && nextId == old(nextId) + 1 && lastTime == old(lastTime)
      ensures Contents == [Rearmed(Timer(id, 0, 0), now, delay)] + old(Contents)
    {
      id := nextId;
      nextId := nextId + 1;
      var when := Later(now, delay);
      var te := new Node(id, when.sec, when.ms, head);
      ghost var nodes, ts := Nodes, Contents;
      assert forall i :: 0 <= i < |nodes| ==> NodeOk(nodes, ts, i);
      head := te;
      Nodes, Contents := [te] + nodes, [Rearmed(Timer(id, 0, 0), now, delay)] + ts;
      forall i | 0 <= i < |Nodes|
        ensures NodeOk(Nodes, Contents, i)
      {
        if i > 0 {
          assert NodeOk(nodes, ts, i - 1);
        }
      }
    }

    /** Take node `k`, behind `prev`, out of the list. */
    method Unlink(prev: Node?, ghost k: nat)
      requires Valid() && k < |Nodes|
      requires prev == (if k == 0 then null else Nodes[k - 1])
      modifies this`head, this`Nodes, this`Contents, Nodes`next
      ensures Valid()
      ensures Nodes == Without(old(Nodes), k) && Contents == Without(old(Contents), k)
    {
      ghost var nodes, ts := Nodes, Contents;
      forall i, j | 0 <= i < j < |nodes|
        ensures nodes[i] != nodes[j]
      {
        NodesDiffer(i, j);
      }
      assert NodeOk(nodes, ts, k);
      if prev == null {
        head := head.next;
      } else {
        assert NodeOk(nodes, ts, k - 1);
        prev.next := prev.next.next;
      }
      Nodes, Contents := Without(nodes, k), Without(ts, k);
      forall i | 0 <= i < |Nodes|
        ensures NodeOk(Nodes, Contents, i)
      {
        var j := if i < k then i else i + 1;
        assert old(NodeOk(nodes, ts, j));
      }
    }

    /** `aeDeleteTimeEvent` */
    method Delete(id: int) returns (ok: bool, ghost k: nat)
      requires Valid()
      modifies this`head, this`Nodes, this`Contents, Nodes`next
      ensures Valid()
      ensures !ok ==> Nodes == old(Nodes) && Contents == old(Contents)
      ensures !ok ==> forall i :: 0 <= i < |Contents| ==> Contents[i].id != id
      ensures ok ==> k < |old(Nodes)| && old(Contents)[k].id == id
      ensures ok ==> Nodes == Without(old(Nodes), k) && Contents == Without(old(Contents), k)
    {
      var prev: Node? := null;
      var te := head;
      k := 0;
      while te != null
        invariant k <= |Nodes| && te == (if k == |Nodes| then null else Nodes[k])
        invariant prev == (if k == 0 then null else Nodes[k - 1])
        invariant forall i :: 0 <= i < k ==> Contents[i].id != id
        decreases |Nodes| - k
      {
        assert NodeOk(Nodes, Contents, k);
        if te.id == id {
          Unlink(prev, k);
          return true, k;
        }
        prev := te;
        te := te.next;
        k := k + 1;
      }
      return false, k;
    }

    /** The skew correction: every timer's seconds become 0. */
    method ForgetTimes()
      requires Valid()
      modifies this`Contents, Nodes`sec
      ensures Valid() && Contents == Forgotten(old(Contents)) && Nodes == old(Nodes)
    {
      ghost var ts := Contents;
      forall i, j | 0 <= i < j < |Nodes|
        ensures Nodes[i] != Nodes[j]
      {
        NodesDiffer(i, j);
      }
      var te := head;
      ghost var k := 0;
      assert HalfForgotten(ts, 0) == ts;
      while te != null
        invariant 0 <= k <= |Nodes| && te == (if k == |Nodes| then null else Nodes[k])
        invariant Contents == ts
        invariant forall i :: 0 <= i < |Nodes| ==> NodeOk(Nodes, HalfForgotten(ts, k), i)
        decreases |Nodes| - k
      {
        assert NodeOk(Nodes, HalfForgotten(ts, k), k);
        ghost var before := HalfForgotten(ts, k);
        label L:
        te.sec := 0;
        k := k + 1;
        forall i | 0 <= i < |Nodes|
          ensures NodeOk(Nodes, HalfForgotten(ts, k), i)
        {
          assert old@L(NodeOk(Nodes, before, i));
        }
        te := te.next;
      }
      Contents := Forgotten(ts);
      assert HalfForgotten(ts, k) == Contents;
    }

    /** `te->when_sec` and `te->when_ms` set from the delay. */
    method Rearm(te: Node, delay: int, now: Clock, ghost k: nat)
      requires Valid() && k < |Nodes| && Nodes[k] == te
      modifies this`Contents, te`sec, te`ms
      ensures Valid() && Nodes == old(Nodes)
      ensures Contents == old(Contents)[k := Rearmed(old(Contents)[k], now, delay)]
    {
      ghost var ts := Contents;
      forall i, j | 0 <= i < j < |Nodes|
        ensures Nodes[i] != Nodes[j]
      {
        NodesDiffer(i, j);
      }
      assert NodeOk(Nodes, ts, k);
      var when := Later(now, delay);
      te.sec, te.ms := when.sec, when.ms;
      Contents := ts[k := Rearmed(ts[k], now, delay)];
      forall i | 0 <= i < |Nodes|
        ensures NodeOk(Nodes, Contents, i)
      {
        assert old(NodeOk(Nodes, ts, i));
      }
    }

    /** A callback: it creates its timers and returns its delay. */
    method RunCallback(id: int, now: Clock, behave: int -> Action) returns (retval: int)
      requires Valid()
      modifies this
      ensures Valid() && retval == behave(id).retval && lastTime == old(lastTime)
      ensures var c := behave(id).creates;
        && nextId == old(nextId) + |c|
        && Contents == CreateAll(c, old(nextId), now, old(Contents))
        && |Nodes| == |old(Nodes)| + |c| && Nodes[|c|..] == old(Nodes)
        && forall i :: 0 <= i < |c| ==> fresh(Nodes[i])
    {
      var c := behave(id).creates;
      var i := 0;
      assert c[0..] == c;
      while i < |c|
        invariant 0 <= i <= |c|
        invariant Valid() && lastTime == old(lastTime) && nextId == old(nextId) + i
        invariant CreateAll(c[i..], nextId, now, Contents) == CreateAll(c, old(nextId), now, old(Contents))
        invariant |Nodes| == |old(Nodes)| + i && Nodes[i..] == old(Nodes)
        invariant forall j :: 0 <= j < i ==> fresh(Nodes[j])
      {
        ghost var nodes := Nodes;
        assert c[i..][0] == c[i] && c[i..][1..] == c[i + 1..];
        var _ := Create(c[i], now);
        assert Nodes[i + 1..] == Nodes[1..][i..] == nodes[i..];
        assert forall j :: 0 < j <= i ==> Nodes[j] == Nodes[1..][j - 1] == nodes[j - 1];
        i := i + 1;
      }
      retval := behave(id).retval;
    }

    /** One timer that is due, at position `p`: run its callback, then re-arm or
        delete it. */
    method Fire(te: Node, now: Clock, behave: int -> Action, ghost p: nat)
      requires Valid() && p < |Nodes| && Nodes[p] == te && Due(Contents[p], now)
      modifies this, Nodes
      ensures Valid() && lastTime == old(lastTime)
      ensures forall i :: 0 <= i < |Nodes| ==> Nodes[i] in old(Nodes) || fresh(Nodes[i])
      ensures var c, t := behave(old(Contents)[p].id).creates, old(Contents)[p];
        && nextId == old(nextId) + |c|
        && Contents ==
             CreateAll(c, old(nextId), now, []) + old(Contents)[..p] + Fate(t, now, behave) + old(Contents)[p + 1..]
    {
      hide CreateAll;
      ghost var ts, nodes := Contents, Nodes;
      assert NodeOk(Nodes, Contents, p);
      var id := te.id;
      var retval := RunCallback(id, now, behave);
      ghost var c := behave(id).creates;
      CreateAllFront(c, old(nextId), now, ts);
      ghost var q := |c| + p;
      assert Nodes[q] == Nodes[|c|..][p] == te && Contents[q] == ts[p];
      assert forall i :: |c| <= i < |Nodes| ==> Nodes[i] == Nodes[|c|..][i - |c|];
      hide NodeOk, Descending, Loop.Valid;
      if retval != AE_NOMORE {
        Rearm(te, retval, now, q);
      } else {
        var _, k := Delete(id);
        assert k == q;
      }
    }

    /** `processTimeEvents`: every timer that was there before and is due fires
        exactly once, in list order, and no other does; timers created during
        the pass stay in front, untouched. */
    method Process(now: Clock, behave: int -> Action) returns (processed: nat, ghost fired: seq<int>)
      requires Valid() && Reading(now)
      requires WellBehaved(if now.sec < lastTime then Forgotten(Contents) else Contents, now, behave)
      modifies this, Nodes
      ensures Valid() && lastTime == now.sec
      ensures var ts := if now.sec < old(lastTime) then Forgotten(old(Contents)) else old(Contents);
        && fired == DueIds(ts, now) && processed == |fired|
        && Contents == CreateAll(Requested(ts, now, behave), old(nextId), now, Survivors(ts, now, behave))
        && nextId == old(nextId) + |Requested(ts, now, behave)|
        && TimerResults.Settled(ts, now, behave, old(nextId), Contents)
    {
      hide TimerResults.Settled, CreateAll, Requested, Survivors, NodeOk, Descending;
      if now.sec < lastTime {
        ForgetTimes();
      }
      WillSettle(now, behave);
      lastTime := now.sec;
      processed, fired := Pass(now, behave);
    }

    lemma WillSettle(now: Clock, behave: int -> Action)
      requires Valid() && Reading(now)
      ensures TimerResults.Settled(Contents, now, behave, nextId,
                CreateAll(Requested(Contents, now, behave), nextId, now, Survivors(Contents, now, behave)))
    {
      TimerResults.PassSettles(Contents, now, behave, nextId);
    }

    lemma Shape()
      requires Valid()
      ensures |Nodes| == |Contents| && head == (if Nodes == [] then null else Nodes[0])
    {
    }

    /** What a walk reads at position `p`. */
    lemma NodeAt(p: nat)
      requires Valid() && p < |Nodes|
      ensures Contents[p] == Timer(Nodes[p].id, Nodes[p].sec, Nodes[p].ms)
      ensures Nodes[p].next == (if p + 1 == |Nodes| then null else Nodes[p + 1])
    {
      assert NodeOk(Nodes, Contents, p);
    }

    /** One turn of the loop in `processTimeEvents`. */
    method TakeTurn(te: Node, now: Clock, behave: int -> Action, maxId: int, ghost w: Walk)
      returns (next: Node?, fires: bool)
      requires Valid() && w.list == Contents && w.id == nextId && w.p < |Nodes| && Nodes[w.p] == te
      modifies this, Nodes
      ensures Valid() && lastTime == old(lastTime)
      ensures forall i :: 0 <= i < |Nodes| ==> Nodes[i] in old(Nodes) || fresh(Nodes[i])
      ensures var v := Turn(w, now, behave, maxId);
        && Contents == v.list && nextId == v.id && v.p <= |Nodes|
        && next == (if v.p == |Nodes| then null else Nodes[v.p])
        && v.fired == w.fired + if fires then [old(te.id)] else []
    {
      NodeAt(w.p);
      hide NodeOk, CreateAll, Fate, Descending;
      fires := false;
      if te.id > maxId {
        next := te.next;
      } else if now.sec > te.sec || (now.sec == te.sec && now.ms > te.ms) {
        TurnFires(w, now, behave, maxId);
        Fire(te, now, behave, w.p);
        fires := true;
        next := head;
      } else {
        next := te.next;
      }
    }

    lemma Begins(now: Clock, behave: int -> Action)
      requires Valid() && Reading(now) && WellBehaved(Contents, now, behave)
      ensures OnItsWay(Contents, Walk(Contents, 0, nextId, []), now, behave, nextId, 0)
    {
      PassStarts(Contents, now, behave, nextId);
    }

    /** The walk of `processTimeEvents`. */
    method Pass(now: Clock, behave: int -> Action) returns (processed: nat, ghost fired: seq<int>)
      requires Valid() && Reading(now) && WellBehaved(Contents, now, behave)
      modifies this, Nodes
      ensures Valid() && lastTime == old(lastTime)
      ensures Reaches(Walk(old(Contents), 0, old(nextId), []), Walk(Contents, |Contents|, nextId, fired),
                      now, behave, old(nextId) - 1)
      ensures fired == DueIds(old(Contents), now) && processed == |fired|
      ensures Contents ==
        CreateAll(Requested(old(Contents), now, behave), old(nextId), now, Survivors(old(Contents), now, behave))
      ensures nextId == old(nextId) + |Requested(old(Contents), now, behave)|
    {
      hide OnItsWay, Reaches, Turn, DueIds, Requested, Survivors, CreateAll, Fate, NodeOk, Descending, WellBehaved,
        Due, Loop.Valid;
      processed, fired := 0, [];
      ghost var ts, id0, m := Contents, nextId, 0;
      ghost var start := Walk(ts, 0, id0, []);
      ghost var w := start;
      var te := head;
      var maxId := nextId - 1;
      Begins(now, behave);
      ReachesItself(start, now, behave, maxId);
      Shape();
      while te != null
        invariant Valid() && lastTime == old(lastTime)
        invariant forall i :: 0 <= i < |Nodes| ==> Nodes[i] in old(Nodes) || fresh(Nodes[i])
        invariant w == Walk(Contents, w.p, nextId, fired) && m <= |ts| && w.p <= |Nodes|
        invariant OnItsWay(ts, w, now, behave, id0, m) && Reaches(start, w, now, behave, maxId)
        invariant te == (if w.p == |Nodes| then null else Nodes[w.p]) && processed == |fired|
        decreases |ts| - m, |Nodes| - w.p
      {
        Shape();
        m := TurnOnItsWay(ts, w, now, behave, id0, m);
        ReachesMore(start, w, now, behave, maxId);
        ghost var id := te.id;
        var fires;
        te, fires := TakeTurn(te, now, behave, maxId, w);
        Shape();
        if fires {
          processed := processed + 1;
          fired := fired + [id];
        }
        w := Turn(w, now, behave, maxId);
      }
      Shape();
      EndOfTheWay(ts, w, now, behave, id0, m);
    }
  }

  ghost function HalfForgotten(ts: seq<Timer>, k: nat): (r: seq<Timer>)
    ensures |r| == |ts|
  {
    seq(|ts|, i requires 0 <= i < |ts| => if i < k then ts[i].(sec := 0) else ts[i])
  }
}
