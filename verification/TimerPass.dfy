/** The walk over the timers that starts again from the head after every callback
    (pubsub/ae.c), on values: its turns, where it stands, and when it ends. */
module TimerPass {
  import opened Timers

  // ----- The turns of the loop ------------------------------------------------------

  /** The list, the position in it, the next id, and what has fired. */
  datatype Walk = Walk(list: seq<Timer>, p: nat, id: int, fired: seq<int>)

  predicate AtEnd(w: Walk) {
    w.p >= |w.list|
  }

  /** One turn of the loop: a new timer or one that is not due is passed over;
      after firing one, the walk starts again. */
  function Turn(w: Walk, now: Clock, behave: int -> Action, maxId: int): Walk
    requires !AtEnd(w)
  {
    var t := w.list[w.p];
    if t.id > maxId || !Due(t, now) then w.(p := w.p + 1)
    else
      var c := behave(t.id).creates;
      Walk(CreateAll(c, w.id, now, []) + w.list[..w.p] + Fate(t, now, behave) + w.list[w.p + 1..],
           0, w.id + |c|, w.fired + [t.id])
  }

  lemma TurnFires(w: Walk, now: Clock, behave: int -> Action, maxId: int)
    requires !AtEnd(w) && w.list[w.p].id <= maxId && Due(w.list[w.p], now)
    ensures var t, v := w.list[w.p], Turn(w, now, behave, maxId); var c := behave(t.id).creates;
      && v.list == CreateAll(c, w.id, now, []) + w.list[..w.p] + Fate(t, now, behave) + w.list[w.p + 1..]
      && v.p == 0 && v.id == w.id + |c| && v.fired == w.fired + [t.id]
  {
  }

  function Turns(w: Walk, now: Clock, behave: int -> Action, maxId: int, n: nat): Walk {
    if n == 0 then w
    else
      var v := Turns(w, now, behave, maxId, n - 1);
      if AtEnd(v) then v else Turn(v, now, behave, maxId)
  }

  ghost predicate IsAfter(w: Walk, v: Walk, now: Clock, behave: int -> Action, maxId: int, n: nat) {
    Turns(w, now, behave, maxId, n) == v
  }

  /** Some number of turns leads from `w` to `v`. */
  ghost predicate Reaches(w: Walk, v: Walk, now: Clock, behave: int -> Action, maxId: int) {
    exists n: nat :: IsAfter(w, v, now, behave, maxId, n)
  }

  lemma ReachesMore(w: Walk, v: Walk, now: Clock, behave: int -> Action, maxId: int)
    requires Reaches(w, v, now, behave, maxId) && !AtEnd(v)
    ensures Reaches(w, Turn(v, now, behave, maxId), now, behave, maxId)
  {
    hide Turn;
    var n: nat :| IsAfter(w, v, now, behave, maxId, n);
    assert IsAfter(w, Turn(v, now, behave, maxId), now, behave, maxId, n + 1);
  }

  lemma ReachesItself(w: Walk, now: Clock, behave: int -> Action, maxId: int)
    ensures Reaches(w, w, now, behave, maxId)
  {
    assert IsAfter(w, w, now, behave, maxId, 0);
  }

  // ----- The state of the pass -----------------------------------------------------

  /** The list holds the new timers, what has become of the first `m` old ones,
      and the other old ones; the walk is at `p`, at most at the first of
      these. */
  ghost predicate Passing(ts: seq<Timer>, list: seq<Timer>, now: Clock, behave: int -> Action, id0: int,
          id: int, m: nat, p: nat) {
    && m <= |ts| && p <= |list|
    && (forall i :: 0 <= i < |ts| ==> ts[i].id < id0)
    && Reading(now) && WellBehaved(ts, now, behave)
    && id == id0 + |Requested(ts[..m], now, behave)|
    && list == New(ts, now, behave, id0, m) + Survivors(ts[..m], now, behave) + ts[m..]
    && p <= |New(ts, now, behave, id0, m)| + |Survivors(ts[..m], now, behave)|
  }

  ghost function New(ts: seq<Timer>, now: Clock, behave: int -> Action, id0: int, m: nat): seq<Timer>
    requires m <= |ts|
  {
    CreateAll(Requested(ts[..m], now, behave), id0, now, [])
  }

  lemma PassStarts(ts: seq<Timer>, now: Clock, behave: int -> Action, id0: int)
    requires Reading(now) && WellBehaved(ts, now, behave) && forall i :: 0 <= i < |ts| ==> ts[i].id < id0
    ensures Passing(ts, ts, now, behave, id0, id0, 0, 0) && DueIds(ts[..0], now) == []
  {
    assert ts[..0] == [];
  }

  /** New timers are the ones above `maxId`; settled ones are not due; a due one
      is the first unsettled. */
  lemma Position(ts: seq<Timer>, list: seq<Timer>, now: Clock, behave: int -> Action, id0: int, id: int, m: nat, p: nat)
    requires Passing(ts, list, now, behave, id0, id, m, p) && p < |list|
    ensures list[p].id > id0 - 1 ==> Passing(ts, list, now, behave, id0, id, m, p + 1)
    ensures list[p].id <= id0 - 1 && Due(list[p], now) ==>
      p == |New(ts, now, behave, id0, m)| + |Survivors(ts[..m], now, behave)| && m < |ts| && list[p] == ts[m]
  {
    var new_, kept := New(ts, now, behave, id0, m), Survivors(ts[..m], now, behave);
    CreateAllFront(Requested(ts[..m], now, behave), id0, now, []);
    SurvivorsAreOld(ts[..m], now, behave, id0);
    SurvivorsAreNotDue(ts[..m], now, behave);
    if p < |new_| {
      assert list[p] == new_[p];
    } else if p < |new_| + |kept| {
      assert list[p] == kept[p - |new_|];
    } else {
      assert list[p] == ts[m..][p - |new_| - |kept|];
    }
  }

  lemma PassSkips(ts: seq<Timer>, list: seq<Timer>, now: Clock, behave: int -> Action, id0: int, id: int,
          m: nat, p: nat)
    returns (moved: bool)
    requires Passing(ts, list, now, behave, id0, id, m, p) && p < |list|
    requires list[p].id <= id0 - 1 && !Due(list[p], now)
    ensures moved ==> m < |ts| && Passing(ts, list, now, behave, id0, id, m + 1, p + 1)
    ensures moved ==> DueIds(ts[..m + 1], now) == DueIds(ts[..m], now)
    ensures !moved ==> Passing(ts, list, now, behave, id0, id, m, p + 1)
  {
    var new_, kept := New(ts, now, behave, id0, m), Survivors(ts[..m], now, behave);
    moved := p == |new_| + |kept|;
    if moved {
      assert list[p] == ts[m..][0];
      assert ts[..m + 1][..m] == ts[..m];
      assert ts[m..] == [ts[m]] + ts[m + 1..];
      assert Requested(ts[..m + 1], now, behave) == Requested(ts[..m], now, behave);
    }
  }

  lemma PassFires(ts: seq<Timer>, list: seq<Timer>, list': seq<Timer>, now: Clock, behave: int -> Action,
          id0: int, id: int, m: nat, p: nat)
    requires Passing(ts, list, now, behave, id0, id, m, p) && m < |ts| && p < |list|
    requires p == |New(ts, now, behave, id0, m)| + |Survivors(ts[..m], now, behave)|
    requires list[p] == ts[m] && Due(ts[m], now)
    requires list' ==
      CreateAll(behave(ts[m].id).creates, id, now, []) + list[..p] + Fate(ts[m], now, behave) + list[p + 1..]
    ensures Passing(ts, list', now, behave, id0, id + |behave(ts[m].id).creates|, m + 1, 0)
    ensures DueIds(ts[..m + 1], now) == DueIds(ts[..m], now) + [ts[m].id]
  {
    hide Fate, CreateAll, WellBehaved, Due;
    var c, r := behave(ts[m].id).creates, Requested(ts[..m], now, behave);
    var new_, kept := New(ts, now, behave, id0, m), Survivors(ts[..m], now, behave);
    assert ts[..m + 1][..m] == ts[..m];
    assert ts[m..] == [ts[m]] + ts[m + 1..];
    CreateAllConcat(r, c, id0, now, []);
    CreateAllFront(c, id, now, new_);
    Splice(new_, kept, ts[m], ts[m + 1..], CreateAll(c, id, now, []), Fate(ts[m], now, behave), list);
  }

  lemma Splice(new_: seq<Timer>, kept: seq<Timer>, t: Timer, rest: seq<Timer>, more: seq<Timer>,
          fate: seq<Timer>, list: seq<Timer>)
    requires list == new_ + kept + ([t] + rest)
    ensures var p := |new_| + |kept|;
      more + list[..p] + fate + list[p + 1..] == (more + new_) + (kept + fate) + rest
  {
    var p := |new_| + |kept|;
    assert list[..p] == new_ + kept;
    assert list[p + 1..] == rest;
  }

  lemma PassEnds(ts: seq<Timer>, list: seq<Timer>, now: Clock, behave: int -> Action, id0: int, id: int, m: nat, p: nat)
    requires Passing(ts, list, now, behave, id0, id, m, p) && p == |list|
    ensures m == |ts| && ts[..m] == ts && id == id0 + |Requested(ts, now, behave)|
    ensures list == CreateAll(Requested(ts, now, behave), id0, now, Survivors(ts, now, behave))
  {
    assert ts[..|ts|] == ts;
    CreateAllFront(Requested(ts, now, behave), id0, now, Survivors(ts, now, behave));
  }

  // ----- When the walk ends ---------------------------------------------------------

  /** The walk is where `Passing` says, and has fired the due ones among the first
      `m` old timers. */
  ghost predicate OnItsWay(ts: seq<Timer>, w: Walk, now: Clock, behave: int -> Action, id0: int, m: nat) {
    Passing(ts, w.list, now, behave, id0, w.id, m, w.p) && w.fired == DueIds(ts[..m], now)
  }

  /** Each turn settles one more old timer, or moves on in an unchanged list. */
  lemma TurnOnItsWay(ts: seq<Timer>, w: Walk, now: Clock, behave: int -> Action, id0: int, m: nat) returns (m': nat)
    requires OnItsWay(ts, w, now, behave, id0, m) && !AtEnd(w)
    ensures var v := Turn(w, now, behave, id0 - 1);
      && OnItsWay(ts, v, now, behave, id0, m') && m' <= |ts| && v.p <= |v.list|
      && (m' == m + 1 || (m' == m && v.list == w.list && v.p == w.p + 1))
  {
    Position(ts, w.list, now, behave, id0, w.id, m, w.p);
    var v := Turn(w, now, behave, id0 - 1);
    m' := m;
    if w.list[w.p].id <= id0 - 1 {
      if Due(w.list[w.p], now) {
        PassFires(ts, w.list, v.list, now, behave, id0, w.id, m, w.p);
        m' := m + 1;
      } else {
        var moved := PassSkips(ts, w.list, now, behave, id0, w.id, m, w.p);
        m' := if moved then m + 1 else m;
      }
    }
    hide CreateAll, Fate, DueIds, New, Survivors, Requested, WellBehaved;
  }

  /** With well-behaved callbacks the walk gets to the end, and has then fired
      the timers that were due and no others. */
  lemma WalkEnds(ts: seq<Timer>, now: Clock, behave: int -> Action, id0: int) returns (n: nat)
    requires Reading(now) && WellBehaved(ts, now, behave) && forall i :: 0 <= i < |ts| ==> ts[i].id < id0
    ensures var w := Turns(Walk(ts, 0, id0, []), now, behave, id0 - 1, n);
      AtEnd(w) && w.fired == DueIds(ts, now)
  {
    var start, w, m := Walk(ts, 0, id0, []), Walk(ts, 0, id0, []), 0;
    n := 0;
    PassStarts(ts, now, behave, id0);
    assert OnItsWay(ts, w, now, behave, id0, m);
    hide OnItsWay, Turn;
    while !AtEnd(w)
      invariant Turns(start, now, behave, id0 - 1, n) == w && m <= |ts| && w.p <= |w.list|
      invariant OnItsWay(ts, w, now, behave, id0, m)
      decreases |ts| - m, |w.list| - w.p
    {
      m := TurnOnItsWay(ts, w, now, behave, id0, m);
      n, w := n + 1, Turn(w, now, behave, id0 - 1);
    }
    EndOfTheWay(ts, w, now, behave, id0, m);
  }

  lemma EndOfTheWay(ts: seq<Timer>, w: Walk, now: Clock, behave: int -> Action, id0: int, m: nat)
    requires OnItsWay(ts, w, now, behave, id0, m) && w.p == |w.list|
    ensures w.fired == DueIds(ts, now) && w.id == id0 + |Requested(ts, now, behave)|
    ensures w.list == CreateAll(Requested(ts, now, behave), id0, now, Survivors(ts, now, behave))
  {
    PassEnds(ts, w.list, now, behave, id0, w.id, m, w.p);
  }

  /** An old timer that is due and restless is still ahead of the walk. */
  ghost predicate Stuck(w: Walk, now: Clock, behave: int -> Action, maxId: int, k: nat) {
    w.p <= k < |w.list| && w.list[k].id <= maxId && Due(w.list[k], now) && Restless(behave(w.list[k].id).retval)
  }

  /** It stays ahead: firing it makes it due again, and the walk starts again. */
  lemma StuckStays(w: Walk, now: Clock, behave: int -> Action, maxId: int, k: nat) returns (k': nat)
    requires Reading(now) && Stuck(w, now, behave, maxId, k)
    ensures Stuck(Turn(w, now, behave, maxId), now, behave, maxId, k')
  {
    var t, w' := w.list[w.p], Turn(w, now, behave, maxId);
    if t.id > maxId || !Due(t, now) {
      k' := k;
    } else {
      var c, fate := behave(t.id).creates, Fate(t, now, behave);
      CreateAllFront(c, w.id, now, []);
      RearmedIsDueIffNegative(t, now, behave(t.id).retval);
      if k == w.p {
        k' := |c| + k;
        assert w'.list[k'] == fate[0];
      } else {
        k' := |c| + k - 1 + |fate|;
        assert w'.list[k'] == w.list[w.p + 1..][k - w.p - 1];
      }
    }
  }

  lemma {:induction false} StuckForEver(w: Walk, now: Clock, behave: int -> Action, maxId: int, k: nat, n: nat)
    returns (k': nat)
    requires Reading(now) && Stuck(w, now, behave, maxId, k)
    ensures Stuck(Turns(w, now, behave, maxId, n), now, behave, maxId, k')
  {
    if n == 0 {
      k' := k;
    } else {
      var k1 := StuckForEver(w, now, behave, maxId, k, n - 1);
      k' := StuckStays(Turns(w, now, behave, maxId, n - 1), now, behave, maxId, k1);
    }
  }

  ghost predicate EndsAfter(w: Walk, now: Clock, behave: int -> Action, maxId: int, n: nat) {
    AtEnd(Turns(w, now, behave, maxId, n))
  }

  /** The walk comes to an end. */
  ghost predicate Ends(w: Walk, now: Clock, behave: int -> Action, maxId: int) {
    exists n: nat :: EndsAfter(w, now, behave, maxId, n)
  }

  /** While the clock stands, the pass ends if and only if every timer that is due
      returns `AE_NOMORE` or a delay that is not negative. */
  lemma PassEndsIff(ts: seq<Timer>, now: Clock, behave: int -> Action, id0: int)
    requires Reading(now) && forall i :: 0 <= i < |ts| ==> ts[i].id < id0
    ensures Ends(Walk(ts, 0, id0, []), now, behave, id0 - 1) <==> WellBehaved(ts, now, behave)
  {
    var start, maxId := Walk(ts, 0, id0, []), id0 - 1;
    if WellBehaved(ts, now, behave) {
      var n := WalkEnds(ts, now, behave, id0);
      assert EndsAfter(start, now, behave, maxId, n);
    } else {
      var k :| 0 <= k < |ts| && Due(ts[k], now) && Restless(behave(ts[k].id).retval);
      forall n: nat
        ensures !EndsAfter(start, now, behave, maxId, n)
      {
        var _ := StuckForEver(start, now, behave, maxId, k, n);
      }
    }
  }
}
