/** What a pass over the timers leaves behind (pubsub/ae.c), timer by timer:
    which are there, with which ids, and when they are due. */
module TimerResults {
  import opened Timers

  /** From the reading `now` on the timer is due exactly when the delay is over. */
  ghost predicate DueAfter(t: Timer, now: Clock, delay: int) {
    forall later :: Reading(later) && Total(now) <= Total(later) ==>
      (Due(t, later) <==> Total(now) + delay < Total(later))
  }

  /** A timer with this id is there, and is due when the delay is over. */
  ghost predicate IsArmed(after: seq<Timer>, id: int, now: Clock, delay: int) {
    exists k :: 0 <= k < |after| && after[k].id == id && DueAfter(after[k], now, delay)
  }

  /** An old timer stays as it is when it was not due, is gone when its callback
      returned `AE_NOMORE`, and otherwise runs again after the delay returned. */
  ghost predicate OldSettled(t: Timer, now: Clock, behave: int -> Action, after: seq<Timer>) {
    if !Due(t, now) then t in after
    else if behave(t.id).retval == AE_NOMORE then forall k :: 0 <= k < |after| ==> after[k].id != t.id
    else IsArmed(after, t.id, now, behave(t.id).retval)
  }

  /** How many timers the callbacks of the first `i` timers create. */
  function CreatedBefore(ts: seq<Timer>, now: Clock, behave: int -> Action, i: nat): nat
    requires i <= |ts|
  {
    if i == 0 then 0
    else CreatedBefore(ts, now, behave, i - 1) + if Due(ts[i - 1], now) then |behave(ts[i - 1].id).creates| else 0
  }

  /** Each timer that the callback of timer `i` creates is there under the next id
      that is free, and is due when its own delay is over. */
  ghost predicate NewSettled(ts: seq<Timer>, now: Clock, behave: int -> Action, id0: int, after: seq<Timer>, i: nat)
    requires i < |ts|
  {
    var c, id := behave(ts[i].id).creates, id0 + CreatedBefore(ts, now, behave, i);
    Due(ts[i], now) ==> forall j :: 0 <= j < |c| ==> IsArmed(after, id + j, now, c[j])
  }

  /** An entry of the list is an old timer or one of those created. */
  ghost predicate Accounted(ts: seq<Timer>, now: Clock, behave: int -> Action, id0: int, t: Timer) {
    || (id0 <= t.id < id0 + CreatedBefore(ts, now, behave, |ts|))
    || exists i :: 0 <= i < |ts| && ts[i].id == t.id
  }

  /** The list after a pass over `ts`; ids fall along it, so that none is there
      twice. */
  ghost predicate Settled(ts: seq<Timer>, now: Clock, behave: int -> Action, id0: int, after: seq<Timer>) {
    && Descending(after)
    && (forall i :: 0 <= i < |ts| ==> OldSettled(ts[i], now, behave, after))
    && (forall i :: 0 <= i < |ts| ==> NewSettled(ts, now, behave, id0, after, i))
    && (forall k :: 0 <= k < |after| ==> Accounted(ts, now, behave, id0, after[k]))
  }

  lemma RearmedDueAfter(t: Timer, now: Clock, delay: int)
    requires Reading(now)
    ensures DueAfter(Rearmed(t, now, delay), now, delay)
  {
    forall later | Reading(later) && Total(now) <= Total(later)
      ensures Due(Rearmed(t, now, delay), later) <==> Total(now) + delay < Total(later)
    {
      ArmedIsDueOnTime(t, now, delay, later);
    }
  }

  // ----- Old timers ---------------------------------------------------------------

  ghost predicate IsOld(ts: seq<Timer>, id: int) {
    exists i :: 0 <= i < |ts| && ts[i].id == id
  }

  /** More timers behind settle those before them no differently. */
  lemma StaysSettled(t: Timer, now: Clock, behave: int -> Action, a: seq<Timer>, b: seq<Timer>, c: seq<Timer>)
    requires OldSettled(t, now, behave, b)
    requires forall k :: 0 <= k < |a| ==> a[k].id != t.id
    requires forall k :: 0 <= k < |c| ==> c[k].id != t.id
    ensures OldSettled(t, now, behave, a + b + c)
  {
    hide DueAfter, Due;
    if Due(t, now) && behave(t.id).retval != AE_NOMORE {
      var d := behave(t.id).retval;
      var k :| 0 <= k < |b| && b[k].id == t.id && DueAfter(b[k], now, d);
      assert (a + b + c)[|a| + k] == b[k];
    }
  }

  lemma FateSettles(t: Timer, now: Clock, behave: int -> Action)
    requires Reading(now)
    ensures OldSettled(t, now, behave, Fate(t, now, behave))
    ensures |Fate(t, now, behave)| <= 1
    ensures forall k :: 0 <= k < |Fate(t, now, behave)| ==> Fate(t, now, behave)[k].id == t.id
  {
    var fate := Fate(t, now, behave);
    if Due(t, now) && behave(t.id).retval != AE_NOMORE {
      RearmedDueAfter(t, now, behave(t.id).retval);
      assert DueAfter(fate[0], now, behave(t.id).retval);
    }
  }

  lemma {:induction false} SurvivorsSettle(ts: seq<Timer>, now: Clock, behave: int -> Action)
    requires Reading(now) && Descending(ts)
    ensures var kept := Survivors(ts, now, behave);
      && Descending(kept)
      && (forall k :: 0 <= k < |kept| ==> IsOld(ts, kept[k].id))
      && (forall i :: 0 <= i < |ts| ==> OldSettled(ts[i], now, behave, kept))
  {
    hide OldSettled, Fate;
    if ts != [] {
      var front, t := ts[..|ts| - 1], ts[|ts| - 1];
      SurvivorsSettle(front, now, behave);
      FateSettles(t, now, behave);
      var kept, fate := Survivors(front, now, behave), Fate(t, now, behave);
      assert kept + fate == [] + kept + fate == kept + fate + [];
      assert forall i :: 0 <= i < |front| ==> ts[i] == front[i] && front[i].id > t.id;
      forall k | 0 <= k < |kept|
        ensures IsOld(ts, kept[k].id) && kept[k].id > t.id
      {
        var i :| 0 <= i < |front| && front[i].id == kept[k].id;
        assert ts[i].id == kept[k].id;
      }
      assert IsOld(ts, t.id);
      forall i | 0 <= i < |ts|
        ensures OldSettled(ts[i], now, behave, kept + fate)
      {
        if i < |front| {
          StaysSettled(ts[i], now, behave, [], kept, fate);
        } else {
          StaysSettled(t, now, behave, kept, fate, []);
        }
      }
    }
  }

  // ----- New timers ---------------------------------------------------------------

  /** The `m`th timer that is created stands `m` places before the first. */
  lemma {:induction false} CreatedAt(delays: seq<int>, id: int, now: Clock, m: nat)
    requires m < |delays|
    ensures |CreateAll(delays, id, now, [])| == |delays|
    ensures CreateAll(delays, id, now, [])[|delays| - 1 - m] == Rearmed(Timer(id + m, 0, 0), now, delays[m])
    decreases |delays|
  {
    var t := Rearmed(Timer(id, 0, 0), now, delays[0]);
    CreateAllFront(delays[1..], id + 1, now, [t] + []);
    assert [t] + [] == [t];
    if m > 0 {
      CreatedAt(delays[1..], id + 1, now, m - 1);
    }
  }

  /** What is asked for comes in the order of the timers that ask. */
  lemma {:induction false} RequestedAt(ts: seq<Timer>, now: Clock, behave: int -> Action, i: nat, j: nat)
    requires i < |ts| && Due(ts[i], now) && j < |behave(ts[i].id).creates|
    ensures var r, at := Requested(ts, now, behave), CreatedBefore(ts, now, behave, i) + j;
      at < |r| && r[at] == behave(ts[i].id).creates[j]
  {
    var front := ts[..|ts| - 1];
    CountRequested(front, now, behave);
    SameCount(ts, front, now, behave, i);
    if i < |front| {
      RequestedAt(front, now, behave, i, j);
    }
  }

  lemma {:induction false} SameCount(ts: seq<Timer>, front: seq<Timer>, now: Clock, behave: int -> Action, i: nat)
    requires i <= |front| <= |ts| && front == ts[..|front|]
    ensures CreatedBefore(ts, now, behave, i) == CreatedBefore(front, now, behave, i)
  {
    if i > 0 {
      SameCount(ts, front, now, behave, i - 1);
    }
  }

  lemma {:induction false} CountRequested(ts: seq<Timer>, now: Clock, behave: int -> Action)
    ensures |Requested(ts, now, behave)| == CreatedBefore(ts, now, behave, |ts|)
  {
    if ts != [] {
      var front := ts[..|ts| - 1];
      CountRequested(front, now, behave);
      SameCount(ts, front, now, behave, |front|);
    }
  }

  lemma NewOnesSettle(ts: seq<Timer>, now: Clock, behave: int -> Action, id0: int, kept: seq<Timer>, i: nat)
    requires Reading(now) && i < |ts|
    ensures NewSettled(ts, now, behave, id0, CreateAll(Requested(ts, now, behave), id0, now, []) + kept, i)
  {
    var r, c, before := Requested(ts, now, behave), behave(ts[i].id).creates, CreatedBefore(ts, now, behave, i);
    var new_ := CreateAll(r, id0, now, []);
    if Due(ts[i], now) {
      hide CreateAll, Requested, CreatedBefore, DueAfter, Due;
      forall j | 0 <= j < |c|
        ensures IsArmed(new_ + kept, id0 + before + j, now, c[j])
      {
        RequestedAt(ts, now, behave, i, j);
        CreatedAt(r, id0, now, before + j);
        var t := Timer(id0 + (before + j), 0, 0);
        RearmedDueAfter(t, now, c[j]);
        assert (new_ + kept)[|r| - 1 - (before + j)] == Rearmed(t, now, c[j]);
      }
    }
  }

  // ----- The whole list -------------------------------------------------------------

  /** Ids fall from the new timers down to the old ones. */
  lemma IdsFall(new_: seq<Timer>, kept: seq<Timer>, id0: int)
    requires Descending(kept) && forall k :: 0 <= k < |kept| ==> kept[k].id < id0
    requires forall k :: 0 <= k < |new_| ==> new_[k].id == id0 + |new_| - 1 - k
    ensures Descending(new_ + kept)
  {
  }

  lemma AllAccounted(ts: seq<Timer>, now: Clock, behave: int -> Action, id0: int, new_: seq<Timer>, kept: seq<Timer>)
    requires forall k :: 0 <= k < |kept| ==> IsOld(ts, kept[k].id)
    requires forall k :: 0 <= k < |new_| ==> new_[k].id == id0 + |new_| - 1 - k
    requires |new_| == CreatedBefore(ts, now, behave, |ts|)
    ensures forall k :: 0 <= k < |new_ + kept| ==> Accounted(ts, now, behave, id0, (new_ + kept)[k])
  {
    hide CreatedBefore;
    forall k | 0 <= k < |new_ + kept|
      ensures Accounted(ts, now, behave, id0, (new_ + kept)[k])
    {
      if k >= |new_| {
        assert IsOld(ts, kept[k - |new_|].id);
      }
    }
  }

  lemma EachSettled(ts: seq<Timer>, now: Clock, behave: int -> Action, id0: int, kept: seq<Timer>, i: nat)
    requires Reading(now) && i < |ts| && ts[i].id < id0 && OldSettled(ts[i], now, behave, kept)
    ensures var after := CreateAll(Requested(ts, now, behave), id0, now, []) + kept;
      OldSettled(ts[i], now, behave, after) && NewSettled(ts, now, behave, id0, after, i)
  {
    var r := Requested(ts, now, behave);
    var new_ := CreateAll(r, id0, now, []);
    CreateAllFront(r, id0, now, kept);
    hide CreateAll, Requested, OldSettled, NewSettled;
    StaysSettled(ts[i], now, behave, new_, kept, []);
    assert new_ + kept + [] == new_ + kept;
    NewOnesSettle(ts, now, behave, id0, kept, i);
  }

  lemma OldIdsBelow(ts: seq<Timer>, kept: seq<Timer>, id0: int)
    requires forall i :: 0 <= i < |ts| ==> ts[i].id < id0
    requires forall k :: 0 <= k < |kept| ==> IsOld(ts, kept[k].id)
    ensures forall k :: 0 <= k < |kept| ==> kept[k].id < id0
  {
    forall k | 0 <= k < |kept|
      ensures kept[k].id < id0
    {
      assert IsOld(ts, kept[k].id);
    }
  }

  /** The list that a pass leaves is settled. */
  lemma PassSettles(ts: seq<Timer>, now: Clock, behave: int -> Action, id0: int)
    requires Reading(now) && Descending(ts) && forall i :: 0 <= i < |ts| ==> ts[i].id < id0
    ensures Settled(ts, now, behave, id0, CreateAll(Requested(ts, now, behave), id0, now, Survivors(ts, now, behave)))
  {
    var r, kept := Requested(ts, now, behave), Survivors(ts, now, behave);
    var new_ := CreateAll(r, id0, now, []);
    CreateAllFront(r, id0, now, kept);
    CountRequested(ts, now, behave);
    SurvivorsSettle(ts, now, behave);
    OldIdsBelow(ts, kept, id0);
    IdsFall(new_, kept, id0);
    AllAccounted(ts, now, behave, id0, new_, kept);
    hide CreateAll, Requested, Survivors, CreatedBefore, OldSettled, NewSettled, Descending, Accounted, IsOld;
    forall i | 0 <= i < |ts|
      ensures OldSettled(ts[i], now, behave, new_ + kept) && NewSettled(ts, now, behave, id0, new_ + kept, i)
    {
      EachSettled(ts, now, behave, id0, kept, i);
    }
  }
}
