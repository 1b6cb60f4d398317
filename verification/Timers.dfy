/** Timers of the event loop (pubsub/ae.c) as values: when they are due, and what
    one pass over them does. */
module Timers {

  const AE_NOMORE := -1

  /** A clock reading; `ms` is below 1000. */
  datatype Clock = Clock(sec: int, ms: int)

  ghost predicate Reading(now: Clock) {
    0 <= now.ms < 1000
  }

  datatype Timer = Timer(id: int, sec: int, ms: int)

  /** What a callback does: it returns a delay or `AE_NOMORE`, after creating
      timers with the given delays. */
  datatype Action = Action(retval: int, creates: seq<int>)

  /** The C operators `/` and `%` on a positive divisor. */
  function Quot(x: int, d: int): int
    requires d > 0
  {
    if x >= 0 then x / d else -(-x / d)
  }

  function Rem(x: int, d: int): int
    requires d > 0
  {
    if x >= 0 then x % d else -(-x % d)
  }

  /** `aeAddMillisecondsToNow` */
  function Later(now: Clock, delay: int): Clock {
    var sec := now.sec + Quot(delay, 1000);
    var ms := now.ms + Rem(delay, 1000);
    if ms >= 1000 then Clock(sec + 1, ms - 1000) else Clock(sec, ms)
  }

  function Total(c: Clock): int {
    1000 * c.sec + c.ms
  }

  /** The sum is exact; its millisecond part is proper exactly if the delay does
      not borrow from the seconds. */
  lemma LaterIsExact(now: Clock, delay: int)
    requires Reading(now)
    ensures Total(Later(now, delay)) == Total(now) + delay
    ensures Reading(Later(now, delay)) <==> now.ms + Rem(delay, 1000) >= 0
    ensures delay >= 0 ==> Reading(Later(now, delay))
  {
    if delay >= 0 {
      assert delay == 1000 * (delay / 1000) + delay % 1000;
    } else {
      assert -delay == 1000 * (-delay / 1000) + -delay % 1000;
    }
  }

  /** The test in `processTimeEvents`. */
  predicate Due(t: Timer, now: Clock) {
    now.sec > t.sec || (now.sec == t.sec && now.ms > t.ms)
  }

  /** At every reading the timer is due exactly when its time is past. */
  ghost predicate DueWhenPast(t: Timer) {
    forall now :: Reading(now) ==> (Due(t, now) <==> Total(Clock(t.sec, t.ms)) < Total(now))
  }

  /** The comparison of seconds and milliseconds goes wrong exactly for times that
      are written with fewer than -1 milliseconds. */
  lemma DueMeansPast(t: Timer)
    requires t.ms < 1000
    ensures DueWhenPast(t) <==> -1 <= t.ms
  {
    if -1 <= t.ms {
      assert forall now :: Reading(now) ==> (Due(t, now) <==> Total(Clock(t.sec, t.ms)) < Total(now));
    } else {
      var now := Clock(t.sec - 1, 999);
      assert Reading(now) && !Due(t, now) && Total(Clock(t.sec, t.ms)) < Total(now);
    }
  }

  function Rearmed(t: Timer, now: Clock, delay: int): Timer {
    var c := Later(now, delay);
    Timer(t.id, c.sec, c.ms)
  }

  /** For a timer that has been armed, that is a condition on the delay. */
  lemma ArmedIsDueWhenPast(t: Timer, armed: Clock, delay: int)
    requires Reading(armed)
    ensures DueWhenPast(Rearmed(t, armed, delay)) <==> armed.ms + Rem(delay, 1000) >= -1
  {
    RemBounds(delay);
    DueMeansPast(Rearmed(t, armed, delay));
  }

  lemma RemBounds(x: int)
    ensures -1000 < Rem(x, 1000) < 1000 && (x >= 0 ==> Rem(x, 1000) >= 0)
  {
  }

  /** From the reading that armed it onwards a timer is due exactly when the delay
      is over, whatever the delay. */
  lemma ArmedIsDueOnTime(t: Timer, armed: Clock, delay: int, now: Clock)
    requires Reading(armed) && Reading(now) && Total(armed) <= Total(now)
    ensures Due(Rearmed(t, armed, delay), now) <==> Total(armed) + delay < Total(now)
  {
    LaterIsExact(armed, delay);
    if delay >= 0 {
      RemBounds(delay);
      DueMeansPast(Rearmed(t, armed, delay));
    } else {
      assert -delay == 1000 * (-delay / 1000) + -delay % 1000;
    }
  }

  /** So a time goes wrong only after the clock was set back: armed at 7 s for
      1.9 s ago, the timer is not due at 5.5 s, although 5.1 s is past. */
  lemma SetBackClockDelays()
    ensures var armed, delay, now := Clock(7, 0), -1900, Clock(5, 500);
      && Later(armed, delay) == Clock(6, -900)
      && Total(armed) + delay < Total(now) && !Due(Rearmed(Timer(0, 0, 0), armed, delay), now)
  {
  }

  /** A timer that was just re-armed is due again, while the clock stands, exactly
      if the delay is negative. */
  lemma RearmedIsDueIffNegative(t: Timer, now: Clock, delay: int)
    requires Reading(now)
    ensures Due(Rearmed(t, now, delay), now) <==> delay < 0
  {
    if delay < 0 {
      assert -delay == 1000 * (-delay / 1000) + -delay % 1000;
    }
  }

  /** A delay that would make a timer fire again at once. */
  predicate Restless(retval: int) {
    retval < 0 && retval != AE_NOMORE
  }

  /** The timers that are due return `AE_NOMORE` or a delay that is not
      negative. */
  ghost predicate WellBehaved(ts: seq<Timer>, now: Clock, behave: int -> Action) {
    forall i :: 0 <= i < |ts| && Due(ts[i], now) ==> !Restless(behave(ts[i].id).retval)
  }

  // ----- What a pass does ---------------------------------------------------------

  /** The timers that fire, in list order. */
  function DueIds(ts: seq<Timer>, now: Clock): seq<int> {
    if ts == [] then []
    else DueIds(ts[..|ts| - 1], now) + if Due(ts[|ts| - 1], now) then [ts[|ts| - 1].id] else []
  }

  /** What becomes of one timer. */
  function Fate(t: Timer, now: Clock, behave: int -> Action): seq<Timer> {
    if !Due(t, now) then [t]
    else if behave(t.id).retval == AE_NOMORE then []
    else [Rearmed(t, now, behave(t.id).retval)]
  }

  /** What becomes of the timers that were there before. */
  function Survivors(ts: seq<Timer>, now: Clock, behave: int -> Action): seq<Timer> {
    if ts == [] then []
    else Survivors(ts[..|ts| - 1], now, behave) + Fate(ts[|ts| - 1], now, behave)
  }

  /** Put new timers before `front`, the newest first, with ids from `id` on. */
  function CreateAll(delays: seq<int>, id: int, now: Clock, front: seq<Timer>): seq<Timer> {
    if delays == [] then front
    else CreateAll(delays[1..], id + 1, now, [Rearmed(Timer(id, 0, 0), now, delays[0])] + front)
  }

  /** All delays that the callbacks of a pass ask for, in order. */
  function Requested(ts: seq<Timer>, now: Clock, behave: int -> Action): seq<int> {
    if ts == [] then []
    else Requested(ts[..|ts| - 1], now, behave) + if Due(ts[|ts| - 1], now) then behave(ts[|ts| - 1].id).creates else []
  }

  /** Setting all times to the epoch after the clock was set back. */
  function Forgotten(ts: seq<Timer>): seq<Timer> {
    seq(|ts|, i requires 0 <= i < |ts| => ts[i].(sec := 0))
  }

  // ----- Consequences --------------------------------------------------------------

  /** Ids fall along the list, as creation at the head makes them. */
  ghost predicate Descending(ts: seq<Timer>) {
    forall i, j :: 0 <= i < j < |ts| ==> ts[i].id > ts[j].id
  }

  lemma {:induction false} DueIdsSpec(ts: seq<Timer>, now: Clock, id: int)
    ensures id in DueIds(ts, now) <==> exists i :: 0 <= i < |ts| && ts[i].id == id && Due(ts[i], now)
  {
    if ts != [] {
      var front := ts[..|ts| - 1];
      DueIdsSpec(front, now, id);
      if i :| 0 <= i < |front| && front[i].id == id && Due(front[i], now) {
        assert ts[i] == front[i];
      }
    }
  }

  function Ids(ts: seq<Timer>): seq<int> {
    seq(|ts|, i requires 0 <= i < |ts| => ts[i].id)
  }

  /** No more timers fire than there are, and all of them only if all are due. */
  lemma {:induction false} AllDueIds(ts: seq<Timer>, now: Clock)
    ensures |DueIds(ts, now)| <= |ts|
    ensures DueIds(ts, now) == Ids(ts) <==> forall i :: 0 <= i < |ts| ==> Due(ts[i], now)
  {
    if ts != [] {
      var front, last := ts[..|ts| - 1], ts[|ts| - 1];
      AllDueIds(front, now);
      assert Ids(ts) == Ids(front) + [last.id];
      if DueIds(ts, now) == Ids(ts) {
        assert Due(last, now);
        assert DueIds(front, now) == DueIds(ts, now)[..|front|];
        assert Ids(front) == Ids(ts)[..|front|];
      }
      assert (forall i :: 0 <= i < |ts| ==> Due(ts[i], now)) ==>
        Due(last, now) && forall i :: 0 <= i < |front| ==> Due(front[i], now);
    }
  }

  /** After the clock was set back every old timer fires, in list order, unless
      the clock stands in the first second of its time and some timer's
      milliseconds are still to come. */
  lemma ForgottenAllFire(ts: seq<Timer>, now: Clock)
    requires now.sec >= 0
    ensures DueIds(Forgotten(ts), now) == Ids(ts) <==>
      now.sec > 0 || forall i :: 0 <= i < |ts| ==> ts[i].ms < now.ms
  {
    AllDueIds(Forgotten(ts), now);
    assert Ids(Forgotten(ts)) == Ids(ts);
    assert forall i :: 0 <= i < |ts| ==> Forgotten(ts)[i] == ts[i].(sec := 0);
  }

  /** So each timer that was due fires exactly once. */
  lemma {:induction false} FiresOnce(ts: seq<Timer>, now: Clock)
    requires Descending(ts)
    ensures var d := DueIds(ts, now);
      forall i, j :: 0 <= i < j < |d| ==> d[i] > d[j]
  {
    if ts != [] {
      var front := ts[..|ts| - 1];
      FiresOnce(front, now);
      var d := DueIds(front, now);
      forall i | 0 <= i < |d|
        ensures d[i] > ts[|ts| - 1].id
      {
        DueIdsSpec(front, now, d[i]);
      }
    }
  }

  /** After the pass no old timer is due. */
  lemma {:induction false} SurvivorsAreNotDue(ts: seq<Timer>, now: Clock, behave: int -> Action)
    requires Reading(now) && WellBehaved(ts, now, behave)
    ensures forall i :: 0 <= i < |Survivors(ts, now, behave)| ==> !Due(Survivors(ts, now, behave)[i], now)
  {
    if ts != [] {
      SurvivorsAreNotDue(ts[..|ts| - 1], now, behave);
      var t := ts[|ts| - 1];
      if Due(t, now) && behave(t.id).retval != AE_NOMORE {
        RearmedIsDueIffNegative(t, now, behave(t.id).retval);
      }
    }
  }

  /** Survivors are old timers. */
  lemma {:induction false} SurvivorsAreOld(ts: seq<Timer>, now: Clock, behave: int -> Action, bound: int)
    requires forall i :: 0 <= i < |ts| ==> ts[i].id < bound
    ensures forall i :: 0 <= i < |Survivors(ts, now, behave)| ==> Survivors(ts, now, behave)[i].id < bound
  {
    if ts != [] {
      SurvivorsAreOld(ts[..|ts| - 1], now, behave, bound);
    }
  }

  lemma {:induction false} CreateAllConcat(a: seq<int>, b: seq<int>, id: int, now: Clock, front: seq<Timer>)
    ensures CreateAll(a + b, id, now, front) == CreateAll(b, id + |a|, now, CreateAll(a, id, now, front))
  {
    if a == [] {
      assert a + b == b;
    } else {
      assert (a + b)[1..] == a[1..] + b;
      CreateAllConcat(a[1..], b, id + 1, now, [Rearmed(Timer(id, 0, 0), now, a[0])] + front);
    }
  }

  /** New timers are put in front of whatever is there. */
  lemma {:induction false} CreateAllFront(delays: seq<int>, id: int, now: Clock, front: seq<Timer>)
    ensures CreateAll(delays, id, now, front) == CreateAll(delays, id, now, []) + front
    ensures |CreateAll(delays, id, now, [])| == |delays|
    ensures forall i :: 0 <= i < |delays| ==> CreateAll(delays, id, now, [])[i].id == id + |delays| - 1 - i
    decreases |delays|
  {
    if delays != [] {
      var t := Rearmed(Timer(id, 0, 0), now, delays[0]);
      CreateAllFront(delays[1..], id + 1, now, [t] + front);
      CreateAllFront(delays[1..], id + 1, now, [t]);
      CreateAllFront(delays[1..], id + 1, now, []);
      assert [t] + [] == [t];
      var c := CreateAll(delays[1..], id + 1, now, []);
      assert c + ([t] + front) == (c + [t]) + front;
    }
  }
}
