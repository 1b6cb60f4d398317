/** What requests get from the thread pool: which one a worker or a poll takes
    next, and that everything submitted can be executed and delivered. */
module PoolDelivery {
  import opened Basics
  import opened PriorityFifo
  import opened Pool
  import opened PoolConservation
  import opened PoolEffects
  import opened PoolRuns

  // ----- Which item comes next ------------------------------------------------------

  /** `item` stands first in the most urgent priority that has anything, and all
      that has changed is that it is gone. */
  ghost predicate TakenFirst(q: Fifo<Item>, q': Fifo<Item>, item: Item) {
    var p := item.Pri();
    && |q'| == |q| && p < |q| && q[p] != [] && item == q[p][0]
    && (forall k :: p < k < |q| ==> q[k] == [])
    && q'[p] == q[p][1..] && forall k :: 0 <= k < |q| && k != p ==> q'[k] == q[k]
  }

  /** `item` stands last in its priority, and nothing else has changed. */
  ghost predicate PutLast(q: Fifo<Item>, q': Fifo<Item>, item: Item) {
    var p := item.Pri();
    && |q'| == |q| && p < |q| && q'[p] == q[p] + [item]
    && forall k :: 0 <= k < |q| && k != p ==> q'[k] == q[k]
  }

  lemma RestIsTakenFirst(q: Fifo<Item>)
    requires Filed(q) && Highest(q, |q|) >= 0
    ensures TakenFirst(q, Rest(q), Next(q))
  {
    hide Highest;
    assert q[Highest(q, |q|)][0].Pri() == Highest(q, |q|);
  }

  /** A worker that finds the queue not empty holds its most urgent item, the
      oldest of that priority, and no other. */
  lemma WorkerTakesFirst(s: State, w: nat)
    requires Shape(s) && Enabled(s, TakeOrWait(w)) && Size(s.reqQ) > 0
    ensures var t := Apply(s, TakeOrWait(w));
      w < |t.workers| && t.workers[w].Holding? && TakenFirst(s.reqQ, t.reqQ, t.workers[w].item)
  {
    EmptyIffSizeZero(s.reqQ);
    RestIsTakenFirst(s.reqQ);
    hide CallApply, PollApply, CallEnabled, PollEnabled, Size, Rest, Next, Highest, Filed, TakenFirst, Inc, Dec, Signed,
      PlacesInRange;
  }

  /** A message to quit overtakes all but the most urgent requests: while one is
      queued only items of the highest priority are taken. */
  lemma QuitsOvertake(s: State, w: nat, p: nat, i: nat)
    requires Shape(s) && Enabled(s, TakeOrWait(w)) && Size(s.reqQ) > 0
    requires p < |s.reqQ| && i < |s.reqQ[p]| && s.reqQ[p][i].Quit?
    ensures p == 8
    ensures var t := Apply(s, TakeOrWait(w)); w < |t.workers| && t.workers[w].Holding? && t.workers[w].item.Pri() == 8
  {
    WorkerTakesFirst(s, w);
    assert s.reqQ[p][i].Pri() == p;
    hide Apply, Enabled, Size;
  }

  /** A submitted request goes to the end of its own priority. */
  lemma SubmissionGoesLast(s: State, step: Step)
    requires Shape(s) && Enabled(s, step) && (step.SubmitWork? || step.EndThread?)
    ensures PutLast(s.reqQ, Apply(s, step).reqQ, step.item)
    ensures step.SubmitWork? ==> step.item.Pri() == step.item.pri
    ensures step.EndThread? ==> step.item.Pri() == 8
  {
    hide PollApply, WorkerApply, PollEnabled, WorkerEnabled, Size, Filed, Inc, Dec, Signed, PlacesInRange, Signal,
      AnyWaiting;
  }

  /** What has been executed goes to the end of its priority among the results, and
      so does a group that is submitted. */
  lemma ResultGoesLast(s: State, step: Step)
    requires Shape(s) && Enabled(s, step) && (step.Complete? || step.PublishGroup?)
    ensures step.Complete? ==> step.w < |s.workers| && s.workers[step.w].Holding?
    ensures step.PublishGroup? ==> s.call.Publishing?
    ensures PutLast(s.resQ, Apply(s, step).resQ, if step.Complete? then s.workers[step.w].item else s.call.item)
  {
    hide PollApply, PollEnabled, Size, Filed, Inc, Dec, Signed;
  }

  /** A poll takes the first of the most urgent results. */
  lemma PollTakesFirst(s: State)
    requires Shape(s) && Enabled(s, PollShift) && Size(s.resQ) > 0
    ensures var t := Apply(s, PollShift);
      t.poll.Got? && TakenFirst(s.resQ, t.resQ, t.poll.item)
  {
    EmptyIffSizeZero(s.resQ);
    RestIsTakenFirst(s.resQ);
    hide CallApply, WorkerApply, CallEnabled, WorkerEnabled, Size, Rest, Next, Highest, Filed, TakenFirst, Inc, Dec,
      PlacesInRange;
  }

  // ----- Idle threads -----------------------------------------------------------------

  /** A worker that finds nothing waits, with a timeout exactly if more than
      `max_idle` workers are idle, itself included. */
  lemma IdleThreadsWait(s: State, w: nat)
    requires Shape(s) && ThreadsAgree(s) && Enabled(s, TakeOrWait(w)) && Size(s.reqQ) == 0
    requires s.workers[w] != Woken(true)
    ensures var t := Apply(s, TakeOrWait(w));
      && w < |t.workers| && t.workers[w].Waiting?
      && (SeqSum(t.workers, IsIdle()) < WORD ==>
            (t.workers[w].timed <==> SeqSum(t.workers, IsIdle()) > s.maxIdle))
  {
    EmptyIffSizeZero(s.reqQ);
    var t := Apply(s, TakeOrWait(w));
    IdleKept(s, TakeOrWait(w));
    WaitsTimed(s, w);
    if SeqSum(t.workers, IsIdle()) < WORD {
      WordIsExact(t.idle, SeqSum(t.workers, IsIdle()));
    }
    hide Apply, Enabled, Shape, SeqSum, IsIdle, Size;
  }

  lemma IdleKept(s: State, step: Step)
    requires Shape(s) && ThreadsAgree(s) && Enabled(s, step) && IsWorkerStep(step)
    ensures Shows(Apply(s, step).idle, 0, SeqSum(Apply(s, step).workers, IsIdle()))
  {
    WorkerKeepsIdle(s, step);
  }

  lemma WaitsTimed(s: State, w: nat)
    requires Shape(s) && Enabled(s, TakeOrWait(w)) && Highest(s.reqQ, |s.reqQ|) < 0 && s.workers[w] != Woken(true)
    ensures var t := Apply(s, TakeOrWait(w));
      w < |t.workers| && t.workers[w].Waiting? && (t.workers[w].timed <==> t.idle > s.maxIdle)
  {
    hide CallApply, PollApply, CallEnabled, PollEnabled, Size, Rest, Next, Highest, Filed, Inc, Dec, PlacesInRange;
  }

  /** One that has timed out and still finds nothing leaves, and is then no longer
      counted as started. */
  lemma TimedOutThreadLeaves(s: State, w: nat)
    requires Shape(s) && w < |s.workers| && s.workers[w] == Waiting(true) && Size(s.reqQ) == 0
    ensures Enabled(s, TimeOut(w))
    ensures var s1 := Apply(s, TimeOut(w));
      && Shape(s1) && Enabled(s1, TakeOrWait(w))
      && var s2 := Apply(s1, TakeOrWait(w));
      && Shape(s2) && Enabled(s2, CountTimeout(w))
      && var s3 := Apply(s2, CountTimeout(w));
      && Shape(s3) && Enabled(s3, Leave(w))
      && var t := Apply(s3, Leave(w));
      t.workers == s.workers[w := Gone] && t.started == Dec(s.started) && t.reqQ == s.reqQ && t.resQ == s.resQ
  {
    EmptyIffSizeZero(s.reqQ);
    hide CallApply, PollApply, CallEnabled, PollEnabled, Size, Rest, Next, Highest, Filed, Inc, Dec;
    ShapeKept(s, TimeOut(w));
    var s1 := Apply(s, TimeOut(w));
    ShapeKept(s1, TakeOrWait(w));
    var s2 := Apply(s1, TakeOrWait(w));
    ShapeKept(s2, CountTimeout(w));
    var s3 := Apply(s2, CountTimeout(w));
    assert Apply(s3, Leave(w)).workers == s.workers[w := Gone];
  }

  // ----- Polling until nothing is left ------------------------------------------------

  /** Steps of the client lead from `s` to `t`. */
  ghost predicate ClientRun(s: State, steps: seq<Step>, t: State)
    decreases |steps|
  {
    if steps == [] then s == t
    else
      && Shape(s) && !IsWorkerStep(steps[0]) && Enabled(s, steps[0])
      && ClientRun(Apply(s, steps[0]), steps[1..], t)
  }

  lemma {:induction false} ClientRunIsRun(s: State, steps: seq<Step>, t: State)
    requires Shape(s) && ClientRun(s, steps, t)
    ensures IsRun(s, steps) && RunFrom(s, steps) == t
    decreases |steps|
  {
    if steps != [] {
      ShapeKept(s, steps[0]);
      hide Apply, Enabled, Shape;
      ClientRunIsRun(Apply(s, steps[0]), steps[1..], t);
    }
  }

  lemma OneStep(s: State, step: Step)
    requires Shape(s) && !IsWorkerStep(step) && Enabled(s, step)
    ensures ClientRun(s, [step], Apply(s, step))
  {
    hide Apply, Enabled, Filed;
    assert [step][1..] == [];
    assert ClientRun(Apply(s, step), [], Apply(s, step));
  }

  lemma {:induction false} Onwards(s: State, a: seq<Step>, m: State, b: seq<Step>, t: State)
    requires ClientRun(s, a, m) && ClientRun(m, b, t)
    ensures ClientRun(s, a + b, t)
    decreases |a|
  {
    hide Apply, Enabled, Filed, PlacesInRange, IsWorkerStep;
    if a == [] {
      assert a + b == b;
    } else {
      assert (a + b)[0] == a[0] && (a + b)[1..] == a[1..] + b;
      Onwards(Apply(s, a[0]), a[1..], m, b, t);
    }
  }

  /** What the check of `etp_maybe_start_thread` leaves alone. */
  ghost predicate SameResults(s: State, t: State) {
    && t.resQ == s.resQ && t.reqQ == s.reqQ && t.poll == s.poll && t.issued == s.issued
    && t.delayed == s.delayed && t.finished == s.finished
    && SeqSum(t.workers, OnItem(IsWork())) == SeqSum(s.workers, OnItem(IsWork()))
  }

  function CheckRank(call: Call): nat {
    match call
    case Check0 => 5
    case Check1 => 4
    case Check2(_) => 3
    case Check3(_, _) => 2
    case Starting => 1
    case _ => 0
  }

  lemma CheckGoesOn(s: State) returns (step: Step)
    requires Shape(s) && Checking(s.call)
    ensures !IsWorkerStep(step) && Enabled(s, step)
    ensures var t := Apply(s, step);
      SameResults(s, t) && CheckRank(t.call) < CheckRank(s.call) && (Checking(t.call) || t.call == NoCall)
  {
    step :=
      match s.call
      case Check0 => ReadStarted
      case Check1 => ReadStartedAgain
      case Check2(_) => ReadPending
      case Check3(_, _) => ReadReqs
      case _ => StartThread;
    StartSum(s.workers, OnItem(IsWork()));
    hide PollApply, WorkerApply, PollEnabled, WorkerEnabled, Filed, PlacesInRange, SeqSum, Signed;
  }

  /** The check comes to its end. */
  lemma {:induction false} CheckEnds(s: State) returns (steps: seq<Step>, t: State)
    requires Shape(s) && (Checking(s.call) || s.call == NoCall)
    ensures ClientRun(s, steps, t) && Shape(t) && SameResults(s, t) && t.call == NoCall
    decreases CheckRank(s.call)
  {
    steps, t := [], s;
    if s.call != NoCall {
      var step := CheckGoesOn(s);
      ShapeKept(s, step);
      OneStep(s, step);
      hide Apply, Enabled, Shape, SeqSum;
      var rest;
      rest, t := CheckEnds(Apply(s, step));
      steps := [step] + rest;
      Onwards(s, [step], Apply(s, step), rest, t);
    }
  }

  /** The client is at the top of the loop of `etp_poll`. */
  predicate AtLoop(s: State) {
    s.call == NoCall && s.poll == AtTop
  }

  /** It goes past the check and takes a result if there is one. */
  lemma ReachesShift(s: State) returns (steps: seq<Step>, t: State)
    requires Shape(s) && AtLoop(s)
    ensures ClientRun(s, steps, t) && Shape(t) && t.call == NoCall && t.poll == AtShift
    ensures SameResults(s.(poll := AtShift), t)
  {
    var s1 := Apply(s, PollCheck);
    CheckStarts(s);
    ShapeKept(s, PollCheck);
    OneStep(s, PollCheck);
    hide Apply, Enabled, Shape, SeqSum;
    var rest;
    rest, t := CheckEnds(s1);
    steps := [PollCheck] + rest;
    Onwards(s, [PollCheck], s1, rest, t);
  }

  lemma CheckStarts(s: State)
    requires Shape(s) && AtLoop(s)
    ensures Enabled(s, PollCheck) && Apply(s, PollCheck) == s.(poll := AtShift, call := Check0)
  {
  }

  /** A result that has been taken and is not to be delayed is finished. */
  lemma Finishes(s: State) returns (steps: seq<Step>, t: State)
    requires Shape(s) && s.call == NoCall && s.poll.Got?
    ensures ClientRun(s, steps, t) && Shape(t) && AtLoop(t)
    ensures SameResults(s.(poll := AtTop, finished := s.finished + multiset{s.poll.item}), t)
  {
    hide CallApply, WorkerApply, CallEnabled, WorkerEnabled, Filed, SeqSum, Dec;
    var s1 := Apply(s, PollCount);
    var s2 := Apply(s1, PollDeliver(false));
    t := Apply(s2, PollAgain);
    ShapeKept(s, PollCount);
    ShapeKept(s1, PollDeliver(false));
    ShapeKept(s2, PollAgain);
    OneStep(s, PollCount);
    OneStep(s1, PollDeliver(false));
    OneStep(s2, PollAgain);
    hide Apply, Enabled, Shape;
    Onwards(s, [PollCount], s1, [PollDeliver(false)], s2);
    steps := [PollCount] + [PollDeliver(false)] + [PollAgain];
    Onwards(s, [PollCount] + [PollDeliver(false)], s2, [PollAgain], t);
  }

  /** One time round the loop of `etp_poll`: one result is finished. */
  lemma OneRound(s: State) returns (steps: seq<Step>, t: State)
    requires Shape(s) && AtLoop(s) && Size(s.resQ) > 0
    ensures ClientRun(s, steps, t) && Shape(t) && AtLoop(t)
    ensures Size(s.resQ) == Size(t.resQ) + 1 && s.finished + Bag(s.resQ) == t.finished + Bag(t.resQ)
    ensures t.reqQ == s.reqQ && t.issued == s.issued && t.delayed == s.delayed
    ensures SeqSum(t.workers, OnItem(IsWork())) == SeqSum(s.workers, OnItem(IsWork()))
  {
    hide Enabled, Filed, SeqSum, PlacesInRange, Size, Bag;
    var a, m := ReachesShift(s);
    ShiftGets(m);
    var n := Apply(m, PollShift);
    ShapeKept(m, PollShift);
    OneStep(m, PollShift);
    hide Apply, Shape;
    Onwards(s, a, m, [PollShift], n);
    var b;
    b, t := Finishes(n);
    steps := (a + [PollShift]) + b;
    Onwards(s, a + [PollShift], n, b, t);
  }

  lemma ShiftGets(s: State)
    requires Shape(s) && s.call == NoCall && s.poll == AtShift && Size(s.resQ) > 0
    ensures Enabled(s, PollShift)
    ensures var t := Apply(s, PollShift);
      && t.poll.Got? && t.call == NoCall && t.reqQ == s.reqQ && t.issued == s.issued && t.delayed == s.delayed
      && t.finished == s.finished && t.workers == s.workers
      && Size(s.resQ) == Size(t.resQ) + 1 && Bag(s.resQ) == Bag(t.resQ) + multiset{t.poll.item}
  {
    EmptyIffSizeZero(s.resQ);
    RestBag(s.resQ);
    hide CallApply, WorkerApply, CallEnabled, WorkerEnabled, Filed, Size, Bag, Rest, Next, Highest, Dec;
  }

  lemma NothingToShift(s: State)
    requires Shape(s) && s.call == NoCall && s.poll == AtShift && Size(s.resQ) == 0
    ensures Enabled(s, PollShift) && Apply(s, PollShift) == s.(poll := NoPoll)
  {
    EmptyIffSizeZero(s.resQ);
    hide CallApply, WorkerApply, CallEnabled, WorkerEnabled, Filed, Size, Rest, Next, Highest, Dec;
  }

  /** What a poll has done when it returns because there is nothing more. */
  ghost predicate PolledAll(s: State, t: State) {
    && t.call == NoCall && t.poll == NoPoll && Size(t.resQ) == 0
    && t.finished == s.finished + Bag(s.resQ)
    && t.reqQ == s.reqQ && t.issued == s.issued && t.delayed == s.delayed
    && SeqSum(t.workers, OnItem(IsWork())) == SeqSum(s.workers, OnItem(IsWork()))
  }

  lemma EmptyBag(q: Fifo<Item>)
    requires Size(q) == 0
    ensures Bag(q) == multiset{}
  {
    SizeIsBagSize(q);
  }

  lemma {:induction false} LoopDelivers(s: State) returns (steps: seq<Step>, t: State)
    requires Shape(s) && AtLoop(s)
    ensures ClientRun(s, steps, t) && Shape(t) && PolledAll(s, t)
    decreases Size(s.resQ)
  {
    hide Apply, Enabled, Filed, SeqSum, PlacesInRange, Size, Bag;
    if Size(s.resQ) == 0 {
      var a, m := ReachesShift(s);
      NothingToShift(m);
      EmptyBag(s.resQ);
      t := m.(poll := NoPoll);
      ShapeKept(m, PollShift);
      OneStep(m, PollShift);
      steps := a + [PollShift];
      Onwards(s, a, m, [PollShift], t);
    } else {
      var a, m := OneRound(s);
      var b;
      b, t := LoopDelivers(m);
      steps := a + b;
      Onwards(s, a, m, b, t);
    }
  }

  /** One call of `etp_poll`, when no result is a group that is to be delayed and no
      limit is set, delivers all results that are there, and returns. */
  lemma PollDelivers(s: State) returns (steps: seq<Step>, t: State)
    requires Shape(s) && s.call == NoCall && s.poll == NoPoll
    ensures ClientRun(s, steps, t) && Shape(t) && PolledAll(s, t)
  {
    var s1 := s.(poll := AtTop);
    assert Enabled(s, PollBegin) && Apply(s, PollBegin) == s1;
    OneStep(s, PollBegin);
    hide Apply, Enabled, SeqSum, Size, Bag;
    var rest;
    rest, t := LoopDelivers(s1);
    steps := [PollBegin] + rest;
    Onwards(s, [PollBegin], s1, rest, t);
  }

  // ----- From submission to delivery ------------------------------------------------

  lemma {:induction false} SeqSumAtMost<T>(s: seq<T>, f: T -> nat, g: T -> nat)
    requires forall i :: 0 <= i < |s| ==> f(s[i]) <= g(s[i])
    ensures SeqSum(s, f) <= SeqSum(s, g)
  {
    if s != [] {
      SeqSumAtMost(s[..|s| - 1], f, g);
    }
  }

  lemma {:induction false} SumAtMost(q: Fifo<Item>, f: Item -> nat, g: Item -> nat)
    requires forall p, i :: 0 <= p < |q| && 0 <= i < |q[p]| ==> f(q[p][i]) <= g(q[p][i])
    ensures Sum(q, f) <= Sum(q, g)
  {
    if q != [] {
      var front, last := q[..|q| - 1], q[|q| - 1];
      assert forall p, i :: 0 <= p < |front| && 0 <= i < |front[p]| ==> front[p][i] == q[p][i];
      SumAtMost(front, f, g);
      SeqSumAtMost(last, f, g);
    }
  }

  lemma {:induction false} EmptySum(q: Fifo<Item>, f: Item -> nat)
    requires Size(q) == 0
    ensures Sum(q, f) == 0
  {
    if q != [] {
      EmptySum(q[..|q| - 1], f);
    }
  }

  /** With nothing busy and no results a request is delivered, or delayed. */
  lemma NowhereElse(s: State, item: Item)
    requires Invariant(s) && Busy(s) == 0 && Size(s.resQ) == 0 && s.call == NoCall && s.poll == NoPoll
    requires item.Work? && item in s.issued
    ensures s.finished[item] + s.delayed[item] == 1
  {
    SumAtMost(s.reqQ, Is(item), IsWork());
    SeqSumAtMost(s.workers, OnItem(Is(item)), OnItem(IsWork()));
    EmptySum(s.resQ, Is(item));
    assert Occurrences(s, item) == 1;
    hide Sum, SeqSum, Size, Filed, CountersAgree, ThreadsAgree, EventsAgree, NoLostWakeup, ResultsAreWork;
  }

  /** Every request of the client, group or not, has been delivered exactly once, but
      for the groups that wait for their members. */
  ghost predicate AllDelivered(t: State) {
    forall item :: item in t.issued && item.Work? ==> t.finished[item] + t.delayed[item] == 1
  }

  lemma {:induction false} RunConcat(s: State, a: seq<Step>, b: seq<Step>)
    requires IsRun(s, a) && IsRun(RunFrom(s, a), b)
    ensures IsRun(s, a + b) && RunFrom(s, a + b) == RunFrom(RunFrom(s, a), b)
    decreases |a|
  {
    hide Apply, Enabled, Filed, PlacesInRange;
    if a == [] {
      assert a + b == b;
    } else {
      assert (a + b)[0] == a[0] && (a + b)[1..] == a[1..] + b;
      RunConcat(Apply(s, a[0]), a[1..], b);
    }
  }

  /** From every state of a sized run in which the client is not in the pool's
      code, the workers and one poll can deliver everything that has been
      submitted. */
  lemma EveryRequestIsDelivered(s: State) returns (steps: seq<Step>)
    requires Sized(s) && s.call == NoCall && s.poll == NoPoll && s.wanted > 0
    ensures IsRun(s, steps)
    ensures var t := RunFrom(s, steps);
      && t.issued == s.issued && t.delayed == s.delayed && AllDelivered(t)
      && t.call == NoCall && t.poll == NoPoll
  {
    hide Shape, Conserved, CountersAgree, ThreadsAgree, EventsAgree, NoLostWakeup, NoEnds, ReadsHold, ResultsAreWork,
      EnoughThreads, ToDo, Size, Sum, SeqSum, Bag, Busy, RunFrom, IsRun, AllDelivered;
    var work := EveryRequestIsExecuted(s);
    var m := RunFrom(s, work);
    EveryRunKeepsInvariant(s, work);
    var poll, t := PollDelivers(m);
    ClientRunIsRun(m, poll, t);
    steps := work + poll;
    RunConcat(s, work, poll);
    EveryRunKeepsInvariant(m, poll);
    SameBusy(m, t);
    DeliversAll(t);
  }

  lemma SameBusy(s: State, t: State)
    requires t.reqQ == s.reqQ
    requires SeqSum(t.workers, OnItem(IsWork())) == SeqSum(s.workers, OnItem(IsWork()))
    ensures Busy(t) == Busy(s)
  {
  }

  lemma DeliversAll(t: State)
    requires Invariant(t) && Busy(t) == 0 && Size(t.resQ) == 0 && t.call == NoCall && t.poll == NoPoll
    ensures AllDelivered(t)
  {
    hide Invariant, Busy, Size;
    forall item | item in t.issued && item.Work?
      ensures t.finished[item] + t.delayed[item] == 1
    {
      NowhereElse(t, item);
    }
  }
}
