/** The thread pool over whole runs: what holds in every reachable state, and
    that no request gets stuck. */
module PoolRuns {
  import opened Basics
  import opened PriorityFifo
  import opened Pool
  import opened PoolConservation
  import opened PoolEffects

  /** What every reachable state satisfies. */
  ghost predicate Invariant(s: State) {
    && Shape(s) && ResultsAreWork(s)
    && Conserved(s) && CountersAgree(s) && ThreadsAgree(s)
    && EventsAgree(s) && NoLostWakeup(s)
  }

  /** `steps` can be taken one after the other from `s`. */
  ghost predicate IsRun(s: State, steps: seq<Step>)
    decreases |steps|
  {
    Shape(s) && (steps != [] ==> Enabled(s, steps[0]) && IsRun(Apply(s, steps[0]), steps[1..]))
  }

  ghost function RunFrom(s: State, steps: seq<Step>): State
    requires IsRun(s, steps)
    decreases |steps|
  {
    if steps == [] then s else RunFrom(Apply(s, steps[0]), steps[1..])
  }

  lemma InitInvariant(wanted: nat, maxIdle: nat)
    ensures Invariant(Init(wanted, maxIdle))
  {
    var s := Init(wanted, maxIdle);
    EmptyQueue(s.reqQ, One());
    EmptyQueue(s.reqQ, IsWork());
    forall x
      ensures Occurrences(s, x) == 0
    {
      EmptyQueue(s.reqQ, Is(x));
    }
  }

  lemma {:induction false} EmptyQueue(q: Fifo<Item>, f: Item -> nat)
    requires forall i :: 0 <= i < |q| ==> q[i] == []
    ensures Sum(q, f) == 0 && Size(q) == 0
  {
    if q != [] {
      EmptyQueue(q[..|q| - 1], f);
    }
  }

  lemma InvariantKept(s: State, step: Step)
    requires Invariant(s) && Enabled(s, step)
    ensures Invariant(Apply(s, step))
  {
    hide Shape, ResultsAreWork, Conserved, CountersAgree, ThreadsAgree, EventsAgree, NoLostWakeup, Apply, Enabled;
    ShapeKept(s, step);
    ResultsAreWorkKept(s, step);
    ConservedKept(s, step);
    CountersKept(s, step);
    ThreadsKept(s, step);
    EventsKept(s, step);
    NoLostWakeupKept(s, step);
  }

  /** Every state of every run keeps the invariant. */
  lemma {:induction false} EveryRunKeepsInvariant(s: State, steps: seq<Step>)
    requires Invariant(s) && IsRun(s, steps)
    ensures Invariant(RunFrom(s, steps))
    decreases |steps|
  {
    hide Filed, ResultsAreWork, Conserved, CountersAgree, ThreadsAgree, EventsAgree, NoLostWakeup, Apply, Enabled;
    if steps != [] {
      InvariantKept(s, steps[0]);
      EveryRunKeepsInvariant(Apply(s, steps[0]), steps[1..]);
    }
  }

  // ----- Enough threads -----------------------------------------------------------

  /** Requests queued or being executed. */
  ghost function Busy(s: State): nat {
    Sum(s.reqQ, IsWork()) + SeqSum(s.workers, OnItem(IsWork()))
  }

  /** The client is between a submission and the end of the check that may start
      a thread for it. */
  predicate Checking(call: Call) {
    call.Check0? || call.Check1? || call.Check2? || call.Check3? || call.Starting?
  }

  /** The word `pending`, read from `npending` during this check, is as far from
      the outstanding requests as there were busy ones then. */
  ghost predicate PendingRead(s: State, pending: nat) {
    pending < WORD && pending <= Undelivered(s) && Busy(s) <= (Undelivered(s) - pending) % WORD <= s.started + 1
  }

  /** What the unlocked reads of `etp_maybe_start_thread` have seen. */
  ghost predicate ReadsHold(s: State) {
    && (s.call.Check1? || s.call.Check2? || s.call.Check3? || s.call.Starting? ==> s.started < s.wanted)
    && (s.call.Check2? || s.call.Check3? ==> s.call.threads == s.started)
    && (s.call.Check3? ==> PendingRead(s, s.call.pending))
    && (s.call != NoCall ==> !s.poll.Got?)
  }

  /** A worker that is not about to leave: it has not timed out and holds no quit
      message. */
  predicate Calm(w: Worker) {
    w == Ready || w == Waiting(false) || w == Woken(false) || (w.Holding? && w.item.Work?)
  }

  ghost predicate AllCalm(ws: seq<Worker>) {
    forall i :: 0 <= i < |ws| ==> Calm(ws[i])
  }

  lemma CalmUpdate(ws: seq<Worker>, i: nat, w: Worker)
    requires AllCalm(ws) && i < |ws| && Calm(w)
    ensures AllCalm(ws[i := w]) && Calm(ws[i])
  {
  }

  lemma IsCalm(ws: seq<Worker>, i: nat)
    requires AllCalm(ws) && i < |ws|
    ensures Calm(ws[i])
  {
  }

  lemma CalmSignal(ws: seq<Worker>, wake: nat)
    requires AllCalm(ws) && (AnyWaiting(ws) ==> wake < |ws| && ws[wake].Waiting?)
    ensures AllCalm(Signal(ws, wake)) && |Signal(ws, wake)| == |ws|
  {
  }

  lemma CalmStart(ws: seq<Worker>)
    requires AllCalm(ws)
    ensures AllCalm(ws + [Ready])
  {
  }

  /** Without ended threads, and with as many idle threads allowed as wanted,
      no worker ever times out. */
  ghost predicate NoEnds(s: State) {
    && s.wanted <= s.maxIdle && s.wanted < WORD / 2
    && s.quits == 0 && s.ends == 0 && s.quitsTaken == 0 && s.call != Ending
    && AllCalm(s.workers) && AllWork(s.reqQ)
    && s.started == |s.workers| <= s.wanted
  }

  /** There are enough threads, counting the one that the check in progress may
      yet start. */
  ghost predicate EnoughThreads(s: State) {
    s.started >= s.wanted || Busy(s) <= s.started + if Checking(s.call) then 1 else 0
  }

  /** The sum and the difference that the check computes in `int` are values of
      that type. Otherwise C leaves open what they are. */
  predicate CheckFits(s: State)
    requires s.call.Check3?
  {
    var sum := Signed(s.call.threads) + Signed(s.call.pending);
    FitsInt(sum) && FitsInt(sum - Signed(s.nreqs))
  }

  lemma {:induction false} CountedAll(ws: seq<Worker>)
    requires forall i :: 0 <= i < |ws| ==> IsIdle()(ws[i]) <= 1
    ensures SeqSum(ws, IsIdle()) <= |ws|
  {
    if ws != [] {
      CountedAll(ws[..|ws| - 1]);
    }
  }

  /** One less than all when one worker is not idle. */
  lemma IdleBelowAll(ws: seq<Worker>, w: nat)
    requires w < |ws| && !ws[w].Waiting? && !ws[w].Woken?
    ensures SeqSum(ws, IsIdle()) < |ws|
  {
    SeqSumUpdate(ws, w, Woken(false), IsIdle());
    CountedAll(ws[w := Woken(false)]);
  }

  /** A calm worker stays calm: it completes its work, is woken, takes work, or
      waits without a timeout as long as not too many are idle. */
  lemma CalmMove(s: State, step: Step)
    requires Shape(s) && Enabled(s, step) && IsWorkerStep(step)
    requires step.w < |s.workers| && Calm(s.workers[step.w]) && AllWork(s.reqQ)
    requires step.TakeOrWait? ==> Inc(if s.workers[step.w].Woken? then Dec(s.idle) else s.idle) <= s.maxIdle
    ensures !step.ObeyQuit? && !step.CountTimeout?
    ensures step.w < |Apply(s, step).workers| && Calm(Apply(s, step).workers[step.w])
  {
    hide CallApply, PollApply, CallEnabled, PollEnabled, Size, Push, Rest, Highest, Next, Filed, Inc, Dec, Signed,
      PlacesInRange, AllWork;
    if step.TakeOrWait? && Highest(s.reqQ, |s.reqQ|) >= 0 {
      RestWork(s.reqQ);
    }
  }

  /** Fewer workers are idle than may be, one that looks for work excepted. */
  lemma RoomToWait(s: State, step: Step)
    requires Shape(s) && ThreadsAgree(s) && NoEnds(s) && Enabled(s, step) && step.TakeOrWait?
    ensures Inc(if s.workers[step.w].Woken? then Dec(s.idle) else s.idle) <= s.maxIdle
  {
    var w := step.w;
    CountedAll(s.workers);
    WordIsExact(s.idle, SeqSum(s.workers, IsIdle()));
    if s.workers[w].Woken? {
      SeqSumTerm(s.workers, w, IsIdle());
    } else {
      IdleBelowAll(s.workers, w);
    }
    hide Apply, CallEnabled, PollEnabled, SeqSum, Shows, Filed, PlacesInRange, AllWork, AllCalm;
  }

  lemma NoEndsKept(s: State, step: Step)
    requires Invariant(s) && NoEnds(s) && ReadsHold(s) && Enabled(s, step) && !step.EndThread?
    ensures NoEnds(Apply(s, step))
  {
    var s' := Apply(s, step);
    EndsEffect(s, step);
    WorkersEffect(s, step);
    RequestQueueEffect(s, step);
    ClientEffect(s, step);
    if step.TakeOrWait? {
      RoomToWait(s, step);
    }
    hide Conserved, CountersAgree, ThreadsAgree, EventsAgree, NoLostWakeup, ResultsAreWork, Apply, Enabled, Dec,
      Filed, Rest, Push, Highest, Next, Signal, AnyWaiting, AllWork, AllCalm, PlacesInRange, Signed, MayCall;
    if IsWorkerStep(step) {
      IsCalm(s.workers, step.w);
      CalmMove(s, step);
      CalmUpdate(s.workers, step.w, s'.workers[step.w]);
      if step.TakeOrWait? && Highest(s.reqQ, |s.reqQ|) >= 0 {
        RestWork(s.reqQ);
      }
    } else if step.SubmitWork? {
      CalmSignal(s.workers, step.wake);
      PushWork(s.reqQ, step.item);
    } else if step.StartThread? {
      CalmStart(s.workers);
    }
  }

  /** Submissions and deliveries change the number of outstanding requests, and
      nothing else does. */
  lemma UndeliveredChange(s: State, step: Step)
    requires Shape(s) && Enabled(s, step) && ResultsAreWork(s)
    ensures Undelivered(Apply(s, step)) + (if step.PollCount? then 1 else 0)
         == Undelivered(s) + if step.SubmitWork? || step.SubmitGroup? then 1 else 0
  {
    StepMoves(s, step, IsWork());
    RequestCountEffect(s, step);
    hide UnderWay, AtClient, Entering, Departing, Apply, Enabled, Shape, ResultsAreWork, Inc, Dec;
  }

  /** A step that does not count leaves the reading of `npending` good. */
  lemma PendingReadKept(s: State, step: Step, pending: nat)
    requires Invariant(s) && NoEnds(s) && PendingRead(s, pending) && Enabled(s, step)
    requires IsWorkerStep(step) || step.PollDeliver?
    ensures Apply(s, step).started == s.started ==> PendingRead(Apply(s, step), pending)
  {
    BusyChange(s, step);
    UndeliveredChange(s, step);
    hide Apply, Enabled, Invariant, NoEnds, Busy, Undelivered;
  }

  lemma WorkerKeepsReadsHold(s: State, step: Step)
    requires Invariant(s) && NoEnds(s) && ReadsHold(s) && Enabled(s, step) && IsWorkerStep(step)
    ensures ReadsHold(Apply(s, step))
  {
    IsCalmWorker(s, step);
    WorkerFrame(s, step);
    WorkerCounts(s, step);
    WorkerEndsEffect(s, step);
    if s.call.Check3? {
      PendingReadKept(s, step, s.call.pending);
    }
    hide Apply, Enabled, Invariant, NoEnds, Inc, Dec, IsCounted, IsIdle, Calm, PendingRead;
  }

  lemma PollKeepsReadsHold(s: State, step: Step)
    requires Invariant(s) && NoEnds(s) && ReadsHold(s) && Enabled(s, step) && IsPollStep(step)
    ensures ReadsHold(Apply(s, step))
  {
    if s.call.Check3? {
      PendingReadKept(s, step, s.call.pending);
    }
    hide WorkerApply, CallApply, WorkerEnabled, CallEnabled, Invariant, NoEnds, Size, Rest, Highest, Next, Inc, Dec,
      PendingRead;
  }

  /** `npending` is read when the busy requests are no more than the threads, but
      for one. */
  lemma PendingIsRead(s: State)
    requires Invariant(s) && NoEnds(s) && ReadsHold(s) && EnoughThreads(s) && s.call.Check2?
    ensures PendingRead(s, s.npending)
  {
    ResultsWeigh(s.resQ);
    assert CountersAgree(s);
    hide Conserved, CountersAgree, ThreadsAgree, EventsAgree, NoLostWakeup, Filed, Size, Sum, SeqSum, ResultsAreWork,
      PlacesInRange, AllCalm, AllWork;
    SameWord(Busy(s), Size(s.resQ), s.npending);
  }

  lemma SameWord(busy: nat, n: nat, c: nat)
    requires busy < WORD && c < WORD && c % WORD == n % WORD
    ensures c <= n && (busy + n - c) % WORD == busy
  {
  }

  lemma CallKeepsReadsHold(s: State, step: Step)
    requires Shape(s) && ReadsHold(s) && Enabled(s, step) && !IsWorkerStep(step) && !IsPollStep(step)
    requires !step.EndThread? && (step.ReadPending? ==> PendingRead(Apply(s, step), s.npending))
    ensures ReadsHold(Apply(s, step))
  {
    hide WorkerApply, PollApply, WorkerEnabled, PollEnabled, Filed, PlacesInRange, Size, Push, Rest, Highest, Next,
      Signal, AnyWaiting, Inc, Dec, Signed, PendingRead;
  }

  /** Reading a word changes nothing that the reading is compared with. */
  lemma ReadPendingFrame(s: State, step: Step)
    requires Shape(s) && Enabled(s, step) && step.ReadPending?
    ensures PendingRead(s, s.npending) ==> PendingRead(Apply(s, step), s.npending)
  {
    hide WorkerApply, PollApply, WorkerEnabled, PollEnabled, Filed, PlacesInRange, Sum, SeqSum;
  }

  lemma ReadsHoldKept(s: State, step: Step)
    requires Invariant(s) && NoEnds(s) && ReadsHold(s) && EnoughThreads(s) && Enabled(s, step) && !step.EndThread?
    ensures ReadsHold(Apply(s, step))
  {
    hide Apply, Enabled, ReadsHold, NoEnds, Shape, Conserved, CountersAgree, ThreadsAgree, EventsAgree,
      NoLostWakeup, ResultsAreWork, EnoughThreads, PendingRead;
    if IsWorkerStep(step) {
      WorkerKeepsReadsHold(s, step);
    } else if IsPollStep(step) {
      PollKeepsReadsHold(s, step);
    } else {
      if step.ReadPending? {
        assert s.call.Check2? by {
          CallStep(s, step);
        }
        PendingIsRead(s);
        ReadPendingFrame(s, step);
      }
      CallKeepsReadsHold(s, step);
    }
  }

  /** The reads of the check come one after the other. */
  lemma CallStep(s: State, step: Step)
    requires Enabled(s, step)
    ensures (step.ReadPending? ==> s.call.Check2?) && (step.ReadReqs? ==> s.call.Check3?)
  {
  }

  /** Calm workers neither obey a quit nor give up. */
  lemma IsCalmWorker(s: State, step: Step)
    requires NoEnds(s) && Enabled(s, step) && IsWorkerStep(step)
    ensures !step.CountTimeout? && !step.ObeyQuit? && step.w < |s.workers| && Calm(s.workers[step.w])
  {
    IsCalm(s.workers, step.w);
  }

  /** All of the result queue is work. */
  lemma {:induction false} ResultsWeigh(q: Fifo<Item>)
    requires AllWork(q)
    ensures Sum(q, IsWork()) == Size(q)
  {
    if q != [] {
      var front, last := q[..|q| - 1], q[|q| - 1];
      assert forall p, i :: 0 <= p < |front| && 0 <= i < |front[p]| ==> front[p][i] == q[p][i];
      ResultsWeigh(front);
      WeighAll(last);
    }
  }

  lemma {:induction false} WeighAll(s: seq<Item>)
    requires forall i :: 0 <= i < |s| ==> s[i].Work?
    ensures SeqSum(s, IsWork()) == |s|
  {
    if s != [] {
      WeighAll(s[..|s| - 1]);
    }
  }

  /** How a step changes the number of busy requests. */
  lemma BusyChange(s: State, step: Step)
    requires Invariant(s) && NoEnds(s) && Enabled(s, step) && !step.EndThread?
    ensures Busy(Apply(s, step)) <= Busy(s) + if step.SubmitWork? then 1 else 0
  {
    hide Size, SeqSum, Sum, Conserved, CountersAgree, ThreadsAgree, EventsAgree, NoLostWakeup, Rest, Push, Signal,
      AnyWaiting, Next, Highest, Filed, Inc, Dec, Signed;
    StepMoves(s, step, IsWork());
    if step.Complete? {
      var item := s.workers[step.w].item;
      PushSum(s.resQ, item.Pri(), item, IsWork());
    } else if step.PublishGroup? {
      PushSum(s.resQ, s.call.item.Pri(), s.call.item, IsWork());
    } else if step.PollShift? && Highest(s.resQ, |s.resQ|) >= 0 {
      RestSum(s.resQ, IsWork());
    }
  }

  lemma WordIsExact(c: nat, n: nat)
    requires Shows(c, 0, n) && n < WORD
    ensures c == n
  {
  }

  /** Conversions to `int` do not matter for a difference that is one. */
  lemma SignedDifference(t: nat, p: nat, n: nat, u: nat)
    requires t < WORD / 2 && p < WORD && n < WORD && n == u % WORD && p <= u
    requires (u - p) % WORD <= t + 1 && FitsInt(Signed(t) + Signed(p) - Signed(n))
    ensures Signed(t) + Signed(p) - Signed(n) == t - (u - p) % WORD
  {
    var d, v := (u - p) % WORD, Signed(t) + Signed(p) - Signed(n);
    var a, b := (u - p) / WORD, u / WORD;
    assert u == p + d + a * WORD && u == n + b * WORD;
    SignedCases(t);
    SignedCases(p);
    SignedCases(n);
    hide Signed;
    OnlyMultiple(v, t, d, b - a + (if Signed(p) == p then 0 else -1) + (if Signed(n) == n then 0 else 1));
  }

  lemma SignedCases(x: nat)
    requires x < WORD
    ensures Signed(x) == x || Signed(x) == x - WORD
    ensures x < WORD / 2 ==> Signed(x) == x
  {
  }

  lemma OnlyMultiple(v: int, t: nat, d: nat, m: int)
    requires v == t - d + m * WORD && FitsInt(v) && t < WORD / 2 && d <= t + 1
    ensures v == t - d
  {
  }

  /** When the check finds enough threads, there are. */
  lemma CheckIsRight(s: State)
    requires Shows(s.nreqs, 0, Undelivered(s)) && ReadsHold(s) && s.wanted < WORD / 2
    requires s.call.Check3? && CheckFits(s)
    requires 0 <= Signed(s.call.threads) + Signed(s.call.pending) - Signed(s.nreqs)
    ensures s.started >= Busy(s)
  {
    hide Undelivered, Busy, Signed;
    SignedDifference(s.call.threads, s.call.pending, s.nreqs, Undelivered(s));
  }

  lemma WorkerKeepsEnough(s: State, step: Step)
    requires Invariant(s) && NoEnds(s) && EnoughThreads(s) && Enabled(s, step) && IsWorkerStep(step)
    ensures EnoughThreads(Apply(s, step))
  {
    BusyChange(s, step);
    IsCalmWorker(s, step);
    WorkerFrame(s, step);
    WorkerEndsEffect(s, step);
    hide Apply, Enabled, Invariant, NoEnds, Busy, Inc, Dec, Calm;
  }

  lemma PollOnlyChecks(s: State, step: Step)
    requires Shape(s) && Enabled(s, step) && IsPollStep(step)
    ensures var s' := Apply(s, step);
      && s'.call == (if step.PollCheck? then Check0 else s.call) && s'.started == s.started && s'.wanted == s.wanted
  {
    hide WorkerApply, CallApply, WorkerEnabled, CallEnabled, Shape, Size, Rest, Highest, Next, Inc, Dec;
  }

  lemma PollKeepsEnough(s: State, step: Step)
    requires Invariant(s) && NoEnds(s) && EnoughThreads(s) && Enabled(s, step) && IsPollStep(step)
    ensures EnoughThreads(Apply(s, step))
  {
    BusyChange(s, step);
    PollOnlyChecks(s, step);
    hide Apply, Enabled, Invariant, NoEnds, Busy;
  }

  lemma CallKeepsEnough(s: State, step: Step)
    requires Invariant(s) && NoEnds(s) && ReadsHold(s) && EnoughThreads(s)
    requires Enabled(s, step) && (step.ReadReqs? ==> s.call.Check3? && CheckFits(s))
    requires !IsWorkerStep(step) && !IsPollStep(step) && !step.EndThread?
    ensures EnoughThreads(Apply(s, step))
  {
    BusyChange(s, step);
    if step.ReadReqs? && 0 <= Signed(s.call.threads) + Signed(s.call.pending) - Signed(s.nreqs) {
      CheckIsRight(s);
    }
    NextCount(s.started);
    hide WorkerApply, PollApply, WorkerEnabled, PollEnabled, Invariant, Busy, Undelivered, AllCalm, AllWork, Size,
      Push, Rest, Highest, Next, Signal, AnyWaiting, Inc, Dec, Signed;
  }

  lemma EnoughThreadsKept(s: State, step: Step)
    requires Invariant(s) && NoEnds(s) && ReadsHold(s) && EnoughThreads(s)
    requires Enabled(s, step) && !step.EndThread? && (step.ReadReqs? ==> s.call.Check3? && CheckFits(s))
    ensures EnoughThreads(Apply(s, step))
  {
    hide Apply, Enabled, NoEnds, ReadsHold, CheckFits, EnoughThreads, Shape;
    if IsWorkerStep(step) {
      WorkerKeepsEnough(s, step);
    } else if IsPollStep(step) {
      PollKeepsEnough(s, step);
    } else {
      CallKeepsEnough(s, step);
    }
  }

  lemma NextCount(c: nat)
    requires c < WORD / 2
    ensures Inc(c) == c + 1
  {
  }

  /** What holds over a run in which no thread is ended and every check is within
      the range of `int`. */
  ghost predicate Sized(s: State) {
    Invariant(s) && NoEnds(s) && ReadsHold(s) && EnoughThreads(s)
  }

  predicate KeepsSized(s: State, step: Step) {
    Enabled(s, step) && !step.EndThread? && (step.ReadReqs? ==> s.call.Check3? && CheckFits(s))
  }

  ghost predicate IsSizedRun(s: State, steps: seq<Step>)
    decreases |steps|
  {
    Shape(s) && (steps != [] ==> KeepsSized(s, steps[0]) && IsSizedRun(Apply(s, steps[0]), steps[1..]))
  }

  lemma SizedKept(s: State, step: Step)
    requires Sized(s) && KeepsSized(s, step)
    ensures Sized(Apply(s, step))
  {
    hide Invariant, NoEnds, ReadsHold, EnoughThreads, CheckFits;
    InvariantKept(s, step);
    NoEndsKept(s, step);
    ReadsHoldKept(s, step);
    EnoughThreadsKept(s, step);
    hide Apply, Enabled;
  }

  lemma {:induction false} EveryRunIsSized(s: State, steps: seq<Step>)
    requires Sized(s) && IsSizedRun(s, steps)
    ensures IsRun(s, steps) && Sized(RunFrom(s, steps))
    decreases |steps|
  {
    hide Filed, ResultsAreWork, Conserved, CountersAgree, ThreadsAgree, EventsAgree, NoLostWakeup, Apply, Enabled,
      NoEnds, ReadsHold, EnoughThreads, CheckFits;
    if steps != [] {
      SizedKept(s, steps[0]);
      EveryRunIsSized(Apply(s, steps[0]), steps[1..]);
    }
  }

  /** Every check is in range as long as outstanding requests and threads wanted
      together are. */
  lemma FewRequestsFit(s: State)
    requires Sized(s) && s.call.Check3? && FitsInt(Undelivered(s) + s.wanted)
    ensures CheckFits(s)
  {
    WordIsExact(s.nreqs, Undelivered(s));
    hide Undelivered, Busy, Invariant, Signed, AllCalm, AllWork;
    SmallDifference(s.call.threads, s.call.pending, s.nreqs, s.wanted);
  }

  lemma SmallDifference(t: nat, p: nat, n: nat, wanted: nat)
    requires t <= wanted && p <= n && FitsInt(n + wanted)
    ensures FitsInt(Signed(t) + Signed(p)) && FitsInt(Signed(t) + Signed(p) - Signed(n))
  {
  }

  /** With the defaults of `etp_init`, or any settings in that relation, the
      client outside a call has `started >= min(wanted, queued + executing)`. */
  lemma EnoughThreadsOutsideCalls(wanted: nat, maxIdle: nat, steps: seq<Step>)
    requires wanted <= maxIdle && wanted < WORD / 2
    requires IsSizedRun(Init(wanted, maxIdle), steps)
    ensures IsRun(Init(wanted, maxIdle), steps)
    ensures var s := RunFrom(Init(wanted, maxIdle), steps);
      s.call == NoCall ==> s.started >= Min(wanted, Busy(s))
  {
    var s := Init(wanted, maxIdle);
    InitInvariant(wanted, maxIdle);
    EmptyQueue(s.reqQ, IsWork());
    assert Sized(s);
    EveryRunIsSized(s, steps);
    SettingsStay(s, steps);
  }

  lemma {:induction false} SettingsStay(s: State, steps: seq<Step>)
    requires IsRun(s, steps)
    ensures RunFrom(s, steps).wanted == s.wanted && RunFrom(s, steps).maxIdle == s.maxIdle
    decreases |steps|
  {
    if steps != [] {
      EndsEffect(s, steps[0]);
      hide Apply, Enabled, Filed, PlacesInRange;
      SettingsStay(Apply(s, steps[0]), steps[1..]);
    }
  }

  // ----- No request gets stuck ------------------------------------------------------

  /** Work that the workers have yet to do; a queued item is two moves away from
      the result queue, a held one is one. */
  ghost function ToDo(s: State): nat {
    2 * Size(s.reqQ) + SeqSum(s.workers, OnItem(One()))
  }

  /** Some worker can move an item on whenever an item is queued and there is a
      worker for it, or an item is held. */
  lemma WorkerCanAdvance(s: State) returns (step: Step)
    requires Invariant(s) && NoEnds(s) && |s.workers| > 0
    requires Busy(s) > 0
    ensures Enabled(s, step) && (step.TakeOrWait? || step.Complete?)
    ensures step.TakeOrWait? ==> Size(s.reqQ) > 0
  {
    hide Conserved, CountersAgree, ThreadsAgree, EventsAgree, Filed, Sum, Size, SeqSum;
    if SeqSum(s.workers, OnItem(IsWork())) > 0 {
      SeqSumPositive(s.workers, OnItem(IsWork()));
      var w :| 0 <= w < |s.workers| && OnItem(IsWork())(s.workers[w]) > 0;
      step := Complete(w);
    } else {
      ResultsWeigh(s.reqQ);
      assert Size(s.reqQ) > 0;
      NobodyHolds(s.workers);
      if s.workers[0].Waiting? {
        assert AnyWaiting(s.workers);
        SeqSumPositive(s.workers, IsWoken());
        var w :| 0 <= w < |s.workers| && IsWoken()(s.workers[w]) > 0;
        step := TakeOrWait(w);
      } else {
        step := TakeOrWait(0);
      }
    }
  }

  lemma NobodyHolds(ws: seq<Worker>)
    requires SeqSum(ws, OnItem(IsWork())) == 0
    ensures forall i :: 0 <= i < |ws| && ws[i].Holding? ==> ws[i].item.Quit?
  {
    SeqSumPositive(ws, OnItem(IsWork()));
    forall i | 0 <= i < |ws| && ws[i].Holding?
      ensures ws[i].item.Quit?
    {
      assert OnItem(IsWork())(ws[i]) == 0;
    }
  }

  /** In a sized run the client cannot leave requests behind without a worker
      that can move one on, and that move brings the work to be done down. */
  lemma NoRequestStuck(s: State) returns (step: Step)
    requires Sized(s) && s.call == NoCall && s.wanted > 0
    requires Busy(s) > 0
    ensures Enabled(s, step) && (step.TakeOrWait? || step.Complete?)
    ensures ToDo(Apply(s, step)) < ToDo(s)
  {
    hide Shape, Conserved, CountersAgree, ThreadsAgree, EventsAgree, NoLostWakeup, Busy, NoEnds, ReadsHold,
      ResultsAreWork, Enabled, Apply, ToDo, Size;
    if s.workers == [] {
      assert NoEnds(s) && EnoughThreads(s);
      NoWorkersNoEnds(s);
    }
    step := WorkerCanAdvance(s);
    AdvanceReduces(s, step);
  }

  lemma NoWorkersNoEnds(s: State)
    requires NoEnds(s) && EnoughThreads(s) && s.call == NoCall && s.workers == []
    ensures s.wanted == 0 || Busy(s) == 0
  {
  }

  lemma AdvanceReduces(s: State, step: Step)
    requires Shape(s) && Enabled(s, step)
    requires step.Complete? || (step.TakeOrWait? && Size(s.reqQ) > 0)
    ensures ToDo(Apply(s, step)) < ToDo(s)
  {
    hide Filed, Size, SeqSum, Highest, Next, Rest, Push;
    WorkerSum(s, step, OnItem(One()));
    if step.TakeOrWait? {
      EmptyIffSizeZero(s.reqQ);
      RestSize(s.reqQ);
    }
  }

  // ----- All of it is executed -----------------------------------------------------

  /** Steps of workers that take a request or complete one. */
  predicate Advances(s: State, step: Step) {
    Enabled(s, step) && (step.Complete? || (step.TakeOrWait? && Size(s.reqQ) > 0))
  }

  /** Workers in a state that they can go on from. */
  ghost predicate AtWork(s: State) {
    Invariant(s) && NoEnds(s) && ReadsHold(s) && |s.workers| > 0
  }

  lemma AdvanceKeepsWork(s: State, step: Step)
    requires AtWork(s) && Advances(s, step)
    ensures AtWork(Apply(s, step))
  {
    WorkerSum(s, step, OnItem(One()));
    hide Invariant, NoEnds, ReadsHold, Apply, Enabled;
    InvariantKept(s, step);
    NoEndsKept(s, step);
    WorkerKeepsReadsHold(s, step);
  }

  /** What is busy no longer has a result. */
  lemma AdvanceKeepsClient(s: State, step: Step)
    requires AtWork(s) && Advances(s, step)
    ensures var s' := Apply(s, step);
      && s'.call == s.call && s'.poll == s.poll && s'.issued == s.issued && s'.delayed == s.delayed
      && s'.finished == s.finished && Busy(s') + Size(s'.resQ) == Busy(s) + Size(s.resQ)
  {
    var s' := Apply(s, step);
    WorkerFrame(s, step);
    UndeliveredChange(s, step);
    AdvanceKeepsWork(s, step);
    ResultsWeigh(s.resQ);
    ResultsWeigh(s'.resQ);
    hide Apply, Enabled, NoEnds, ReadsHold, Conserved, CountersAgree, ThreadsAgree, EventsAgree, NoLostWakeup, Shape,
      Size, Sum, SeqSum, AllWork;
  }

  ghost predicate IsWorkRun(s: State, steps: seq<Step>)
    decreases |steps|
  {
    Shape(s) && (steps != [] ==> Advances(s, steps[0]) && IsWorkRun(Apply(s, steps[0]), steps[1..]))
  }

  /** All that the client has submitted and the workers hold has been executed:
      its results are in the result queue, and the client has not moved. */
  ghost predicate WorkedOff(s: State, t: State) {
    && Busy(t) == 0 && Size(t.resQ) == Size(s.resQ) + Busy(s)
    && t.call == s.call && t.poll == s.poll && t.issued == s.issued && t.delayed == s.delayed
    && t.finished == s.finished
  }

  lemma {:induction false} WorkersFinish(s: State) returns (steps: seq<Step>)
    requires AtWork(s)
    ensures IsRun(s, steps) && IsWorkRun(s, steps) && WorkedOff(s, RunFrom(s, steps)) && |steps| <= ToDo(s)
    decreases ToDo(s)
  {
    hide Apply, Enabled, NoEnds, ReadsHold, ResultsAreWork, Conserved, CountersAgree, ThreadsAgree, EventsAgree,
      NoLostWakeup, Filed, Busy, ToDo, Size;
    steps := [];
    if Busy(s) > 0 {
      var step := WorkerCanAdvance(s);
      AdvanceReduces(s, step);
      AdvanceKeepsWork(s, step);
      AdvanceKeepsClient(s, step);
      var rest := WorkersFinish(Apply(s, step));
      steps := [step] + rest;
      assert steps[1..] == rest;
    }
  }

  /** So a client that waits, outside a call, can find every request executed. */
  lemma EveryRequestIsExecuted(s: State) returns (steps: seq<Step>)
    requires Sized(s) && s.call == NoCall && s.wanted > 0
    ensures IsRun(s, steps) && IsWorkRun(s, steps) && WorkedOff(s, RunFrom(s, steps)) && |steps| <= ToDo(s)
  {
    hide Shape, Conserved, CountersAgree, ThreadsAgree, EventsAgree, NoLostWakeup, Busy, NoEnds, ReadsHold,
      ResultsAreWork, ToDo, Size;
    if Busy(s) == 0 {
      steps := [];
    } else {
      if s.workers == [] {
        NoWorkersNoEnds(s);
      }
      steps := WorkersFinish(s);
    }
  }

  /** Nothing but a submission adds to the work to be done. */
  lemma OnlySubmissionsAdd(s: State, step: Step)
    requires Shape(s) && Enabled(s, step) && !step.SubmitWork? && !step.EndThread?
    ensures ToDo(Apply(s, step)) <= ToDo(s)
  {
    hide Filed, Size, SeqSum, Highest, Next, Rest, Push, Signal, AnyWaiting;
    if IsWorkerStep(step) {
      WorkerSum(s, step, OnItem(One()));
      if step.TakeOrWait? && Highest(s.reqQ, |s.reqQ|) >= 0 {
        RestSize(s.reqQ);
      }
    } else {
      ClientSum(s, step, OnItem(One()));
    }
  }
}
