/** What every step of the thread pool keeps, first part: every issued item is
    in exactly one place, and the unsigned counters count the places. */
module PoolConservation {
  import opened Basics
  import opened PriorityFifo
  import opened Pool
  import opened PoolEffects

  // ----- Shape ------------------------------------------------------------------

  lemma QueuesStayFiled(s: State, step: Step)
    requires Shape(s) && Enabled(s, step)
    ensures var s' := Apply(s, step);
      |s'.reqQ| == |s'.resQ| == NUM_PRI && Filed(s'.reqQ) && Filed(s'.resQ)
  {
    RequestQueueEffect(s, step);
    var item := ResultQueueEffect(s, step);
    hide Apply, Enabled, Size, Push, Rest, Highest, Next, Filed, Inc, Dec, PlacesInRange, Publish;
    if step.PublishGroup? || step.Complete? {
      PushFiled(s.resQ, item);
    } else if step.SubmitWork? || step.EndThread? {
      PushFiled(s.reqQ, step.item);
    } else {
      if Highest(s.reqQ, |s.reqQ|) >= 0 { RestFiled(s.reqQ); }
      if Highest(s.resQ, |s.resQ|) >= 0 { RestFiled(s.resQ); }
    }
  }

  lemma RangeUpdate(ws: seq<Worker>, i: nat, w: Worker)
    requires WorkersInRange(ws) && i < |ws| && (w.Holding? ==> w.item.Pri() < NUM_PRI)
    ensures WorkersInRange(ws[i := w])
  {
  }

  lemma RangeSignal(ws: seq<Worker>, wake: nat)
    requires WorkersInRange(ws) && (AnyWaiting(ws) ==> wake < |ws| && ws[wake].Waiting?)
    ensures WorkersInRange(Signal(ws, wake))
  {
  }

  lemma RangeStart(ws: seq<Worker>)
    requires WorkersInRange(ws)
    ensures WorkersInRange(ws + [Ready])
  {
  }

  lemma PlacesStayInRange(s: State, step: Step)
    requires Shape(s) && Enabled(s, step)
    ensures PlacesInRange(Apply(s, step))
  {
    var s' := Apply(s, step);
    WorkersEffect(s, step);
    ClientEffect(s, step);
    hide Apply, Enabled, Size, Push, Rest, Highest, Next, Filed, WorkersInRange, Signal, AnyWaiting, Signed,
      MayCall;
    if IsWorkerStep(step) {
      if step.TakeOrWait? && Highest(s.reqQ, |s.reqQ|) >= 0 {
        RestFiled(s.reqQ);
      }
      RangeUpdate(s.workers, step.w, s'.workers[step.w]);
    } else if step.StartThread? {
      RangeStart(s.workers);
    } else if step.SubmitWork? || step.EndThread? {
      RangeSignal(s.workers, step.wake);
    }
  }

  lemma ShapeKept(s: State, step: Step)
    requires Shape(s) && Enabled(s, step)
    ensures Shape(Apply(s, step))
  {
    QueuesStayFiled(s, step);
    PlacesStayInRange(s, step);
    hide Apply, Enabled, Filed, PlacesInRange;
  }

  // ----- Weighing what is under way -------------------------------------------

  /** The weight of a worker is that of the item it holds. */
  function OnItem(f: Item -> nat): Worker -> nat {
    (w: Worker) => if w.Holding? then f(w.item) else 0
  }

  /** The total weight of what is queued, held by a worker, or waiting to be
      polled. */
  ghost function UnderWay(s: State, f: Item -> nat): nat {
    Sum(s.reqQ, f) + SeqSum(s.workers, OnItem(f)) + Sum(s.resQ, f)
  }

  /** What a step brings in. */
  ghost function Entering(s: State, step: Step, f: Item -> nat): nat
    requires Enabled(s, step)
  {
    match step
    case SubmitWork(item, _) => f(item)
    case EndThread(item, _) => f(item)
    case PublishGroup => f(s.call.item)
    case _ => 0
  }

  /** What a step takes out. */
  ghost function Departing(s: State, step: Step, f: Item -> nat): nat
    requires Enabled(s, step)
  {
    match step
    case PollShift => if Highest(s.resQ, |s.resQ|) >= 0 then f(Next(s.resQ)) else 0
    case ObeyQuit(w) => f(s.workers[w].item)
    case _ => 0
  }

  lemma SignalSum(ws: seq<Worker>, wake: nat, f: Item -> nat)
    requires AnyWaiting(ws) ==> wake < |ws| && ws[wake].Waiting?
    ensures SeqSum(Signal(ws, wake), OnItem(f)) == SeqSum(ws, OnItem(f))
  {
    if AnyWaiting(ws) {
      SeqSumUpdate(ws, wake, Woken(false), OnItem(f));
    }
  }

  lemma StartSum(ws: seq<Worker>, f: Worker -> nat)
    ensures SeqSum(ws + [Ready], f) == SeqSum(ws, f) + f(Ready)
  {
    assert (ws + [Ready])[..|ws|] == ws;
  }

  lemma CallMoves(s: State, step: Step, f: Item -> nat)
    requires Shape(s) && Enabled(s, step) && !IsWorkerStep(step) && !IsPollStep(step)
    ensures UnderWay(Apply(s, step), f) + Departing(s, step, f) == UnderWay(s, f) + Entering(s, step, f)
  {
    hide WorkerApply, PollApply, WorkerEnabled, PollEnabled, Size, Sum, SeqSum, Push, Rest, Highest, Next,
      AnyWaiting, Signal, Inc, Dec, Signed, Filed;
    match step
    case SubmitWork(item, wake) =>
      PushSum(s.reqQ, item.Pri(), item, f);
      SignalSum(s.workers, wake, f);
    case EndThread(item, wake) =>
      PushSum(s.reqQ, item.Pri(), item, f);
      SignalSum(s.workers, wake, f);
    case PublishGroup =>
      PushSum(s.resQ, s.call.item.Pri(), s.call.item, f);
    case StartThread =>
      StartSum(s.workers, OnItem(f));
    case _ =>
  }

  lemma PollMoves(s: State, step: Step, f: Item -> nat)
    requires Shape(s) && Enabled(s, step) && IsPollStep(step)
    ensures UnderWay(Apply(s, step), f) + Departing(s, step, f) == UnderWay(s, f) + Entering(s, step, f)
  {
    hide WorkerApply, CallApply, WorkerEnabled, CallEnabled, Size, Sum, SeqSum, Push, Rest, Highest, Next,
      AnyWaiting, Signal, Inc, Dec, Signed, Filed;
    if step.PollShift? && Highest(s.resQ, |s.resQ|) >= 0 {
      RestSum(s.resQ, f);
    }
  }

  lemma ClientMoves(s: State, step: Step, f: Item -> nat)
    requires Shape(s) && Enabled(s, step) && !IsWorkerStep(step)
    ensures UnderWay(Apply(s, step), f) + Departing(s, step, f) == UnderWay(s, f) + Entering(s, step, f)
  {
    hide Apply, Enabled, Shape, UnderWay, Departing, Entering;
    if IsPollStep(step) {
      PollMoves(s, step, f);
    } else {
      CallMoves(s, step, f);
    }
  }

  lemma WorkerMoves(s: State, step: Step, f: Item -> nat)
    requires Shape(s) && Enabled(s, step) && IsWorkerStep(step)
    ensures UnderWay(Apply(s, step), f) + Departing(s, step, f) == UnderWay(s, f) + Entering(s, step, f)
  {
    hide CallApply, PollApply, CallEnabled, PollEnabled, Size, Sum, SeqSum, Push, Rest, Highest, Next, Inc, Dec,
      Signed, Filed;
    var w := step.w;
    SeqSumUpdate(s.workers, w, Apply(s, step).workers[w], OnItem(f));
    match step
    case TakeOrWait(_) =>
      if Highest(s.reqQ, |s.reqQ|) >= 0 {
        RestSum(s.reqQ, f);
      }
    case Complete(_) =>
      var item := s.workers[w].item;
      PushSum(s.resQ, item.Pri(), item, f);
    case _ =>
  }

  /** Steps move items about; they lose and invent none. */
  lemma StepMoves(s: State, step: Step, f: Item -> nat)
    requires Shape(s) && Enabled(s, step)
    ensures UnderWay(Apply(s, step), f) + Departing(s, step, f) == UnderWay(s, f) + Entering(s, step, f)
  {
    if IsWorkerStep(step) {
      WorkerMoves(s, step, f);
    } else {
      ClientMoves(s, step, f);
    }
  }

  // ----- Each item in one place -------------------------------------------------

  function Is(x: Item): Item -> nat {
    (i: Item) => if i == x then 1 else 0
  }

  /** How often `x` is in the hands of the client thread. */
  function InHand(s: State, x: Item): nat {
    (if s.call.Publishing? && s.call.item == x then 1 else 0) +
    (if (s.poll.Got? || s.poll.Counted? || s.poll.Finishing?) && s.poll.item == x then 1 else 0)
  }

  /** How often `x` is somewhere: queued, held by a worker, in the result queue,
      in the client's hand, delayed or finished. */
  ghost function Occurrences(s: State, x: Item): nat {
    UnderWay(s, Is(x)) + InHand(s, x) + s.delayed[x] + s.finished[x]
  }

  /** Each issued item is in exactly one place, and nothing else is anywhere. */
  ghost predicate Conserved(s: State) {
    forall x :: Occurrences(s, x) == if x in s.issued then 1 else 0
  }

  /** What a worker leaves alone. */
  lemma WorkerFrame(s: State, step: Step)
    requires Shape(s) && Enabled(s, step) && IsWorkerStep(step)
    ensures var s' := Apply(s, step);
      && s'.issued == s.issued && s'.call == s.call && s'.poll == s.poll && s'.delayed == s.delayed
      && s'.finished == s.finished + if step.ObeyQuit? then multiset{s.workers[step.w].item} else multiset{}
  {
    hide CallApply, PollApply, CallEnabled, PollEnabled, Size, Push, Rest, Highest, Next, Filed, Inc, Dec, Signed,
      PlacesInRange;
  }

  lemma WorkerKeepsOccurrences(s: State, step: Step, x: Item)
    requires Shape(s) && Enabled(s, step) && IsWorkerStep(step)
    ensures Apply(s, step).issued == s.issued && Occurrences(Apply(s, step), x) == Occurrences(s, x)
  {
    WorkerMoves(s, step, Is(x));
    WorkerFrame(s, step);
    hide UnderWay, Apply, Filed, PlacesInRange;
  }

  /** How often `x` is out of the queues and away from the workers. */
  ghost function Elsewhere(s: State, x: Item): nat {
    InHand(s, x) + s.delayed[x] + s.finished[x]
  }

  lemma SubmissionsMoveItems(s: State, step: Step, x: Item)
    requires Shape(s) && Enabled(s, step) && IsSubmission(step)
    ensures var s' := Apply(s, step);
      Elsewhere(s', x) + Entering(s, step, Is(x))
      == Elsewhere(s, x) + Departing(s, step, Is(x)) + if x in s'.issued && x !in s.issued then 1 else 0
  {
    hide Size, Push, Rest, Signal, AnyWaiting, Filed, Next, Highest, Inc, Dec, Signed, PlacesInRange;
  }

  predicate IsSubmission(step: Step) {
    step.SubmitWork? || step.SubmitGroup? || step.PublishGroup? || step.EndThread?
  }

  predicate IsDelivery(step: Step) {
    step.PollDeliver? || step.FinishDelayed? || step.PollAgain? || step.PollReturn?
  }

  lemma DelayMovesItems(s: State, step: Step, x: Item)
    requires Shape(s) && Enabled(s, step) && (step.PollDeliver? || step.FinishDelayed?)
    ensures var s' := Apply(s, step);
      s'.issued == s.issued
      && Elsewhere(s', x) + Entering(s, step, Is(x)) == Elsewhere(s, x) + Departing(s, step, Is(x))
  {
    OnlyShiftsDepart(s, step, Is(x));
    hide WorkerApply, CallApply, WorkerEnabled, CallEnabled, PollShiftStep, Entering, Departing, Shape;
  }

  lemma ReturnMovesItems(s: State, step: Step, x: Item)
    requires Shape(s) && Enabled(s, step) && (step.PollAgain? || step.PollReturn?)
    ensures var s' := Apply(s, step);
      s'.issued == s.issued
      && Elsewhere(s', x) + Entering(s, step, Is(x)) == Elsewhere(s, x) + Departing(s, step, Is(x))
  {
    OnlyShiftsDepart(s, step, Is(x));
    hide WorkerApply, CallApply, WorkerEnabled, CallEnabled, PollShiftStep, Entering, Departing, Shape;
  }

  lemma PollMovesItems(s: State, step: Step, x: Item)
    requires Shape(s) && Enabled(s, step) && !IsWorkerStep(step) && !IsSubmission(step) && !IsDelivery(step)
    ensures var s' := Apply(s, step);
      s'.issued == s.issued
      && Elsewhere(s', x) + Entering(s, step, Is(x)) == Elsewhere(s, x) + Departing(s, step, Is(x))
  {
    hide Size, Push, Rest, Signal, AnyWaiting, Filed, Next, Highest, Inc, Dec, Signed, PlacesInRange;
  }

  lemma ClientKeepsOccurrences(s: State, step: Step, x: Item)
    requires Shape(s) && Enabled(s, step) && !IsWorkerStep(step)
    ensures var s' := Apply(s, step);
      Occurrences(s', x) == Occurrences(s, x) + if x in s'.issued && x !in s.issued then 1 else 0
  {
    ClientMoves(s, step, Is(x));
    hide Apply, Enabled, Shape, UnderWay, Entering, Departing, InHand;
    if IsSubmission(step) {
      SubmissionsMoveItems(s, step, x);
    } else if step.PollDeliver? || step.FinishDelayed? {
      DelayMovesItems(s, step, x);
    } else if IsDelivery(step) {
      ReturnMovesItems(s, step, x);
    } else {
      PollMovesItems(s, step, x);
    }
  }

  lemma ConservedKept(s: State, step: Step)
    requires Shape(s) && Enabled(s, step) && Conserved(s)
    ensures Conserved(Apply(s, step))
  {
    hide Occurrences, Apply, Enabled, Filed;
    var s' := Apply(s, step);
    forall x
      ensures Occurrences(s', x) == if x in s'.issued then 1 else 0
    {
      assert Occurrences(s, x) == if x in s.issued then 1 else 0;
      if IsWorkerStep(step) {
        WorkerKeepsOccurrences(s, step, x);
      } else {
        ClientKeepsOccurrences(s, step, x);
        IssuedGrows(s, step);
      }
    }
  }

  lemma IssuedGrows(s: State, step: Step)
    requires Shape(s) && Enabled(s, step)
    ensures s.issued <= Apply(s, step).issued
  {
    hide Size, Push, Rest, Signal, AnyWaiting, Filed, Next, Highest, Inc, Dec, Signed, PlacesInRange;
  }

  // ----- What the counters count ------------------------------------------------

  function IsWork(): Item -> nat {
    (i: Item) => if i.Work? then 1 else 0
  }

  function One(): Item -> nat {
    (i: Item) => 1
  }

  /** Requests counted but not under way. */
  function AtClient(s: State): nat {
    (if s.call.Publishing? then 1 else 0) + (if s.poll.Got? then 1 else 0)
  }

  /** Requests submitted and not yet counted as delivered. */
  ghost function Undelivered(s: State): nat {
    UnderWay(s, IsWork()) + AtClient(s)
  }

  /** The unsigned counter `c`, with `extra` made up for, shows `n` modulo the
      word size. */
  ghost predicate Shows(c: nat, extra: nat, n: int) {
    c < WORD && (c + extra) % WORD == n % WORD
  }

  /** `nreqs` counts the undelivered places; `npending` is the length of the
      result queue; `nready` is the length of the request queue less all quit
      requests ever pushed, modulo the word size. */
  ghost predicate CountersAgree(s: State) {
    && Shows(s.nreqs, 0, Undelivered(s))
    && Shows(s.npending, 0, Size(s.resQ))
    && Shows(s.nready, s.quits, Size(s.reqQ))
  }

  ghost predicate AllWork(q: Fifo<Item>) {
    forall p, i :: 0 <= p < |q| && 0 <= i < |q[p]| ==> q[p][i].Work?
  }

  lemma PushWork(q: Fifo<Item>, item: Item)
    requires AllWork(q) && item.Work? && item.Pri() < |q|
    ensures AllWork(Push(q, item.Pri(), item))
  {
  }

  lemma RestWork(q: Fifo<Item>)
    requires AllWork(q) && Highest(q, |q|) >= 0
    ensures AllWork(Rest(q)) && Next(q).Work?
  {
  }

  /** What the client and the workers hold on the way to the client is work. */
  ghost predicate ResultsAreWork(s: State) {
    && AllWork(s.resQ)
    && (s.call.Publishing? ==> s.call.item.Work?)
  }

  lemma ResultsAreWorkKept(s: State, step: Step)
    requires Shape(s) && Enabled(s, step) && ResultsAreWork(s)
    ensures ResultsAreWork(Apply(s, step))
  {
    var item := ResultQueueEffect(s, step);
    ClientEffect(s, step);
    hide Apply, Enabled, Shape, Push, Rest, Highest, Next, AllWork, Signed, MayCall;
    if step.PublishGroup? || step.Complete? {
      PushWork(s.resQ, item);
    } else if step.PollShift? && Highest(s.resQ, |s.resQ|) >= 0 {
      RestWork(s.resQ);
    }
  }

  lemma Congruent(a: int, b: int, k: int)
    requires a == b + k * WORD
    ensures a % WORD == b % WORD
  {
  }

  lemma ShowsInc(c: nat, extra: nat, n: int)
    requires Shows(c, extra, n)
    ensures Shows(Inc(c), extra, n + 1)
  {
    var k := (c + extra) / WORD - n / WORD;
    assert c + extra == n + k * WORD;
    IncCases(c);
    hide Inc;
    Congruent(Inc(c) + extra, n + 1, if c + 1 == WORD then k - 1 else k);
  }

  lemma IncCases(c: nat)
    requires c < WORD
    ensures Inc(c) == if c + 1 == WORD then 0 else c + 1
    ensures Dec(c) == if c == 0 then WORD - 1 else c - 1
  {
  }

  lemma ShowsDec(c: nat, extra: nat, n: int)
    requires Shows(c, extra, n)
    ensures Shows(Dec(c), extra, n - 1)
  {
    var k := (c + extra) / WORD - n / WORD;
    assert c + extra == n + k * WORD;
    IncCases(c);
    hide Dec;
    Congruent(Dec(c) + extra, n - 1, if c == 0 then k + 1 else k);
  }

  lemma ShowsMore(c: nat, extra: nat, n: int)
    requires Shows(c, extra, n)
    ensures Shows(c, extra + 1, n + 1)
  {
  }

  /** What a step does to the count of outstanding requests and to the places
      that it counts at the client. */
  ghost predicate RequestCountChange(s: State, step: Step, s': State)
    requires Enabled(s, step)
  {
    var counted, uncounted := step.SubmitWork? || step.SubmitGroup?, step.PollCount?;
    && s'.nreqs == (if counted then Inc(s.nreqs) else if uncounted then Dec(s.nreqs) else s.nreqs)
    && AtClient(s') + Entering(s, step, IsWork()) + (if uncounted then 1 else 0)
       == AtClient(s) + Departing(s, step, IsWork()) + (if counted then 1 else 0)
  }

  lemma CallRequestCountEffect(s: State, step: Step)
    requires Shape(s) && Enabled(s, step) && ResultsAreWork(s) && !IsWorkerStep(step) && !IsPollStep(step)
    ensures RequestCountChange(s, step, Apply(s, step))
  {
    hide WorkerApply, PollApply, WorkerEnabled, PollEnabled, Size, Push, Rest, Highest, Next, Signal, AnyWaiting,
      Filed, Inc, Dec, Signed;
  }

  lemma ShiftRequestCountEffect(s: State, step: Step)
    requires Shape(s) && Enabled(s, step) && ResultsAreWork(s) && step.PollShift?
    ensures RequestCountChange(s, step, Apply(s, step))
  {
    hide WorkerApply, CallApply, WorkerEnabled, CallEnabled, Size, Push, Rest, Highest, Next, Filed, Inc, Dec,
      AllWork, PlacesInRange;
    if Highest(s.resQ, |s.resQ|) >= 0 {
      RestWork(s.resQ);
    }
  }

  lemma OnlyShiftsDepart(s: State, step: Step, f: Item -> nat)
    requires Enabled(s, step) && IsPollStep(step) && !step.PollShift?
    ensures Entering(s, step, f) == Departing(s, step, f) == 0
  {
    hide Enabled;
  }

  lemma DeliveryRequestCountEffect(s: State, step: Step)
    requires Shape(s) && Enabled(s, step) && IsPollStep(step) && !step.PollShift?
    ensures RequestCountChange(s, step, Apply(s, step))
  {
    OnlyShiftsDepart(s, step, IsWork());
    hide WorkerApply, CallApply, WorkerEnabled, CallEnabled, PollShiftStep, Shape, Inc, Dec, Entering, Departing;
  }

  lemma PollRequestCountEffect(s: State, step: Step)
    requires Shape(s) && Enabled(s, step) && ResultsAreWork(s) && IsPollStep(step)
    ensures RequestCountChange(s, step, Apply(s, step))
  {
    hide Apply, Enabled, Shape, ResultsAreWork, RequestCountChange;
    if step.PollShift? {
      ShiftRequestCountEffect(s, step);
    } else {
      DeliveryRequestCountEffect(s, step);
    }
  }

  lemma WorkerRequestCountEffect(s: State, step: Step)
    requires Shape(s) && Enabled(s, step) && ResultsAreWork(s) && IsWorkerStep(step)
    ensures RequestCountChange(s, step, Apply(s, step))
  {
    hide CallApply, PollApply, CallEnabled, PollEnabled, Size, Push, Rest, Highest, Next, Signal, AnyWaiting, Filed,
      Inc, Dec, Signed;
  }

  lemma RequestCountEffect(s: State, step: Step)
    requires Shape(s) && Enabled(s, step) && ResultsAreWork(s)
    ensures RequestCountChange(s, step, Apply(s, step))
  {
    hide Apply, Shape, Enabled, ResultsAreWork, RequestCountChange;
    if IsWorkerStep(step) {
      WorkerRequestCountEffect(s, step);
    } else if IsPollStep(step) {
      PollRequestCountEffect(s, step);
    } else {
      CallRequestCountEffect(s, step);
    }
  }

  lemma RequestCountKept(s: State, step: Step)
    requires Shape(s) && Enabled(s, step) && Shows(s.nreqs, 0, Undelivered(s)) && ResultsAreWork(s)
    ensures Shows(Apply(s, step).nreqs, 0, Undelivered(Apply(s, step)))
  {
    StepMoves(s, step, IsWork());
    RequestCountEffect(s, step);
    ShowsInc(s.nreqs, 0, Undelivered(s));
    ShowsDec(s.nreqs, 0, Undelivered(s));
    hide UnderWay, AtClient, Entering, Departing, Apply, Enabled, Shape, ResultsAreWork, Inc, Dec, Shows;
  }

  lemma PendingCountKept(s: State, step: Step)
    requires Shape(s) && Enabled(s, step) && Shows(s.npending, 0, Size(s.resQ))
    ensures Shows(Apply(s, step).npending, 0, Size(Apply(s, step).resQ))
  {
    var item := ResultQueueEffect(s, step);
    ShowsInc(s.npending, 0, Size(s.resQ));
    ShowsDec(s.npending, 0, Size(s.resQ));
    hide Apply, Enabled, Size, Push, Rest, Highest, Next, Filed, Inc, Dec, Shows, PlacesInRange;
    if step.PublishGroup? || step.Complete? {
      PushSize(s.resQ, item.Pri(), item);
    } else if step.PollShift? && Highest(s.resQ, |s.resQ|) >= 0 {
      RestSize(s.resQ);
    }
  }

  lemma ReadyCountKept(s: State, step: Step)
    requires Shape(s) && Enabled(s, step) && Shows(s.nready, s.quits, Size(s.reqQ))
    ensures Shows(Apply(s, step).nready, Apply(s, step).quits, Size(Apply(s, step).reqQ))
  {
    RequestQueueEffect(s, step);
    ShowsInc(s.nready, s.quits, Size(s.reqQ));
    ShowsDec(s.nready, s.quits, Size(s.reqQ));
    ShowsMore(s.nready, s.quits, Size(s.reqQ));
    hide Apply, Enabled, Size, Push, Rest, Highest, Next, Filed, Inc, Dec, Shows, PlacesInRange;
    if step.SubmitWork? || step.EndThread? {
      PushSize(s.reqQ, step.item.Pri(), step.item);
    } else if step.TakeOrWait? && Highest(s.reqQ, |s.reqQ|) >= 0 {
      RestSize(s.reqQ);
    }
  }

  lemma CountersKept(s: State, step: Step)
    requires Shape(s) && Enabled(s, step) && CountersAgree(s) && ResultsAreWork(s)
    ensures CountersAgree(Apply(s, step))
  {
    RequestCountKept(s, step);
    PendingCountKept(s, step);
    ReadyCountKept(s, step);
    hide Apply, Enabled, Size, Filed, Undelivered, Shows;
  }

  /** The number of ready requests is right exactly as long as no quit request
      has been pushed. */
  lemma ReadyIsExactWithoutQuits(s: State)
    requires CountersAgree(s) && s.quits < WORD && Size(s.reqQ) < WORD
    ensures s.nready == Size(s.reqQ) <==> s.quits == 0
  {
  }

  // ----- Threads ---------------------------------------------------------------

  function IsIdle(): Worker -> nat {
    (w: Worker) => if w.Waiting? || w.Woken? then 1 else 0
  }

  function IsWoken(): Worker -> nat {
    (w: Worker) => if w.Woken? then 1 else 0
  }

  /** Workers that have neither counted themselves out nor obeyed a quit. */
  function IsCounted(): Worker -> nat {
    (w: Worker) => if w.Leaving? || w.Gone? then 0 else 1
  }

  /** `idle` counts the workers in a wait; `started` counts the threads, less
      the ends announced, plus the quit requests obeyed. */
  ghost predicate ThreadsAgree(s: State) {
    && Shows(s.idle, 0, SeqSum(s.workers, IsIdle()))
    && Shows(s.started, s.ends, SeqSum(s.workers, IsCounted()) + s.quitsTaken)
  }

  /** A worker step changes one worker. */
  lemma WorkerSum(s: State, step: Step, g: Worker -> nat)
    requires Shape(s) && Enabled(s, step) && IsWorkerStep(step)
    ensures var s' := Apply(s, step);
      && step.w < |s.workers| && |s'.workers| == |s.workers|
      && s'.workers == s.workers[step.w := s'.workers[step.w]]
      && SeqSum(s'.workers, g) + g(s.workers[step.w]) == SeqSum(s.workers, g) + g(s'.workers[step.w])
      && SeqSum(s.workers, g) >= g(s.workers[step.w])
  {
    hide Size, Push, Rest, SeqSum, Filed, Highest, Next, Inc, Dec, Signed;
    SeqSumTerm(s.workers, step.w, g);
    SeqSumUpdate(s.workers, step.w, Apply(s, step).workers[step.w], g);
  }

  /** A client step starts a worker, signals, or leaves the workers alone. */
  lemma ClientSum(s: State, step: Step, g: Worker -> nat)
    requires Shape(s) && Enabled(s, step) && !IsWorkerStep(step)
    requires forall t :: g(Waiting(t)) == g(Woken(false))
    ensures SeqSum(Apply(s, step).workers, g) == SeqSum(s.workers, g) + if step.StartThread? then g(Ready) else 0
  {
    hide Size, Push, Rest, SeqSum, Filed, Highest, Next, Inc, Dec, Signed;
    if step.SubmitWork? || step.EndThread? {
      if AnyWaiting(s.workers) {
        SeqSumUpdate(s.workers, step.wake, Woken(false), g);
      }
    } else if step.StartThread? {
      StartSum(s.workers, g);
    }
  }

  /** How a worker step counts idle and started threads. */
  lemma WorkerCounts(s: State, step: Step)
    requires Shape(s) && Enabled(s, step) && IsWorkerStep(step)
    ensures var s' := Apply(s, step);
      && step.w < |s.workers| == |s'.workers|
      && s'.ends == s.ends && s'.quitsTaken == s.quitsTaken + (if step.ObeyQuit? then 1 else 0)
      && s'.started == (if step.CountTimeout? then Dec(s.started) else s.started)
      && IsCounted()(s'.workers[step.w])
         == IsCounted()(s.workers[step.w]) - (if step.CountTimeout? || step.ObeyQuit? then 1 else 0)
      && s'.idle == (
        var left := if step.TakeOrWait? && s.workers[step.w].Woken? then Dec(s.idle) else s.idle;
        if s'.workers[step.w].Waiting? && step.TakeOrWait? then Inc(left) else left)
      && (!step.TakeOrWait? ==> IsIdle()(s'.workers[step.w]) == IsIdle()(s.workers[step.w]))
      && (step.TakeOrWait? ==> !s.workers[step.w].Waiting? && !s'.workers[step.w].Woken?)
  {
    hide CallApply, PollApply, CallEnabled, PollEnabled, Size, Push, Rest, Highest, Next, Filed, Inc, Dec, Signed,
      PlacesInRange;
  }

  lemma WorkerKeepsIdle(s: State, step: Step)
    requires Shape(s) && Enabled(s, step) && ThreadsAgree(s) && IsWorkerStep(step)
    ensures Shows(Apply(s, step).idle, 0, SeqSum(Apply(s, step).workers, IsIdle()))
  {
    var n := SeqSum(s.workers, IsIdle());
    WorkerCounts(s, step);
    WorkerSum(s, step, IsIdle());
    hide Apply, Enabled, SeqSum, IsCounted, Inc, Dec, Shows, Shape;
    if step.TakeOrWait? {
      if s.workers[step.w].Woken? {
        ShowsDec(s.idle, 0, n);
        ShowsInc(Dec(s.idle), 0, n - 1);
      } else {
        ShowsInc(s.idle, 0, n);
      }
    }
  }

  lemma ClientKeepsIdle(s: State, step: Step)
    requires Shape(s) && Enabled(s, step) && ThreadsAgree(s) && !IsWorkerStep(step)
    ensures Shows(Apply(s, step).idle, 0, SeqSum(Apply(s, step).workers, IsIdle()))
  {
    ClientSum(s, step, IsIdle());
    hide Size, Push, Rest, SeqSum, Signal, AnyWaiting, Filed, Highest, Next, IsCounted, Signed, Inc, Dec, Shows,
      PlacesInRange;
  }

  lemma WorkerKeepsStarted(s: State, step: Step)
    requires Shape(s) && Enabled(s, step) && ThreadsAgree(s) && IsWorkerStep(step)
    ensures var s' := Apply(s, step);
      Shows(s'.started, s'.ends, SeqSum(s'.workers, IsCounted()) + s'.quitsTaken)
  {
    WorkerCounts(s, step);
    WorkerSum(s, step, IsCounted());
    ShowsDec(s.started, s.ends, SeqSum(s.workers, IsCounted()) + s.quitsTaken);
    hide Apply, Enabled, SeqSum, IsIdle, IsCounted, Inc, Dec, Shows, Shape;
  }

  lemma ClientKeepsStarted(s: State, step: Step)
    requires Shape(s) && Enabled(s, step) && ThreadsAgree(s) && !IsWorkerStep(step)
    ensures var s' := Apply(s, step);
      Shows(s'.started, s'.ends, SeqSum(s'.workers, IsCounted()) + s'.quitsTaken)
  {
    var n := SeqSum(s.workers, IsCounted()) + s.quitsTaken;
    ClientSum(s, step, IsCounted());
    EndsEffect(s, step);
    hide Apply, Enabled, Shape, SeqSum, IsIdle, Inc, Dec, Shows;
    if step.StartThread? {
      ShowsInc(s.started, s.ends, n);
    } else if step.EndThreadCount? {
      ShowsDec(s.started, s.ends, n);
      ShowsMore(Dec(s.started), s.ends, n - 1);
    }
  }

  lemma ThreadsKept(s: State, step: Step)
    requires Shape(s) && Enabled(s, step) && ThreadsAgree(s)
    ensures ThreadsAgree(Apply(s, step))
  {
    if IsWorkerStep(step) {
      WorkerKeepsIdle(s, step);
      WorkerKeepsStarted(s, step);
    } else {
      ClientKeepsIdle(s, step);
      ClientKeepsStarted(s, step);
    }
    hide Apply, SeqSum, IsIdle, IsCounted, Enabled, Shows;
  }

  // ----- Callbacks ---------------------------------------------------------------

  ghost predicate Alternating(events: seq<Event>) {
    forall i :: 0 <= i < |events| ==> events[i] == if i % 2 == 0 then WantPoll else DonePoll
  }

  lemma AlternatingMore(events: seq<Event>)
    requires Alternating(events)
    ensures Alternating(events + []) && events + [] == events
    ensures Alternating(events + [if |events| % 2 == 0 then WantPoll else DonePoll])
  {
    assert events + [] == events;
  }

  /** `want_poll` and `done_poll` alternate, starting with `want_poll`, and one
      `want_poll` is outstanding exactly when there are results. */
  ghost predicate EventsAgree(s: State) {
    && Alternating(s.events)
    && (|s.events| % 2 == 1 <==> Size(s.resQ) > 0)
  }

  /** Pushing to an empty queue raises the first event, emptying it the second. */
  lemma EventsAfter(before: seq<Event>, n: nat, after: seq<Event>, n': nat)
    requires Alternating(before) && (|before| % 2 == 1 <==> n > 0)
    requires
      || (n' == n + 1 && after == before + if n == 0 then [WantPoll] else [])
      || (n' + 1 == n && after == before + if n' == 0 then [DonePoll] else [])
      || (n' == n && after == before)
    ensures Alternating(after) && (|after| % 2 == 1 <==> n' > 0)
  {
    AlternatingMore(before);
    hide Alternating;
  }

  lemma EventsKept(s: State, step: Step)
    requires Shape(s) && Enabled(s, step) && EventsAgree(s)
    ensures EventsAgree(Apply(s, step))
  {
    var s' := Apply(s, step);
    var item := ResultQueueEffect(s, step);
    hide Alternating, Apply, Enabled, Size, Push, Rest, Highest, Next, Filed, Inc, Dec, PlacesInRange;
    if step.PublishGroup? || step.Complete? {
      PushSize(s.resQ, item.Pri(), item);
    } else if step.PollShift? && Highest(s.resQ, |s.resQ|) >= 0 {
      RestSize(s.resQ);
    }
    EventsAfter(s.events, Size(s.resQ), s'.events, Size(s'.resQ));
  }

  /** The pipe of `demo.c`: a byte in for each `want_poll`, out for each
      `done_poll`. */
  function Pipe(events: seq<Event>): int {
    if events == [] then 0
    else Pipe(events[..|events| - 1]) + if events[|events| - 1] == WantPoll then 1 else -1
  }

  lemma {:induction false} PipeParity(events: seq<Event>)
    requires Alternating(events)
    ensures Pipe(events) == |events| % 2
  {
    if events != [] {
      PipeParity(events[..|events| - 1]);
    }
  }

  /** So the pipe holds one byte exactly when there are results. */
  lemma PipeHoldsOneByte(s: State)
    requires EventsAgree(s)
    ensures Pipe(s.events) == if Size(s.resQ) > 0 then 1 else 0
  {
    PipeParity(s.events);
  }

  // ----- No lost wake-up -----------------------------------------------------------

  /** While some worker waits unsignalled, there are no more queued items than
      woken workers that have yet to look. */
  ghost predicate NoLostWakeup(s: State) {
    AnyWaiting(s.workers) ==> Size(s.reqQ) <= SeqSum(s.workers, IsWoken())
  }

  lemma AnyWaitingAfter(ws: seq<Worker>, i: nat, x: Worker)
    requires i < |ws| && !x.Waiting? && AnyWaiting(ws[i := x])
    ensures AnyWaiting(ws)
  {
    var k :| 0 <= k < |ws| && ws[i := x][k].Waiting?;
    assert ws[k].Waiting?;
  }

  lemma WorkerKeepsWakeup(s: State, step: Step)
    requires Shape(s) && Enabled(s, step) && IsWorkerStep(step) && NoLostWakeup(s)
    ensures NoLostWakeup(Apply(s, step))
  {
    hide Size, Push, Rest, SeqSum, AnyWaiting, Filed, Highest, Next, Inc, Dec, Signed;
    WorkerSum(s, step, IsWoken());
    KeepWaiting(s.workers, step.w, Apply(s, step).workers[step.w]);
    if step.TakeOrWait? {
      EmptyIffSizeZero(s.reqQ);
      if Highest(s.reqQ, |s.reqQ|) >= 0 {
        RestSize(s.reqQ);
      }
    }
  }

  lemma NoLostWakeupKept(s: State, step: Step)
    requires Shape(s) && Enabled(s, step) && NoLostWakeup(s)
    ensures NoLostWakeup(Apply(s, step))
  {
    hide Size, Push, Rest, SeqSum, AnyWaiting, Signal, Filed, Highest, Next, Inc, Dec, Signed;
    if IsWorkerStep(step) {
      WorkerKeepsWakeup(s, step);
    } else if step.SubmitWork? || step.EndThread? {
      PushSize(s.reqQ, step.item.Pri(), step.item);
      SignalWakes(s.workers, step.wake);
    } else if step.StartThread? {
      StartSum(s.workers, IsWoken());
      StartWaiting(s.workers);
    }
  }

  lemma KeepWaiting(ws: seq<Worker>, i: nat, x: Worker)
    requires i < |ws|
    ensures !x.Waiting? && AnyWaiting(ws[i := x]) ==> AnyWaiting(ws)
  {
    if !x.Waiting? && AnyWaiting(ws[i := x]) {
      AnyWaitingAfter(ws, i, x);
    }
  }

  lemma SignalWakes(ws: seq<Worker>, wake: nat)
    requires AnyWaiting(ws) ==> wake < |ws| && ws[wake].Waiting?
    ensures AnyWaiting(Signal(ws, wake)) ==>
      AnyWaiting(ws) && SeqSum(Signal(ws, wake), IsWoken()) == SeqSum(ws, IsWoken()) + 1
  {
    if AnyWaiting(ws) {
      SeqSumUpdate(ws, wake, Woken(false), IsWoken());
      KeepWaiting(ws, wake, Woken(false));
    }
  }

  lemma StartWaiting(ws: seq<Worker>)
    ensures AnyWaiting(ws + [Ready]) ==> AnyWaiting(ws)
  {
    if AnyWaiting(ws + [Ready]) {
      var k :| 0 <= k <= |ws| && (ws + [Ready])[k].Waiting?;
      assert ws[k].Waiting?;
    }
  }
}
