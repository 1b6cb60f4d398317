/** The thread pool (libeio/etp.c) as a state machine: one client thread and any
    number of workers, one step for each critical section and for each unlocked
    read of a counter. */
module Pool {
  import opened Basics
  import opened PriorityFifo

  /** A request in the request queue: one of the client's, or the message that
      makes a worker quit. Each is issued once. */
  datatype Item = Work(id: nat, pri: nat, group: bool) | Quit(n: nat) {
    function Pri(): nat {
      if Quit? then NUM_PRI - 1 else pri
    }
  }

  /** Where a worker is in `etp_proc`. */
  datatype Worker =
    | Ready                      // about to lock the request queue
    | Waiting(timed: bool)       // blocked on the condition variable
    | Woken(timedOut: bool)      // out of the wait, yet to get the lock back
    | Holding(item: Item)        // has taken an item and dropped the lock
    | TimedOut                   // gave up, and has dropped the lock
    | Leaving                    // about to take itself off the worker list
    | Gone

  /** Where the client is in `etp_poll`. */
  datatype Poll = NoPoll | AtTop | AtShift | Got(item: Item) | Counted(item: Item) | Finishing(item: Item)

  /** Where the client is in `etp_submit`, `etp_maybe_start_thread` or
      `etp_end_thread`, from a callback or from outside. */
  datatype Call =
    | NoCall
    | Publishing(item: Item)     // a group is counted and goes to the result queue
    | Check0 | Check1 | Check2(threads: nat) | Check3(threads: nat, pending: nat)
    | Starting
    | Ending

  datatype Event = WantPoll | DonePoll

  datatype State = State(
    reqQ: Fifo<Item>,
    resQ: Fifo<Item>,
    workers: seq<Worker>,
    poll: Poll,
    call: Call,
    // unsigned counters
    started: nat, idle: nat, nreqs: nat, nready: nat, npending: nat,
    // settings
    wanted: nat, maxIdle: nat,
    // history
    issued: set<Item>, delayed: multiset<Item>, finished: multiset<Item>,
    quits: nat, quitsTaken: nat, ends: nat, events: seq<Event>)

  datatype Step =
    // the client submits
    | SubmitWork(item: Item, wake: nat)
    | SubmitGroup(item: Item)
    | PublishGroup
    // etp_maybe_start_thread
    | ReadStarted | ReadStartedAgain | ReadPending | ReadReqs | StartThread
    // etp_end_thread
    | EndThread(item: Item, wake: nat) | EndThreadCount
    // etp_poll
    | PollBegin | PollCheck | PollShift | PollCount | PollDeliver(busy: bool) | FinishDelayed(item: Item)
    | PollAgain | PollReturn
    // a worker
    | TakeOrWait(w: nat) | WakeUp(w: nat) | TimeOut(w: nat) | Complete(w: nat)
    | ObeyQuit(w: nat) | CountTimeout(w: nat) | Leave(w: nat)

  function Inc(x: nat): nat {
    (x + 1) % WORD
  }

  function Dec(x: nat): nat {
    (x + WORD - 1) % WORD
  }

  predicate AnyWaiting(ws: seq<Worker>) {
    exists i :: 0 <= i < |ws| && ws[i].Waiting?
  }

  /** `X_COND_SIGNAL`: wakes a waiter if there is one. */
  function Signal(ws: seq<Worker>, wake: nat): seq<Worker>
    requires AnyWaiting(ws) ==> wake < |ws| && ws[wake].Waiting?
  {
    if AnyWaiting(ws) then ws[wake := Woken(false)] else ws
  }

  predicate MayCall(s: State) {
    s.call == NoCall && (s.poll == NoPoll || s.poll.Finishing?)
  }

  /** The three parts of a step's name: the client submits, starts or ends
      threads; it polls; a worker moves. */
  predicate IsPollStep(step: Step) {
    || step.PollBegin? || step.PollCheck? || step.PollShift? || step.PollCount? || step.PollDeliver?
    || step.FinishDelayed? || step.PollAgain? || step.PollReturn?
  }

  predicate IsWorkerStep(step: Step) {
    || step.TakeOrWait? || step.WakeUp? || step.TimeOut? || step.Complete? || step.ObeyQuit?
    || step.CountTimeout? || step.Leave?
  }

  predicate CallEnabled(s: State, step: Step)
    requires !IsPollStep(step) && !IsWorkerStep(step)
  {
    match step
    case SubmitWork(item, wake) =>
      && MayCall(s) && item.Work? && !item.group && item.pri < NUM_PRI && item !in s.issued
      && (AnyWaiting(s.workers) ==> wake < |s.workers| && s.workers[wake].Waiting?)
    case SubmitGroup(item) => MayCall(s) && item.Work? && item.group && item.pri < NUM_PRI && item !in s.issued
    case PublishGroup => s.call.Publishing?
    case ReadStarted => s.call == Check0
    case ReadStartedAgain => s.call == Check1
    case ReadPending => s.call.Check2?
    case ReadReqs => s.call.Check3?
    case StartThread => s.call == Starting
    case EndThread(item, wake) =>
      && MayCall(s) && item == Quit(s.quits) && item !in s.issued
      && (AnyWaiting(s.workers) ==> wake < |s.workers| && s.workers[wake].Waiting?)
    case EndThreadCount => s.call == Ending
  }

  predicate PollEnabled(s: State, step: Step)
    requires IsPollStep(step)
  {
    match step
    case PollBegin => s.call == NoCall && s.poll == NoPoll
    case PollCheck => s.call == NoCall && s.poll == AtTop
    case PollShift => s.call == NoCall && s.poll == AtShift
    case PollCount => s.poll.Got?
    case PollDeliver(busy) => s.poll.Counted?
    case FinishDelayed(item) => s.call == NoCall && s.poll.Finishing? && s.delayed[item] > 0
    case PollAgain => s.call == NoCall && s.poll.Finishing?
    case PollReturn => s.call == NoCall && s.poll.Finishing?
  }

  predicate WorkerEnabled(s: State, step: Step)
    requires IsWorkerStep(step)
  {
    && step.w < |s.workers|
    && var me := s.workers[step.w];
    match step
    case TakeOrWait(_) => me == Ready || me.Woken?
    case WakeUp(_) => me.Waiting?
    case TimeOut(_) => me == Waiting(true)
    case Complete(_) => me.Holding? && me.item.Work?
    case ObeyQuit(_) => me.Holding? && me.item.Quit?
    case CountTimeout(_) => me == TimedOut
    case Leave(_) => me == Leaving
  }

  predicate Enabled(s: State, step: Step) {
    if IsWorkerStep(step) then WorkerEnabled(s, step)
    else if IsPollStep(step) then PollEnabled(s, step)
    else CallEnabled(s, step)
  }

  /** `reqq_push` to the result queue, with the callback when it was empty. */
  function Publish(s: State, item: Item): State
    requires item.Pri() < |s.resQ|
  {
    s.(npending := Inc(s.npending),
       resQ := Push(s.resQ, item.Pri(), item),
       events := s.events + if Size(s.resQ) == 0 then [WantPoll] else [])
  }

  /** The inner loop of `etp_proc` under the lock: take an item, or give up after
      a timeout, or wait. */
  function TakeOrWaitStep(s: State, w: nat): State
    requires w < |s.workers|
  {
    var idle := if s.workers[w].Woken? then Dec(s.idle) else s.idle;
    if Highest(s.reqQ, |s.reqQ|) >= 0 then
      s.(workers := s.workers[w := Holding(Next(s.reqQ))], reqQ := Rest(s.reqQ), nready := Dec(s.nready), idle := idle)
    else if s.workers[w] == Woken(true) then
      s.(workers := s.workers[w := TimedOut], idle := idle)
    else
      s.(workers := s.workers[w := Waiting(Inc(idle) > s.maxIdle)], idle := Inc(idle))
  }

  function PollShiftStep(s: State): State {
    if Highest(s.resQ, |s.resQ|) < 0 then s.(poll := NoPoll)
    else
      s.(npending := Dec(s.npending), poll := Got(Next(s.resQ)), resQ := Rest(s.resQ),
         events := s.events + if Size(Rest(s.resQ)) == 0 then [DonePoll] else [])
  }

  function CallApply(s: State, step: Step): State
    requires !IsPollStep(step) && !IsWorkerStep(step)
    requires |s.reqQ| == |s.resQ| == NUM_PRI && CallEnabled(s, step) && PlacesInRange(s)
  {
    match step
    case SubmitWork(item, wake) =>
      s.(nreqs := Inc(s.nreqs), nready := Inc(s.nready), reqQ := Push(s.reqQ, item.Pri(), item),
         workers := Signal(s.workers, wake), issued := s.issued + {item}, call := Check0)
    case SubmitGroup(item) => s.(nreqs := Inc(s.nreqs), issued := s.issued + {item}, call := Publishing(item))
    case PublishGroup => Publish(s, s.call.item).(call := NoCall)
    case ReadStarted => s.(call := if s.started >= s.wanted then NoCall else Check1)
    case ReadStartedAgain => s.(call := Check2(s.started))
    case ReadPending => s.(call := Check3(s.call.threads, s.npending))
    case ReadReqs =>
      s.(call := if 0 <= Signed(s.call.threads) + Signed(s.call.pending) - Signed(s.nreqs) then NoCall else Starting)
    case StartThread => s.(workers := s.workers + [Ready], started := Inc(s.started), call := NoCall)
    case EndThread(item, wake) =>
      s.(reqQ := Push(s.reqQ, item.Pri(), item), workers := Signal(s.workers, wake),
         issued := s.issued + {item}, quits := s.quits + 1, call := Ending)
    case EndThreadCount => s.(started := Dec(s.started), ends := s.ends + 1, call := NoCall)
  }

  function PollApply(s: State, step: Step): State
    requires IsPollStep(step) && PollEnabled(s, step)
  {
    match step
    case PollBegin => s.(poll := AtTop)
    case PollCheck => s.(poll := AtShift, call := Check0)
    case PollShift => PollShiftStep(s)
    case PollCount => s.(nreqs := Dec(s.nreqs), poll := Counted(s.poll.item))
    case PollDeliver(busy) =>
      var item := s.poll.item;
      if item.Work? && item.group && busy then s.(delayed := s.delayed + multiset{item}, poll := AtTop)
      else s.(poll := Finishing(item))
    case FinishDelayed(item) => s.(delayed := s.delayed - multiset{item}, finished := s.finished + multiset{item})
    case PollAgain => s.(finished := s.finished + multiset{s.poll.item}, poll := AtTop)
    case PollReturn => s.(finished := s.finished + multiset{s.poll.item}, poll := NoPoll)
  }

  function WorkerApply(s: State, step: Step): State
    requires IsWorkerStep(step)
    requires |s.reqQ| == |s.resQ| == NUM_PRI && WorkerEnabled(s, step) && PlacesInRange(s)
  {
    match step
    case TakeOrWait(w) => TakeOrWaitStep(s, w)
    case WakeUp(w) => s.(workers := s.workers[w := Woken(false)])
    case TimeOut(w) => s.(workers := s.workers[w := Woken(true)])
    case Complete(w) => Publish(s, s.workers[w].item).(workers := s.workers[w := Ready])
    case ObeyQuit(w) =>
      s.(workers := s.workers[w := Leaving], quitsTaken := s.quitsTaken + 1,
         finished := s.finished + multiset{s.workers[w].item})
    case CountTimeout(w) => s.(started := Dec(s.started), workers := s.workers[w := Leaving])
    case Leave(w) => s.(workers := s.workers[w := Gone])
  }

  function Apply(s: State, step: Step): State
    requires |s.reqQ| == |s.resQ| == NUM_PRI && Enabled(s, step) && PlacesInRange(s)
  {
    if IsWorkerStep(step) then WorkerApply(s, step)
    else if IsPollStep(step) then PollApply(s, step)
    else CallApply(s, step)
  }

  predicate WorkersInRange(ws: seq<Worker>) {
    forall i :: 0 <= i < |ws| && ws[i].Holding? ==> ws[i].item.Pri() < NUM_PRI
  }

  /** Items on their way carry a priority that exists. */
  predicate PlacesInRange(s: State) {
    (s.call.Publishing? ==> s.call.item.Pri() < NUM_PRI) && WorkersInRange(s.workers)
  }

  /** `etp_init`, with the settings that the client has chosen. */
  function Init(wanted: nat, maxIdle: nat): State {
    State(seq(NUM_PRI, i => []), seq(NUM_PRI, i => []), [], NoPoll, NoCall,
          0, 0, 0, 0, 0, wanted, maxIdle, {}, multiset{}, multiset{}, 0, 0, 0, [])
  }
}
