/** What one step of the thread pool changes, part of the state by part: proofs
    about steps start from here and not from the steps themselves. */
module PoolEffects {
  import opened Basics
  import opened PriorityFifo
  import opened Pool

  /** Items are filed under their own priority. */
  ghost predicate Filed(q: Fifo<Item>) {
    forall p, i :: 0 <= p < |q| && 0 <= i < |q[p]| ==> q[p][i].Pri() == p
  }

  ghost predicate Shape(s: State) {
    |s.reqQ| == |s.resQ| == NUM_PRI && Filed(s.reqQ) && Filed(s.resQ) && PlacesInRange(s)
  }

  lemma PushFiled(q: Fifo<Item>, item: Item)
    requires Filed(q) && item.Pri() < |q|
    ensures Filed(Push(q, item.Pri(), item))
  {
  }

  lemma RestFiled(q: Fifo<Item>)
    requires Filed(q) && Highest(q, |q|) >= 0
    ensures Filed(Rest(q)) && Next(q).Pri() < |q|
  {
  }

  // ----- The queues ---------------------------------------------------------------

  /** Two kinds of step file `item` in the result queue, one kind takes the next
      one out; all others leave the queue and its counts alone. */
  ghost predicate ResultQueueChange(s: State, step: Step, s': State, item: Item) {
    if step.PublishGroup? || step.Complete? then
      && (if step.Complete? then item.Work? else s.call.Publishing? && item == s.call.item)
      && item.Pri() < |s.resQ| && s'.resQ == Push(s.resQ, item.Pri(), item) && s'.npending == Inc(s.npending)
      && s'.events == s.events + if Size(s.resQ) == 0 then [WantPoll] else []
    else if step.PollShift? && Highest(s.resQ, |s.resQ|) >= 0 then
      && s'.resQ == Rest(s.resQ) && s'.npending == Dec(s.npending)
      && s'.events == s.events + if Size(s'.resQ) == 0 then [DonePoll] else []
    else s'.resQ == s.resQ && s'.npending == s.npending && s'.events == s.events
  }

  lemma CallResultQueueEffect(s: State, step: Step) returns (item: Item)
    requires Shape(s) && Enabled(s, step) && !IsWorkerStep(step) && !IsPollStep(step)
    ensures ResultQueueChange(s, step, Apply(s, step), item)
  {
    hide WorkerApply, PollApply, WorkerEnabled, PollEnabled, Size, Push, Rest, Highest, Next, Signal, AnyWaiting,
      Filed, Inc, Dec, Signed;
    item := if step.PublishGroup? then s.call.item else Quit(0);
  }

  lemma ShiftResultQueueEffect(s: State, step: Step, item: Item)
    requires Shape(s) && Enabled(s, step) && step.PollShift?
    ensures ResultQueueChange(s, step, Apply(s, step), item)
  {
    hide WorkerApply, CallApply, WorkerEnabled, CallEnabled, Size, Push, Rest, Highest, Next, Signal, AnyWaiting,
      Filed, Inc, Dec, Signed, Shape;
  }

  lemma PollResultQueueEffect(s: State, step: Step) returns (item: Item)
    requires Shape(s) && Enabled(s, step) && IsPollStep(step)
    ensures ResultQueueChange(s, step, Apply(s, step), item)
  {
    item := Quit(0);
    if step.PollShift? {
      ShiftResultQueueEffect(s, step, item);
    }
    hide WorkerApply, CallApply, WorkerEnabled, CallEnabled, PollShiftStep, Size, Push, Rest, Highest, Shape;
  }

  lemma WorkerResultQueueEffect(s: State, step: Step) returns (item: Item)
    requires Shape(s) && Enabled(s, step) && IsWorkerStep(step)
    ensures ResultQueueChange(s, step, Apply(s, step), item)
  {
    hide CallApply, PollApply, CallEnabled, PollEnabled, Size, Push, Rest, Highest, Next, Signal, AnyWaiting, Filed,
      Inc, Dec, Signed;
    item := if step.Complete? then s.workers[step.w].item else Quit(0);
  }

  /** What a step does to the result queue. */
  lemma ResultQueueEffect(s: State, step: Step) returns (item: Item)
    requires Shape(s) && Enabled(s, step)
    ensures ResultQueueChange(s, step, Apply(s, step), item)
  {
    hide Apply, Shape, Enabled, ResultQueueChange;
    if IsWorkerStep(step) {
      item := WorkerResultQueueEffect(s, step);
    } else if IsPollStep(step) {
      item := PollResultQueueEffect(s, step);
    } else {
      item := CallResultQueueEffect(s, step);
    }
  }

  /** Two kinds of step file their item in the request queue, one kind takes the
      next one out. */
  ghost predicate RequestQueueChange(s: State, step: Step, s': State) {
    if step.SubmitWork? then
      && step.item.Pri() < |s.reqQ| && s'.reqQ == Push(s.reqQ, step.item.Pri(), step.item)
      && s'.nready == Inc(s.nready) && s'.quits == s.quits
    else if step.EndThread? then
      && step.item.Pri() < |s.reqQ| && s'.reqQ == Push(s.reqQ, step.item.Pri(), step.item)
      && s'.nready == s.nready && s'.quits == s.quits + 1
    else if step.TakeOrWait? && Highest(s.reqQ, |s.reqQ|) >= 0 then
      s'.reqQ == Rest(s.reqQ) && s'.nready == Dec(s.nready) && s'.quits == s.quits
    else s'.reqQ == s.reqQ && s'.nready == s.nready && s'.quits == s.quits
  }

  lemma CallRequestQueueEffect(s: State, step: Step)
    requires Shape(s) && Enabled(s, step) && !IsWorkerStep(step) && !IsPollStep(step)
    ensures RequestQueueChange(s, step, Apply(s, step))
  {
    hide WorkerApply, PollApply, WorkerEnabled, PollEnabled, Size, Push, Rest, Highest, Next, Signal, AnyWaiting,
      Filed, Inc, Dec, Signed;
  }

  lemma PollRequestQueueEffect(s: State, step: Step)
    requires Shape(s) && Enabled(s, step) && IsPollStep(step)
    ensures RequestQueueChange(s, step, Apply(s, step))
  {
    hide WorkerApply, CallApply, WorkerEnabled, CallEnabled, Size, Push, Rest, Highest, Next, Signal, AnyWaiting,
      Filed, Inc, Dec, Signed;
  }

  lemma WorkerRequestQueueEffect(s: State, step: Step)
    requires Shape(s) && Enabled(s, step) && IsWorkerStep(step)
    ensures RequestQueueChange(s, step, Apply(s, step))
  {
    hide CallApply, PollApply, CallEnabled, PollEnabled, Size, Push, Rest, Highest, Next, Signal, AnyWaiting, Filed,
      Inc, Dec, Signed;
  }

  /** What a step does to the request queue. */
  lemma RequestQueueEffect(s: State, step: Step)
    requires Shape(s) && Enabled(s, step)
    ensures RequestQueueChange(s, step, Apply(s, step))
  {
    hide Apply, Shape, Enabled, RequestQueueChange;
    if IsWorkerStep(step) {
      WorkerRequestQueueEffect(s, step);
    } else if IsPollStep(step) {
      PollRequestQueueEffect(s, step);
    } else {
      CallRequestQueueEffect(s, step);
    }
  }

  // ----- The workers --------------------------------------------------------------

  /** A worker step changes one worker; a client step starts one, signals, or
      leaves the workers alone. */
  ghost predicate WorkersChange(s: State, step: Step, s': State) {
    if IsWorkerStep(step) then
      && step.w < |s.workers| == |s'.workers| && s'.workers == s.workers[step.w := s'.workers[step.w]]
      && (s'.workers[step.w].Holding? ==>
            step.TakeOrWait? && Highest(s.reqQ, |s.reqQ|) >= 0 && s'.workers[step.w].item == Next(s.reqQ))
    else if step.StartThread? then s'.workers == s.workers + [Ready]
    else if step.SubmitWork? || step.EndThread? then
      && (AnyWaiting(s.workers) ==> step.wake < |s.workers| && s.workers[step.wake].Waiting?)
      && s'.workers == Signal(s.workers, step.wake)
    else s'.workers == s.workers
  }

  lemma CallWorkersEffect(s: State, step: Step)
    requires Shape(s) && Enabled(s, step) && !IsWorkerStep(step) && !IsPollStep(step)
    ensures WorkersChange(s, step, Apply(s, step))
  {
    hide WorkerApply, PollApply, WorkerEnabled, PollEnabled, Size, Push, Rest, Highest, Next, Signal, AnyWaiting,
      Filed, Inc, Dec, Signed;
  }

  lemma PollWorkersEffect(s: State, step: Step)
    requires Shape(s) && Enabled(s, step) && IsPollStep(step)
    ensures WorkersChange(s, step, Apply(s, step))
  {
    hide WorkerApply, CallApply, WorkerEnabled, CallEnabled, Size, Push, Rest, Highest, Next, Signal, AnyWaiting,
      Filed, Inc, Dec, Signed;
  }

  lemma WorkerWorkersEffect(s: State, step: Step)
    requires Shape(s) && Enabled(s, step) && IsWorkerStep(step)
    ensures WorkersChange(s, step, Apply(s, step))
  {
    hide CallApply, PollApply, CallEnabled, PollEnabled, Size, Push, Rest, Highest, Next, Signal, AnyWaiting, Filed,
      Inc, Dec, Signed;
  }

  /** What a step does to the workers. */
  lemma WorkersEffect(s: State, step: Step)
    requires Shape(s) && Enabled(s, step)
    ensures WorkersChange(s, step, Apply(s, step))
  {
    hide Apply, Shape, Enabled, WorkersChange;
    if IsWorkerStep(step) {
      WorkerWorkersEffect(s, step);
    } else if IsPollStep(step) {
      PollWorkersEffect(s, step);
    } else {
      CallWorkersEffect(s, step);
    }
  }

  // ----- The client ---------------------------------------------------------------

  /** Where the client's call and its poll go on. */
  ghost predicate ClientChange(s: State, step: Step, s': State) {
    && s'.call == (
         if step.SubmitWork? || step.PollCheck? then Check0
         else if step.SubmitGroup? then Publishing(step.item)
         else if step.EndThread? then Ending
         else if step.PublishGroup? || step.StartThread? || step.EndThreadCount? then NoCall
         else if step.ReadStarted? then (if s.started >= s.wanted then NoCall else Check1)
         else if step.ReadStartedAgain? then Check2(s.started)
         else if step.ReadPending? && s.call.Check2? then Check3(s.call.threads, s.npending)
         else if step.ReadReqs? && s.call.Check3? then
           (if 0 <= Signed(s.call.threads) + Signed(s.call.pending) - Signed(s.nreqs) then NoCall else Starting)
         else s.call)
    && (step.SubmitWork? || step.SubmitGroup? ==> MayCall(s) && step.item.Work? && step.item.Pri() < NUM_PRI)
    && (step.EndThread? ==> MayCall(s))
    && (step.ReadStartedAgain? ==> s.call == Check1)
    && (step.ReadPending? ==> s.call.Check2?) && (step.ReadReqs? ==> s.call.Check3?)
    && (step.StartThread? ==> s.call == Starting)
    && (step.PollCheck? || step.PollShift? ==> s.call == NoCall)
    && (s'.poll.Got? ==> step.PollShift? || (s'.poll == s.poll && !step.PollCheck?))
  }

  lemma CallClientEffect(s: State, step: Step)
    requires Shape(s) && Enabled(s, step) && !IsWorkerStep(step) && !IsPollStep(step)
    ensures ClientChange(s, step, Apply(s, step))
  {
    hide WorkerApply, PollApply, WorkerEnabled, PollEnabled, Size, Push, Rest, Highest, Next, Signal, AnyWaiting,
      Filed, Inc, Dec, Signed, PlacesInRange;
  }

  lemma PollClientEffect(s: State, step: Step)
    requires Shape(s) && Enabled(s, step) && IsPollStep(step)
    ensures ClientChange(s, step, Apply(s, step))
  {
    hide WorkerApply, CallApply, WorkerEnabled, CallEnabled, Size, Push, Rest, Highest, Next, Signal, AnyWaiting,
      Filed, Inc, Dec, Signed, PlacesInRange;
  }

  lemma WorkerClientEffect(s: State, step: Step)
    requires Shape(s) && Enabled(s, step) && IsWorkerStep(step)
    ensures ClientChange(s, step, Apply(s, step))
  {
    hide CallApply, PollApply, CallEnabled, PollEnabled, Size, Push, Rest, Highest, Next, Signal, AnyWaiting, Filed,
      Inc, Dec, Signed, PlacesInRange;
  }

  lemma ClientEffect(s: State, step: Step)
    requires Shape(s) && Enabled(s, step)
    ensures ClientChange(s, step, Apply(s, step))
  {
    hide Apply, Shape, Enabled, ClientChange;
    if IsWorkerStep(step) {
      WorkerClientEffect(s, step);
    } else if IsPollStep(step) {
      PollClientEffect(s, step);
    } else {
      CallClientEffect(s, step);
    }
  }

  // ----- Settings and threads -----------------------------------------------------

  /** The settings stay; threads, announced ends and obeyed quits are counted. */
  ghost predicate EndsChange(s: State, step: Step, s': State) {
    && s'.wanted == s.wanted && s'.maxIdle == s.maxIdle
    && s'.ends == s.ends + (if step.EndThreadCount? then 1 else 0)
    && s'.quitsTaken == s.quitsTaken + (if step.ObeyQuit? then 1 else 0)
    && s'.quits == s.quits + (if step.EndThread? then 1 else 0)
    && s'.started == (if step.StartThread? then Inc(s.started)
                      else if step.EndThreadCount? || step.CountTimeout? then Dec(s.started) else s.started)
    && (step.StartThread? ==> s.call == Starting) && (step.EndThreadCount? ==> s.call == Ending)
  }

  lemma CallEndsEffect(s: State, step: Step)
    requires Shape(s) && Enabled(s, step) && !IsWorkerStep(step) && !IsPollStep(step)
    ensures EndsChange(s, step, Apply(s, step))
  {
    hide WorkerApply, PollApply, WorkerEnabled, PollEnabled, Size, Push, Rest, Highest, Next, Signal, AnyWaiting,
      Filed, Inc, Dec, Signed;
  }

  lemma PollEndsEffect(s: State, step: Step)
    requires Shape(s) && Enabled(s, step) && IsPollStep(step)
    ensures EndsChange(s, step, Apply(s, step))
  {
    hide WorkerApply, CallApply, WorkerEnabled, CallEnabled, Size, Push, Rest, Highest, Next, Signal, AnyWaiting,
      Filed, Inc, Dec, Signed;
  }

  lemma WorkerEndsEffect(s: State, step: Step)
    requires Shape(s) && Enabled(s, step) && IsWorkerStep(step)
    ensures EndsChange(s, step, Apply(s, step))
  {
    hide CallApply, PollApply, CallEnabled, PollEnabled, Size, Push, Rest, Highest, Next, Signal, AnyWaiting, Filed,
      Inc, Dec, Signed;
  }

  lemma EndsEffect(s: State, step: Step)
    requires Shape(s) && Enabled(s, step)
    ensures EndsChange(s, step, Apply(s, step))
  {
    hide Apply, Shape, Enabled, EndsChange;
    if IsWorkerStep(step) {
      WorkerEndsEffect(s, step);
    } else if IsPollStep(step) {
      PollEndsEffect(s, step);
    } else {
      CallEndsEffect(s, step);
    }
  }
}
