/** Completion comes to an end: apart from what the application does in its
    callbacks, every step brings a measure down, and when no step is left every
    submitted request has been finished, however the groups are nested. */
module GroupProgress {
  import opened Basics
  import opened Groups
  import opened GroupRuns

  // ----- The measure -------------------------------------------------------------

  ghost function Unpolled(reqs: map<int, Req>): set<int> {
    set r | r in reqs && !reqs[r].polled
  }

  ghost function Unfinished(reqs: map<int, Req>): set<int> {
    set r | r in reqs && reqs[r].finishes == 0
  }

  /** Polls and calls of `eio_finish` that can still come. */
  ghost function Ahead(s: State): nat {
    |Unpolled(s.reqs)| + |Unfinished(s.reqs)|
  }

  function PcRank(f: Frame): nat {
    match f
    case Finish(_, pc) => if pc == Callback then 4 else if pc == Unlink then 3 else if pc == Fed then 2 else 1
    case Feed(_, _) => 0
  }

  /** What the calls of `eio_finish` on the stack have yet to do. */
  function CallWork(stack: seq<Frame>): nat {
    if stack == [] then 0 else CallWork(PopFrame(stack)) + PcRank(stack[|stack| - 1])
  }

  /** Rounds that a call of `grp_try_feed` can still make. */
  function Rounds(reqs: map<int, Req>, f: Frame): nat {
    match f
    case Finish(_, _) => 0
    case Feed(g, at) =>
      if g !in reqs then 0
      else
        match at
        case Test => if reqs[g].size < FullAt(reqs[g]) then 2 * (FullAt(reqs[g]) - reqs[g].size) + 2 else 1
        case Feeder(from, _) => if from < FullAt(reqs[g]) then 2 * (FullAt(reqs[g]) - from) + 1 else 2
  }

  function FeedWork(reqs: map<int, Req>, stack: seq<Frame>): nat {
    if stack == [] then 0 else FeedWork(reqs, PopFrame(stack)) + Rounds(reqs, stack[|stack| - 1])
  }

  /** The order in which completion gets closer to its end. */
  ghost predicate Closer(s': State, s: State) {
    || Ahead(s') < Ahead(s)
    || (Ahead(s') == Ahead(s) && CallWork(s'.stack) < CallWork(s.stack))
    || (Ahead(s') == Ahead(s) && CallWork(s'.stack) == CallWork(s.stack)
        && FeedWork(s'.reqs, s'.stack) < FeedWork(s.reqs, s.stack))
  }

  lemma PushWork(reqs: map<int, Req>, stack: seq<Frame>, f: Frame)
    ensures CallWork(stack + [f]) == CallWork(stack) + PcRank(f)
    ensures FeedWork(reqs, stack + [f]) == FeedWork(reqs, stack) + Rounds(reqs, f)
  {
    assert PopFrame(stack + [f]) == stack;
  }

  lemma PushCall(stack: seq<Frame>, f: Frame)
    ensures CallWork(stack + [f]) == CallWork(stack) + PcRank(f)
  {
    assert PopFrame(stack + [f]) == stack;
  }

  lemma SetTopIsPush(stack: seq<Frame>, f: Frame)
    requires stack != []
    ensures SetTop(stack, f) == PopFrame(stack) + [f]
  {
  }

  /** Feeding looks only at sizes and limits. */
  lemma {:induction false} SameFeedWork(reqs: map<int, Req>, reqs': map<int, Req>, stack: seq<Frame>)
    requires reqs'.Keys == reqs.Keys
    requires forall g :: g in reqs ==> reqs'[g].size == reqs[g].size && reqs'[g].limit == reqs[g].limit
    ensures FeedWork(reqs', stack) == FeedWork(reqs, stack)
  {
    if stack != [] {
      SameFeedWork(reqs, reqs', PopFrame(stack));
      var f := stack[|stack| - 1];
      assert f.Feed? ==> (f.grp in reqs <==> f.grp in reqs'.Keys);
    }
  }

  /** Polled and finished requests stay so. */
  ghost predicate Advances(reqs: map<int, Req>, reqs': map<int, Req>) {
    && reqs'.Keys == reqs.Keys
    && forall r :: r in reqs ==>
         (reqs[r].polled ==> reqs'[r].polled) && (reqs[r].finishes > 0 ==> reqs'[r].finishes > 0)
  }

  lemma SubsetSize<T>(a: set<T>, b: set<T>)
    requires a <= b
    ensures |a| <= |b| && (|a| == |b| ==> a == b)
  {
    assert b == a + (b - a);
  }

  lemma AheadStays(s: State, s': State)
    requires Advances(s.reqs, s'.reqs)
    ensures Unpolled(s'.reqs) <= Unpolled(s.reqs) && Unfinished(s'.reqs) <= Unfinished(s.reqs)
    ensures Ahead(s') <= Ahead(s)
  {
    var u, u', f, f' := Unpolled(s.reqs), Unpolled(s'.reqs), Unfinished(s.reqs), Unfinished(s'.reqs);
    forall r
      ensures (r in u' ==> r in u) && (r in f' ==> r in f)
    {
      assert r in s'.reqs.Keys <==> r in s.reqs.Keys;
    }
    SubsetSize(u', u);
    SubsetSize(f', f);
  }

  /** Polling or finishing `r` for the first time brings the end closer. */
  lemma AheadShrinks(s: State, s': State, r: int)
    requires Advances(s.reqs, s'.reqs) && r in s.reqs
    requires (!s.reqs[r].polled && s'.reqs[r].polled) || (s.reqs[r].finishes == 0 && s'.reqs[r].finishes > 0)
    ensures Ahead(s') < Ahead(s)
  {
    AheadStays(s, s');
    var u, u', f, f' := Unpolled(s.reqs), Unpolled(s'.reqs), Unfinished(s.reqs), Unfinished(s'.reqs);
    SubsetSize(u', u);
    SubsetSize(f', f);
    assert (r in u && r !in u') || (r in f && r !in f');
  }

  // ----- Every step of the library gets closer -------------------------------------

  lemma LibraryAdvances(s: State, step: Step)
    requires Invariant(s) && Enabled(s, step) && !ByApplication(step)
    ensures Advances(s.reqs, Apply(s, step).reqs)
  {
    hide Counts, Lives, Stacked, NoneForgotten, NoneLeft, InApplication;
  }

  lemma PollGetsCloser(s: State, step: Step)
    requires Invariant(s) && Enabled(s, step) && step.PollOne?
    ensures Closer(Apply(s, step), s)
  {
    hide Counts, Lives, Stacked, NoneForgotten, NoneLeft, InApplication, Ahead, CallWork, FeedWork;
    var s' := Apply(s, step);
    LibraryAdvances(s, step);
    AheadShrinks(s, s', step.r);
  }

  /** What the parts of `eio_finish` do to the call stack. */
  lemma FinishStack(s: State, step: Step)
    requires WellFormed(s) && Enabled(s, step) && s.stack != [] && !ByApplication(step) && !IsFeeding(step)
    ensures Top(s).Finish?
    ensures var s', r := Apply(s, step), Top(s).req;
      && (step.CallbackReturns? ==> Top(s).pc == Callback && s'.stack == SetTop(s.stack, Finish(r, Unlink)))
      && (step.UnlinkMember? ==> Top(s).pc == Unlink)
      && (step.UnlinkMember? ==>
            || s'.stack == SetTop(s.stack, Finish(r, Destroy))
            || s'.stack == SetTop(s.stack, Finish(r, Fed)) + [Feed(s.reqs[r].grp, Test)])
      && (step.AfterFeed? ==> Top(s).pc == Fed && s.reqs[r].grp in s'.reqs)
      && (step.AfterFeed? ==>
            s'.stack == SetTop(s.stack, Finish(r, Destroy)) || s'.reqs[s.reqs[r].grp].finishes > 0)
      && (step.DestroyRequest? ==> s'.stack == PopFrame(s.stack))
  {
    hide ApplicationApply, FeedApply, ApplicationEnabled, FeedEnabled;
  }

  lemma NotMoreAhead(s: State, step: Step)
    requires Invariant(s) && Enabled(s, step) && !ByApplication(step)
    ensures Ahead(Apply(s, step)) <= Ahead(s)
  {
    LibraryAdvances(s, step);
    AheadStays(s, Apply(s, step));
    hide Apply, Enabled, Invariant, Ahead, Unpolled, Unfinished, Advances;
  }

  lemma CloserByCalls(s: State, s': State)
    requires Ahead(s') <= Ahead(s) && CallWork(s'.stack) < CallWork(s.stack)
    ensures Closer(s', s)
  {
    hide Ahead, CallWork;
  }

  /** A call goes on to its next part. */
  lemma NextPartIsLess(stack: seq<Frame>, f: Frame)
    requires stack != [] && PcRank(f) < PcRank(stack[|stack| - 1])
    ensures CallWork(SetTop(stack, f)) < CallWork(stack)
  {
    var below, top := PopFrame(stack), stack[|stack| - 1];
    SetTopIsPush(stack, f);
    SetTopIsPush(stack, top);
    assert SetTop(stack, top) == stack;
    hide CallWork, SetTop, PopFrame, PcRank;
    PushCall(below, top);
    PushCall(below, f);
  }

  lemma FinishGetsCloser(s: State, step: Step)
    requires Invariant(s) && Enabled(s, step)
    requires step.CallbackReturns? || step.UnlinkMember? || step.AfterFeed? || step.DestroyRequest?
    ensures Closer(Apply(s, step), s)
  {
    var s', r := Apply(s, step), Top(s).req;
    FinishStack(s, step);
    NotMoreAhead(s, step);
    if step.AfterFeed? && s'.stack != SetTop(s.stack, Finish(r, Destroy)) {
      FinishedGroupWasOpen(s);
      LibraryAdvances(s, step);
      AheadShrinks(s, s', s.reqs[r].grp);
    } else {
      hide Apply, Enabled, Invariant, Ahead, CallWork, Closer, SetTop, PopFrame;
      if step.CallbackReturns? {
        NextPartIsLess(s.stack, Finish(r, Unlink));
      } else if step.UnlinkMember? && s'.stack != SetTop(s.stack, Finish(r, Destroy)) {
        NextPartIsLess(s.stack, Finish(r, Fed));
        PushCall(SetTop(s.stack, Finish(r, Fed)), Feed(s.reqs[r].grp, Test));
      } else if step.DestroyRequest? {
        LastPartIsLess(s.stack);
      } else {
        NextPartIsLess(s.stack, Finish(r, Destroy));
      }
      CloserByCalls(s, s');
    }
  }

  lemma LastPartIsLess(stack: seq<Frame>)
    requires stack != [] && stack[|stack| - 1].Finish?
    ensures CallWork(PopFrame(stack)) < CallWork(stack)
  {
    PushCall(PopFrame(stack), stack[|stack| - 1]);
    assert stack == PopFrame(stack) + [stack[|stack| - 1]];
    hide CallWork, PopFrame;
  }

  /** A group that a call of `eio_finish` is about to look at has not finished. */
  lemma FinishedGroupWasOpen(s: State)
    requires Invariant(s) && AtFinish(s, Fed)
    ensures s.reqs[s.reqs[Top(s).req].grp].finishes == 0
  {
    assert FrameOk(s, |s.stack| - 1);
  }

  lemma RoundGetsCloser(s: State, step: Step)
    requires Invariant(s) && Enabled(s, step) && (step.TestFeed? || step.FeederReturns?)
    ensures var s' := Apply(s, step);
      if |s'.stack| < |s.stack| then Rounds(s.reqs, Top(s)) > 0
      else Top(s').Feed? && Rounds(s.reqs, Top(s')) < Rounds(s.reqs, Top(s))
  {
    FeedRound(s, step);
    FeedFrame(s, step);
    assert Top(s).grp in s.reqs;
    hide Apply, Invariant;
  }

  lemma FeedGetsCloser(s: State, step: Step)
    requires Invariant(s) && Enabled(s, step) && (step.TestFeed? || step.FeederReturns?)
    ensures Closer(Apply(s, step), s)
  {
    var s' := Apply(s, step);
    var below, top := PopFrame(s.stack), Top(s);
    assert s.stack == below + [top];
    LibraryAdvances(s, step);
    AheadStays(s, s');
    FeedFrame(s, step);
    RoundGetsCloser(s, step);
    SameFeedWork(s.reqs, s'.reqs, s'.stack);
    PushWork(s.reqs, below, top);
    if |s'.stack| == |s.stack| {
      PushWork(s.reqs, below, Top(s'));
    }
    hide Apply, Invariant, Ahead, CallWork, FeedWork, Rounds;
  }

  /** Left to itself, completion ends: no sequence of steps without the
      application goes on for ever, on any nesting. */
  lemma LibraryStepsEnd(s: State, step: Step)
    requires Invariant(s) && Enabled(s, step) && !ByApplication(step)
    ensures Closer(Apply(s, step), s)
  {
    hide Apply, Closer, Invariant;
    if step.PollOne? {
      PollGetsCloser(s, step);
    } else if step.TestFeed? || step.FeederReturns? {
      FeedGetsCloser(s, step);
    } else {
      FinishGetsCloser(s, step);
    }
  }

  // ----- What is left when no step is ---------------------------------------------

  ghost predicate Drained(s: State) {
    forall step :: !ByApplication(step) ==> !Enabled(s, step)
  }

  lemma DrainedStackIsEmpty(s: State)
    requires Drained(s)
    ensures s.stack == []
  {
    if s.stack != [] {
      var step :=
        match Top(s)
        case Finish(_, pc) =>
          (if pc == Callback then CallbackReturns else if pc == Unlink then UnlinkMember
           else if pc == Fed then AfterFeed else DestroyRequest)
        case Feed(_, at) => if at.Test? then TestFeed else FeederReturns;
      assert Enabled(s, step);
    }
  }

  lemma DrainedIsPolled(s: State, r: int)
    requires Drained(s) && s.stack == [] && r in s.reqs && s.reqs[r].submitted
    ensures s.reqs[r].polled
  {
    assert !Enabled(s, PollOne(r));
  }

  lemma {:induction false} ChainEndsUnpolled(s: State, g: int, chain: seq<int>) returns (r: int)
    requires LeadsToUnpolled(s, g, chain)
    ensures r in s.reqs && !s.reqs[r].polled
    decreases |chain|
  {
    if |chain| == 1 {
      r := g;
    } else {
      r := ChainEndsUnpolled(s, chain[1], chain[1..]);
    }
  }

  /** When nothing is left to do and everything was submitted, every request,
      group or not, has been finished exactly once and destroyed. */
  lemma DrainedFinishesAll(s: State, rank: map<int, nat>)
    requires Invariant(s) && Acyclic(s, rank) && Drained(s)
    requires forall r :: r in s.reqs ==> s.reqs[r].submitted
    ensures forall r :: r in s.reqs ==> s.reqs[r].finishes == 1 && s.reqs[r].destroyed
  {
    DrainedStackIsEmpty(s);
    hide Counts, Stacked, NoneForgotten, Drained;
    forall r | r in s.reqs
      ensures s.reqs[r].finishes == 1 && s.reqs[r].destroyed
    {
      assert LifeOk(s.reqs, r);
      if s.reqs[r].finishes == 0 {
        var chain := UnfinishedWaitsForUnpolled(s, r, rank);
        var u := ChainEndsUnpolled(s, r, chain);
        DrainedIsPolled(s, u);
      }
      assert !OnStack(s.stack, r);
    }
  }

  // ----- Whole runs of the library ---------------------------------------------------

  /** Steps of the library from `s` on; the application does nothing meanwhile. */
  ghost predicate IsLibraryRun(s: State, steps: seq<Step>)
    requires Invariant(s)
  {
    IsRun(s, steps) && forall i :: 0 <= i < |steps| ==> !ByApplication(steps[i])
  }

  ghost predicate AllSubmitted(s: State) {
    forall r :: r in s.reqs ==> s.reqs[r].submitted
  }

  lemma LibraryKeepsRequest(s: State, step: Step, r: int)
    requires Invariant(s) && Enabled(s, step) && !ByApplication(step) && r in s.reqs
    ensures r in Apply(s, step).reqs
    ensures var q, q' := s.reqs[r], Apply(s, step).reqs[r];
      q'.grp == q.grp && q'.submitted == q.submitted && (q'.linked ==> q.linked)
  {
    hide Counts, Lives, Stacked, NoneForgotten, NoneLeft, InApplication, AsSize;
  }

  /** What the library leaves alone: which requests there are, and their groups. */
  lemma LibraryKeepsGroups(s: State, step: Step, rank: map<int, nat>)
    requires Invariant(s) && Enabled(s, step) && !ByApplication(step)
    ensures Apply(s, step).reqs.Keys == s.reqs.Keys
    ensures Acyclic(s, rank) ==> Acyclic(Apply(s, step), rank)
    ensures AllSubmitted(s) ==> AllSubmitted(Apply(s, step))
  {
    LibraryAdvances(s, step);
    var s' := Apply(s, step);
    forall r | r in s'.reqs
      ensures r in s.reqs && s'.reqs[r].grp == s.reqs[r].grp && s'.reqs[r].submitted == s.reqs[r].submitted
      ensures s'.reqs[r].linked ==> s.reqs[r].linked
    {
      assert r in s'.reqs.Keys;
      LibraryKeepsRequest(s, step, r);
    }
    hide Apply, Enabled, Invariant;
  }

  ghost predicate IsLibraryStep(s: State, step: Step, t: State) {
    WellFormed(s) && Enabled(s, step) && !ByApplication(step) && t == Apply(s, step)
  }

  lemma LibraryStepIsCloser(s: State, step: Step, t: State)
    requires Invariant(s) && IsLibraryStep(s, step, t)
    ensures Invariant(t) && Closer(t, s)
  {
    hide Apply, Enabled, Invariant, Closer;
    LibraryStepsEnd(s, step);
    InvariantKept(s, step);
  }

  /** A reachable state from which everything will be finished: the groups are
      nested without a circle and nothing waits for the application. */
  ghost predicate CanFinish(s: State, rank: map<int, nat>) {
    Invariant(s) && Acyclic(s, rank) && AllSubmitted(s)
  }

  lemma LibraryStepKeeps(s: State, step: Step, t: State, rank: map<int, nat>)
    requires CanFinish(s, rank) && IsLibraryStep(s, step, t)
    ensures CanFinish(t, rank) && t.reqs.Keys == s.reqs.Keys
  {
    hide Apply, Enabled, Invariant, Acyclic, AllSubmitted;
    LibraryKeepsGroups(s, step, rank);
    InvariantKept(s, step);
  }

  lemma LibraryRunBack(s: State, step: Step, t: State, rest: seq<Step>)
    requires Invariant(s) && IsLibraryStep(s, step, t) && Invariant(t) && IsLibraryRun(t, rest)
    ensures IsLibraryRun(s, [step] + rest) && RunFrom(s, [step] + rest) == RunFrom(t, rest)
  {
    hide Apply, Enabled, Invariant;
    RunBack(s, step, t, rest);
  }

  /** From every reachable state the library comes to a state in which it has
      nothing left to do. */
  lemma {:induction false} LibraryDrains(s: State, rank: map<int, nat>) returns (steps: seq<Step>)
    requires CanFinish(s, rank)
    ensures IsLibraryRun(s, steps)
    ensures var t := RunFrom(s, steps);
      Drained(t) && CanFinish(t, rank) && t.reqs.Keys == s.reqs.Keys
    decreases Ahead(s), CallWork(s.stack), FeedWork(s.reqs, s.stack)
  {
    hide Apply, Enabled, Acyclic, AllSubmitted, Ahead, CallWork, FeedWork, Counts, Lives, Stacked, NoneForgotten,
      NoneLeft;
    if Drained(s) {
      steps := [];
    } else {
      var step :| !ByApplication(step) && Enabled(s, step);
      var t := Apply(s, step);
      LibraryStepIsCloser(s, step, t);
      LibraryStepKeeps(s, step, t, rank);
      hide Drained, CanFinish, Invariant, RunFrom, IsRun, IsLibraryRun, IsLibraryStep, ByApplication, WellFormed;
      var rest := LibraryDrains(t, rank);
      steps := [step] + rest;
      LibraryRunBack(s, step, t, rest);
    }
  }

  ghost predicate AllFinished(s: State) {
    forall r :: r in s.reqs ==> s.reqs[r].finishes == 1 && s.reqs[r].destroyed
  }

  lemma LibraryFinishes(s: State, rank: map<int, nat>) returns (steps: seq<Step>)
    requires CanFinish(s, rank)
    ensures IsLibraryRun(s, steps)
    ensures var t := RunFrom(s, steps); Drained(t) && AllFinished(t) && t.reqs.Keys == s.reqs.Keys
  {
    hide Invariant, Acyclic, Drained, RunFrom, IsRun;
    steps := LibraryDrains(s, rank);
    DrainedFinishesAll(RunFrom(s, steps), rank);
  }

  /** Whatever steps of the library come first, they can be continued to a state
      with no step left, and there every request has been finished exactly once
      and destroyed. */
  lemma {:induction false} EveryRequestIsFinished(s: State, done: seq<Step>, rank: map<int, nat>)
    returns (rest: seq<Step>)
    requires CanFinish(s, rank) && IsLibraryRun(s, done)
    ensures IsLibraryRun(s, done + rest)
    ensures var t := RunFrom(s, done + rest); Drained(t) && AllFinished(t) && t.reqs.Keys == s.reqs.Keys
    decreases |done|
  {
    hide Apply, Enabled, Acyclic, AllSubmitted, Drained, AllFinished, Invariant, WellFormed;
    if done == [] {
      rest := LibraryFinishes(s, rank);
      assert done + rest == rest;
    } else {
      var step, t := done[0], Apply(s, done[0]);
      LibraryStepKeeps(s, step, t, rank);
      rest := EveryRequestIsFinished(t, done[1..], rank);
      hide RunFrom, IsRun, IsLibraryRun, IsLibraryStep, ByApplication;
      assert done + rest == [step] + (done[1..] + rest);
      LibraryRunBack(s, step, t, done[1..] + rest);
    }
  }

  /** The library never goes on for ever by itself: of any endless sequence of
      states, some step is not one of the library. */
  lemma {:induction false} NoEndlessRun(states: nat -> State, steps: nat -> Step, k: nat) returns (n: nat)
    requires Invariant(states(k))
    ensures n >= k && !IsLibraryStep(states(n), steps(n), states(n + 1))
    decreases Ahead(states(k)), CallWork(states(k).stack), FeedWork(states(k).reqs, states(k).stack)
  {
    hide Invariant, IsLibraryStep, Ahead, CallWork, FeedWork;
    n := k;
    if IsLibraryStep(states(k), steps(k), states(k + 1)) {
      LibraryStepIsCloser(states(k), steps(k), states(k + 1));
      n := NoEndlessRun(states, steps, k + 1);
    }
  }
}
