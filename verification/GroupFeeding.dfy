/** One call of `grp_try_feed` over a whole run: however its feeder creates, adds
    and submits requests and feeds other groups, the call makes no more rounds
    than the limit leaves room for members. */
module GroupFeeding {
  import opened Basics
  import opened Groups
  import opened GroupRuns

  /** Call number `d` on the stack feeds `g`. */
  ghost predicate Feeds(s: State, g: int, d: nat) {
    d < |s.stack| && s.stack[d].Feed? && s.stack[d].grp == g && g in s.reqs
  }

  /** A run of library and application during that call; it may end with the step
      that ends the call. The application does not move the limit of `g`
      meanwhile; everything else is free. */
  ghost predicate IsFeedRun(s: State, steps: seq<Step>, g: int, d: nat)
    decreases |steps|
  {
    WellFormed(s) && g in s.reqs && (steps != [] ==>
      && d < |s.stack| && Enabled(s, steps[0])
      && g in Apply(s, steps[0]).reqs && Apply(s, steps[0]).reqs[g].limit == s.reqs[g].limit
      && IsFeedRun(Apply(s, steps[0]), steps[1..], g, d))
  }

  /** The step opens a round of call `d`: its test succeeds. */
  ghost predicate Opens(s: State, step: Step, d: nat)
    requires WellFormed(s) && Enabled(s, step)
  {
    step.TestFeed? && |s.stack| == d + 1 && |Apply(s, step).stack| == d + 1
  }

  /** The rounds that call `d` opens in the run. */
  ghost function OpenedRounds(s: State, steps: seq<Step>, g: int, d: nat): nat
    requires IsFeedRun(s, steps, g, d)
    decreases |steps|
  {
    if steps == [] then 0
    else (if Opens(s, steps[0], d) then 1 else 0) + OpenedRounds(Apply(s, steps[0]), steps[1..], g, d)
  }

  /** How far `size` is below `bound`. */
  function Room(bound: int, size: int): nat {
    if size < bound then bound - size else 0
  }

  /** The rounds that call `d` can still open. */
  ghost function RoundsLeft(s: State, g: int, d: nat): nat
    requires Feeds(s, g, d)
  {
    match s.stack[d].at
    case Test => Room(FullAt(s.reqs[g]), s.reqs[g].size)
    case Feeder(from, _) => Room(FullAt(s.reqs[g]), from + 1)
  }

  /** Why a call of `grp_try_feed` returns. */
  ghost predicate FeedOver(s: State, g: int) {
    g in s.reqs && (s.reqs[g].size >= FullAt(s.reqs[g]) || s.reqs[g].cancelled || !s.reqs[g].feeding)
  }

  /** Steps of calls further up leave the call where it is: inside its feeder. */
  lemma InnerStep(s: State, step: Step, g: int, d: nat)
    requires Invariant(s) && Enabled(s, step) && Feeds(s, g, d) && d + 1 < |s.stack|
    ensures var s' := Apply(s, step);
      Feeds(s', g, d) && s'.stack[d] == s.stack[d] && s.stack[d].at.Feeder?
  {
    assert FrameOk(s, d);
    hide Counts, Lives, Stacked, NoneForgotten, NoneLeft, InApplication, Invariant, FrameOk;
  }

  /** While the call is innermost and inside its feeder, the application runs. */
  lemma FeederStep(s: State, step: Step, g: int, d: nat)
    requires Invariant(s) && Enabled(s, step) && Feeds(s, g, d) && d + 1 == |s.stack|
    requires !step.TestFeed? && !step.FeederReturns?
    ensures var s' := Apply(s, step);
      Feeds(s', g, d) && s'.stack[d] == s.stack[d] && s.stack[d].at.Feeder?
  {
    hide Counts, Lives, Stacked, NoneForgotten, NoneLeft, Invariant, FrameOk;
  }

  /** A step of the call itself opens a round, ends one, or ends the call. */
  lemma OwnStep(s: State, step: Step, g: int, d: nat)
    requires Invariant(s) && Enabled(s, step) && Feeds(s, g, d) && d + 1 == |s.stack| && IsFeeding(step)
    ensures var s' := Apply(s, step);
      if |s'.stack| > d then
        Feeds(s', g, d) && RoundsLeft(s', g, d) + (if Opens(s, step, d) then 1 else 0) <= RoundsLeft(s, g, d)
      else |s'.stack| == d && FeedOver(s', g)
  {
    FeedRound(s, step);
    FeedFrame(s, step);
    hide Apply, Invariant, Enabled;
  }

  lemma FeedStep(s: State, step: Step, g: int, d: nat)
    requires Invariant(s) && Enabled(s, step) && Feeds(s, g, d)
    requires g in Apply(s, step).reqs && Apply(s, step).reqs[g].limit == s.reqs[g].limit
    ensures var s' := Apply(s, step);
      if |s'.stack| > d then
        Feeds(s', g, d) && RoundsLeft(s', g, d) + (if Opens(s, step, d) then 1 else 0) <= RoundsLeft(s, g, d)
      else |s'.stack| == d && FeedOver(s', g)
  {
    if d + 1 < |s.stack| {
      InnerStep(s, step, g, d);
    } else if IsFeeding(step) {
      OwnStep(s, step, g, d);
    } else {
      FeederStep(s, step, g, d);
    }
    hide Apply, Invariant, Enabled;
  }

  lemma {:induction false} RoundsAreBounded(s: State, steps: seq<Step>, g: int, d: nat)
    requires Invariant(s) && Feeds(s, g, d) && IsFeedRun(s, steps, g, d)
    ensures IsRun(s, steps)
    ensures OpenedRounds(s, steps, g, d) <= RoundsLeft(s, g, d)
    ensures |RunFrom(s, steps).stack| <= d ==> |RunFrom(s, steps).stack| == d && FeedOver(RunFrom(s, steps), g)
    decreases |steps|
  {
    if steps != [] {
      hide Invariant, Apply, RoundsLeft, Opens, FeedOver;
      var s' := Apply(s, steps[0]);
      InvariantKept(s, steps[0]);
      FeedStep(s, steps[0], g, d);
      if |s'.stack| > d {
        RoundsAreBounded(s', steps[1..], g, d);
      }
    }
  }

  /** From the start of a call of `grp_try_feed`: at most as many rounds as there
      is room for members, and it returns only when the group is full, cancelled,
      or has lost its feeder. */
  lemma FeedingEnds(s: State, steps: seq<Step>, g: int)
    requires Invariant(s) && s.stack != [] && Top(s) == Feed(g, Test)
    requires IsFeedRun(s, steps, g, |s.stack| - 1)
    ensures IsRun(s, steps)
    ensures OpenedRounds(s, steps, g, |s.stack| - 1) <= Room(FullAt(s.reqs[g]), s.reqs[g].size)
    ensures |RunFrom(s, steps).stack| < |s.stack| ==> FeedOver(RunFrom(s, steps), g)
  {
    RoundsAreBounded(s, steps, g, |s.stack| - 1);
  }

  // ----- What the application asks for ------------------------------------------------

  /** A call of `eio_grp_limit` or `eio_grp_feed`. */
  predicate SetsLimit(step: Step) {
    step.SetLimit? || step.SetFeeder?
  }

  /** Whether the group has a feeder after the call. */
  function HasFeeder(s: State, step: Step): bool
    requires SetsLimit(step) && step.g in s.reqs
  {
    if step.SetFeeder? then step.feeder else s.reqs[step.g].feeding
  }

  lemma LimitIsSet(s: State, step: Step)
    requires Invariant(s) && Enabled(s, step) && SetsLimit(step)
    ensures step.g in s.reqs && Invariant(Apply(s, step))
    ensures var t, q := Apply(s, step), s.reqs[step.g];
      && t.stack == s.stack + [Feed(step.g, Test)]
      && t.reqs == s.reqs[step.g := q.(limit := step.limit, feeding := HasFeeder(s, step))]
  {
    InvariantKept(s, step);
    hide FeedApply, FinishApply, FeedEnabled, FinishEnabled, Counts, Lives, Stacked, NoneForgotten, NoneLeft,
      InApplication;
  }

  /** The call tests the limit that it is given: it starts a round if and only if
      the group has fewer members and is not cancelled, and then calls the feeder
      if there is one. */
  lemma LimitIsTested(s: State, step: Step)
    requires Invariant(s) && Enabled(s, step) && SetsLimit(step) && step.limit >= 0
    ensures var t := Apply(s, step);
      && WellFormed(t) && Enabled(t, TestFeed)
      && var q, u := s.reqs[step.g], Apply(t, TestFeed);
      if q.size < step.limit && !q.cancelled then
        && u.stack == s.stack + [Feed(step.g, Feeder(q.size, HasFeeder(s, step)))]
        && (HasFeeder(s, step) <==> InApplication(u))
      else u.stack == s.stack
  {
    LimitIsSet(s, step);
    var t, q := Apply(s, step), s.reqs[step.g];
    ConvertedLimit(step.limit);
    hide Apply, Enabled, Counts, Lives, Stacked, NoneForgotten, NoneLeft, AsSize;
    TestStep(t, step.g);
    assert SetTop(t.stack, Feed(step.g, Feeder(q.size, HasFeeder(s, step))))
        == s.stack + [Feed(step.g, Feeder(q.size, HasFeeder(s, step)))];
  }

  lemma TestStep(s: State, g: int)
    requires Invariant(s) && s.stack != [] && Top(s) == Feed(g, Test)
    ensures Enabled(s, TestFeed)
    ensures var q, u := s.reqs[g], Apply(s, TestFeed);
      if q.size < FullAt(q) && !q.cancelled then
        && u.stack == SetTop(s.stack, Feed(g, Feeder(q.size, q.feeding)))
        && (InApplication(u) <==> q.feeding)
      else u.stack == PopFrame(s.stack)
  {
    hide ApplicationApply, FinishApply, ApplicationEnabled, FinishEnabled, Counts, Lives, Stacked, NoneForgotten,
      NoneLeft;
  }

  /** Without a feeder no application code runs, and the call returns, after one
      empty round if there is room. */
  lemma NoFeederNoCall(s: State, g: int)
    requires Invariant(s) && s.stack != [] && Top(s) == Feed(g, Test) && !s.reqs[g].feeding
    ensures Enabled(s, TestFeed)
    ensures var t := Apply(s, TestFeed);
      t.stack != PopFrame(s.stack) ==>
        && !InApplication(t) && WellFormed(t) && Enabled(t, FeederReturns)
        && Apply(t, FeederReturns).stack == PopFrame(s.stack)
  {
    TestStep(s, g);
    InvariantKept(s, TestFeed);
    var t := Apply(s, TestFeed);
    var q := s.reqs[g];
    if q.size < FullAt(q) && !q.cancelled {
      var u := OneRound(s, g);
      assert PopFrame(t.stack) == PopFrame(s.stack);
    }
    hide ApplicationApply, FinishApply, ApplicationEnabled, FinishEnabled, Counts, Lives, Stacked, NoneForgotten,
      NoneLeft;
  }

  /** A new group has no feeder. */
  lemma NewGroupIsNotFed(s: State, g: int)
    requires Invariant(s) && Enabled(s, Create(g, true))
    ensures var t := Apply(s, Create(g, true));
      && OpenGroup(t, g) && t.reqs[g].size == 0 && !t.reqs[g].feeding && !t.reqs[g].cancelled
      && t.stack == s.stack && forall r :: r in s.reqs ==> r in t.reqs && t.reqs[r] == s.reqs[r]
  {
    hide FeedApply, FinishApply, Counts, Lives, Stacked, NoneForgotten, NoneLeft, InApplication;
  }

  /** However the feeder goes on from there, the call makes no more rounds than the
      limit that it was given leaves room for members, and it returns only when
      the group has as many members, is cancelled, or has lost its feeder. */
  lemma LimitIsObeyed(s: State, step: Step, steps: seq<Step>)
    requires Invariant(s) && Enabled(s, step) && SetsLimit(step) && step.limit >= 0
    requires IsFeedRun(Apply(s, step), steps, step.g, |s.stack|)
    ensures IsRun(Apply(s, step), steps)
    ensures var t, size := Apply(s, step), s.reqs[step.g].size;
      OpenedRounds(t, steps, step.g, |s.stack|) <= if size < step.limit then step.limit - size else 0
    ensures var g, u := step.g, RunFrom(Apply(s, step), steps);
      |u.stack| <= |s.stack| ==>
        g in u.reqs && (u.reqs[g].size >= step.limit || u.reqs[g].cancelled || !u.reqs[g].feeding)
  {
    LimitIsSet(s, step);
    ConvertedLimit(step.limit);
    var t := Apply(s, step);
    hide Apply, Enabled, Counts, Lives, Stacked, NoneForgotten, NoneLeft, WellFormed, IsFeedRun, OpenedRounds, IsRun,
      RunFrom, AsSize;
    FeedingEnds(t, steps, step.g);
    LimitStays(t, steps, step.g, |s.stack|);
  }

  /** Being cancelled is for good. */
  lemma CancelledStays(s: State, step: Step, r: int)
    requires WellFormed(s) && Enabled(s, step) && r in s.reqs && s.reqs[r].cancelled
    ensures r in Apply(s, step).reqs && Apply(s, step).reqs[r].cancelled
  {
    hide WellFormed, InApplication;
  }

  lemma {:induction false} CancelledOverRuns(s: State, steps: seq<Step>, r: int)
    requires IsRun(s, steps) && r in s.reqs && s.reqs[r].cancelled
    ensures r in RunFrom(s, steps).reqs && RunFrom(s, steps).reqs[r].cancelled
    decreases |steps|
  {
    hide Apply, Enabled, WellFormed;
    if steps != [] {
      CancelledStays(s, steps[0], r);
      CancelledOverRuns(Apply(s, steps[0]), steps[1..], r);
    }
  }

  /** Cancelling marks what it is told to mark and changes nothing else. */
  lemma CancelMarks(s: State, rs: set<int>, r: int)
    requires WellFormed(s) && Enabled(s, CancelSome(rs)) && r in s.reqs
    ensures var t := Apply(s, CancelSome(rs));
      && t.stack == s.stack && r in t.reqs
      && t.reqs[r] == s.reqs[r].(cancelled := s.reqs[r].cancelled || r in rs)
  {
    hide FeedApply, FinishApply, WellFormed, InApplication;
  }

  /** A group that has been cancelled is fed no more: whatever happens after that,
      no test starts a round. */
  lemma CancellingEndsFeeding(s: State, rs: set<int>, steps: seq<Step>, g: int)
    requires Invariant(s) && Enabled(s, CancelSome(rs)) && g in rs && g in s.reqs
    requires IsRun(Apply(s, CancelSome(rs)), steps)
    ensures var u := RunFrom(Apply(s, CancelSome(rs)), steps);
      u.stack != [] && Top(u) == Feed(g, Test) ==>
        WellFormed(u) && Enabled(u, TestFeed) && Apply(u, TestFeed).stack == PopFrame(u.stack)
  {
    var t := Apply(s, CancelSome(rs));
    CancelMarks(s, rs, g);
    InvariantKept(s, CancelSome(rs));
    hide Apply, Enabled, Invariant, IsRun, RunFrom;
    CancelledOverRuns(t, steps, g);
    EveryRunKeepsInvariant(t, steps);
    var u := RunFrom(t, steps);
    if u.stack != [] && Top(u) == Feed(g, Test) {
      TestStep(u, g);
      IsWellFormed(u);
    }
  }

  lemma IsWellFormed(s: State)
    requires Invariant(s)
    ensures WellFormed(s)
  {
  }

  // ----- Negative limits ------------------------------------------------------------

  /** What a caller expects of the limit as it was given: in every run the call
      opens at most limit minus size rounds, none if that is negative, and it
      returns only at the limit, when cancelled, or without a feeder. */
  ghost predicate LimitIsHonoured(s: State, g: int)
    requires s.stack != [] && g in s.reqs
  {
    forall steps :: IsFeedRun(s, steps, g, |s.stack| - 1) ==> RunHonoursLimit(s, steps, g)
  }

  ghost predicate RunHonoursLimit(s: State, steps: seq<Step>, g: int)
    requires s.stack != [] && g in s.reqs && IsFeedRun(s, steps, g, |s.stack| - 1)
  {
    && OpenedRounds(s, steps, g, |s.stack| - 1) <= Room(s.reqs[g].limit, s.reqs[g].size)
    && IsRun(s, steps)
    && var t := RunFrom(s, steps);
    |t.stack| < |s.stack| ==>
      g in t.reqs && (t.reqs[g].size >= t.reqs[g].limit || t.reqs[g].cancelled || !t.reqs[g].feeding)
  }

  lemma ConvertedLimit(x: int32)
    ensures AsSize(x) == if x >= 0 then x else 0x1_0000_0000_0000_0000 + x
  {
  }

  /** That holds if and only if the limit is not negative, or the test fails at
      once: the group is cancelled, or has as many members as the converted limit,
      which is 2^64 less its amount. */
  lemma LimitIsHonouredIff(s: State, g: int)
    requires Invariant(s) && s.stack != [] && Top(s) == Feed(g, Test)
    ensures LimitIsHonoured(s, g) <==>
      s.reqs[g].limit >= 0 || s.reqs[g].cancelled || s.reqs[g].size >= FullAt(s.reqs[g])
  {
    ConvertedLimit(s.reqs[g].limit);
    CountsNotNegative(s, g);
    if s.reqs[g].limit >= 0 || s.reqs[g].cancelled || s.reqs[g].size >= FullAt(s.reqs[g]) {
      forall steps | IsFeedRun(s, steps, g, |s.stack| - 1)
        ensures RunHonoursLimit(s, steps, g)
      {
        FeedingEnds(s, steps, g);
        if s.reqs[g].limit >= 0 {
          LimitStays(s, steps, g, |s.stack| - 1);
        } else {
          FailedTestEnds(s, steps, g);
        }
      }
    } else {
      var t := OneRound(s, g);
      assert IsFeedRun(s, [TestFeed], g, |s.stack| - 1);
      assert !RunHonoursLimit(s, [TestFeed], g);
    }
  }

  lemma {:induction false} LimitStays(s: State, steps: seq<Step>, g: int, d: nat)
    requires IsFeedRun(s, steps, g, d) && IsRun(s, steps)
    ensures g in RunFrom(s, steps).reqs && RunFrom(s, steps).reqs[g].limit == s.reqs[g].limit
    decreases |steps|
  {
    if steps != [] {
      LimitStays(Apply(s, steps[0]), steps[1..], g, d);
    }
  }

  /** A test that fails ends the call without a round. */
  lemma FailedTestEnds(s: State, steps: seq<Step>, g: int)
    requires Invariant(s) && s.stack != [] && Top(s) == Feed(g, Test)
    requires s.reqs[g].cancelled || s.reqs[g].size >= FullAt(s.reqs[g])
    requires IsFeedRun(s, steps, g, |s.stack| - 1) && IsRun(s, steps)
    ensures OpenedRounds(s, steps, g, |s.stack| - 1) == 0
    ensures var t := RunFrom(s, steps);
      |t.stack| < |s.stack| ==> g in t.reqs && (t.reqs[g].cancelled || t.reqs[g].size >= FullAt(t.reqs[g]))
  {
    if steps != [] {
      var t := Apply(s, steps[0]);
      assert steps[0] == TestFeed;
      assert t == s.(stack := PopFrame(s.stack));
      assert steps[1..] == [];
    }
  }

  /** A test that succeeds opens a round. */
  lemma OneRound(s: State, g: int) returns (t: State)
    requires Invariant(s) && s.stack != [] && Top(s) == Feed(g, Test)
    requires !s.reqs[g].cancelled && s.reqs[g].size < FullAt(s.reqs[g])
    ensures Enabled(s, TestFeed) && t == Apply(s, TestFeed) && Invariant(t)
    ensures IsFeedRun(s, [TestFeed], g, |s.stack| - 1) && OpenedRounds(s, [TestFeed], g, |s.stack| - 1) == 1
    ensures t.stack == SetTop(s.stack, Feed(g, Feeder(s.reqs[g].size, s.reqs[g].feeding)))
    ensures t.reqs == s.reqs[g := s.reqs[g].(groupAdd := false)]
    ensures s.reqs[g].feeding ==> InApplication(t)
  {
    t := Apply(s, TestFeed);
    InvariantKept(s, TestFeed);
    assert IsFeedRun(t, [], g, |s.stack| - 1);
  }

  lemma Prepend(s: State, step: Step, rest: seq<Step>, g: int, d: nat) returns (steps: seq<Step>)
    requires WellFormed(s) && g in s.reqs && d < |s.stack| && Enabled(s, step)
    requires g in Apply(s, step).reqs && Apply(s, step).reqs[g].limit == s.reqs[g].limit
    requires IsFeedRun(Apply(s, step), rest, g, d)
    ensures IsFeedRun(s, steps, g, d)
    ensures OpenedRounds(s, steps, g, d)
         == (if Opens(s, step, d) then 1 else 0) + OpenedRounds(Apply(s, step), rest, g, d)
  {
    steps := [step] + rest;
    assert steps[1..] == rest;
    hide Enabled, Apply;
  }

  /** The step leaves the depth of the stack and the limit of `g` alone. */
  ghost predicate Within(s: State, step: Step, t: State, g: int) {
    && WellFormed(s) && Enabled(s, step) && t == Apply(s, step) && |t.stack| == |s.stack|
    && g in s.reqs && g in t.reqs && t.reqs[g].limit == s.reqs[g].limit
  }

  /** A whole round, from test to test, whose feeder creates a request and adds
      it. */
  ghost predicate AddingRound(s: State, s1: State, s2: State, s3: State, t: State, g: int, b: nat) {
    && Within(s, TestFeed, s1, g) && Within(s1, Create(b, false), s2, g)
    && Within(s2, Add(g, b), s3, g) && Within(s3, FeederReturns, t, g)
  }

  /** The feeder creates a request. */
  lemma FeederCreates(s: State, b: nat) returns (t: State)
    requires Invariant(s) && InApplication(s) && b !in s.reqs
    ensures WellFormed(s) && Enabled(s, Create(b, false)) && t == Apply(s, Create(b, false)) && Invariant(t)
    ensures t.stack == s.stack && b in t.reqs && t.reqs == s.reqs[b := t.reqs[b]]
    ensures t.reqs[b].grp == NO_GROUP && t.reqs[b].finishes == 0 && InApplication(t)
  {
    t := Apply(s, Create(b, false));
    InvariantKept(s, Create(b, false));
    hide Counts, Lives, Stacked, NoneForgotten, NoneLeft, FeedApply, FinishApply;
  }

  /** It adds that request to the group. */
  lemma FeederAdds(s: State, g: int, b: nat) returns (t: State)
    requires Invariant(s) && InApplication(s) && OpenGroup(s, g) && g != b && b in s.reqs
    requires s.reqs[b].grp == NO_GROUP && s.reqs[b].finishes == 0
    ensures WellFormed(s) && Enabled(s, Add(g, b)) && t == Apply(s, Add(g, b)) && Invariant(t)
    ensures t.stack == s.stack && g in t.reqs && b in t.reqs
    ensures t.reqs == s.reqs[g := s.reqs[g].(size := s.reqs[g].size + 1, groupAdd := true)][b := t.reqs[b]]
  {
    t := Apply(s, Add(g, b));
    InvariantKept(s, Add(g, b));
    hide Counts, Lives, Stacked, NoneForgotten, NoneLeft, FeedApply, FinishApply;
  }

  /** It returns, and the call goes back to its test. */
  lemma FeederHasAdded(s: State, g: int) returns (t: State)
    requires Invariant(s) && s.stack != [] && Top(s).Feed? && Top(s).grp == g && Top(s).at.Feeder?
    requires g in s.reqs && s.reqs[g].groupAdd
    ensures WellFormed(s) && Enabled(s, FeederReturns) && t == Apply(s, FeederReturns) && Invariant(t)
    ensures t == s.(stack := SetTop(s.stack, Feed(g, Test)))
  {
    t := Apply(s, FeederReturns);
    InvariantKept(s, FeederReturns);
    hide Counts, Lives, Stacked, NoneForgotten, NoneLeft, ApplicationApply, FinishApply;
  }

  /** A group that is being fed has not finished. */
  lemma FedGroupIsOpen(s: State)
    requires Invariant(s) && s.stack != [] && Top(s).Feed?
    ensures OpenGroup(s, Top(s).grp)
  {
    assert FrameOk(s, |s.stack| - 1);
    hide Counts, Lives, NoneForgotten, NoneLeft;
  }

  lemma SetTopTwice(stack: seq<Frame>, f: Frame, f': Frame)
    requires stack != []
    ensures |SetTop(stack, f)| == |stack| && SetTop(stack, f)[|stack| - 1] == f
    ensures SetTop(SetTop(stack, f), f') == SetTop(stack, f')
    ensures stack[|stack| - 1] == f' ==> SetTop(stack, f') == stack
  {
  }

  /** A call at its test, with room for `n` more members; no request has the
      number `b` or a higher one. */
  ghost predicate RoomFor(s: State, g: int, n: nat, b: nat) {
    && Invariant(s) && s.stack != [] && Top(s) == Feed(g, Test) && g in s.reqs
    && !s.reqs[g].cancelled && s.reqs[g].feeding && s.reqs[g].size + n <= FullAt(s.reqs[g])
    && forall r :: r in s.reqs ==> r < b
  }

  lemma AddingFeeder(s: State, g: int, n: nat, b: nat) returns (s1: State, s2: State, s3: State, t: State)
    requires n > 0 && RoomFor(s, g, n, b)
    ensures AddingRound(s, s1, s2, s3, t, g, b) && RoomFor(t, g, n - 1, b + 1)
  {
    FedGroupIsOpen(s);
    SetTopTwice(s.stack, Feed(g, Feeder(s.reqs[g].size, true)), Feed(g, Test));
    hide Invariant, Apply, Enabled, InApplication, SetTop, AsSize, IsFeedRun, OpenedRounds, WellFormed;
    s1 := OneRound(s, g);
    s2 := FeederCreates(s1, b);
    s3 := FeederAdds(s2, g, b);
    t := FeederHasAdded(s3, g);
  }

  lemma PrependRound(s: State, s1: State, s2: State, s3: State, t: State, rest: seq<Step>, g: int, b: nat)
    returns (steps: seq<Step>)
    requires s.stack != [] && AddingRound(s, s1, s2, s3, t, g, b) && IsFeedRun(t, rest, g, |s.stack| - 1)
    ensures IsFeedRun(s, steps, g, |s.stack| - 1)
    ensures OpenedRounds(s, steps, g, |s.stack| - 1) == 1 + OpenedRounds(t, rest, g, |s.stack| - 1)
  {
    hide Enabled, Apply, WellFormed;
    var d := |s.stack| - 1;
    var steps3 := Prepend(s3, FeederReturns, rest, g, d);
    var steps2 := Prepend(s2, Add(g, b), steps3, g, d);
    var steps1 := Prepend(s1, Create(b, false), steps2, g, d);
    steps := Prepend(s, TestFeed, steps1, g, d);
  }

  /** The call goes on for as long as its feeder adds something: every number of
      rounds up to the bound is that of some run. With a negative limit the bound
      is close to 2^64. */
  lemma {:induction false} BoundIsReached(s: State, g: int, n: nat, b: nat) returns (steps: seq<Step>)
    requires RoomFor(s, g, n, b)
    ensures IsFeedRun(s, steps, g, |s.stack| - 1) && OpenedRounds(s, steps, g, |s.stack| - 1) == n
    decreases n
  {
    hide Enabled, Apply, FullAt, Counts, Lives, Stacked, NoneForgotten, NoneLeft;
    if n == 0 {
      steps := [];
    } else {
      var s1, s2, s3, t := AddingFeeder(s, g, n, b);
      hide RoomFor, IsFeedRun, OpenedRounds, WellFormed;
      var rest := BoundIsReached(t, g, n - 1, b + 1);
      steps := PrependRound(s, s1, s2, s3, t, rest, g, b);
    }
  }

  /** `eio_grp_feed` with the limit -1 on a group without members. */
  lemma NegativeLimitFeeds()
    ensures var steps := [Create(1, true)] + ([SetFeeder(1, -1, true)] + []);
      && IsRun(Start, steps)
      && var s := RunFrom(Start, steps);
      && s.stack == [Feed(1, Test)] && 1 in s.reqs && s.reqs[1].size == 0 && s.reqs[1].limit == -1 && s.reqs[1].feeding
      && !LimitIsHonoured(s, 1)
  {
    var s1 := Apply(Start, Create(1, true));
    StartInvariant();
    InvariantKept(Start, Create(1, true));
    var s2 := Apply(s1, SetFeeder(1, -1, true));
    InvariantKept(s1, SetFeeder(1, -1, true));
    ConvertedLimit(-1);
    LimitIsHonouredIff(s2, 1);
    hide LimitIsHonoured, Invariant;
    assert IsRun(s2, []);
    RunBack(s1, SetFeeder(1, -1, true), s2, []);
    RunBack(Start, Create(1, true), s1, [SetFeeder(1, -1, true)] + []);
  }
}
