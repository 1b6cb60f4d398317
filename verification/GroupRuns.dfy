/** What every run of request completion keeps, with groups nested in any way. */
module GroupRuns {
  import opened Basics
  import opened Groups

  // ----- The invariant ---------------------------------------------------------

  ghost function Members(reqs: map<int, Req>, g: int): set<int> {
    set r | r in reqs && reqs[r].grp == g && reqs[r].linked
  }

  /** The member count that the code keeps is the number of members. */
  ghost predicate Counts(s: State) {
    forall g :: g in s.reqs ==> s.reqs[g].size == |Members(s.reqs, g)|
  }

  /** The life of one request. */
  ghost predicate LifeOk(reqs: map<int, Req>, r: int)
    requires r in reqs && (reqs[r].grp == NO_GROUP || reqs[r].grp in reqs)
  {
    var q := reqs[r];
    && q.finishes <= 1
    && (q.finishes == 1 ==> q.polled)
    && (q.polled ==> q.submitted)
    && (q.linked ==> q.grp != NO_GROUP && reqs[q.grp].finishes == 0)
    && (q.grp != NO_GROUP && !q.linked ==> q.finishes == 1)
    && (q.delayed ==> q.polled && q.group)
    && (q.destroyed ==> q.finishes == 1 && !q.linked)
    && (q.polled && q.finishes == 0 ==> q.delayed)
    && q.grp != r
  }

  ghost predicate Lives(s: State)
    requires WellFormed(s)
  {
    forall r :: r in s.reqs ==> LifeOk(s.reqs, r)
  }

  /** Calls of `eio_finish` come first, innermost last, on different requests;
      feeding happens on top of them. */
  ghost predicate Ordered(stack: seq<Frame>) {
    && (forall i, j :: 0 <= i < j < |stack| && stack[i].Feed? ==> stack[j].Feed?)
    && (forall i, j :: 0 <= i < j < |stack| && stack[i].Finish? && stack[j].Finish? ==> stack[i].req != stack[j].req)
  }

  /** One call on the stack: `eio_finish` calls itself for the group of its
      request and for nothing else, and works on requests that are not yet
      destroyed. */
  ghost predicate FrameOk(s: State, i: nat)
    requires WellFormed(s) && i < |s.stack|
  {
    match s.stack[i]
    case Finish(r, pc) =>
      var q := s.reqs[r];
      && q.finishes == 1 && !q.destroyed
      && (i + 1 < |s.stack| ==>
            if s.stack[i + 1].Finish? then pc == Destroy && s.stack[i + 1].req == q.grp
            else pc != Unlink)
      && (pc == Callback || pc == Unlink ==> q.grp == NO_GROUP || q.linked)
      && (pc == Fed ==> !q.linked && s.reqs[q.grp].finishes == 0)
      && (pc == Destroy ==> !q.linked)
    case Feed(g, at) =>
      var q := s.reqs[g];
      && q.group && q.finishes == 0
      && (i + 1 < |s.stack| ==> at.Feeder?)
      && (at.Feeder? ==> q.size >= at.from && (q.groupAdd ==> q.size > at.from))
  }

  ghost predicate Stacked(s: State)
    requires WellFormed(s)
  {
    Ordered(s.stack) && forall i :: 0 <= i < |s.stack| ==> FrameOk(s, i)
  }

  /** Some call of `eio_finish` has just unlinked a member of `g` and will look
      at `g` when feeding is done. */
  ghost predicate AboutToFinish(s: State, g: int)
    requires WellFormed(s)
  {
    exists i :: 0 <= i < |s.stack| && s.stack[i].Finish? && s.stack[i].pc == Fed && s.reqs[s.stack[i].req].grp == g
  }

  /** No delayed group is forgotten. */
  ghost predicate NoneForgotten(s: State)
    requires WellFormed(s)
  {
    forall g :: g in s.reqs && s.reqs[g].delayed && s.reqs[g].finishes == 0 && s.reqs[g].size == 0 ==>
      AboutToFinish(s, g)
  }

  ghost predicate OnStack(stack: seq<Frame>, r: int) {
    exists i :: 0 <= i < |stack| && stack[i].Finish? && stack[i].req == r
  }

  /** A request that finished is destroyed, or being finished right now. */
  ghost predicate NoneLeft(s: State) {
    forall r :: r in s.reqs && s.reqs[r].finishes == 1 && !s.reqs[r].destroyed ==> OnStack(s.stack, r)
  }

  ghost predicate Invariant(s: State) {
    WellFormed(s) && Counts(s) && Lives(s) && Stacked(s) && NoneForgotten(s) && NoneLeft(s)
  }

  // ----- Every step keeps it ---------------------------------------------------

  lemma ApplicationKeepsWellFormed(s: State, step: Step)
    requires WellFormed(s) && Enabled(s, step) && ByApplication(step)
    ensures WellFormed(Apply(s, step))
  {
    hide FeedApply, FinishApply, FeedEnabled, FinishEnabled, InApplication;
  }

  lemma FeedingKeepsWellFormed(s: State, step: Step)
    requires WellFormed(s) && Enabled(s, step) && IsFeeding(step)
    ensures WellFormed(Apply(s, step))
  {
    hide ApplicationApply, FinishApply, ApplicationEnabled, FinishEnabled;
  }

  lemma UnlinkKeepsWellFormed(s: State, step: Step)
    requires WellFormed(s) && Enabled(s, step) && step.UnlinkMember?
    ensures WellFormed(Apply(s, step))
  {
    hide ApplicationApply, FeedApply, ApplicationEnabled, FeedEnabled;
  }

  lemma FinishKeepsWellFormed(s: State, step: Step)
    requires WellFormed(s) && Enabled(s, step) && !ByApplication(step) && !IsFeeding(step) && !step.UnlinkMember?
    ensures WellFormed(Apply(s, step))
  {
    hide ApplicationApply, FeedApply, ApplicationEnabled, FeedEnabled;
  }

  lemma WellFormedKept(s: State, step: Step)
    requires Invariant(s) && Enabled(s, step)
    ensures WellFormed(Apply(s, step))
  {
    hide WellFormed, Enabled, Apply, Counts, Lives, Stacked, NoneForgotten, NoneLeft;
    if ByApplication(step) {
      ApplicationKeepsWellFormed(s, step);
    } else if IsFeeding(step) {
      FeedingKeepsWellFormed(s, step);
    } else if step.UnlinkMember? {
      UnlinkKeepsWellFormed(s, step);
    } else {
      FinishKeepsWellFormed(s, step);
    }
  }

  /** Nothing that membership depends on differs. */
  ghost predicate SameMembership(reqs: map<int, Req>, reqs': map<int, Req>) {
    && reqs'.Keys == reqs.Keys
    && forall r :: r in reqs ==>
         reqs'[r].grp == reqs[r].grp && reqs'[r].linked == reqs[r].linked && reqs'[r].size == reqs[r].size
  }

  lemma SameMembers(reqs: map<int, Req>, reqs': map<int, Req>, g: int)
    requires SameMembership(reqs, reqs')
    ensures Members(reqs', g) == Members(reqs, g)
  {
    forall r
      ensures r in Members(reqs', g) <==> r in Members(reqs, g)
    {
      assert r in reqs.Keys <==> r in reqs'.Keys;
    }
  }

  /** What joining and leaving do to the member sets: only `r` changes, and only
      the set of `g`. */
  lemma MembersChange(reqs: map<int, Req>, reqs': map<int, Req>, g: int, r: int, h: int)
    requires r in reqs && reqs'.Keys == reqs.Keys
    requires forall x :: x in reqs && x != r ==> reqs'[x].grp == reqs[x].grp && reqs'[x].linked == reqs[x].linked
    requires reqs'[r].grp == g
    ensures !reqs[r].linked && reqs'[r].linked ==>
      |Members(reqs', h)| == |Members(reqs, h)| + if h == g then 1 else 0
    ensures reqs[r].linked && reqs[r].grp == g && !reqs'[r].linked ==>
      |Members(reqs', h)| == |Members(reqs, h)| - if h == g then 1 else 0
  {
    var a, b := Members(reqs, h), Members(reqs', h);
    forall x | x != r
      ensures x in a <==> x in b
    {
      assert x in reqs.Keys <==> x in reqs'.Keys;
    }
    if !reqs[r].linked && reqs'[r].linked {
      assert b == if h == g then a + {r} else a;
    } else if reqs[r].linked && reqs[r].grp == g && !reqs'[r].linked {
      assert b == if h == g then a - {r} else a;
    }
  }

  lemma AddCounts(s: State, step: Step)
    requires Invariant(s) && Enabled(s, step) && step.Add?
    ensures Counts(Apply(s, step))
  {
    var s' := Apply(s, step);
    assert LifeOk(s.reqs, step.r);
    assert s'.reqs.Keys == s.reqs.Keys;
    hide FeedApply, FinishApply, FeedEnabled, FinishEnabled, Members, Stacked, NoneForgotten, NoneLeft, LifeOk,
      InApplication;
    forall h | h in s'.reqs
      ensures s'.reqs[h].size == |Members(s'.reqs, h)|
    {
      assert s.reqs[h].size == |Members(s.reqs, h)|;
      MembersChange(s.reqs, s'.reqs, step.g, step.r, h);
    }
  }

  lemma UnlinkCounts(s: State, step: Step)
    requires Invariant(s) && Enabled(s, step) && step.UnlinkMember? && s.reqs[Top(s).req].grp != NO_GROUP
    ensures Counts(Apply(s, step))
  {
    var s', r := Apply(s, step), Top(s).req;
    var g := s.reqs[r].grp;
    assert FrameOk(s, |s.stack| - 1);
    assert LifeOk(s.reqs, r);
    assert s'.reqs.Keys == s.reqs.Keys;
    hide ApplicationApply, FeedApply, ApplicationEnabled, FeedEnabled, Members, Stacked, NoneForgotten, NoneLeft,
      LifeOk, FrameOk;
    forall h | h in s'.reqs
      ensures s'.reqs[h].size == |Members(s'.reqs, h)|
    {
      assert s.reqs[h].size == |Members(s.reqs, h)|;
      MembersChange(s.reqs, s'.reqs, g, r, h);
    }
  }

  lemma CreateCounts(s: State, step: Step)
    requires Invariant(s) && Enabled(s, step) && step.Create?
    ensures Counts(Apply(s, step))
  {
    hide FeedApply, FinishApply, FeedEnabled, FinishEnabled, FrameOk, NoneForgotten, Ordered, Stacked, Lives,
      InApplication;
    var s' := Apply(s, step);
    forall g | g in s'.reqs
      ensures s'.reqs[g].size == |Members(s'.reqs, g)|
    {
      assert Members(s'.reqs, g) == Members(s.reqs, g);
      if g == step.r {
        assert forall r :: r !in Members(s.reqs, g);
        assert Members(s.reqs, g) == {};
      }
    }
  }

  lemma OtherCounts(s: State, step: Step)
    requires Invariant(s) && Enabled(s, step) && !step.Add? && !step.Create?
    requires step.UnlinkMember? ==> Top(s).req in s.reqs && s.reqs[Top(s).req].grp == NO_GROUP
    ensures Counts(Apply(s, step))
  {
    hide FrameOk, NoneForgotten, Ordered, Stacked, Lives, Members, InApplication;
    var s' := Apply(s, step);
    assert SameMembership(s.reqs, s'.reqs);
    forall g | g in s'.reqs
      ensures s'.reqs[g].size == |Members(s'.reqs, g)|
    {
      SameMembers(s.reqs, s'.reqs, g);
    }
  }

  lemma CountsKept(s: State, step: Step)
    requires Invariant(s) && Enabled(s, step)
    ensures Counts(Apply(s, step))
  {
    hide Counts, Apply, Lives, Stacked, NoneForgotten;
    if step.Add? {
      AddCounts(s, step);
    } else if step.Create? {
      CreateCounts(s, step);
    } else if step.UnlinkMember? && s.reqs[Top(s).req].grp != NO_GROUP {
      UnlinkCounts(s, step);
    } else {
      OtherCounts(s, step);
    }
  }

  /** A group whose count is zero has no members in its list. */
  lemma ZeroMeansNone(s: State, g: int)
    requires Counts(s) && g in s.reqs && s.reqs[g].size == 0
    ensures forall r :: r in s.reqs && s.reqs[r].grp == g ==> !s.reqs[r].linked
  {
    forall r | r in s.reqs && s.reqs[r].grp == g
      ensures !s.reqs[r].linked
    {
      assert r !in Members(s.reqs, g);
    }
  }

  lemma PlainHasNoMembers(s: State, g: int)
    requires WellFormed(s) && g in s.reqs && !s.reqs[g].group && g != NO_GROUP
    ensures forall r :: r in s.reqs ==> s.reqs[r].grp != g
  {
  }

  lemma ApplicationKeepsLives(s: State, step: Step)
    requires Invariant(s) && Enabled(s, step) && ByApplication(step)
    requires WellFormed(Apply(s, step))
    ensures Lives(Apply(s, step))
  {
    hide FeedApply, FinishApply, FeedEnabled, FinishEnabled, Counts, Members, NoneForgotten, NoneLeft, Ordered,
      Stacked, InApplication;
    var s' := Apply(s, step);
    forall r | r in s'.reqs
      ensures LifeOk(s'.reqs, r)
    {
      if r in s.reqs {
        assert LifeOk(s.reqs, r);
      }
    }
  }

  lemma FeedingKeepsLives(s: State, step: Step)
    requires Invariant(s) && Enabled(s, step) && IsFeeding(step)
    requires WellFormed(Apply(s, step))
    ensures Lives(Apply(s, step))
  {
    hide ApplicationApply, FinishApply, ApplicationEnabled, FinishEnabled, Counts, Members, NoneForgotten, NoneLeft,
      Ordered, Stacked;
    var s' := Apply(s, step);
    forall r | r in s'.reqs
      ensures LifeOk(s'.reqs, r)
    {
      assert LifeOk(s.reqs, r);
    }
  }

  lemma PollKeepsLives(s: State, step: Step)
    requires Invariant(s) && Enabled(s, step) && step.PollOne?
    requires WellFormed(Apply(s, step))
    ensures Lives(Apply(s, step))
  {
    hide ApplicationApply, FeedApply, ApplicationEnabled, FeedEnabled, Counts, Members, NoneForgotten, NoneLeft,
      Ordered, Stacked;
    var s' := Apply(s, step);
    if s.reqs[step.r].size == 0 {
      ZeroMeansNone(s, step.r);
    } else if !s.reqs[step.r].group {
      PlainHasNoMembers(s, step.r);
    }
    forall r | r in s'.reqs
      ensures LifeOk(s'.reqs, r)
    {
      assert LifeOk(s.reqs, r);
    }
  }

  lemma FinishKeepsLives(s: State, step: Step)
    requires Invariant(s) && Enabled(s, step) && !ByApplication(step) && !IsFeeding(step) && !step.PollOne?
    requires WellFormed(Apply(s, step))
    ensures Lives(Apply(s, step))
  {
    hide ApplicationApply, FeedApply, ApplicationEnabled, FeedEnabled, Counts, Members, NoneForgotten, NoneLeft,
      Ordered;
    var s' := Apply(s, step);
    assert FrameOk(s, |s.stack| - 1);
    if step.AfterFeed? && s.reqs[s.reqs[Top(s).req].grp].size == 0 {
      ZeroMeansNone(s, s.reqs[Top(s).req].grp);
    }
    forall r | r in s'.reqs
      ensures LifeOk(s'.reqs, r)
    {
      assert LifeOk(s.reqs, r);
    }
  }

  lemma LivesKept(s: State, step: Step)
    requires Invariant(s) && Enabled(s, step)
    ensures WellFormed(Apply(s, step)) && Lives(Apply(s, step))
  {
    WellFormedKept(s, step);
    hide Apply, Lives, Counts, Stacked, NoneForgotten, NoneLeft;
    if ByApplication(step) {
      ApplicationKeepsLives(s, step);
    } else if IsFeeding(step) {
      FeedingKeepsLives(s, step);
    } else if step.PollOne? {
      PollKeepsLives(s, step);
    } else {
      FinishKeepsLives(s, step);
    }
  }

  // ----- The call stack ----------------------------------------------------------

  lemma OrderedKept(s: State, step: Step)
    requires Invariant(s) && Enabled(s, step)
    ensures Ordered(Apply(s, step).stack)
  {
    hide Counts, LifeOk, NoneForgotten, Members;
    var n := |s.stack|;
    if n > 0 {
      assert FrameOk(s, n - 1);
    }
    forall i | 0 <= i < n && s.stack[i].Finish?
      ensures s.reqs[s.stack[i].req].finishes == 1
    {
      assert FrameOk(s, i);
    }
  }

  /** What frames look at stays for a frame of `eio_finish`, and for feeding the
      member count does not fall. */
  lemma ApplicationKeepsRequests(s: State, step: Step, r: int)
    requires Invariant(s) && Enabled(s, step) && ByApplication(step) && r in s.reqs
    ensures r in Apply(s, step).reqs
    ensures var q, q' := s.reqs[r], Apply(s, step).reqs[r];
      && q'.finishes == q.finishes && q'.destroyed == q.destroyed && q'.group == q.group
      && q'.size >= q.size && (q'.groupAdd && !q.groupAdd ==> q'.size > q.size)
      && (q'.groupAdd || !q.groupAdd)
      && (q.finishes > 0 ==> q'.grp == q.grp && q'.linked == q.linked)
  {
    hide FeedApply, FinishApply, FeedEnabled, FinishEnabled, Counts, NoneForgotten, NoneLeft, Stacked, Lives,
      InApplication;
  }

  lemma ApplicationKeepsStack(s: State, step: Step)
    requires WellFormed(s) && Enabled(s, step) && ByApplication(step)
    ensures var s' := Apply(s, step);
      && (s'.stack == s.stack ||
            (InApplication(s) && (step.SetFeeder? || step.SetLimit?) && OpenGroup(s, step.g)
             && s'.stack == s.stack + [Feed(step.g, Test)]))
  {
    hide FeedApply, FinishApply, FeedEnabled, FinishEnabled, InApplication, WellFormed;
  }

  lemma ApplicationKeepsFrames(s: State, step: Step)
    requires Invariant(s) && Enabled(s, step) && ByApplication(step)
    requires WellFormed(Apply(s, step))
    ensures forall i :: 0 <= i < |Apply(s, step).stack| ==> FrameOk(Apply(s, step), i)
  {
    var s' := Apply(s, step);
    ApplicationKeepsStack(s, step);
    forall i | 0 <= i < |s'.stack|
      ensures FrameOk(s', i)
    {
      hide Apply, Enabled, Counts, Lives, NoneForgotten, NoneLeft, Ordered;
      if i < |s.stack| {
        assert FrameOk(s, i);
        assert s'.stack[i] == s.stack[i];
        var f := s.stack[i];
        ApplicationKeepsRequests(s, step, if f.Finish? then f.req else f.grp);
        if f.Finish? && s.reqs[f.req].grp != NO_GROUP {
          ApplicationKeepsRequests(s, step, s.reqs[f.req].grp);
        }
      } else {
        ApplicationKeepsRequests(s, step, step.g);
      }
    }
  }

  lemma FeedingKeepsFrames(s: State, step: Step)
    requires Invariant(s) && Enabled(s, step)
    requires step.TestFeed? || step.FeederReturns?
    requires WellFormed(Apply(s, step))
    ensures forall i :: 0 <= i < |Apply(s, step).stack| ==> FrameOk(Apply(s, step), i)
  {
    hide ApplicationApply, FinishApply, ApplicationEnabled, FinishEnabled, Counts, NoneForgotten, Members, LifeOk,
      Ordered;
    var s' := Apply(s, step);
    assert FrameOk(s, |s.stack| - 1);
    forall i | 0 <= i < |s'.stack|
      ensures FrameOk(s', i)
    {
      assert FrameOk(s, i);
    }
  }

  /** While a call of `eio_finish` is innermost, nobody feeds. */
  lemma OnlyFinishing(s: State)
    requires Ordered(s.stack) && s.stack != [] && Top(s).Finish?
    ensures forall i :: 0 <= i < |s.stack| ==> s.stack[i].Finish?
  {
  }

  lemma FinishingKeepsFrames(s: State, step: Step)
    requires Invariant(s) && Enabled(s, step)
    requires step.CallbackReturns? || step.UnlinkMember? || step.DestroyRequest?
    requires WellFormed(Apply(s, step))
    ensures forall i :: 0 <= i < |Apply(s, step).stack| ==> FrameOk(Apply(s, step), i)
  {
    hide ApplicationApply, FeedApply, ApplicationEnabled, FeedEnabled, Counts, NoneForgotten, Members;
    var s' := Apply(s, step);
    OnlyFinishing(s);
    assert FrameOk(s, |s.stack| - 1);
    assert LifeOk(s.reqs, Top(s).req);
    forall i | 0 <= i < |s'.stack|
      ensures FrameOk(s', i)
    {
      if i < |s.stack| {
        assert FrameOk(s, i);
      }
    }
  }

  lemma CallsKeepFrames(s: State, step: Step)
    requires Invariant(s) && Enabled(s, step)
    requires step.PollOne? || step.AfterFeed?
    requires WellFormed(Apply(s, step))
    ensures forall i :: 0 <= i < |Apply(s, step).stack| ==> FrameOk(Apply(s, step), i)
  {
    hide ApplicationApply, FeedApply, ApplicationEnabled, FeedEnabled, Counts, NoneForgotten, Members, Ordered;
    var s' := Apply(s, step);
    if step.AfterFeed? {
      assert FrameOk(s, |s.stack| - 1);
      OnlyFinishing(s) by {
        assert Ordered(s.stack);
      }
      assert LifeOk(s.reqs, Top(s).req);
      assert LifeOk(s.reqs, s.reqs[Top(s).req].grp);
    } else {
      assert LifeOk(s.reqs, step.r);
    }
    forall i | 0 <= i < |s'.stack|
      ensures FrameOk(s', i)
    {
      if i < |s.stack| {
        assert FrameOk(s, i);
        assert LifeOk(s.reqs, s.stack[i].req);
      }
    }
  }

  lemma StackedKept(s: State, step: Step)
    requires Invariant(s) && Enabled(s, step)
    ensures WellFormed(Apply(s, step)) && Stacked(Apply(s, step))
  {
    hide Invariant, Ordered, FrameOk, Apply, Enabled;
    WellFormedKept(s, step);
    OrderedKept(s, step);
    if ByApplication(step) {
      ApplicationKeepsFrames(s, step);
    } else if step.TestFeed? || step.FeederReturns? {
      FeedingKeepsFrames(s, step);
    } else if step.PollOne? || step.AfterFeed? {
      CallsKeepFrames(s, step);
    } else {
      FinishingKeepsFrames(s, step);
    }
  }

  // ----- No delayed group is forgotten -------------------------------------------

  /** Only the innermost call of `eio_finish` can be about to finish a group. */
  lemma OnlyInnermost(s: State, g: int)
    requires Invariant(s) && s.stack != [] && Top(s).Finish? && AboutToFinish(s, g)
    ensures Top(s).pc == Fed && s.reqs[Top(s).req].grp == g
  {
    hide Counts, Members, LifeOk, NoneForgotten;
    OnlyFinishing(s);
    var i :| 0 <= i < |s.stack| && s.stack[i].Finish? && s.stack[i].pc == Fed && s.reqs[s.stack[i].req].grp == g;
    assert FrameOk(s, i);
  }

  /** A frame that stays keeps a group from being forgotten. */
  lemma StillAbout(s: State, s': State, g: int)
    requires WellFormed(s) && WellFormed(s') && AboutToFinish(s, g)
    requires forall i :: 0 <= i < |s.stack| && s.stack[i].Finish? && s.stack[i].pc == Fed ==>
      i < |s'.stack| && s'.stack[i] == s.stack[i] && s'.reqs[s.stack[i].req].grp == s.reqs[s.stack[i].req].grp
    ensures AboutToFinish(s', g)
  {
    var i :| 0 <= i < |s.stack| && s.stack[i].Finish? && s.stack[i].pc == Fed && s.reqs[s.stack[i].req].grp == g;
    assert s'.stack[i] == s.stack[i];
  }

  lemma FinishingForgetsNone(s: State, step: Step)
    requires Invariant(s) && Enabled(s, step) && WellFormed(Apply(s, step))
    requires step.CallbackReturns? || step.UnlinkMember? || step.DestroyRequest? || step.AfterFeed?
    ensures NoneForgotten(Apply(s, step))
  {
    hide ApplicationApply, FeedApply, ApplicationEnabled, FeedEnabled, Counts, Members, FrameOk, Ordered;
    var s' := Apply(s, step);
    forall g | g in s'.reqs && s'.reqs[g].delayed && s'.reqs[g].finishes == 0 && s'.reqs[g].size == 0
      ensures AboutToFinish(s', g)
    {
      if step.UnlinkMember? && s.reqs[Top(s).req].grp == g {
        var i := |s.stack| - 1;
        assert s'.stack[i] == Finish(Top(s).req, Fed) && s'.reqs[Top(s).req].grp == g;
      } else if AboutToFinish(s, g) {
        OnlyInnermost(s, g);
      }
    }
  }

  lemma OthersForgetNone(s: State, step: Step)
    requires Invariant(s) && Enabled(s, step) && WellFormed(Apply(s, step))
    requires !(step.CallbackReturns? || step.UnlinkMember? || step.DestroyRequest? || step.AfterFeed?)
    ensures NoneForgotten(Apply(s, step))
  {
    hide Counts, Members, FrameOk, Ordered, AboutToFinish, LifeOk;
    var s' := Apply(s, step);
    forall g | g in s'.reqs && s'.reqs[g].delayed && s'.reqs[g].finishes == 0 && s'.reqs[g].size == 0
      ensures AboutToFinish(s', g)
    {
      assert g in s.reqs && s.reqs[g].delayed && s.reqs[g].finishes == 0;
      assert s.reqs[g].size == 0 by {
        if step.Add? && g == step.g {
          CountsNotNegative(s, g);
        }
      }
      FedFramesStay(s, step);
      StillAbout(s, s', g);
    }
  }

  lemma CountsNotNegative(s: State, g: int)
    requires Counts(s) && g in s.reqs
    ensures s.reqs[g].size >= 0
  {
  }

  lemma FedFramesStay(s: State, step: Step)
    requires Invariant(s) && Enabled(s, step)
    requires !(step.CallbackReturns? || step.UnlinkMember? || step.DestroyRequest? || step.AfterFeed?)
    ensures forall i :: 0 <= i < |s.stack| && s.stack[i].Finish? && s.stack[i].pc == Fed ==>
      var s' := Apply(s, step);
      && i < |s'.stack| && s'.stack[i] == s.stack[i]
      && s.stack[i].req in s'.reqs && s'.reqs[s.stack[i].req].grp == s.reqs[s.stack[i].req].grp
  {
    hide Counts, Members, FrameOk, Ordered, LifeOk, NoneForgotten, InApplication;
  }

  lemma FinishLeavesNone(s: State, step: Step)
    requires Invariant(s) && Enabled(s, step) && !ByApplication(step) && !IsFeeding(step)
    ensures NoneLeft(Apply(s, step))
  {
    hide ApplicationApply, FeedApply, ApplicationEnabled, FeedEnabled, Counts, Members, FrameOk, Ordered, LifeOk,
      NoneForgotten;
    var s' := Apply(s, step);
    forall r | r in s'.reqs && s'.reqs[r].finishes == 1 && !s'.reqs[r].destroyed
      ensures OnStack(s'.stack, r)
    {
      if r in s.reqs && s.reqs[r].finishes == 1 {
        var i :| 0 <= i < |s.stack| && s.stack[i].Finish? && s.stack[i].req == r;
        assert s'.stack[i].Finish? && s'.stack[i].req == r;
      } else {
        assert s'.stack[|s'.stack| - 1] == Finish(r, Callback);
      }
    }
  }

  /** `s'` has finished nothing and returned from no call of `eio_finish`. */
  ghost predicate FinishesNothing(s: State, s': State) {
    && (forall r :: r in s'.reqs && s'.reqs[r].finishes == 1 && !s'.reqs[r].destroyed ==>
          r in s.reqs && s.reqs[r].finishes == 1 && !s.reqs[r].destroyed)
    && (forall i :: 0 <= i < |s.stack| && s.stack[i].Finish? ==> i < |s'.stack| && s'.stack[i] == s.stack[i])
  }

  lemma ApplicationFinishesNothing(s: State, step: Step)
    requires Invariant(s) && Enabled(s, step) && ByApplication(step)
    ensures FinishesNothing(s, Apply(s, step))
  {
    hide FinishApply, FinishEnabled, FeedApply, FeedEnabled, Counts, Lives, Stacked, NoneForgotten, NoneLeft,
      InApplication;
  }

  lemma FeedingFinishesNothing(s: State, step: Step)
    requires Invariant(s) && Enabled(s, step) && IsFeeding(step)
    ensures FinishesNothing(s, Apply(s, step))
  {
    hide FinishApply, FinishEnabled, ApplicationApply, ApplicationEnabled, Counts, Lives, Stacked, NoneForgotten,
      NoneLeft;
  }

  lemma NoneLeftKept(s: State, step: Step)
    requires Invariant(s) && Enabled(s, step)
    ensures NoneLeft(Apply(s, step))
  {
    var s' := Apply(s, step);
    if ByApplication(step) || IsFeeding(step) {
      if IsFeeding(step) {
        FeedingFinishesNothing(s, step);
      } else {
        ApplicationFinishesNothing(s, step);
      }
      hide Apply, Enabled, Counts, Lives, Stacked, NoneForgotten;
      forall r | r in s'.reqs && s'.reqs[r].finishes == 1 && !s'.reqs[r].destroyed
        ensures OnStack(s'.stack, r)
      {
        var i :| 0 <= i < |s.stack| && s.stack[i].Finish? && s.stack[i].req == r;
        assert s'.stack[i] == s.stack[i];
      }
    } else {
      FinishLeavesNone(s, step);
      hide Apply, Enabled, NoneLeft, Invariant;
    }
  }

  lemma InvariantKept(s: State, step: Step)
    requires Invariant(s) && Enabled(s, step)
    ensures Invariant(Apply(s, step))
  {
    hide Counts, Lives, Stacked, NoneForgotten, NoneLeft, Apply, Enabled;
    NoneLeftKept(s, step);
    CountsKept(s, step);
    LivesKept(s, step);
    StackedKept(s, step);
    if step.CallbackReturns? || step.UnlinkMember? || step.DestroyRequest? || step.AfterFeed? {
      FinishingForgetsNone(s, step);
    } else {
      OthersForgetNone(s, step);
    }
  }

  // ----- Whole runs --------------------------------------------------------------

  ghost predicate IsRun(s: State, steps: seq<Step>)
    decreases |steps|
  {
    WellFormed(s) && (steps != [] ==> Enabled(s, steps[0]) && IsRun(Apply(s, steps[0]), steps[1..]))
  }

  ghost function RunFrom(s: State, steps: seq<Step>): State
    requires IsRun(s, steps)
    decreases |steps|
  {
    if steps == [] then s else RunFrom(Apply(s, steps[0]), steps[1..])
  }

  lemma RunBack(s: State, step: Step, s': State, rest: seq<Step>)
    requires WellFormed(s) && Enabled(s, step) && Apply(s, step) == s' && IsRun(s', rest)
    ensures IsRun(s, [step] + rest) && RunFrom(s, [step] + rest) == RunFrom(s', rest)
  {
    assert ([step] + rest)[1..] == rest;
  }

  lemma {:induction false} EveryRunKeepsInvariant(s: State, steps: seq<Step>)
    requires Invariant(s) && IsRun(s, steps)
    ensures Invariant(RunFrom(s, steps))
    decreases |steps|
  {
    if steps != [] {
      hide Counts, Lives, Stacked, NoneForgotten, NoneLeft, Apply, Enabled;
      InvariantKept(s, steps[0]);
      EveryRunKeepsInvariant(Apply(s, steps[0]), steps[1..]);
    }
  }

  /** In every state of every run a request has finished at most once; a request
      that has finished was polled before, and if it is a group then every
      request ever added to it has finished and left its list. */
  lemma FinishedOnceAfterMembers(steps: seq<Step>, r: int)
    requires IsRun(Start, steps) && r in RunFrom(Start, steps).reqs
    ensures var reqs := RunFrom(Start, steps).reqs;
      && reqs[r].finishes <= 1
      && (reqs[r].finishes == 1 ==>
            && reqs[r].polled
            && forall m :: m in reqs && reqs[m].grp == r ==> reqs[m].finishes == 1 && !reqs[m].linked)
  {
    StartInvariant();
    EveryRunKeepsInvariant(Start, steps);
    var s := RunFrom(Start, steps);
    assert LifeOk(s.reqs, r);
    forall m | m in s.reqs && s.reqs[m].grp == r && s.reqs[r].finishes == 1
      ensures s.reqs[m].finishes == 1 && !s.reqs[m].linked
    {
      assert LifeOk(s.reqs, m);
    }
  }

  lemma StartInvariant()
    ensures Invariant(Start)
  {
  }

  /** Between polls, a polled group that has not finished still has a member
      that has not finished either. */
  lemma WaitingGroupHasMember(s: State, g: int) returns (m: int)
    requires Invariant(s) && s.stack == [] && g in s.reqs
    requires s.reqs[g].polled && s.reqs[g].finishes == 0
    ensures m in s.reqs && s.reqs[m].grp == g && s.reqs[m].linked
  {
    assert LifeOk(s.reqs, g);
    assert s.reqs[g].size != 0;
    m := Pick(Members(s.reqs, g));
  }

  lemma Pick<T>(ms: set<T>) returns (m: T)
    requires |ms| != 0
    ensures m in ms
  {
    m :| m in ms;
  }

  /** A nesting without cycles: members rank below their group. */
  ghost predicate Acyclic(s: State, rank: map<int, nat>) {
    forall r :: r in s.reqs && s.reqs[r].linked && s.reqs[r].grp in s.reqs ==>
      r in rank && s.reqs[r].grp in rank && rank[r] < rank[s.reqs[r].grp]
  }

  /** `chain` leads from `g` down to a request that has not been polled. */
  ghost predicate LeadsToUnpolled(s: State, g: int, chain: seq<int>)
    decreases |chain|
  {
    && chain != [] && chain[0] == g && g in s.reqs
    && if |chain| == 1 then !s.reqs[g].polled
       else
         && chain[1] in s.reqs && s.reqs[chain[1]].linked && s.reqs[chain[1]].grp == g
         && LeadsToUnpolled(s, chain[1], chain[1..])
  }

  /** Between polls nothing is finished late: below every request that has not
      finished there is one yet to be polled. */
  lemma {:induction false} UnfinishedWaitsForUnpolled(s: State, g: int, rank: map<int, nat>) returns (chain: seq<int>)
    requires Invariant(s) && s.stack == [] && Acyclic(s, rank)
    requires g in s.reqs && s.reqs[g].finishes == 0
    ensures LeadsToUnpolled(s, g, chain)
    decreases if g in rank then rank[g] else 0, if g in rank then 0 else 1
  {
    hide Counts, Stacked, NoneForgotten, NoneLeft, Lives;
    if !s.reqs[g].polled {
      chain := [g];
    } else {
      var m := WaitingGroupHasMember(s, g);
      LinkedIsUnfinished(s, m);
      var rest := UnfinishedWaitsForUnpolled(s, m, rank);
      chain := [g] + rest;
      assert chain[1..] == rest;
    }
  }

  lemma LinkedIsUnfinished(s: State, m: int)
    requires Invariant(s) && s.stack == [] && m in s.reqs && s.reqs[m].linked
    ensures s.reqs[m].finishes == 0
  {
    assert LifeOk(s.reqs, m);
    assert !OnStack(s.stack, m);
  }

  /** The test of `grp_try_feed` ends the loop exactly when the group is full or
      cancelled, and otherwise forgets earlier additions. A round that goes on has
      added something; a round ends the loop, and drops the feeder, exactly when
      it added nothing. */
  lemma FeedRound(s: State, step: Step)
    requires Invariant(s) && Enabled(s, step) && (step.TestFeed? || step.FeederReturns?)
    ensures var g, s' := Top(s).grp, Apply(s, step);
      if step.TestFeed? then
        && (|s'.stack| < |s.stack| <==> s.reqs[g].size >= FullAt(s.reqs[g]) || s.reqs[g].cancelled)
        && (|s'.stack| == |s.stack| ==>
              Top(s') == Feed(g, Feeder(s.reqs[g].size, s.reqs[g].feeding)) && !s'.reqs[g].groupAdd)
        && |s'.stack| <= |s.stack|
      else
        && (|s'.stack| < |s.stack| <==> !s.reqs[g].groupAdd)
        && (|s'.stack| < |s.stack| ==> !s'.reqs[g].feeding)
        && (|s'.stack| == |s.stack| ==> Top(s') == Feed(g, Test) && s'.reqs[g].size > Top(s).at.from)
        && |s'.stack| <= |s.stack|
  {
    hide ApplicationApply, FinishApply, ApplicationEnabled, FinishEnabled, Counts, Lives, NoneForgotten, NoneLeft;
    assert FrameOk(s, |s.stack| - 1);
  }

  /** What `grp_try_feed` leaves alone. */
  lemma FeedFrame(s: State, step: Step)
    requires Invariant(s) && Enabled(s, step) && (step.TestFeed? || step.FeederReturns?)
    ensures var s' := Apply(s, step);
      && s'.reqs.Keys == s.reqs.Keys
      && (forall g :: g in s.reqs ==> s'.reqs[g].size == s.reqs[g].size && s'.reqs[g].limit == s.reqs[g].limit)
      && (s'.stack == PopFrame(s.stack) || s'.stack == PopFrame(s.stack) + [Top(s')])
  {
    hide ApplicationApply, FinishApply, ApplicationEnabled, FinishEnabled, Counts, Lives, Stacked, NoneForgotten,
      NoneLeft, InApplication;
  }
}
