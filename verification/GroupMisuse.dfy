/** What the assertion of `eio_grp_add` (libeio/eio.c) is meant to prevent: it asks
    for `int1 != 2`, which nothing ever makes false. */
module GroupMisuse {
  import opened Groups
  import opened GroupRuns

  /** Adding a free request keeps the invariant if and only if the group has not
      finished. */
  lemma AddKeepsInvariantIff(s: State, g: int, r: int)
    requires Invariant(s) && InApplication(s) && g != r
    requires g in s.reqs && s.reqs[g].group
    requires r in s.reqs && s.reqs[r].grp == NO_GROUP && s.reqs[r].finishes == 0
    ensures Invariant(AddTo(s, g, r)) <==> s.reqs[g].finishes == 0
  {
    if s.reqs[g].finishes == 0 {
      InvariantKept(s, Add(g, r));
    } else {
      assert !LifeOk(AddTo(s, g, r).reqs, r);
    }
  }

  function Fresh(group: bool): Req {
    Req(group, NO_GROUP, false, 0, 0, false, false, false, false, false, false, 0, false)
  }

  const EMPTY_GROUP := Fresh(true).(submitted := true, polled := true, finishes := 1)

  /** An empty group in its finish callback, with a free request at hand. */
  const IN_CALLBACK := State(map[1 := EMPTY_GROUP, 2 := Fresh(false)], [Finish(1, Callback)])

  const CREATED := State(map[1 := Fresh(true)], [])
  const BOTH := State(map[1 := Fresh(true), 2 := Fresh(false)], [])
  const SUBMITTED := State(map[1 := Fresh(true).(submitted := true), 2 := Fresh(false)], [])

  lemma CreateGroup()
    ensures Enabled(Start, Create(1, true)) && Apply(Start, Create(1, true)) == CREATED
  {
  }

  lemma CreateOther()
    ensures WellFormed(CREATED) && Enabled(CREATED, Create(2, false)) && Apply(CREATED, Create(2, false)) == BOTH
  {
  }

  lemma SubmitGroup()
    ensures WellFormed(BOTH) && Enabled(BOTH, Submit(1)) && Apply(BOTH, Submit(1)) == SUBMITTED
  {
  }

  lemma PollGroup()
    ensures WellFormed(SUBMITTED) && Enabled(SUBMITTED, PollOne(1)) && Apply(SUBMITTED, PollOne(1)) == IN_CALLBACK
    ensures WellFormed(IN_CALLBACK)
  {
  }

  /** That is a state of a run. */
  lemma InCallbackIsReached()
    ensures var steps := [Create(1, true)] + ([Create(2, false)] + ([Submit(1)] + ([PollOne(1)] + [])));
      IsRun(Start, steps) && RunFrom(Start, steps) == IN_CALLBACK
  {
    CreateGroup();
    CreateOther();
    SubmitGroup();
    PollGroup();
    assert IsRun(IN_CALLBACK, []);
    hide Enabled, Apply;
    RunBack(SUBMITTED, PollOne(1), IN_CALLBACK, []);
    RunBack(BOTH, Submit(1), SUBMITTED, [PollOne(1)] + []);
    RunBack(CREATED, Create(2, false), BOTH, [Submit(1)] + ([PollOne(1)] + []));
    RunBack(Start, Create(1, true), CREATED, [Create(2, false)] + ([Submit(1)] + ([PollOne(1)] + [])));
  }

  /** A group that adds to itself there is destroyed while a member that has yet to
      run is linked to it. */
  lemma MemberOfDestroyedGroup()
    ensures InApplication(IN_CALLBACK) && !Invariant(AddTo(IN_CALLBACK, 1, 2))
    ensures var s := AddTo(IN_CALLBACK, 1, 2);
      && WellFormed(s)
      && var t := Apply(s, CallbackReturns);
      && WellFormed(t) && Enabled(t, UnlinkMember)
      && var u := Apply(t, UnlinkMember);
      && WellFormed(u) && Enabled(u, DestroyRequest)
      && var v := Apply(u, DestroyRequest);
      && v.stack == [] && v.reqs[1].destroyed && v.reqs[2].linked && v.reqs[2].grp == 1 && v.reqs[2].finishes == 0
  {
    var s := AddTo(IN_CALLBACK, 1, 2);
    assert !LifeOk(s.reqs, 2);
    var t := Apply(s, CallbackReturns);
    assert Top(t) == Finish(1, Unlink);
    var u := Apply(t, UnlinkMember);
    assert Top(u) == Finish(1, Destroy);
    hide Invariant;
  }
}
