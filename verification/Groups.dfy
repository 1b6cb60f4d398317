/** Completion of requests and nested groups (libeio/eio.c, libeio/etp.c) as a
    state machine of the client thread, with its call stack. */
module Groups {
  import opened Basics

  /** A request as completion sees it. */
  datatype Req = Req(
    group: bool,              // a group request
    grp: int,                 // the group it was added to, or NO_GROUP
    linked: bool,             // still in the member list of that group
    size: int,                // groups: the member count that the code keeps
    limit: int32,             // groups: int2, the feed limit
    feeding: bool,            // groups: has a feeder
    groupAdd: bool,           // groups: ETP_FLAG_GROUPADD
    delayed: bool,            // groups: ETP_FLAG_DELAYED
    cancelled: bool,
    submitted: bool,
    polled: bool,             // taken out of the result queue
    finishes: nat,            // how often eio_finish has been entered for it
    destroyed: bool)

  const NO_GROUP := -1

  /** Where a call of `eio_finish` is. */
  datatype FinishPc = Callback | Unlink | Fed | Destroy

  /** Where a call of `grp_try_feed` is: `from` is the member count at the time of
      the call of the feeder, `running` says that there was a feeder to call. */
  datatype FeedPc = Test | Feeder(from: int, running: bool)

  /** The client's call stack, innermost last. */
  datatype Frame = Finish(req: int, pc: FinishPc) | Feed(grp: int, at: FeedPc)

  datatype State = State(reqs: map<int, Req>, stack: seq<Frame>)

  datatype Step =
    // what the application may do, from a callback, a feeder, or outside
    | Create(r: int, group: bool)
    | Submit(r: int)
    | Add(g: int, r: int)
    | CancelSome(rs: set<int>)
    | SetFeeder(g: int, limit: int32, feeder: bool)
    | SetLimit(g: int, limit: int32)
    // what etp_poll, eio_finish and grp_try_feed do
    | PollOne(r: int)
    | CallbackReturns
    | UnlinkMember
    | TestFeed
    | FeederReturns
    | AfterFeed
    | DestroyRequest

  function Top(s: State): Frame
    requires s.stack != []
  {
    s.stack[|s.stack| - 1]
  }

  function SetTop(stack: seq<Frame>, f: Frame): seq<Frame>
    requires stack != []
  {
    stack[|stack| - 1 := f]
  }

  function PopFrame(stack: seq<Frame>): seq<Frame>
    requires stack != []
  {
    stack[..|stack| - 1]
  }

  /** Application code is running: a finish or destroy callback, a feeder, or the
      code outside. */
  predicate InApplication(s: State) {
    s.stack != [] ==>
      match Top(s)
      case Finish(_, pc) => pc == Callback || pc == Destroy
      case Feed(_, at) => at.Feeder? && at.running
  }

  /** A group that the application may still change. */
  predicate OpenGroup(s: State, g: int) {
    g in s.reqs && s.reqs[g].group && s.reqs[g].finishes == 0
  }

  predicate AtFinish(s: State, pc: FinishPc) {
    s.stack != [] && Top(s).Finish? && Top(s).pc == pc
  }

  /** Steps of the application, as against steps of the library. */
  predicate ByApplication(step: Step) {
    step.Create? || step.Submit? || step.Add? || step.CancelSome? || step.SetFeeder? || step.SetLimit?
  }

  predicate IsFeeding(step: Step) {
    step.TestFeed? || step.FeederReturns?
  }

  predicate ApplicationEnabled(s: State, step: Step)
    requires ByApplication(step)
  {
    && InApplication(s)
    && match step
       case Create(r, _) => r >= 0 && r !in s.reqs
       case Submit(r) => r in s.reqs && !s.reqs[r].submitted
       case Add(g, r) =>
         && OpenGroup(s, g) && g != r
         && r in s.reqs && s.reqs[r].grp == NO_GROUP && s.reqs[r].finishes == 0
       case CancelSome(rs) => true
       case SetFeeder(g, _, _) => OpenGroup(s, g)
       case SetLimit(g, _) => OpenGroup(s, g)
  }

  predicate FeedEnabled(s: State, step: Step)
    requires IsFeeding(step)
  {
    s.stack != [] && Top(s).Feed? && (if step.TestFeed? then Top(s).at.Test? else Top(s).at.Feeder?)
  }

  predicate FinishEnabled(s: State, step: Step)
    requires !ByApplication(step) && !IsFeeding(step)
  {
    match step
    case PollOne(r) => s.stack == [] && r in s.reqs && s.reqs[r].submitted && !s.reqs[r].polled
    case CallbackReturns => AtFinish(s, Callback)
    case UnlinkMember => AtFinish(s, Unlink)
    case AfterFeed => AtFinish(s, Fed)
    case DestroyRequest => AtFinish(s, Destroy)
  }

  predicate Enabled(s: State, step: Step) {
    if ByApplication(step) then ApplicationEnabled(s, step)
    else if IsFeeding(step) then FeedEnabled(s, step)
    else FinishEnabled(s, step)
  }

  /** The requests that the call stack works on exist, and so do the groups they
      belong to. */
  ghost predicate WellFormed(s: State) {
    && (forall r :: r in s.reqs ==>
          r >= 0 && (s.reqs[r].grp == NO_GROUP || (s.reqs[r].grp in s.reqs && s.reqs[s.reqs[r].grp].group)))
    && (forall i :: 0 <= i < |s.stack| ==>
          match s.stack[i]
          case Finish(r, pc) => r in s.reqs && (pc == Fed ==> s.reqs[r].grp != NO_GROUP)
          case Feed(g, _) => g in s.reqs)
  }

  function With(s: State, r: int, q: Req, stack: seq<Frame>): State {
    State(s.reqs[r := q], stack)
  }

  /** A call of `eio_finish`. */
  function CallFinish(s: State, r: int, stack: seq<Frame>): State
    requires r in s.reqs
  {
    With(s, r, s.reqs[r].(finishes := s.reqs[r].finishes + 1), stack + [Finish(r, Callback)])
  }

  /** `eio_grp_add` */
  function AddTo(s: State, g: int, r: int): State
    requires g in s.reqs && r in s.reqs && g != r
  {
    var s' := With(s, g, s.reqs[g].(size := s.reqs[g].size + 1, groupAdd := true), s.stack);
    With(s', r, s.reqs[r].(grp := g, linked := true), s.stack)
  }

  function ApplicationApply(s: State, step: Step): State
    requires WellFormed(s) && ByApplication(step) && ApplicationEnabled(s, step)
  {
    match step
    case Create(r, group) =>
      With(s, r, Req(group, NO_GROUP, false, 0, 0, false, false, false, false, false, false, 0, false), s.stack)
    case Submit(r) => With(s, r, s.reqs[r].(submitted := true), s.stack)
    case Add(g, r) => AddTo(s, g, r)
    case CancelSome(rs) =>
      State(map r | r in s.reqs :: if r in rs then s.reqs[r].(cancelled := true) else s.reqs[r], s.stack)
    case SetFeeder(g, limit, feeder) =>
      With(s, g, s.reqs[g].(limit := limit, feeding := feeder), s.stack + [Feed(g, Test)])
    case SetLimit(g, limit) => With(s, g, s.reqs[g].(limit := limit), s.stack + [Feed(g, Test)])
  }

  /** The member count at which `grp_try_feed` stops: the comparison with `size`
      converts the limit, so a negative one is beyond all counts. */
  function FullAt(q: Req): nat {
    AsSize(q.limit)
  }

  /** One part of a round of `grp_try_feed`. */
  function FeedApply(s: State, step: Step): State
    requires WellFormed(s) && IsFeeding(step) && FeedEnabled(s, step)
  {
    var g := Top(s).grp;
    if step.TestFeed? then
      if s.reqs[g].size < FullAt(s.reqs[g]) && !s.reqs[g].cancelled then
        With(s, g, s.reqs[g].(groupAdd := false), SetTop(s.stack, Feed(g, Feeder(s.reqs[g].size, s.reqs[g].feeding))))
      else s.(stack := PopFrame(s.stack))
    else
      if s.reqs[g].groupAdd then s.(stack := SetTop(s.stack, Feed(g, Test)))
      else With(s, g, s.reqs[g].(feeding := false), PopFrame(s.stack))
  }

  /** One part of `etp_poll` or `eio_finish`. */
  function FinishApply(s: State, step: Step): State
    requires WellFormed(s) && !ByApplication(step) && !IsFeeding(step) && FinishEnabled(s, step)
  {
    match step
    case PollOne(r) =>
      var q := s.reqs[r].(polled := true);
      if q.group && q.size != 0 then With(s, r, q.(delayed := true), s.stack)
      else CallFinish(With(s, r, q, s.stack), r, s.stack)
    case CallbackReturns => s.(stack := SetTop(s.stack, Finish(Top(s).req, Unlink)))
    case UnlinkMember =>
      var r := Top(s).req;
      var g := s.reqs[r].grp;
      if g == NO_GROUP then s.(stack := SetTop(s.stack, Finish(r, Destroy)))
      else
        var s' := With(s, r, s.reqs[r].(linked := false), s.stack);
        With(s', g, s'.reqs[g].(size := s'.reqs[g].size - 1), SetTop(s.stack, Finish(r, Fed)) + [Feed(g, Test)])
    case AfterFeed =>
      var r := Top(s).req;
      var g := s.reqs[r].grp;
      if s.reqs[g].size == 0 && s.reqs[g].delayed then CallFinish(s, g, SetTop(s.stack, Finish(r, Destroy)))
      else s.(stack := SetTop(s.stack, Finish(r, Destroy)))
    case DestroyRequest =>
      var r := Top(s).req;
      With(s, r, s.reqs[r].(destroyed := true), PopFrame(s.stack))
  }

  function Apply(s: State, step: Step): State
    requires WellFormed(s) && Enabled(s, step)
  {
    if ByApplication(step) then ApplicationApply(s, step)
    else if IsFeeding(step) then FeedApply(s, step)
    else FinishApply(s, step)
  }

  const Start := State(map[], [])
}
