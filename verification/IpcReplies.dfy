/** At most one reply per call, and which replies reach the call they answer. */
module IpcReplies {
  import opened IpcModel
  import opened IpcScheduler
  import opened IpcCalls
  import opened IpcRuns
  import opened IpcTracing

  /** The latest call of a task is answered, or it is not waiting for any. */
  predicate Answered(t: Task)
  {
    t.replyPending || t.callCorrelation == 0
  }

  /** The calls of one incarnation only go on: their number grows, and an answered call stays answered. */
  predicate Onward(t: Task, t': Task)
  {
    t'.birth == t.birth && (t'.calls > t.calls || (t'.calls == t.calls && (Answered(t) ==> Answered(t'))))
  }

  /** What a step may do to the task in slot p. */
  ghost predicate SlotOnward(s: State, s': State, p: nat)
  {
    Live(s', p) ==> TaskOf(s', p).birth >= s.births || (Live(s, p) && Onward(TaskOf(s, p), TaskOf(s', p)))
  }

  lemma SendOnward(s: State, dst: int, m: Message, p: nat)
    ensures SlotOnward(s, SendMessage(s, dst, m).0, p) && (Live(s, p) ==> Live(SendMessage(s, dst, m).0, p))
  {
  }

  lemma SendFromOnward(s: State, dst: int, m: Message, p: nat)
    requires Live(s, s.current)
    ensures SlotOnward(s, SendFrom(s, dst, m).0, p)
  {
    hide SendMessage;
    SendOnward(Put(s, s.current, LetGo(TaskOf(s, s.current), m.ool)), dst, m, p);
  }

  lemma SendCallOnward(s: State, p: nat)
    requires Live(s, s.current) && TaskOf(s, s.current).point.Calling?
    ensures SlotOnward(s, SendCall(s), p)
  {
    hide SendMessage;
    var point := TaskOf(s, s.current).point;
    SendOnward(s, point.dst, point.request, p);
  }

  lemma ReplyOnward(s: State, req: Request, m: Message, p: nat)
    requires Live(s, s.current)
    ensures SlotOnward(s, ReplyTo(s, req, m), p)
  {
    hide SendFrom;
    SendFromOnward(s, req.caller, AnswerTo(s.current, req, m), p);
  }

  lemma SwitchOnward(s: State, p: nat)
    requires Live(s, s.current)
    ensures SlotOnward(s, SwitchTask(s), p)
  {
    hide Leave, PickNextTask;
    var r := ReapPendingTask(s);
    LeaveOnward(r, p);
    PickOnward(Leave(r), p);
  }

  lemma LeaveOnward(s: State, p: nat)
    requires Live(s, s.current)
    ensures SlotOnward(s, Leave(s), p) && Leave(s).births == s.births
  {
  }

  lemma PickOnward(s: State, p: nat)
    ensures SlotOnward(s, PickNextTask(s), p)
  {
  }

  lemma ExitOnward(s: State, status: int, p: nat)
    requires Live(s, s.current) && p != s.current
    ensures SlotOnward(s, PrepareExit(s, status), p)
  {
  }

  /** The exiting task leaves its slot. */
  lemma ExitLeaves(s: State, status: int)
    requires Safe(s) && Enabled(s, Exit(status))
    ensures !Live(Step(s, Exit(status)), s.current)
  {
    hide PrepareExit, Placed;
    ExitSafe(s, status);
    ExitedState(s, status);
    var e := PrepareExit(s, status);
    LeaveParks(e);
  }

  lemma ExitedState(s: State, status: int)
    requires Live(s, s.current)
    ensures var e := PrepareExit(s, status); e.current == s.current && Live(e, s.current) && TaskOf(e, s.current).state == Exited
  {
  }

  lemma StepOnward(s: State, a: Action, p: nat)
    requires Safe(s)
    ensures SlotOnward(s, Step(s, a), p) && Step(s, a).births >= s.births
  {
    hide SwitchTask, PrepareExit, SendMessage, SendFrom, SendCall, ReplyTo, NotifyTask, ScheduleTask, Kaddrs,
      RegionIndex, Lowest, Awaiting;
    if !Live(s, s.current) || !Enabled(s, a) {
      return;
    }
    BirthsGrow(s, a);
    match a {
      case Preempt => SwitchOnward(s, p);
      case Yield => SwitchOnward(Put(s, s.current, TaskOf(s, s.current).(mustSwitch := false)), p);
      case Exit(status) =>
        if p == s.current {
          ExitLeaves(s, status);
        } else {
          ExitOnward(s, status, p);
          QuietExit(s, status);
          SwitchOnward(PrepareExit(s, status), p);
        }
      case Doorbell(to, bit) => NotifyOnward(s, to, bit, p);
      case Send(dst, m) => SendFromOnward(s, dst, OneWay(m), p);
      case AnswerAgain(req, m) => SendFromOnward(s, req.caller, AnswerTo(s.current, req, m), p);
      case UnaskedReply(dst, m) => SendFromOnward(s, dst, Unasked(s.current, m), p);
      case SendRequest => SendCallOnward(s, p);
      case Answer(req, m) => ReplyOnward(s, req, m, p);
      case Wake(child) => ScheduleOnward(s, child, p);
      case _ => OwnOnward(s, a, p);
    }
  }

  /** Steps that change the current task only, or create one. */
  lemma OwnOnward(s: State, a: Action, p: nat)
    requires Live(s, s.current) && Enabled(s, a) && (IsBufferStep(a) || IsOwnSection(a) || a.Fork?)
    ensures SlotOnward(s, Step(s, a), p)
  {
    hide OwnSectionOf, Enabled, Step;
    if IsOwnSection(a) {
      OwnSectionStep(s, a);
      OwnSectionKeeps(TaskOf(s, s.current), s.current, s.callIds, a);
    } else if IsBufferStep(a) {
      QuietBufferStep(s, a);
    } else {
      ForkOnward(s, p);
    }
  }

  lemma ForkOnward(s: State, p: nat)
    requires Live(s, s.current) && Enabled(s, Fork)
    ensures SlotOnward(s, Step(s, Fork), p)
  {
  }

  lemma NotifyOnward(s: State, dst: int, bit: nat, p: nat)
    ensures SlotOnward(s, NotifyTask(s, dst, bit), p)
  {
  }

  lemma ScheduleOnward(s: State, child: nat, p: nat)
    ensures SlotOnward(s, ScheduleTask(s, child), p)
  {
  }

  lemma BirthsGrow(s: State, a: Action)
    requires Live(s, s.current) && Enabled(s, a)
    ensures Step(s, a).births >= s.births
  {
    hide PrepareExit, SendMessage, SendFrom, SendCall, ReplyTo, NotifyTask, ScheduleTask, StartCall, PollReply,
      PollReceive,
      PollNotify, PollChild, DeliverOol, ReleaseOol, ReleaseRegions, SwitchTask;
    if a.Exit? {
      QuietExit(s, a.status);
      SwitchBirths(PrepareExit(s, a.status));
    } else if IsSwitch(s, a) {
      SwitchBirths(s);
      SwitchBirths(Put(s, s.current, TaskOf(s, s.current).(mustSwitch := false)));
    } else if !a.Fork? {
      QuietStep(s, a);
    }
  }

  lemma SwitchBirths(s: State)
    requires Live(s, s.current)
    ensures SwitchTask(s).births == s.births
  {
  }

  /** Call number n of incarnation `birth`, made from slot p, is over. */
  predicate Closed(s: State, p: nat, birth: nat, n: nat)
  {
    && birth < s.births
    && (Live(s, p) && TaskOf(s, p).birth == birth ==> TaskOf(s, p).calls > n || (TaskOf(s, p).calls == n && Answered(TaskOf(s, p))))
  }

  lemma {:induction false} StaysClosed(s: State, run: seq<Action>, p: nat, birth: nat, n: nat)
    requires Safe(s) && Closed(s, p, birth, n)
    ensures Closed(After(s, run), p, birth, n)
  {
    hide Safe, Step;
    if run != [] {
      var before := run[..|run| - 1];
      StaysClosed(s, before, p, birth, n);
      EveryRunIsSafe(s, before);
      StepOnward(After(s, before), run[|run| - 1], p);
    }
  }

  /** Once a call has its reply, whoever sent it, every later reply to that call is refused and changes nothing, for as
      long as the caller's slot is not taken over by another incarnation. This holds in every run without a wrap. */
  lemma LaterRepliesRefused(services: nat, run: seq<Action>, p: nat, later: seq<Action>, reply: Message)
    requires services + 2 <= MAX_TASKS && NoWrapRun(Boot(services), run)
    requires var s := After(Boot(services), run); Live(s, p) && TaskOf(s, p).replyPending && NoWrapRun(s, later)
    requires reply.isReply && reply.correlation == TaskOf(After(Boot(services), run), p).calls
    ensures var s := After(Boot(services), run);
            var s' := After(s, later);
            Live(s', p) && TaskOf(s', p).birth == TaskOf(s, p).birth ==> SendMessage(s', p, reply) == (s', InvalidArg)
  {
    hide After, Boot, Safe, Step;
    var s := After(Boot(services), run);
    BootSafe(services);
    EveryRunIsSafe(Boot(services), run);
    BootTraced(services);
    RunTraced(Boot(services), run);
    RunTraced(s, later);
    var t := TaskOf(s, p);
    assert TracedAt(s, p);
    StaysClosed(s, later, p, t.birth, t.calls);
    ClosedRefuses(After(s, later), p, t.birth, t.calls, reply);
  }

  lemma ClosedRefuses(s: State, p: nat, birth: nat, n: nat, reply: Message)
    requires Traced(s) && Closed(s, p, birth, n) && reply.isReply && reply.correlation == n
    ensures Live(s, p) && TaskOf(s, p).birth == birth ==> SendMessage(s, p, reply) == (s, InvalidArg)
  {
    assert TracedAt(s, p);
  }

  // ----- which replies belong to the call they reach

  /** Task p has a reply that does not answer its latest call. */
  predicate Wronged(s: State, p: nat)
  {
    Live(s, p) && TaskOf(s, p).replyPending && TaskOf(s, p).replySlot.call != TaskOf(s, p).callId
  }

  /** A step delivers to task p a reply to a request of another incarnation, or one that answers no request at all. */
  predicate Misdelivers(s: State, a: Action, p: nat)
  {
    && Live(s, s.current) && Enabled(s, a) && Live(s, p)
    && var t := TaskOf(s, p);
       match a
       case Answer(req, m) => req.caller == p && AcceptsReply(t, AnswerTo(s.current, req, m)) && t.birth != req.birth
       case AnswerAgain(req, m) => req.caller == p && AcceptsReply(t, AnswerTo(s.current, req, m)) && t.birth != req.birth
       case UnaskedReply(dst, m) => dst == p && AcceptsReply(t, m)
       case _ => false
  }

  /** A reply to a request that its sender received: when the task in the caller's slot accepts it, it answers that task's
      latest call if and only if the task is still the incarnation that made the request, and then the task waits for
      the sender. */
  lemma AcceptedBelongs(s: State, q: nat, req: Request)
    requires Traced(s) && Live(s, q) && req in TaskOf(s, q).seen
    requires Live(s, req.caller) && TaskOf(s, req.caller).callCorrelation == req.correlation
    ensures var t := TaskOf(s, req.caller);
            && (t.callId == req.call <==> t.birth == req.birth)
            && (t.birth == req.birth ==> t.point == InCall(q) && t.calls == req.correlation)
  {
    assert TracedAt(s, q) && TracedAt(s, req.caller);
  }

  /** The same for every run without a wrap: any request a task ever received, answered now, be it the first time or again. */
  lemma AcceptedReplyMatches(services: nat, run: seq<Action>, req: Request, m: Message)
    requires services + 2 <= MAX_TASKS && NoWrapRun(Boot(services), run)
    requires var s := After(Boot(services), run);
             Live(s, s.current) && Enabled(s, AnswerAgain(req, m)) && SendFrom(s, req.caller, AnswerTo(s.current, req, m)).1 == Ok
    ensures var s := After(Boot(services), run);
            var s' := Step(s, AnswerAgain(req, m));
            && Live(s, req.caller) && Live(s', req.caller) && TaskOf(s', req.caller).replyPending
            && var t, t' := TaskOf(s, req.caller), TaskOf(s', req.caller);
               && (t'.replySlot.call == t'.callId <==> t.birth == req.birth)
               && (t.birth == req.birth ==> t.point == InCall(s.current) && t.calls == req.correlation)
  {
    hide After, Boot;
    BootTraced(services);
    RunTraced(Boot(services), run);
    var s := After(Boot(services), run);
    hide Traced;
    var a := AnswerTo(s.current, req, m);
    var w := Put(s, s.current, LetGo(TaskOf(s, s.current), a.ool));
    AcceptedBelongs(s, s.current, req);
    SendFromSlot(s, req.caller, a, req.caller);
  }

  /** What a delivery does to the reply slot of task p. */
  predicate SlotAfter(t: Task, t': Task, accepted: bool, m: Message)
  {
    && t'.callId == t.callId
    && if accepted then t'.replyPending && t'.replySlot == m else t'.replyPending == t.replyPending && t'.replySlot == t.replySlot
  }

  lemma SendSlot(s: State, dst: int, m: Message, p: nat)
    requires Live(s, p)
    ensures var r := SendMessage(s, dst, m).0;
            Live(r, p) && SlotAfter(TaskOf(s, p), TaskOf(r, p), m.isReply && dst == p && AcceptsReply(TaskOf(s, p), m), m)
    ensures m.isReply && SendMessage(s, dst, m).1 == Ok ==> Live(s, dst) && AcceptsReply(TaskOf(s, dst), m)
    ensures m.isReply && dst >= 0 && Live(s, dst) && AcceptsReply(TaskOf(s, dst), m) ==> SendMessage(s, dst, m).1 == Ok
  {
  }

  lemma SendFromSlot(s: State, dst: int, m: Message, p: nat)
    requires Live(s, p) && Live(s, s.current)
    ensures var r := SendFrom(s, dst, m).0;
            Live(r, p) && SlotAfter(TaskOf(s, p), TaskOf(r, p), m.isReply && dst == p && AcceptsReply(TaskOf(s, p), m), m)
    ensures m.isReply && SendFrom(s, dst, m).1 == Ok ==> Live(s, dst) && AcceptsReply(TaskOf(s, dst), m)
  {
    hide SendMessage;
    SendSlot(Put(s, s.current, LetGo(TaskOf(s, s.current), m.ool)), dst, m, p);
  }

  lemma ReplySlot(s: State, req: Request, m: Message, p: nat)
    requires Live(s, p) && Live(s, s.current)
    ensures var r, a := ReplyTo(s, req, m), AnswerTo(s.current, req, m);
            Live(r, p) && SlotAfter(TaskOf(s, p), TaskOf(r, p), req.caller == p && AcceptsReply(TaskOf(s, p), a), a)
  {
    hide SendMessage;
    var a := AnswerTo(s.current, req, m);
    var w := Put(s, s.current, LetGo(TaskOf(s, s.current), m.ool));
    SendSlot(w, req.caller, a, p);
    SendSlot(w, req.caller, a, s.current);
  }

  /** Nothing but a delivery fills the slot of a live task or makes it another call's. */
  predicate KeepsSlot(s: State, s': State, p: nat)
  {
    Live(s', p) && TaskOf(s', p).replyPending ==>
      && Live(s, p) && TaskOf(s, p).replyPending
      && TaskOf(s', p).replySlot == TaskOf(s, p).replySlot && TaskOf(s', p).callId == TaskOf(s, p).callId
  }

  lemma SwitchSlot(s: State, p: nat)
    requires Live(s, s.current)
    ensures KeepsSlot(s, SwitchTask(s), p)
  {
    hide Leave, PickNextTask;
    var r := ReapPendingTask(s);
    LeaveSlot(r, p);
    PickSlot(Leave(r), p);
  }

  lemma LeaveSlot(s: State, p: nat)
    requires Live(s, s.current)
    ensures KeepsSlot(s, Leave(s), p)
  {
  }

  lemma PickSlot(s: State, p: nat)
    ensures KeepsSlot(s, PickNextTask(s), p)
  {
  }

  lemma ExitSlot(s: State, status: int, p: nat)
    requires Live(s, s.current)
    ensures KeepsSlot(s, PrepareExit(s, status), p)
  {
  }

  lemma SendCallSlot(s: State, p: nat)
    requires Live(s, s.current) && TaskOf(s, s.current).point.Calling? && !TaskOf(s, s.current).point.request.isReply
    ensures KeepsSlot(s, SendCall(s), p)
  {
    hide SendMessage;
    var point := TaskOf(s, s.current).point;
    if Live(s, p) {
      SendSlot(s, point.dst, point.request, p);
    }
    SendSlot(s, point.dst, point.request, s.current);
    QuietSend(s, point.dst, point.request);
  }

  lemma NotifySlot(s: State, dst: int, bit: nat, p: nat)
    ensures KeepsSlot(s, NotifyTask(s, dst, bit), p)
  {
  }

  lemma ScheduleSlot(s: State, child: int, p: nat)
    ensures KeepsSlot(s, ScheduleTask(s, child), p)
  {
  }

  lemma CreateSlot(s: State, parent: Option<nat>, p: nat)
    ensures KeepsSlot(s, CreateTask(s, parent), p)
  {
  }

  lemma OwnSlot(s: State, a: Action, p: nat)
    requires Live(s, s.current) && Enabled(s, a) && (IsOwnSection(a) || IsBufferStep(a))
    ensures KeepsSlot(s, Step(s, a), p)
  {
    hide Step, Enabled;
    if IsOwnSection(a) {
      OwnSectionStep(s, a);
      hide Lowest, Awaiting;
    } else {
      var t := BufferStepIs(s, a);
    }
  }

  /** The steps that fill no reply slot. */
  lemma OtherSlot(s: State, a: Action, p: nat)
    requires Traced(s) && Live(s, s.current) && Enabled(s, a) && !a.Answer? && !a.AnswerAgain? && !a.UnaskedReply?
    ensures KeepsSlot(s, Step(s, a), p)
  {
    assert TracedAt(s, s.current);
    hide SwitchTask, PrepareExit, SendFrom, SendCall, ReplyTo, NotifyTask, CreateTask, ScheduleTask, PollReceive, Traced,
      StartCall, PollReply, PollNotify, PollChild, DeliverOol, ReleaseOol, ReleaseRegions, AllLinked;
    match a {
      case Preempt => SwitchSlot(s, p);
      case Yield => SwitchSlot(Put(s, s.current, TaskOf(s, s.current).(mustSwitch := false)), p);
      case Exit(status) =>
        ExitSlot(s, status, p);
        QuietExit(s, status);
        SwitchSlot(PrepareExit(s, status), p);
      case Doorbell(to, bit) => NotifySlot(s, to, bit, p);
      case Send(dst, m) =>
        if Live(s, p) {
          SendFromSlot(s, dst, OneWay(m), p);
        }
        QuietSendFrom(s, dst, OneWay(m));
      case SendRequest => SendCallSlot(s, p);
      case Fork => CreateSlot(s, Some(s.current), p);
      case Wake(child) => ScheduleSlot(s, child, p);
      case _ => OwnSlot(s, a, p);
    }
  }

  /** The exact condition, for every step of a run without a wrap: a task that has no reply of another call gets one if
      and only if the step delivers it a reply to a request of another incarnation, or an unasked one. */
  lemma StepWrongs(s: State, a: Action, p: nat)
    requires Traced(s) && !Wronged(s, p)
    ensures Wronged(Step(s, a), p) <==> Misdelivers(s, a, p)
  {
    if !Live(s, s.current) || !Enabled(s, a) {
      return;
    }
    hide Traced, SendFrom, ReplyTo;
    if !a.Answer? && !a.AnswerAgain? && !a.UnaskedReply? {
      OtherSlot(s, a, p);
      hide Step, Enabled;
    } else if !Live(s, p) {
      QuietStep(s, a);
      hide Step, Enabled;
    } else {
      ReplyWrongs(s, a, p);
    }
  }

  lemma ReplyWrongs(s: State, a: Action, p: nat)
    requires Traced(s) && !Wronged(s, p) && Live(s, s.current) && Enabled(s, a) && Live(s, p)
    requires a.Answer? || a.AnswerAgain? || a.UnaskedReply?
    ensures Wronged(Step(s, a), p) <==> Misdelivers(s, a, p)
  {
    assert TracedAt(s, p) && TracedAt(s, s.current);
    hide Traced, SendFrom, ReplyTo;
    match a {
      case Answer(req, m) =>
        ReplySlot(s, req, m, p);
        if req.caller == p && AcceptsReply(TaskOf(s, p), AnswerTo(s.current, req, m)) {
          AcceptedBelongs(s, s.current, req);
        }
      case AnswerAgain(req, m) =>
        SendFromSlot(s, req.caller, AnswerTo(s.current, req, m), p);
        if req.caller == p && AcceptsReply(TaskOf(s, p), AnswerTo(s.current, req, m)) {
          AcceptedBelongs(s, s.current, req);
        }
      case UnaskedReply(dst, m) => SendFromSlot(s, dst, Unasked(s.current, m), p);
    }
  }

  /** No step of a run misdelivers to task p. */
  ghost predicate NeverMisdelivers(s: State, run: seq<Action>, p: nat)
  {
    run != [] ==> NeverMisdelivers(s, run[..|run| - 1], p) && !Misdelivers(After(s, run[..|run| - 1]), run[|run| - 1], p)
  }

  /** A task of a run without a wrap has only replies to its latest call, unless a step misdelivered to it. */
  lemma {:induction false} RepliesMatch(services: nat, run: seq<Action>, p: nat)
    requires services + 2 <= MAX_TASKS && NoWrapRun(Boot(services), run) && NeverMisdelivers(Boot(services), run, p)
    ensures !Wronged(After(Boot(services), run), p)
  {
    hide Step, Misdelivers, NoWrap, Traced;
    if run != [] {
      var before := run[..|run| - 1];
      RepliesMatch(services, before, p);
      BootTraced(services);
      RunTraced(Boot(services), before);
      StepWrongs(After(Boot(services), before), run[|run| - 1], p);
    }
  }

  /** A reply sent without any request (IPC_REPLY does not ask for one) is taken for the answer to the target's call if
      and only if it states the number of that call and no reply is there yet. */
  lemma UnaskedReplyTaken(s: State, dst: nat, m: Message)
    requires Traced(s) && Live(s, s.current) && Enabled(s, UnaskedReply(dst, m)) && !Wronged(s, dst)
    ensures Wronged(Step(s, UnaskedReply(dst, m)), dst) <==>
            Live(s, dst) && TaskOf(s, dst).callCorrelation != 0 && TaskOf(s, dst).callCorrelation == m.correlation && !TaskOf(s, dst).replyPending
  {
    hide Step, Traced;
    StepWrongs(s, UnaskedReply(dst, m), dst);
  }

  /** A one-way message that states a sender and a correlation (IPC_SEND keeps both) is a request of nobody. Whoever
      answers it answers the call of the stated sender if and only if the stated number is that of the sender's call and
      no reply is there yet. */
  lemma ForgedRequestAnswered(s: State, req: Request, m: Message)
    requires Traced(s) && Live(s, s.current) && Enabled(s, Answer(req, m)) && !Wronged(s, req.caller) && req.call == 0
    ensures Wronged(Step(s, Answer(req, m)), req.caller) <==>
            && Live(s, req.caller) && TaskOf(s, req.caller).callCorrelation != 0
            && TaskOf(s, req.caller).callCorrelation == req.correlation && !TaskOf(s, req.caller).replyPending
  {
    assert TracedAt(s, s.current) && TracedAt(s, req.caller);
    hide Step, Traced;
    StepWrongs(s, Answer(req, m), req.caller);
  }
}
