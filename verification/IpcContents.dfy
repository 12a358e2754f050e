/** What messages carry: whatever a task finds in its queue or in its reply slot is what some step of the run put into a
    message to it, with that message's contents and buffer. */
module IpcContents {
  import opened IpcModel
  import opened IpcScheduler
  import opened IpcCalls

  /** Task t, in slot p of the table, has message m for the queue of task q, respectively for its reply slot: there already
      if it is q itself, or about to be sent by its call. */
  predicate Has(t: Task, p: int, q: int, m: Message, slot: bool)
  {
    || (p == q && (if slot then t.replyPending && t.replySlot == m else m in t.ring))
    || (t.point == Calling(q, m) && slot == m.isReply)
  }

  ghost predicate OnItsWay(s: State, q: int, m: Message, slot: bool)
  {
    exists p: nat :: Live(s, p) && Has(TaskOf(s, p), p, q, m, slot)
  }

  /** The step makes a message m for task q: the contents, the buffer and the claims of a one-way message are the
      sender's own; a request and an answer are stamped with the task that sends them, an answer also with the request it
      is for. */
  predicate Carries(s: State, a: Action, q: int, m: Message)
    requires Live(s, s.current)
  {
    match a
    case Send(dst, n) =>
      dst == q && m.body == n.body && m.ool == n.ool && m.sender == n.sender && m.correlation == n.correlation && !m.isReply
    case Call(dst, n) =>
      && dst == q && m.body == n.body && m.ool == n.ool && m.sender == s.current && !m.isReply
      && m.birth == TaskOf(s, s.current).birth && m.call == s.callIds
    case Answer(req, n) => AnswerFor(req, n, s.current, q, m)
    case AnswerAgain(req, n) => AnswerFor(req, n, s.current, q, m)
    case UnaskedReply(dst, n) =>
      dst == q && m.body == n.body && m.ool == n.ool && m.sender == s.current && m.correlation == n.correlation && m.isReply
    case _ => false
  }

  predicate AnswerFor(req: Request, n: Message, self: nat, q: int, m: Message)
  {
    && req.caller == q && m.body == n.body && m.ool == n.ool && m.sender == self && m.isReply
    && m.birth == req.birth && m.call == req.call && m.correlation == req.correlation
  }

  // ----- steps that make no message

  predicate Fewer(t: Task, t': Task)
  {
    && (forall m :: m in t'.ring ==> m in t.ring) && (t'.replyPending ==> t.replyPending && t'.replySlot == t.replySlot)
    && (t'.point.Calling? ==> t'.point == t.point)
  }

  predicate Blank(t: Task)
  {
    t.ring == [] && !t.replyPending && !t.point.Calling?
  }

  ghost predicate NothingNew(s: State, s': State)
  {
    forall p: nat :: Live(s', p) ==> Blank(TaskOf(s', p)) || (Live(s, p) && Fewer(TaskOf(s, p), TaskOf(s', p)))
  }

  lemma NothingNewKeeps(s: State, s': State, q: int, m: Message, slot: bool)
    requires NothingNew(s, s') && OnItsWay(s', q, m, slot)
    ensures OnItsWay(s, q, m, slot)
  {
    var p: nat :| Live(s', p) && Has(TaskOf(s', p), p, q, m, slot);
    assert Live(s, p) && Has(TaskOf(s, p), p, q, m, slot);
  }

  lemma NothingNewTrans(s: State, t: State, u: State)
    requires NothingNew(s, t) && NothingNew(t, u)
    ensures NothingNew(s, u)
  {
    forall p: nat | Live(u, p) && !Blank(TaskOf(u, p))
      ensures Live(s, p) && Fewer(TaskOf(s, p), TaskOf(u, p))
    {
      var ring := TaskOf(u, p).ring;
      assert ring != [] ==> ring[0] in TaskOf(t, p).ring;
    }
  }

  lemma PutNothingNew(s: State, p: nat, t: Task)
    requires Live(s, p) && Fewer(TaskOf(s, p), t)
    ensures NothingNew(s, Put(s, p, t))
  {
  }

  lemma ScheduleNothingNew(s: State, p: int)
    ensures NothingNew(s, ScheduleTask(s, p))
  {
  }

  lemma SwitchNothingNew(s: State)
    requires Live(s, s.current)
    ensures NothingNew(s, SwitchTask(s))
  {
    hide Leave, PickNextTask, NothingNew;
    var r := ReapPendingTask(s);
    assert NothingNew(s, Leave(r)) by { LeaveNothingNew(s, r); }
    PickNothingNew(Leave(r));
    NothingNewTrans(s, Leave(r), PickNextTask(Leave(r)));
  }

  lemma LeaveNothingNew(s: State, r: State)
    requires Live(r, r.current) && r.tasks == s.tasks
    ensures NothingNew(s, Leave(r))
  {
  }

  lemma PickNothingNew(s: State)
    ensures NothingNew(s, PickNextTask(s))
  {
  }

  lemma ExitNothingNew(s: State, status: int)
    requires Live(s, s.current)
    ensures NothingNew(s, PrepareExit(s, status))
  {
    hide NoRegions, Kaddrs, Attached;
  }

  // ----- steps that send

  lemma SendArrives(s: State, dst: int, n: Message, q: int, m: Message, slot: bool)
    requires OnItsWay(SendMessage(s, dst, n).0, q, m, slot)
    ensures OnItsWay(s, q, m, slot) || (q == dst && m == n && slot == m.isReply)
  {
    var s' := SendMessage(s, dst, n).0;
    var p: nat :| Live(s', p) && Has(TaskOf(s', p), p, q, m, slot);
    assert Live(s, p);
    if !(q == dst && m == n && slot == m.isReply) {
      assert Has(TaskOf(s, p), p, q, m, slot);
    }
  }

  lemma SendFromArrives(s: State, dst: int, n: Message, q: int, m: Message, slot: bool)
    requires Live(s, s.current) && OnItsWay(SendFrom(s, dst, n).0, q, m, slot)
    ensures OnItsWay(s, q, m, slot) || (q == dst && m == n && slot == m.isReply)
  {
    hide SendMessage, OnItsWay;
    var s1 := Put(s, s.current, LetGo(TaskOf(s, s.current), n.ool));
    if SendMessage(s1, dst, n).1 == Ok {
      SendArrives(s1, dst, n, q, m, slot);
      PutNothingNew(s, s.current, LetGo(TaskOf(s, s.current), n.ool));
      if OnItsWay(s1, q, m, slot) {
        NothingNewKeeps(s, s1, q, m, slot);
      }
    }
  }

  /** The request of a call leaves the caller's hands for the server's queue. */
  lemma SendCallArrives(s: State, q: int, m: Message, slot: bool)
    requires Live(s, s.current) && TaskOf(s, s.current).point.Calling? && OnItsWay(SendCall(s), q, m, slot)
    ensures OnItsWay(s, q, m, slot)
  {
    hide SendMessage, OnItsWay;
    var t := TaskOf(s, s.current);
    var point := t.point;
    var r := SendMessage(s, point.dst, point.request);
    RequestOnItsWay(s);
    if r.1 == Ok && Live(r.0, s.current) && point.dst >= 0 {
      PutNothingNew(r.0, s.current, TaskOf(r.0, s.current).(point := InCall(point.dst)));
      NothingNewKeeps(r.0, SendCall(s), q, m, slot);
      SendArrives(s, point.dst, point.request, q, m, slot);
    } else {
      PutNothingNew(s, s.current, Hold(t, point.request.ool).(callCorrelation := 0, point := Free));
      NothingNewKeeps(s, SendCall(s), q, m, slot);
    }
  }

  lemma RequestOnItsWay(s: State)
    requires Live(s, s.current) && TaskOf(s, s.current).point.Calling?
    ensures var point := TaskOf(s, s.current).point; OnItsWay(s, point.dst, point.request, point.request.isReply)
  {
    var point := TaskOf(s, s.current).point;
    assert Has(TaskOf(s, s.current), s.current, point.dst, point.request, point.request.isReply);
  }

  lemma ReplyArrives(s: State, req: Request, n: Message, q: int, m: Message, slot: bool)
    requires Live(s, s.current) && OnItsWay(ReplyTo(s, req, n), q, m, slot)
    ensures OnItsWay(s, q, m, slot) || (q == req.caller && m == AnswerTo(s.current, req, n) && slot)
  {
    hide SendFrom, OnItsWay;
    var r := SendFrom(s, req.caller, AnswerTo(s.current, req, n));
    if r.1 == Ok && Live(r.0, s.current) {
      var t := TaskOf(r.0, s.current);
      PutNothingNew(r.0, s.current, t.(held := t.held - {req}));
      NothingNewKeeps(r.0, ReplyTo(s, req, n), q, m, slot);
      SendFromArrives(s, req.caller, AnswerTo(s.current, req, n), q, m, slot);
    }
  }

  lemma CallStarts(s: State, dst: int, n: Message, q: int, m: Message, slot: bool)
    requires Live(s, s.current) && Enabled(s, Call(dst, n)) && OnItsWay(Step(s, Call(dst, n)), q, m, slot)
    ensures OnItsWay(s, q, m, slot) || (Carries(s, Call(dst, n), q, m) && !slot)
  {
    var s' := Step(s, Call(dst, n));
    var p: nat :| Live(s', p) && Has(TaskOf(s', p), p, q, m, slot);
    if !Carries(s, Call(dst, n), q, m) || slot {
      assert Has(TaskOf(s, p), p, q, m, slot);
    }
  }

  // ----- every step

  lemma SendingCarries(s: State, a: Action, q: int, m: Message, slot: bool)
    requires Live(s, s.current) && Enabled(s, a) && OnItsWay(Step(s, a), q, m, slot)
    requires a.Send? || a.Call? || a.SendRequest? || a.Answer? || a.AnswerAgain? || a.UnaskedReply?
    ensures OnItsWay(s, q, m, slot) || (Carries(s, a, q, m) && slot == m.isReply)
  {
    hide SendFrom, SendCall, ReplyTo, OnItsWay, StartCall;
    match a {
      case Send(dst, n) => SendFromArrives(s, dst, OneWay(n), q, m, slot);
      case Call(dst, n) => CallStarts(s, dst, n, q, m, slot);
      case SendRequest => SendCallArrives(s, q, m, slot);
      case Answer(req, n) => ReplyArrives(s, req, n, q, m, slot);
      case AnswerAgain(req, n) => SendFromArrives(s, req.caller, AnswerTo(s.current, req, n), q, m, slot);
      case UnaskedReply(dst, n) => SendFromArrives(s, dst, Unasked(s.current, n), q, m, slot);
    }
  }

  lemma QuietStep(s: State, a: Action)
    requires Live(s, s.current) && Enabled(s, a)
    requires !a.Send? && !a.Call? && !a.SendRequest? && !a.Answer? && !a.AnswerAgain? && !a.UnaskedReply?
    ensures NothingNew(s, Step(s, a))
  {
    hide SwitchTask, PrepareExit, NoRegions, Kaddrs, Attached, RegionIndex, FreeSlot, NothingNew;
    var t := TaskOf(s, s.current);
    match a {
      case Preempt => SwitchNothingNew(s);
      case Yield =>
        PutNothingNew(s, s.current, t.(mustSwitch := false));
        SwitchNothingNew(Put(s, s.current, t.(mustSwitch := false)));
        NothingNewTrans(s, Put(s, s.current, t.(mustSwitch := false)), Step(s, a));
      case Exit(status) =>
        ExitNothingNew(s, status);
        var e := PrepareExit(s, status);
        if Live(e, e.current) {
          SwitchNothingNew(e);
          NothingNewTrans(s, e, SwitchTask(e));
        }
      case Wake(child) => ScheduleNothingNew(s, child);
      case _ => PlainStep(s, a);
    }
  }

  lemma OneTask(s: State, t: Task, s': State)
    requires Live(s, s.current) && Fewer(TaskOf(s, s.current), t) && s'.tasks == Put(s, s.current, t).tasks
    ensures NothingNew(s, s')
  {
  }

  lemma PlainStep(s: State, a: Action)
    requires Live(s, s.current) && Enabled(s, a)
    requires !a.Send? && !a.Call? && !a.SendRequest? && !a.Answer? && !a.AnswerAgain? && !a.UnaskedReply?
    requires !a.Preempt? && !a.Yield? && !a.Exit? && !a.Wake?
    ensures NothingNew(s, Step(s, a))
  {
    hide NothingNew, DeliverOol, ReleaseOol, NotifyTask, CreateTask, Kaddrs;
    var t := TaskOf(s, s.current);
    match a {
      case Doorbell(to, bit) => NotifyNothingNew(s, to, bit);
      case AllocPayload(ool) => OneTask(s, Hold(t, ool), Step(s, a));
      case FreePayload(ool) => OneTask(s, LetGo(t, ool), Step(s, a));
      case AwaitReply => OneTask(s, PollReply(t), Step(s, a));
      case ReceiveMessage => OneTask(s, PollReceive(t), Step(s, a));
      case WaitNotification(mask) => OneTask(s, PollNotify(t, mask), Step(s, a));
      case WaitChild => OneTask(s, PollChild(t), Step(s, a));
      case Deliver(ool, aligned, mapped, uaddr) => DeliverNothingNew(s, ool, aligned, mapped, uaddr);
      case Release(uaddr) => ReleaseNothingNew(s, uaddr);
      case Exec => OneTask(s, t.(regions := NoRegions()), Step(s, a));
      case Fork => CreateNothingNew(s, Some(s.current));
    }
  }

  lemma NotifyNothingNew(s: State, to: int, bit: nat)
    ensures NothingNew(s, NotifyTask(s, to, bit))
  {
  }

  lemma DeliverNothingNew(s: State, ool: nat, aligned: bool, mapped: bool, uaddr: nat)
    requires Live(s, s.current)
    ensures NothingNew(s, DeliverOol(s, ool, aligned, mapped, uaddr))
  {
    hide FreeSlot;
  }

  lemma ReleaseNothingNew(s: State, uaddr: nat)
    requires Live(s, s.current)
    ensures NothingNew(s, ReleaseOol(s, uaddr))
  {
    hide RegionIndex;
  }

  lemma CreateNothingNew(s: State, parent: Option<nat>)
    ensures NothingNew(s, CreateTask(s, parent))
  {
    hide AvailableId, NoRegions;
  }

  /** Nothing is on its way to a task but what was already and what the step itself makes. */
  lemma StepCarries(s: State, a: Action, q: int, m: Message, slot: bool)
    requires OnItsWay(Step(s, a), q, m, slot)
    ensures OnItsWay(s, q, m, slot) || (Live(s, s.current) && Enabled(s, a) && Carries(s, a, q, m) && slot == m.isReply)
  {
    hide OnItsWay, NothingNew, Act, Enabled, Carries;
    if Live(s, s.current) && Enabled(s, a) {
      if a.Send? || a.Call? || a.SendRequest? || a.Answer? || a.AnswerAgain? || a.UnaskedReply? {
        SendingCarries(s, a, q, m, slot);
      } else {
        QuietStep(s, a);
        NothingNewKeeps(s, Step(s, a), q, m, slot);
      }
    }
  }

  // ----- runs

  /** Step i of the run made message m for task q. */
  ghost predicate MadeBy(s: State, run: seq<Action>, i: nat, q: int, m: Message)
  {
    && i < |run|
    && var b := After(s, run[..i]); Live(b, b.current) && Enabled(b, run[i]) && Carries(b, run[i], q, m)
  }

  lemma MadeLonger(s: State, run: seq<Action>, i: nat, q: int, m: Message, n: nat)
    requires n <= |run| && MadeBy(s, run[..n], i, q, m)
    ensures MadeBy(s, run, i, q, m)
  {
    hide Enabled, Carries, After;
    assert run[..n][..i] == run[..i];
  }

  /** Over any run, every message on its way was so at the start or was made by a step of the run. */
  lemma {:induction false} RunCarries(s: State, run: seq<Action>, q: int, m: Message, slot: bool)
    requires OnItsWay(After(s, run), q, m, slot)
    ensures OnItsWay(s, q, m, slot) || (slot == m.isReply && exists i: nat :: MadeBy(s, run, i, q, m))
  {
    hide OnItsWay, Step, Enabled, Carries;
    if run != [] {
      var n := |run| - 1;
      var b := After(s, run[..n]);
      StepCarries(b, run[n], q, m, slot);
      if OnItsWay(b, q, m, slot) {
        RunCarries(s, run[..n], q, m, slot);
        if i: nat :| MadeBy(s, run[..n], i, q, m) {
          MadeLonger(s, run, i, q, m, n);
        }
      } else {
        assert MadeBy(s, run, n, q, m);
      }
    }
  }

  lemma NothingAtBoot(services: nat, q: int, m: Message, slot: bool)
    requires services + 2 <= MAX_TASKS
    ensures !OnItsWay(Boot(services), q, m, slot)
  {
  }

  /** Whatever a task has in its queue was sent to it by a step of the run, with the same contents, buffer and sender: a
      one-way message, or the request of a call. */
  lemma QueueHoldsWhatWasSent(services: nat, run: seq<Action>, q: nat, j: nat)
    requires services + 2 <= MAX_TASKS
    requires var s := After(Boot(services), run); Live(s, q) && j < |TaskOf(s, q).ring|
    ensures exists i: nat :: MadeBy(Boot(services), run, i, q, TaskOf(After(Boot(services), run), q).ring[j]) && (run[i].Send? || run[i].Call?)
  {
    hide After, Boot, Enabled;
    var s := After(Boot(services), run);
    var m := TaskOf(s, q).ring[j];
    assert Has(TaskOf(s, q), q, q, m, false);
    RunCarries(Boot(services), run, q, m, false);
    NothingAtBoot(services, q, m, false);
    var i: nat :| MadeBy(Boot(services), run, i, q, m);
  }

  predicate AnswersCall(a: Action, t: Task, p: nat)
  {
    && a.Answer? && a.req == Request(p, t.birth, t.callId, t.calls)
    && t.replySlot.body == a.m.body && t.replySlot.ool == a.m.ool
  }

  /** In a disciplined run a call finds in its slot the very answer a step of the called task gave to it: its contents and
      its buffer. */
  lemma CallsGetWhatWasAnswered(services: nat, run: seq<Action>, p: nat)
    requires services + 2 <= MAX_TASKS && DisciplinedRun(Boot(services), run)
    requires var s := After(Boot(services), run); Live(s, p) && TaskOf(s, p).replyPending
    ensures var t := TaskOf(After(Boot(services), run), p);
            exists i: nat :: i < |run| && AnswersCall(run[i], t, p) && t.point == InCall(After(Boot(services), run[..i]).current)
  {
    hide After, Boot, Enabled, DisciplinedRun;
    var s := After(Boot(services), run);
    var t := TaskOf(s, p);
    var m := t.replySlot;
    assert Has(t, p, p, m, true);
    RunCarries(Boot(services), run, p, m, true);
    NothingAtBoot(services, p, m, true);
    var i: nat :| MadeBy(Boot(services), run, i, p, m);
    CallsGetTheirOwnReply(services, run, p);
    DisciplinedStep(Boot(services), run, i);
    assert AnswersCall(run[i], t, p);
  }

  lemma {:induction false} DisciplinedStep(s: State, run: seq<Action>, i: nat)
    requires DisciplinedRun(s, run) && i < |run|
    ensures Disciplined(After(s, run[..i]), run[i])
  {
    hide After, Disciplined;
    if i < |run| - 1 {
      DisciplinedStep(s, run[..|run| - 1], i);
      assert run[..|run| - 1][..i] == run[..i];
    }
  }
}
