/** Calls and replies. A disciplined run is one in which requests come from call() only (a one-way message has
    correlation 0), servers answer requests they received and each of them at most once, and no task makes 2^32 calls. */
module IpcCalls {
  import opened Common
  import opened IpcModel
  import opened IpcScheduler

  function RequestOf(m: Message): Request
  {
    Request(m.sender, m.birth, m.call, m.correlation)
  }

  /** A task's own calls: they are numbered, one at most is outstanding, and a reply in the slot is the answer of the task
      called to that very call. */
  predicate Numbered(t: Task, p: nat)
  {
    && t.calls < U32 && t.nextCorrelation == t.calls
    && (t.point.Calling? || t.point.InCall? <==> t.callCorrelation != 0)
    && (t.callCorrelation != 0 ==> t.callCorrelation == t.calls)
    && (t.replyPending ==> t.point.InCall? && Answers(t, t.replySlot))
    && (t.point.Calling? ==> RequestOf(t.point.request) == Request(p, t.birth, t.callId, t.calls) && !t.point.request.isReply && t.point.dst != p)
  }

  predicate Answers(t: Task, reply: Message)
    requires t.point.InCall?
  {
    reply.call == t.callId && reply.birth == t.birth && reply.correlation == t.calls && reply.sender == t.point.server
  }

  /** The caller of a request that task q has is still the one that made it, and still waits for the answer of q. */
  ghost predicate Outstanding(s: State, q: nat, r: Request)
  {
    && Live(s, r.caller) && r.correlation != 0
    && var t := TaskOf(s, r.caller); t.birth == r.birth && t.point == InCall(q) && t.calls == r.correlation && t.callId == r.call && !t.replyPending
  }

  /** The requests task q has, queued or received, are outstanding and all different. */
  ghost predicate AllOutstanding(s: State, q: nat, t: Task)
  {
    && (forall r :: r in t.held ==> Outstanding(s, q, r))
    && (forall i :: 0 <= i < |t.ring| && t.ring[i].correlation != 0 ==> Outstanding(s, q, RequestOf(t.ring[i])) && RequestOf(t.ring[i]) !in t.held)
    && (forall i, j :: 0 <= i < j < |t.ring| && t.ring[i].correlation != 0 ==> RequestOf(t.ring[i]) != RequestOf(t.ring[j]))
  }

  ghost predicate CallsOkAt(s: State, q: nat)
  {
    Live(s, q) ==> Numbered(TaskOf(s, q), q) && AllOutstanding(s, q, TaskOf(s, q))
  }

  ghost predicate CallsOk(s: State)
  {
    forall q: nat :: CallsOkAt(s, q)
  }

  predicate Disciplined(s: State, a: Action)
  {
    match a
    case AnswerAgain(_, _) => false
    case UnaskedReply(_, _) => false
    case Send(_, m) => m.correlation == 0
    case Call(_, _) => Live(s, s.current) ==> TaskOf(s, s.current).calls + 1 < U32
    case _ => true
  }

  ghost predicate DisciplinedRun(s: State, run: seq<Action>)
  {
    run != [] ==> DisciplinedRun(s, run[..|run| - 1]) && Disciplined(After(s, run[..|run| - 1]), run[|run| - 1])
  }

  // ----- changing one task

  /** As far as calls go, t' is t as a caller. */
  predicate SameCaller(t: Task, t': Task)
  {
    t'.birth == t.birth && t'.point == t.point && t'.calls == t.calls && t'.callId == t.callId && t'.replyPending == t.replyPending
  }

  /** As far as calls go, t' is t. */
  predicate SameCalls(t: Task, t': Task)
  {
    && SameCaller(t, t') && t'.replySlot == t.replySlot && t'.nextCorrelation == t.nextCorrelation
    && t'.callCorrelation == t.callCorrelation && t'.ring == t.ring && t'.held == t.held
  }

  /** The requests of a task change, its own call does not. */
  lemma PutServer(s: State, p: nat, t: Task)
    requires CallsOk(s) && Live(s, p) && SameCaller(TaskOf(s, p), t) && Numbered(t, p) && AllOutstanding(s, p, t)
    ensures CallsOk(Put(s, p, t))
  {
    var s' := Put(s, p, t);
    forall q: nat, r: Request
      ensures Outstanding(s, q, r) ==> Outstanding(s', q, r)
    {
    }
    forall q: nat
      ensures CallsOkAt(s', q)
    {
      assert CallsOkAt(s, q);
    }
  }

  lemma PutSameCalls(s: State, p: nat, t: Task)
    requires CallsOk(s) && Live(s, p) && SameCalls(TaskOf(s, p), t)
    ensures CallsOk(Put(s, p, t))
  {
    assert CallsOkAt(s, p);
    PutServer(s, p, t);
  }

  lemma ScheduleCalls(s: State, p: int)
    requires CallsOk(s)
    ensures CallsOk(ScheduleTask(s, p))
  {
    if Live(s, p) {
      PutSameCalls(s, p, TaskOf(s, p).(state := Ready));
      SameTasksCalls(Put(s, p, TaskOf(s, p).(state := Ready)), ScheduleTask(s, p));
    }
  }

  lemma SameTasksCalls(s: State, s': State)
    requires CallsOk(s) && s'.tasks == s.tasks
    ensures CallsOk(s')
  {
    forall q: nat, r: Request
      ensures Outstanding(s, q, r) ==> Outstanding(s', q, r)
    {
    }
    forall q: nat
      ensures CallsOkAt(s', q)
    {
      assert CallsOkAt(s, q);
    }
  }

  ghost predicate NoneOutstanding(s: State, p: nat)
  {
    forall q: nat, r: Request :: Live(s, q) && r.caller == p ==> !Has(TaskOf(s, q), r)
  }

  ghost predicate Has(t: Task, r: Request)
  {
    r in t.held || exists i :: 0 <= i < |t.ring| && t.ring[i].correlation != 0 && RequestOf(t.ring[i]) == r
  }

  lemma HasOutstanding(s: State, q: nat, r: Request)
    requires CallsOk(s) && Live(s, q) && Has(TaskOf(s, q), r)
    ensures Outstanding(s, q, r)
  {
    assert CallsOkAt(s, q);
  }

  /** Nobody has a request of a task that is not waiting for an answer. */
  lemma NotWaiting(s: State, p: nat)
    requires CallsOk(s) && (Live(s, p) ==> !TaskOf(s, p).point.InCall? || TaskOf(s, p).replyPending)
    ensures NoneOutstanding(s, p)
  {
    forall q: nat, r: Request | Live(s, q) && r.caller == p
      ensures !Has(TaskOf(s, q), r)
    {
      if Has(TaskOf(s, q), r) {
        HasOutstanding(s, q, r);
      }
    }
  }

  /** The call of a task changes that nobody has a request of. */
  lemma PutCaller(s: State, p: nat, t: Task)
    requires CallsOk(s) && Live(s, p) && NoneOutstanding(s, p) && Numbered(t, p)
    requires t.ring == TaskOf(s, p).ring && t.held == TaskOf(s, p).held
    ensures CallsOk(Put(s, p, t))
  {
    var s' := Put(s, p, t);
    forall q: nat, r: Request
      ensures Outstanding(s, q, r) && r.caller != p ==> Outstanding(s', q, r)
    {
    }
    forall q: nat | Live(s, q)
      ensures AllOutstanding(s', q, TaskOf(s', q))
    {
      OthersOutstanding(s, s', p, q);
    }
    forall q: nat
      ensures CallsOkAt(s', q)
    {
      assert CallsOkAt(s, q);
    }
  }

  lemma OthersOutstanding(s: State, s': State, p: nat, q: nat)
    requires CallsOk(s) && NoneOutstanding(s, p) && Live(s, q) && Live(s', q)
    requires TaskOf(s', q).ring == TaskOf(s, q).ring && TaskOf(s', q).held == TaskOf(s, q).held
    requires forall r: Request :: Outstanding(s, q, r) && r.caller != p ==> Outstanding(s', q, r)
    ensures AllOutstanding(s', q, TaskOf(s', q))
  {
    var t := TaskOf(s, q);
    assert CallsOkAt(s, q);
    forall r | r in t.held
      ensures Outstanding(s', q, r)
    {
      assert Has(t, r);
    }
    forall i | 0 <= i < |t.ring| && t.ring[i].correlation != 0
      ensures Outstanding(s', q, RequestOf(t.ring[i]))
    {
      assert Has(t, RequestOf(t.ring[i]));
    }
  }

  /** A task disappears that nobody has a request of. */
  lemma RemoveTask(s: State, p: nat)
    requires CallsOk(s) && Live(s, p) && NoneOutstanding(s, p)
    ensures CallsOk(s.(tasks := s.tasks[p := None]))
  {
    var s' := s.(tasks := s.tasks[p := None]);
    forall q: nat, r: Request
      ensures Outstanding(s, q, r) && r.caller != p ==> Outstanding(s', q, r)
    {
    }
    forall q: nat
      ensures CallsOkAt(s', q)
    {
      assert CallsOkAt(s, q);
      if Live(s', q) {
        OthersOutstanding(s, s', p, q);
      }
    }
  }

  // ----- delivering

  /** A one-way message changes no call. */
  lemma SendOneWay(s: State, dst: int, m: Message)
    requires CallsOk(s) && !m.isReply && m.correlation == 0
    ensures CallsOk(SendMessage(s, dst, m).0)
  {
    if Live(s, dst) {
      var t := TaskOf(s, dst);
      var t' := t.(ring := t.ring + [m]);
      assert CallsOkAt(s, dst);
      PutServer(s, dst, t');
      ScheduleCalls(Put(s, dst, t'), dst);
    }
  }

  /** A request whose caller has started to wait joins the server's ring. */
  lemma SendRequestOk(s: State, dst: nat, m: Message)
    requires CallsOk(s) && !m.isReply && Outstanding(s, dst, RequestOf(m)) && NoneOutstanding(s, m.sender)
    ensures CallsOk(SendMessage(s, dst, m).0)
  {
    if Live(s, dst) {
      var t := TaskOf(s, dst);
      var t' := t.(ring := t.ring + [m]);
      assert CallsOkAt(s, dst) && !Has(t, RequestOf(m));
      PutServer(s, dst, t');
      ScheduleCalls(Put(s, dst, t'), dst);
    }
  }

  /** The answer to the only outstanding request of a task is accepted. */
  lemma AcceptAnswer(s: State, q: nat, req: Request, a: Message)
    requires CallsOk(s) && NoneOutstanding(s, req.caller) && Outstanding(s, q, req)
    requires a.isReply && a.correlation == req.correlation && a.birth == req.birth && a.call == req.call && a.sender == q
    ensures SendMessage(s, req.caller, a).1 == Ok && CallsOk(SendMessage(s, req.caller, a).0)
  {
    var p := req.caller;
    var t := TaskOf(s, p);
    assert CallsOkAt(s, p);
    PutCaller(s, p, t.(replySlot := a, replyPending := true));
    ScheduleCalls(Put(s, p, t.(replySlot := a, replyPending := true)), p);
  }

  // ----- the sections of the current task

  lemma PollReceiveCalls(s: State)
    requires CallsOk(s) && Live(s, s.current) && (TaskOf(s, s.current).point.Free? || TaskOf(s, s.current).point.InReceive?)
    ensures CallsOk(Put(s, s.current, PollReceive(TaskOf(s, s.current))))
  {
    hide Lowest;
    var p := s.current;
    var t := TaskOf(s, p);
    var t' := PollReceive(t);
    assert CallsOkAt(s, p);
    NotWaiting(s, p);
    if t.pending == {} && t.ring != [] {
      var m := t.ring[0];
      var t1 := t.(ring := t.ring[1..], held := t.held + Awaiting(m));
      forall i, j | 0 <= i < j < |t1.ring| && t1.ring[i].correlation != 0
        ensures RequestOf(t1.ring[i]) != RequestOf(t1.ring[j])
      {
        assert t1.ring[i] == t.ring[i + 1] && t1.ring[j] == t.ring[j + 1];
      }
      forall i | 0 <= i < |t1.ring| && t1.ring[i].correlation != 0
        ensures Outstanding(s, p, RequestOf(t1.ring[i])) && RequestOf(t1.ring[i]) !in t1.held
      {
        assert t1.ring[i] == t.ring[i + 1];
      }
      PutServer(s, p, t1);
      NotWaiting(Put(s, p, t1), p);
      PutCaller(Put(s, p, t1), p, t');
      assert Put(Put(s, p, t1), p, t') == Put(s, p, t');
    } else {
      PutCaller(s, p, t');
    }
  }

  /** Sections of a task that is not waiting for an answer, or has it: nobody has a request of it. */
  lemma OwnSection(s: State, t: Task)
    requires CallsOk(s) && Live(s, s.current) && Numbered(t, s.current)
    requires !TaskOf(s, s.current).point.InCall? || TaskOf(s, s.current).replyPending
    requires t.ring == TaskOf(s, s.current).ring && t.held == TaskOf(s, s.current).held
    ensures CallsOk(Put(s, s.current, t))
  {
    NotWaiting(s, s.current);
    PutCaller(s, s.current, t);
  }

  /** A delivery to somebody else does not depend on what task p is, nor change it. */
  lemma SendElsewhere(s: State, dst: int, m: Message, p: nat, t: Task)
    requires Live(s, p) && dst != p
    ensures var r, r' := SendMessage(s, dst, m), SendMessage(Put(s, p, t), dst, m);
            && r'.1 == r.1 && Live(r.0, p) && TaskOf(r.0, p) == TaskOf(s, p)
            && (r.1 == Ok ==> r'.0 == Put(r.0, p, t))
  {
    var r, r' := SendMessage(s, dst, m), SendMessage(Put(s, p, t), dst, m);
    if r.1 == Ok {
      assert r'.0.tasks == Put(r.0, p, t).tasks;
    }
  }

  lemma SendCallCalls(s: State)
    requires CallsOk(s) && Live(s, s.current) && TaskOf(s, s.current).point.Calling?
    ensures CallsOk(SendCall(s))
  {
    var p := s.current;
    var t := TaskOf(s, p);
    var dst, m := t.point.dst, t.point.request;
    assert CallsOkAt(s, p);
    NotWaiting(s, p);
    PutCaller(s, p, Hold(t, m.ool).(callCorrelation := 0, point := Free));
    if dst >= 0 && Live(s, dst) && SendMessage(s, dst, m).1 == Ok {
      var w := Put(s, p, t.(point := InCall(dst)));
      PutCaller(s, p, t.(point := InCall(dst)));
      assert NoneOutstanding(w, p) by { SameRequests(s, w, p); }
      SendRequestOk(w, dst, m);
      SendElsewhere(s, dst, m, p, t.(point := InCall(dst)));
    }
  }

  lemma SameRequests(s: State, s': State, p: nat)
    requires NoneOutstanding(s, p)
    requires forall q: nat :: Live(s', q) ==> Live(s, q) && TaskOf(s', q).ring == TaskOf(s, q).ring && TaskOf(s', q).held == TaskOf(s, q).held
    ensures NoneOutstanding(s', p)
  {
    forall q: nat, r: Request | Live(s', q) && r.caller == p
      ensures !Has(TaskOf(s', q), r)
    {
      assert !Has(TaskOf(s, q), r);
    }
  }

  /** Once a held request is taken out, nobody has a request of its caller. */
  lemma LastRequest(s: State, req: Request, t: Task)
    requires CallsOk(s) && Live(s, s.current) && TaskOf(s, s.current).point.Free? && req in TaskOf(s, s.current).held
    requires SameCaller(TaskOf(s, s.current), t) && t.ring == TaskOf(s, s.current).ring && t.held == TaskOf(s, s.current).held - {req}
    requires t.nextCorrelation == TaskOf(s, s.current).nextCorrelation && t.callCorrelation == TaskOf(s, s.current).callCorrelation
    ensures var w := Put(s, s.current, t);
            req.caller != s.current && Outstanding(w, s.current, req) && CallsOk(w) && NoneOutstanding(w, req.caller)
  {
    var p := s.current;
    var w := Put(s, p, t);
    assert CallsOkAt(s, p) && Outstanding(s, p, req);
    PutServer(s, p, t);
    forall q: nat, r: Request | Live(w, q) && r.caller == req.caller
      ensures !Has(TaskOf(w, q), r)
    {
      if Has(TaskOf(w, q), r) {
        HasOutstanding(w, q, r);
      }
    }
  }

  lemma AnswerCalls(s: State, req: Request, m: Message)
    requires CallsOk(s) && Live(s, s.current) && TaskOf(s, s.current).point.Free? && req in TaskOf(s, s.current).held
    ensures CallsOk(ReplyTo(s, req, m)) && SendFrom(s, req.caller, AnswerTo(s.current, req, m)).1 == Ok
  {
    var p := s.current;
    var t := TaskOf(s, p);
    var a := AnswerTo(p, req, m);
    var t1 := LetGo(t, a.ool);
    var t2 := t1.(held := t1.held - {req});
    LastRequest(s, req, t2);
    AcceptAnswer(Put(s, p, t2), p, req, a);
    var s1 := Put(s, p, t1);
    assert Put(s1, p, t2) == Put(s, p, t2);
    SendElsewhere(s1, req.caller, a, p, t2);
  }

  lemma SwitchCalls(s: State)
    requires CallsOk(s) && Live(s, s.current) && (TaskOf(s, s.current).state == Exited ==> TaskOf(s, s.current).point.Free?)
    ensures CallsOk(SwitchTask(s))
  {
    hide CallsOk;
    var r := ReapPendingTask(s);
    SameTasksCalls(s, r);
    var l := Leave(r);
    if TaskOf(s, s.current).state == Exited {
      NotWaiting(r, s.current);
      RemoveTask(r, s.current);
      SameTasksCalls(r.(tasks := r.tasks[s.current := None]), l);
    } else {
      ScheduleCalls(r, s.current);
    }
    if l.queue != [] && Live(l, l.queue[0]) {
      var p := l.queue[0];
      PutSameCalls(l, p, TaskOf(l, p).(state := Running));
      SameTasksCalls(Put(l, p, TaskOf(l, p).(state := Running)), SwitchTask(s));
    } else {
      SameTasksCalls(l, SwitchTask(s));
    }
  }

  lemma ReleaseAllCalls(s: State)
    requires CallsOk(s) && Live(s, s.current) && TaskOf(s, s.current).point.Free?
    ensures var s1 := ReleaseAll(s); CallsOk(s1) && Live(s1, s.current) && s1.current == s.current && TaskOf(s1, s.current).point.Free?
  {
    var t := TaskOf(s, s.current);
    var t' := t.(regions := NoRegions(), ring := [], pending := {}, replyPending := false);
    assert CallsOkAt(s, s.current);
    PutServer(s, s.current, t');
    SameTasksCalls(Put(s, s.current, t'), ReleaseAll(s));
  }

  lemma RecordCalls(s: State, parent: nat, child: nat, status: int)
    requires CallsOk(s) && Live(s, parent) && Live(s, s.current) && TaskOf(s, s.current).point.Free?
    ensures var s' := RecordChildExit(s, parent, child, status);
            CallsOk(s') && s'.current == s.current && Live(s', s.current) && TaskOf(s', s.current).point.Free?
  {
    var t := TaskOf(s, parent);
    var t' := t.(exitRecords := t.exitRecords + [ExitRecord(child, status)]);
    PutSameCalls(s, parent, t');
    ScheduleCalls(Put(s, parent, t'), parent);
  }

  lemma ExitCalls(s: State, status: int)
    requires CallsOk(s) && Live(s, s.current) && TaskOf(s, s.current).point.Free?
    ensures var e := PrepareExit(s, status);
            CallsOk(e) && e.current == s.current && Live(e, s.current) && TaskOf(e, s.current).point.Free?
  {
    hide ReleaseAll, RecordChildExit, CallsOk;
    ReleaseAllCalls(s);
    var s1 := ReleaseAll(s);
    var parent := TaskOf(s, s.current).parent;
    var s2 := if parent.Some? && Live(s1, parent.value) then RecordChildExit(s1, parent.value, s.current, status) else s1;
    if parent.Some? && Live(s1, parent.value) {
      RecordCalls(s1, parent.value, s.current, status);
    }
    PutSameCalls(s2, s.current, TaskOf(s2, s.current).(state := Exited));
  }

  lemma CreateCalls(s: State, parent: Option<nat>)
    requires CallsOk(s)
    ensures CallsOk(CreateTask(s, parent))
  {
    var p, s' := AvailableId(s.tasks, 0), CreateTask(s, parent);
    forall q: nat, r: Request
      ensures Outstanding(s, q, r) ==> Outstanding(s', q, r)
    {
    }
    forall q: nat
      ensures CallsOkAt(s', q)
    {
      assert CallsOkAt(s, q);
    }
  }

  /** Sections that touch neither requests nor the task's own call. */
  lemma SameCallsStep(s: State, t: Task, s': State)
    requires CallsOk(s) && Live(s, s.current) && SameCalls(TaskOf(s, s.current), t) && s'.tasks == Put(s, s.current, t).tasks
    ensures CallsOk(s')
  {
    PutSameCalls(s, s.current, t);
    SameTasksCalls(Put(s, s.current, t), s');
  }

  lemma NotifyCalls(s: State, dst: int, bit: nat)
    requires CallsOk(s)
    ensures CallsOk(NotifyTask(s, dst, bit))
  {
    hide CallsOk;
    if Live(s, dst) {
      var t' := TaskOf(s, dst).(pending := TaskOf(s, dst).pending + {bit});
      PutSameCalls(s, dst, t');
      ScheduleCalls(Put(s, dst, t'), dst);
    }
  }

  lemma OwnStepCalls(s: State, a: Action)
    requires CallsOk(s) && Disciplined(s, a) && Live(s, s.current) && Enabled(s, a)
    requires a.Call? || a.AwaitReply? || a.WaitNotification? || a.WaitChild?
    ensures CallsOk(Step(s, a))
  {
    var t := TaskOf(s, s.current);
    assert CallsOkAt(s, s.current);
    hide CallsOk;
    match a {
      case Call(dst, m) =>
        OwnSection(s, StartCall(t, s.current, dst, m, s.callIds));
        SameTasksCalls(Put(s, s.current, StartCall(t, s.current, dst, m, s.callIds)), Step(s, a));
      case AwaitReply =>
        if t.replyPending {
          OwnSection(s, PollReply(t));
        } else {
          PutSameCalls(s, s.current, PollReply(t));
        }
      case WaitNotification(mask) => OwnSection(s, PollNotify(t, mask));
      case WaitChild => OwnSection(s, PollChild(t));
    }
  }

  /** Every step of a disciplined run keeps the discipline's promise. */
  lemma StepCalls(s: State, a: Action)
    requires Safe(s) && CallsOk(s) && Disciplined(s, a)
    ensures CallsOk(Step(s, a))
  {
    hide CallsOk, SwitchTask, PrepareExit, SendMessage, SendCall, ReplyTo, NotifyTask, CreateTask, ScheduleTask,
      PollReceive,
      StartCall, PollReply, PollNotify, PollChild, DeliverOol, ReleaseOol, ReleaseRegions, Bounded, NothingMissed;
    if !Live(s, s.current) || !Enabled(s, a) {
      return;
    }
    var t := TaskOf(s, s.current);
    SafeAt(s, s.current);
    match a {
      case Preempt => SwitchCalls(s);
      case Yield =>
        PutSameCalls(s, s.current, t.(mustSwitch := false));
        SwitchCalls(Put(s, s.current, t.(mustSwitch := false)));
      case Exit(status) =>
        ExitCalls(s, status);
        SwitchCalls(PrepareExit(s, status));
      case Doorbell(to, bit) => NotifyCalls(s, to, bit);
      case Send(dst, m) =>
        PutSameCalls(s, s.current, LetGo(t, m.ool));
        SendOneWay(Put(s, s.current, LetGo(t, m.ool)), dst, OneWay(m));
      case SendRequest => SendCallCalls(s);
      case Answer(req, m) => AnswerCalls(s, req, m);
      case ReceiveMessage => PollReceiveCalls(s);
      case Fork => CreateCalls(s, Some(s.current));
      case Wake(child) => ScheduleCalls(s, child);
      case _ =>
        if IsBufferStep(a) {
          BufferStepCalls(s, a);
        } else {
          OwnStepCalls(s, a);
        }
    }
  }

  lemma BufferStepCalls(s: State, a: Action)
    requires CallsOk(s) && Live(s, s.current) && Enabled(s, a) && IsBufferStep(a)
    ensures CallsOk(Step(s, a))
  {
    hide CallsOk, Kaddrs, RegionIndex, DeliverOol, ReleaseOol, FreeSlot;
    var t := TaskOf(s, s.current);
    match a {
      case AllocPayload(ool) => SameCallsStep(s, Hold(t, ool), Step(s, a));
      case FreePayload(ool) => SameCallsStep(s, LetGo(t, ool), Step(s, a));
      case Deliver(ool, aligned, mapped, uaddr) => DeliverCalls(s, ool, aligned, mapped, uaddr);
      case Release(uaddr) => ReleaseCalls(s, uaddr);
      case Exec => SameCallsStep(s, t.(regions := NoRegions()), Step(s, a));
    }
  }

  lemma DeliverCalls(s: State, ool: nat, aligned: bool, mapped: bool, uaddr: nat)
    requires CallsOk(s) && Live(s, s.current)
    ensures CallsOk(DeliverOol(s, ool, aligned, mapped, uaddr))
  {
    hide CallsOk;
    var s' := DeliverOol(s, ool, aligned, mapped, uaddr);
    SameCallsStep(s, TaskOf(s', s.current), s');
  }

  lemma ReleaseCalls(s: State, uaddr: nat)
    requires CallsOk(s) && Live(s, s.current)
    ensures CallsOk(ReleaseOol(s, uaddr))
  {
    hide CallsOk, RegionIndex;
    var t := TaskOf(s, s.current);
    var i := RegionIndex(t.regions, uaddr);
    if i < |t.regions| {
      SameCallsStep(s, t.(regions := t.regions[i := Region(0, 0)]), ReleaseOol(s, uaddr));
    }
  }

  lemma BootCalls(services: nat)
    requires services + 2 <= MAX_TASKS
    ensures CallsOk(Boot(services))
  {
  }

  lemma {:induction false} RunCalls(s: State, run: seq<Action>)
    requires Safe(s) && CallsOk(s) && DisciplinedRun(s, run)
    ensures Safe(After(s, run)) && CallsOk(After(s, run))
  {
    hide Safe, CallsOk, Step, Disciplined;
    if run != [] {
      var before := run[..|run| - 1];
      RunCalls(s, before);
      StepSafe(After(s, before), run[|run| - 1]);
      StepCalls(After(s, before), run[|run| - 1]);
    }
  }

  // ----- what a disciplined run guarantees

  /** A reply that a call is about to return is the answer to that very call, from the task that was called. */
  lemma CallsGetTheirOwnReply(services: nat, run: seq<Action>, p: nat)
    requires services + 2 <= MAX_TASKS && DisciplinedRun(Boot(services), run)
    ensures var s := After(Boot(services), run);
            Live(s, p) && TaskOf(s, p).replyPending ==>
              var t := TaskOf(s, p);
              && t.point.InCall? && t.replySlot.sender == t.point.server && t.replySlot.call == t.callId
              && t.replySlot.birth == t.birth && t.replySlot.correlation == t.callCorrelation == t.calls
  {
    hide After, Boot, Safe;
    BootSafe(services);
    BootCalls(services);
    RunCalls(Boot(services), run);
    assert CallsOkAt(After(Boot(services), run), p);
  }

  /** A server that answers a request it received always reaches the caller, which then is ready or running. */
  lemma AnswersAreAccepted(services: nat, run: seq<Action>, req: Request, m: Message)
    requires services + 2 <= MAX_TASKS && DisciplinedRun(Boot(services), run)
    requires var s := After(Boot(services), run); Live(s, s.current) && Enabled(s, Answer(req, m))
    ensures var s := After(Boot(services), run);
            var s' := Step(s, Answer(req, m));
            && SendFrom(s, req.caller, AnswerTo(s.current, req, m)).1 == Ok
            && Live(s', req.caller) && TaskOf(s', req.caller).replyPending
            && TaskOf(s', req.caller).replySlot == Message(s.current, req.birth, req.call, req.correlation, true, m.ool, m.body)
            && !(TaskOf(s', req.caller).state == Waiting && TaskOf(s', req.caller).waitReason == Reply)
  {
    var s := After(Boot(services), run);
    BootSafe(services);
    BootCalls(services);
    RunCalls(Boot(services), run);
    hide After, Boot;
    AnswerReaches(s, req, m);
  }

  lemma AnswerReaches(s: State, req: Request, m: Message)
    requires Safe(s) && CallsOk(s) && Enabled(s, Answer(req, m))
    ensures var s' := ReplyTo(s, req, m);
            && SendFrom(s, req.caller, AnswerTo(s.current, req, m)).1 == Ok
            && Live(s', req.caller) && TaskOf(s', req.caller).replyPending
            && TaskOf(s', req.caller).replySlot == Message(s.current, req.birth, req.call, req.correlation, true, m.ool, m.body)
            && !(TaskOf(s', req.caller).state == Waiting && TaskOf(s', req.caller).waitReason == Reply)
  {
    AnswerCalls(s, req, m);
    assert CallsOkAt(s, s.current) && Outstanding(s, s.current, req);
  }
}
