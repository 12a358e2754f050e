/** Where every request comes from, in any run in which no task makes 2^32 calls: servers may answer requests any number
    of times, reply unasked and send one-way messages that look like requests. */
module IpcTracing {
  import opened Common
  import opened IpcModel
  import opened IpcScheduler
  import opened IpcCalls
  import opened IpcRuns

  predicate NoWrap(s: State, a: Action)
  {
    a.Call? && Live(s, s.current) ==> TaskOf(s, s.current).calls + 1 < U32
  }

  ghost predicate NoWrapRun(s: State, run: seq<Action>)
  {
    run != [] ==> NoWrapRun(s, run[..|run| - 1]) && NoWrap(After(s, run[..|run| - 1]), run[|run| - 1])
  }

  /** A task numbers its calls, and one at most is outstanding: the latest. */
  predicate Caller(t: Task, p: nat, births: nat, callIds: nat)
  {
    && 0 < t.birth < births && t.callId < callIds && (t.calls == 0 <==> t.callId == 0)
    && t.calls < U32 && t.nextCorrelation == t.calls
    && (t.point.Calling? || t.point.InCall? <==> t.callCorrelation != 0)
    && (t.callCorrelation != 0 ==> t.callCorrelation == t.calls)
    && (t.point.Calling? ==> RequestOf(t.point.request) == Request(p, t.birth, t.callId, t.calls) && !t.point.request.isReply && t.point.dst != p)
  }

  /** What a request r that task q has says about the task t in its caller's slot: the request is that of the latest call
      of t exactly when t is the incarnation that made it and the number of calls is still the same, and then t waits for
      q if it waits for anybody. */
  predicate LinkedTo(t: Task, q: nat, r: Request)
  {
    && (t.callId == r.call <==> t.birth == r.birth && t.calls == r.correlation)
    && (t.birth == r.birth ==> r.correlation <= t.calls)
    && (t.callId == r.call ==> !t.point.Calling? && (t.point.InCall? ==> t.point.server == q))
  }

  /** A request comes from a call, or it is a one-way message and has no labels. */
  predicate Linked(s: State, q: nat, r: Request)
  {
    && r.correlation != 0
    && if r.call == 0 then r.birth == 0
       else r.call < s.callIds && 0 < r.birth < s.births && (Live(s, r.caller) ==> LinkedTo(TaskOf(s, r.caller), q, r))
  }

  ghost predicate AllLinked(s: State, q: nat, t: Task)
  {
    && (forall r :: r in t.held ==> r in t.seen)
    && (forall r :: r in t.seen ==> Linked(s, q, r))
    && (forall i :: 0 <= i < |t.ring| && t.ring[i].correlation != 0 ==> Linked(s, q, RequestOf(t.ring[i])))
  }

  ghost predicate TracedAt(s: State, q: nat)
  {
    Live(s, q) ==> Caller(TaskOf(s, q), q, s.births, s.callIds) && AllLinked(s, q, TaskOf(s, q))
  }

  ghost predicate Traced(s: State)
  {
    s.births > 0 && s.callIds > 0 && forall q: nat :: TracedAt(s, q)
  }

  // ----- changing one task

  /** How the calls of an incarnation go on: the same call, or a new one with a number never used before. */
  predicate Forward(t: Task, t': Task, callIds: nat)
  {
    && t'.birth == t.birth
    && if t'.calls == t.calls then
         && t'.callId == t.callId && (t'.point.Calling? ==> t.point.Calling?)
         && (t'.point.InCall? ==> t.point.Calling? || t'.point == t.point)
       else t'.calls > t.calls && t'.callId >= callIds
  }

  lemma LinkedForward(s: State, p: nat, t: Task, callIds: nat, q: nat, r: Request)
    requires Live(s, p) && Forward(TaskOf(s, p), t, s.callIds) && callIds >= s.callIds && Linked(s, q, r)
    ensures Linked(Put(s, p, t).(callIds := callIds), q, r)
  {
  }

  lemma PutTraced(s: State, p: nat, t: Task, s': State)
    requires Traced(s) && Live(s, p) && Forward(TaskOf(s, p), t, s.callIds)
    requires s'.tasks == Put(s, p, t).tasks && s'.births == s.births && s'.callIds >= s.callIds
    requires Caller(t, p, s.births, s'.callIds) && AllLinked(s, p, t)
    ensures Traced(s')
  {
    var w := Put(s, p, t).(callIds := s'.callIds);
    forall q: nat, r: Request | Linked(s, q, r)
      ensures Linked(s', q, r)
    {
      LinkedForward(s, p, t, s'.callIds, q, r);
      assert Linked(w, q, r);
    }
    forall q: nat
      ensures TracedAt(s', q)
    {
      assert TracedAt(s, q);
    }
  }

  /** As far as calls and requests go, t' is t. */
  predicate SameTrace(t: Task, t': Task)
  {
    && t'.birth == t.birth && t'.calls == t.calls && t'.callId == t.callId && t'.point == t.point
    && t'.nextCorrelation == t.nextCorrelation && t'.callCorrelation == t.callCorrelation
    && t'.ring == t.ring && t'.held <= t.held && t'.seen == t.seen
  }

  lemma PutSameTrace(s: State, p: nat, t: Task, s': State)
    requires Traced(s) && Live(s, p) && SameTrace(TaskOf(s, p), t)
    requires s'.tasks == Put(s, p, t).tasks && s'.births == s.births && s'.callIds == s.callIds
    ensures Traced(s')
  {
    assert TracedAt(s, p);
    PutTraced(s, p, t, s');
  }

  lemma SameTasksTraced(s: State, s': State)
    requires Traced(s) && s'.tasks == s.tasks && s'.births == s.births && s'.callIds == s.callIds
    ensures Traced(s')
  {
    forall q: nat
      ensures TracedAt(s', q)
    {
      assert TracedAt(s, q);
      forall r: Request | Linked(s, q, r)
        ensures Linked(s', q, r)
      {
      }
    }
  }

  lemma ScheduleTraced(s: State, p: int)
    requires Traced(s)
    ensures Traced(ScheduleTask(s, p))
  {
    if Live(s, p) {
      PutSameTrace(s, p, TaskOf(s, p).(state := Ready), ScheduleTask(s, p));
    }
  }

  lemma RemoveTraced(s: State, s': State)
    requires Traced(s) && s'.births == s.births && s'.callIds == s.callIds
    requires Live(s, s.current) && s'.tasks == s.tasks[s.current := None]
    ensures Traced(s')
  {
    forall q: nat
      ensures TracedAt(s', q)
    {
      assert TracedAt(s, q);
      forall r: Request | Linked(s, q, r)
        ensures Linked(s', q, r)
      {
      }
    }
  }

  /** A new incarnation has made none of the calls that requests came from. */
  lemma CreateTraced(s: State, parent: Option<nat>)
    requires Traced(s)
    ensures Traced(CreateTask(s, parent))
  {
    var s' := CreateTask(s, parent);
    forall q: nat
      ensures TracedAt(s', q)
    {
      assert TracedAt(s, q);
      forall r: Request | Linked(s, q, r)
        ensures Linked(s', q, r)
      {
      }
    }
  }

  // ----- deliveries

  lemma SendTraced(s: State, dst: int, m: Message)
    requires Traced(s) && (!m.isReply && m.correlation != 0 && dst >= 0 ==> Linked(s, dst, RequestOf(m)))
    ensures Traced(SendMessage(s, dst, m).0)
  {
    hide ScheduleTask, Traced;
    if dst >= 0 && Live(s, dst) {
      var t := TaskOf(s, dst);
      if m.isReply {
        var w := Put(s, dst, t.(replySlot := m, replyPending := true));
        PutSameTrace(s, dst, TaskOf(w, dst), w);
        ScheduleTraced(w, dst);
      } else {
        var w := Put(s, dst, t.(ring := t.ring + [m]));
        QueueTraced(s, dst, m);
        ScheduleTraced(w, dst);
      }
    }
  }

  lemma QueueTraced(s: State, p: nat, m: Message)
    requires Traced(s) && Live(s, p) && (m.correlation != 0 ==> Linked(s, p, RequestOf(m)))
    ensures Traced(Put(s, p, TaskOf(s, p).(ring := TaskOf(s, p).ring + [m])))
  {
    var t := TaskOf(s, p);
    assert TracedAt(s, p);
    PutTraced(s, p, t.(ring := t.ring + [m]), Put(s, p, t.(ring := t.ring + [m])));
  }

  lemma SendFromTraced(s: State, dst: int, m: Message)
    requires Traced(s) && Live(s, s.current) && (m.isReply || (m.call == 0 && m.birth == 0))
    ensures Traced(SendFrom(s, dst, m).0)
  {
    hide SendMessage, Traced;
    var w := Put(s, s.current, LetGo(TaskOf(s, s.current), m.ool));
    PutSameTrace(s, s.current, TaskOf(w, s.current), w);
    SendTraced(w, dst, m);
  }

  lemma ReplyTraced(s: State, req: Request, m: Message)
    requires Traced(s) && Live(s, s.current)
    ensures Traced(ReplyTo(s, req, m))
  {
    hide SendFrom, Traced;
    SendFromTraced(s, req.caller, AnswerTo(s.current, req, m));
    var r := SendFrom(s, req.caller, AnswerTo(s.current, req, m)).0;
    if Live(r, s.current) {
      var t := TaskOf(r, s.current);
      PutSameTrace(r, s.current, t.(held := t.held - {req}), Put(r, s.current, t.(held := t.held - {req})));
    }
  }

  /** The caller waits before its request is in the server's ring; the two happen in one section. */
  lemma SendCallTraced(s: State)
    requires Traced(s) && Live(s, s.current) && TaskOf(s, s.current).point.Calling?
    ensures Traced(SendCall(s))
  {
    var p := s.current;
    var t := TaskOf(s, p);
    var dst, m := t.point.dst, t.point.request;
    assert TracedAt(s, p);
    var failed := Hold(t, m.ool).(callCorrelation := 0, point := Free);
    PutTraced(s, p, failed, Put(s, p, failed));
    if dst >= 0 && SendMessage(s, dst, m).1 == Ok {
      var t' := t.(point := InCall(dst));
      var w := Put(s, p, t');
      PutTraced(s, p, t', w);
      SendTraced(w, dst, m);
      SendElsewhere(s, dst, m, p, t');
    }
  }

  // ----- the sections of the current task

  lemma ReceiveTraced(s: State)
    requires Traced(s) && Live(s, s.current) && (TaskOf(s, s.current).point.Free? || TaskOf(s, s.current).point.InReceive?)
    ensures Traced(Put(s, s.current, PollReceive(TaskOf(s, s.current))))
  {
    hide Lowest;
    var t := TaskOf(s, s.current);
    assert TracedAt(s, s.current);
    var t' := PollReceive(t);
    assert AllLinked(s, s.current, t') by { ReceiveLinked(s, t); }
    PutTraced(s, s.current, t', Put(s, s.current, t'));
  }

  lemma ReceiveLinked(s: State, t: Task)
    requires AllLinked(s, s.current, t)
    ensures AllLinked(s, s.current, PollReceive(t))
  {
    hide Lowest, Linked;
    var t' := PollReceive(t);
    if t.pending == {} && t.ring != [] {
      assert forall i :: 0 <= i < |t'.ring| ==> t'.ring[i] == t.ring[i + 1];
      assert t.ring[0].correlation != 0 ==> Linked(s, s.current, RequestOf(t.ring[0]));
    }
  }

  lemma OwnStepTraced(s: State, a: Action)
    requires Traced(s) && NoWrap(s, a) && Live(s, s.current) && Enabled(s, a)
    requires a.Call? || a.AwaitReply? || a.WaitNotification? || a.WaitChild?
    ensures Traced(Step(s, a))
  {
    var t := TaskOf(s, s.current);
    assert TracedAt(s, s.current);
    hide Traced, AllLinked;
    match a {
      case Call(dst, m) => StartTraced(s, dst, m, Step(s, a));
      case AwaitReply => OwnTraced(s, PollReply(t));
      case WaitNotification(mask) => OwnTraced(s, PollNotify(t, mask));
      case WaitChild => OwnTraced(s, PollChild(t));
    }
  }

  lemma StartTraced(s: State, dst: int, m: Message, s': State)
    requires Traced(s) && Live(s, s.current) && TaskOf(s, s.current).point.Free? && TaskOf(s, s.current).calls + 1 < U32
    requires s' == Put(s, s.current, StartCall(TaskOf(s, s.current), s.current, dst, m, s.callIds)).(callIds := s.callIds + 1)
    ensures Traced(s')
  {
    assert TracedAt(s, s.current);
    PutTraced(s, s.current, StartCall(TaskOf(s, s.current), s.current, dst, m, s.callIds), s');
  }

  /** A section of the current task that ends its call or starts none. */
  lemma OwnTraced(s: State, t: Task)
    requires Traced(s) && Live(s, s.current) && Forward(TaskOf(s, s.current), t, s.callIds)
    requires Caller(t, s.current, s.births, s.callIds)
    requires t.ring == TaskOf(s, s.current).ring && t.held == TaskOf(s, s.current).held && t.seen == TaskOf(s, s.current).seen
    ensures Traced(Put(s, s.current, t))
  {
    assert TracedAt(s, s.current);
    PutTraced(s, s.current, t, Put(s, s.current, t));
  }

  lemma SwitchTraced(s: State)
    requires Traced(s) && Live(s, s.current)
    ensures Traced(SwitchTask(s))
  {
    hide Traced;
    var r := ReapPendingTask(s);
    SameTasksTraced(s, r);
    var l := Leave(r);
    if TaskOf(s, s.current).state == Exited {
      RemoveTraced(r, l);
    } else {
      ScheduleTraced(r, s.current);
    }
    if l.queue != [] && Live(l, l.queue[0]) {
      PutSameTrace(l, l.queue[0], TaskOf(l, l.queue[0]).(state := Running), SwitchTask(s));
    } else {
      SameTasksTraced(l, SwitchTask(s));
    }
  }

  lemma ExitTraced(s: State, status: int)
    requires Traced(s) && Live(s, s.current)
    ensures Traced(PrepareExit(s, status))
  {
    hide Traced;
    var s1 := ReleaseAll(s);
    ReleaseAllTraced(s);
    var parent := TaskOf(s, s.current).parent;
    var s2 := if parent.Some? && Live(s1, parent.value) then RecordChildExit(s1, parent.value, s.current, status) else s1;
    if parent.Some? && Live(s1, parent.value) {
      RecordTraced(s1, parent.value, s.current, status);
    }
    PutSameTrace(s2, s.current, TaskOf(s2, s.current).(state := Exited), PrepareExit(s, status));
  }

  lemma ReleaseAllTraced(s: State)
    requires Traced(s) && Live(s, s.current)
    ensures Traced(ReleaseAll(s))
  {
    var t := TaskOf(s, s.current);
    assert TracedAt(s, s.current);
    PutTraced(s, s.current, t.(regions := NoRegions(), ring := [], pending := {}, replyPending := false), ReleaseAll(s));
  }

  lemma RecordTraced(s: State, parent: nat, child: nat, status: int)
    requires Traced(s) && Live(s, parent)
    ensures Traced(RecordChildExit(s, parent, child, status))
  {
    hide Traced;
    var t := TaskOf(s, parent);
    var w := Put(s, parent, t.(exitRecords := t.exitRecords + [ExitRecord(child, status)]));
    PutSameTrace(s, parent, TaskOf(w, parent), w);
    ScheduleTraced(w, parent);
  }

  lemma NotifyTraced(s: State, dst: int, bit: nat)
    requires Traced(s)
    ensures Traced(NotifyTask(s, dst, bit))
  {
    hide Traced;
    if Live(s, dst) {
      var w := Put(s, dst, TaskOf(s, dst).(pending := TaskOf(s, dst).pending + {bit}));
      PutSameTrace(s, dst, TaskOf(w, dst), w);
      ScheduleTraced(w, dst);
    }
  }

  lemma BufferStepTraced(s: State, a: Action)
    requires Traced(s) && Live(s, s.current) && Enabled(s, a) && IsBufferStep(a)
    ensures Traced(Step(s, a))
  {
    hide Traced, Step, Enabled;
    var t := BufferStepIs(s, a);
    PutSameTrace(s, s.current, t, Step(s, a));
  }

  /** Every step keeps track of where requests come from. */
  lemma StepTraced(s: State, a: Action)
    requires Traced(s) && NoWrap(s, a)
    ensures Traced(Step(s, a))
  {
    hide Traced, SwitchTask, PrepareExit, SendFrom, SendCall, ReplyTo, NotifyTask, CreateTask, ScheduleTask, PollReceive,
      StartCall, PollReply, PollNotify, PollChild, DeliverOol, ReleaseOol, ReleaseRegions;
    if !Live(s, s.current) || !Enabled(s, a) {
      return;
    }
    var t := TaskOf(s, s.current);
    match a {
      case Preempt => SwitchTraced(s);
      case Yield =>
        PutSameTrace(s, s.current, t.(mustSwitch := false), Put(s, s.current, t.(mustSwitch := false)));
        SwitchTraced(Put(s, s.current, t.(mustSwitch := false)));
      case Exit(status) =>
        ExitTraced(s, status);
        QuietExit(s, status);
        SwitchTraced(PrepareExit(s, status));
      case Doorbell(to, bit) => NotifyTraced(s, to, bit);
      case Send(dst, m) => SendFromTraced(s, dst, OneWay(m));
      case AnswerAgain(req, m) => SendFromTraced(s, req.caller, AnswerTo(s.current, req, m));
      case UnaskedReply(dst, m) => SendFromTraced(s, dst, Unasked(s.current, m));
      case SendRequest => SendCallTraced(s);
      case Answer(req, m) => ReplyTraced(s, req, m);
      case ReceiveMessage => ReceiveTraced(s);
      case Fork => CreateTraced(s, Some(s.current));
      case Wake(child) => ScheduleTraced(s, child);
      case _ =>
        if IsBufferStep(a) {
          BufferStepTraced(s, a);
        } else {
          OwnStepTraced(s, a);
        }
    }
  }

  lemma BootTraced(services: nat)
    requires services + 2 <= MAX_TASKS
    ensures Traced(Boot(services))
  {
  }

  lemma {:induction false} RunTraced(s: State, run: seq<Action>)
    requires Traced(s) && NoWrapRun(s, run)
    ensures Traced(After(s, run))
  {
    hide Traced, Step, NoWrap;
    if run != [] {
      RunTraced(s, run[..|run| - 1]);
      StepTraced(After(s, run[..|run| - 1]), run[|run| - 1]);
    }
  }
}
