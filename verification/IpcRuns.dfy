/** What whole runs guarantee: how long a queued task waits, and that a task is deleted once, when nobody runs it. */
module IpcRuns {
  import opened IpcModel
  import opened IpcScheduler

  // ----- steps that do not switch

  /** The same tasks are alive, nothing was created or deleted. */
  ghost predicate SameTasks(s: State, s': State)
  {
    && |s'.tasks| == |s.tasks| && s'.births == s.births && s'.reap == s.reap && s'.deleted == s.deleted
    && forall p :: 0 <= p < |s.tasks| ==>
         s'.tasks[p].Some? == s.tasks[p].Some? && (s.tasks[p].Some? ==> s'.tasks[p].value.birth == s.tasks[p].value.birth)
  }

  /** No switch either; the queue may have grown at its end. */
  ghost predicate Quiet(s: State, s': State)
  {
    SameTasks(s, s') && s.queue <= s'.queue && s'.current == s.current
  }

  lemma QuietPut(s: State, p: nat, t: Task)
    requires Live(s, p) && t.birth == TaskOf(s, p).birth
    ensures Quiet(s, Put(s, p, t))
  {
  }

  lemma QuietPutSchedule(s: State, p: nat, t: Task)
    requires Live(s, p) && t.birth == TaskOf(s, p).birth
    ensures Quiet(s, Put(s, p, t)) && Quiet(s, ScheduleTask(Put(s, p, t), p))
  {
  }

  lemma QuietSend(s: State, dst: int, m: Message)
    ensures Quiet(s, SendMessage(s, dst, m).0)
  {
    hide ScheduleTask, Put;
    if Live(s, dst) {
      var t := TaskOf(s, dst);
      QuietPutSchedule(s, dst, t.(replySlot := m, replyPending := true));
      QuietPutSchedule(s, dst, t.(ring := t.ring + [m]));
    }
  }

  lemma QuietSendFrom(s: State, dst: int, m: Message)
    requires Live(s, s.current)
    ensures Quiet(s, SendFrom(s, dst, m).0)
  {
    hide SendMessage, Put;
    var t := LetGo(TaskOf(s, s.current), m.ool);
    QuietPut(s, s.current, t);
    QuietSend(Put(s, s.current, t), dst, m);
  }

  lemma QuietSendCall(s: State)
    requires Live(s, s.current) && TaskOf(s, s.current).point.Calling?
    ensures Quiet(s, SendCall(s))
  {
    hide SendMessage;
    var t := TaskOf(s, s.current);
    QuietSend(s, t.point.dst, t.point.request);
    QuietPut(s, s.current, Hold(t, t.point.request.ool).(callCorrelation := 0, point := Free));
  }

  lemma QuietReplyTo(s: State, req: Request, m: Message)
    requires Live(s, s.current)
    ensures Quiet(s, ReplyTo(s, req, m))
  {
    hide SendFrom;
    QuietSendFrom(s, req.caller, AnswerTo(s.current, req, m));
  }

  lemma QuietRecord(s: State, parent: nat, child: nat, status: int)
    requires Live(s, parent)
    ensures Quiet(s, RecordChildExit(s, parent, child, status))
  {
    hide ScheduleTask, Put;
    var t := TaskOf(s, parent);
    QuietPutSchedule(s, parent, t.(exitRecords := t.exitRecords + [ExitRecord(child, status)]));
  }

  lemma QuietExit(s: State, status: int)
    requires Live(s, s.current)
    ensures Quiet(s, PrepareExit(s, status)) && Live(PrepareExit(s, status), s.current)
  {
    hide RecordChildExit;
    var s1 := ReleaseAll(s);
    assert Quiet(s, s1);
    var parent := TaskOf(s, s.current).parent;
    if parent.Some? && Live(s1, parent.value) {
      QuietRecord(s1, parent.value, s.current, status);
    }
  }

  lemma QuietNotify(s: State, dst: int, bit: nat)
    ensures Quiet(s, NotifyTask(s, dst, bit))
  {
    hide ScheduleTask, Put;
    if Live(s, dst) {
      var t := TaskOf(s, dst);
      QuietPutSchedule(s, dst, t.(pending := t.pending + {bit}));
    }
  }

  lemma QuietStep(s: State, a: Action)
    requires Live(s, s.current) && Enabled(s, a) && !IsSwitch(s, a) && !a.Fork?
    ensures Quiet(s, Step(s, a))
  {
    hide SendFrom, SendCall, ReplyTo, NotifyTask, Lowest, Kaddrs, Attached, RegionIndex, ScheduleTask,
      StartCall, PollReply, PollReceive, PollNotify, PollChild, DeliverOol, ReleaseOol, ReleaseRegions, SwitchTask, PrepareExit;
    match a {
      case Doorbell(to, bit) => QuietNotify(s, to, bit);
      case Send(dst, m) => QuietSendFrom(s, dst, OneWay(m));
      case AnswerAgain(req, m) => QuietSendFrom(s, req.caller, AnswerTo(s.current, req, m));
      case UnaskedReply(dst, m) => QuietSendFrom(s, dst, Unasked(s.current, m));
      case Answer(req, m) => QuietReplyTo(s, req, m);
      case SendRequest => QuietSendCall(s);
      case Wake(child) => QuietWake(s, child);
      case _ => QuietOwnStep(s, a);
    }
  }

  lemma QuietWake(s: State, child: nat)
    ensures Quiet(s, ScheduleTask(s, child))
  {
  }

  predicate IsOwnSection(a: Action)
  {
    a.Call? || a.AwaitReply? || a.ReceiveMessage? || a.WaitNotification? || a.WaitChild?
  }

  /** What a section of a blocking call makes of the current task. */
  function OwnSectionOf(t: Task, self: nat, id: nat, a: Action): Task
  {
    match a
    case Call(dst, m) => StartCall(t, self, dst, m, id)
    case AwaitReply => PollReply(t)
    case ReceiveMessage => PollReceive(t)
    case WaitNotification(mask) => PollNotify(t, mask)
    case WaitChild => PollChild(t)
    case _ => t
  }

  lemma OwnSectionStep(s: State, a: Action)
    requires Live(s, s.current) && Enabled(s, a) && IsOwnSection(a)
    ensures Step(s, a) == Put(s, s.current, OwnSectionOf(TaskOf(s, s.current), s.current, s.callIds, a)).(callIds := Step(s, a).callIds)
  {
    hide StartCall, PollReply, PollReceive, PollNotify, PollChild, SwitchTask, PrepareExit, SendFrom, SendCall,
      ReplyTo, NotifyTask,
      CreateTask, ScheduleTask, DeliverOol, ReleaseOol, ReleaseRegions, Put;
  }

  lemma OwnSectionKeeps(t: Task, self: nat, id: nat, a: Action)
    requires IsOwnSection(a)
    ensures var t' := OwnSectionOf(t, self, id, a);
            && t'.birth == t.birth && t'.calls >= t.calls && (!a.ReceiveMessage? ==> t'.ring == t.ring)
            && (t'.calls == t.calls && (t.replyPending || t.callCorrelation == 0) ==> t'.replyPending || t'.callCorrelation == 0)
  {
    hide Lowest, Awaiting;
  }

  /** Steps that change the current task only. */
  lemma QuietOwnStep(s: State, a: Action)
    requires Live(s, s.current) && Enabled(s, a) && (IsBufferStep(a) || IsOwnSection(a))
    ensures Quiet(s, Step(s, a))
  {
    hide OwnSectionOf, Step, Enabled;
    if IsOwnSection(a) {
      OwnSectionStep(s, a);
      OwnSectionKeeps(TaskOf(s, s.current), s.current, s.callIds, a);
      QuietPut(s, s.current, OwnSectionOf(TaskOf(s, s.current), s.current, s.callIds, a));
    } else {
      QuietBufferStep(s, a);
    }
  }

  lemma QuietBufferStep(s: State, a: Action)
    requires Live(s, s.current) && Enabled(s, a) && IsBufferStep(a)
    ensures Quiet(s, Step(s, a))
    ensures forall p :: 0 <= p < |s.tasks| && s.tasks[p].Some? ==> Step(s, a).tasks[p].value.ring == s.tasks[p].value.ring
    ensures forall p :: 0 <= p < |s.tasks| && s.tasks[p].Some? ==>
              var t, t' := s.tasks[p].value, Step(s, a).tasks[p].value;
              t'.calls == t.calls && t'.replyPending == t.replyPending && t'.callCorrelation == t.callCorrelation
  {
    hide Step, Enabled;
    var t := BufferStepIs(s, a);
  }

  /** Moving buffers changes the hands and the regions of the current task, and which buffers are alive. */
  lemma BufferStepIs(s: State, a: Action) returns (t: Task)
    requires Live(s, s.current) && Enabled(s, a) && IsBufferStep(a)
    ensures Step(s, a) == Put(s, s.current, t).(payloads := Step(s, a).payloads)
    ensures t == TaskOf(s, s.current).(hand := t.hand, regions := t.regions)
  {
    hide Kaddrs, RegionIndex, StartCall, PollReply, PollReceive, PollNotify, PollChild, SwitchTask, PrepareExit,
      SendFrom, SendCall,
      ReplyTo, NotifyTask, CreateTask, ScheduleTask;
    t := TaskOf(s, s.current);
    match a {
      case AllocPayload(ool) => t := Hold(t, ool);
      case FreePayload(ool) => t := LetGo(t, ool);
      case Deliver(ool, aligned, mapped, uaddr) => t := TaskOf(DeliverOol(s, ool, aligned, mapped, uaddr), s.current);
      case Release(uaddr) =>
        t := TaskOf(ReleaseOol(s, uaddr), s.current);
        assert s.tasks[s.current := Some(TaskOf(s, s.current))] == s.tasks;
      case Exec => t := t.(regions := NoRegions());
    }
  }

  // ----- bounded waiting

  predicate IsSwitch(s: State, a: Action)
  {
    Live(s, s.current) && Enabled(s, a) && (a.Preempt? || a.Yield? || a.Exit?)
  }

  function Switches(s: State, run: seq<Action>): nat
  {
    if run == [] then 0
    else Switches(s, run[..|run| - 1]) + if IsSwitch(After(s, run[..|run| - 1]), run[|run| - 1]) then 1 else 0
  }

  lemma SwitchTakesFirst(s: State)
    requires SafeBut(s, s.current) && Live(s, s.current) && MayLeave(TaskOf(s, s.current), s.current, s.current in s.queue)
    ensures s.queue != [] ==> s.queue[1..] <= SwitchTask(s).queue && SwitchTask(s).current == s.queue[0]
  {
    hide Parked, Placed;
    LeaveParks(s);
  }

  lemma YieldMayLeave(s: State)
    requires Safe(s)
    ensures var t := TaskOf(s, s.current);
            && SafeBut(s, s.current) && MayLeave(t, s.current, s.current in s.queue)
            && SafeBut(Put(s, s.current, t.(mustSwitch := false)), s.current) && MayLeave(t.(mustSwitch := false), s.current, s.current in s.queue)
  {
    SafeAt(s, s.current);
    PutSafe(s, s.current, TaskOf(s, s.current).(mustSwitch := false));
  }

  /** A switch takes the first of the queue; whatever else happens only adds to its end. */
  lemma QueueMoves(s: State, a: Action)
    requires Safe(s)
    ensures !IsSwitch(s, a) ==> s.queue <= Step(s, a).queue && Step(s, a).current == s.current
    ensures IsSwitch(s, a) && s.queue != [] ==> s.queue[1..] <= Step(s, a).queue && Step(s, a).current == s.queue[0]
  {
    hide PrepareExit, Placed, SafeBut, MayLeave, InPlace;
    if IsSwitch(s, a) {
      if a.Exit? {
        QuietExit(s, a.status);
        ExitSafe(s, a.status);
        SwitchTakesFirst(PrepareExit(s, a.status));
      } else {
        SafeAt(s, s.current);
        var y := if a.Yield? then Put(s, s.current, TaskOf(s, s.current).(mustSwitch := false)) else s;
        YieldMayLeave(s);
        SwitchTakesFirst(y);
      }
    } else if Live(s, s.current) && Enabled(s, a) && !a.Fork? {
      QuietStep(s, a);
    }
  }

  /** The task at position k runs at the (k + 1)-th switch from now, whatever happens in between. */
  lemma {:induction false} WaitingIsBounded(s: State, run: seq<Action>, k: nat)
    requires Safe(s) && k < |s.queue|
    ensures var s', n := After(s, run), Switches(s, run);
            && (n <= k ==> k - n < |s'.queue| && s'.queue[k - n] == s.queue[k])
            && (n == k + 1 && run != [] && Switches(s, run[..|run| - 1]) == k ==> s'.current == s.queue[k])
  {
    hide Step, IsSwitch, Safe;
    if run != [] {
      var before, a := run[..|run| - 1], run[|run| - 1];
      WaitingIsBounded(s, before, k);
      EveryRunIsSafe(s, before);
      QueueMoves(After(s, before), a);
    }
  }

  // ----- deleting tasks

  /** Every incarnation is in exactly one place: alive, waiting to be deleted, or deleted. */
  ghost predicate Incarnations(s: State)
  {
    && (forall p :: 0 <= p < |s.tasks| && s.tasks[p].Some? ==> s.tasks[p].value.birth < s.births && s.tasks[p].value.birth !in s.deleted)
    && (forall p, q :: 0 <= p < q < |s.tasks| && s.tasks[p].Some? && s.tasks[q].Some? ==> s.tasks[p].value.birth != s.tasks[q].value.birth)
    && (s.reap.Some? ==> s.reap.value < s.births && s.reap.value !in s.deleted && !Alive(s, s.reap.value))
    && (forall b :: b in s.deleted ==> b < s.births)
  }

  ghost predicate Alive(s: State, birth: nat)
  {
    exists p :: 0 <= p < |s.tasks| && s.tasks[p].Some? && s.tasks[p].value.birth == birth
  }

  lemma SameTasksIncarnations(s: State, s': State)
    requires Incarnations(s) && SameTasks(s, s')
    ensures Incarnations(s')
  {
  }

  lemma LeaveIncarnations(s: State)
    requires Incarnations(s) && Live(s, s.current) && s.reap.None?
    ensures Incarnations(Leave(s))
  {
  }

  lemma PickSameTasks(s: State)
    ensures SameTasks(s, PickNextTask(s))
  {
  }

  lemma SwitchIncarnations(s: State)
    requires Incarnations(s) && Live(s, s.current)
    ensures Incarnations(SwitchTask(s))
  {
    hide Leave, PickNextTask;
    var r := ReapPendingTask(s);
    assert r.tasks == s.tasks;
    assert Incarnations(r);
    LeaveIncarnations(r);
    PickSameTasks(Leave(r));
    SameTasksIncarnations(Leave(r), PickNextTask(Leave(r)));
  }

  lemma StepIncarnations(s: State, a: Action)
    requires Incarnations(s)
    ensures Incarnations(Step(s, a))
  {
    hide SwitchTask, PrepareExit, Incarnations;
    if !Live(s, s.current) || !Enabled(s, a) {
      return;
    }
    match a {
      case Preempt => SwitchIncarnations(s);
      case Yield =>
        var y := Put(s, s.current, TaskOf(s, s.current).(mustSwitch := false));
        SameTasksIncarnations(s, y);
        SwitchIncarnations(y);
      case Exit(status) =>
        QuietExit(s, status);
        SameTasksIncarnations(s, PrepareExit(s, status));
        SwitchIncarnations(PrepareExit(s, status));
      case Fork => CreateIncarnations(s, Some(s.current));
      case _ =>
        QuietStep(s, a);
        SameTasksIncarnations(s, Step(s, a));
    }
  }

  lemma CreateIncarnations(s: State, parent: Option<nat>)
    requires Incarnations(s)
    ensures Incarnations(CreateTask(s, parent))
  {
  }

  lemma BootIncarnations(services: nat)
    requires services + 2 <= MAX_TASKS
    ensures Incarnations(Boot(services))
  {
  }

  lemma {:induction false} RunIncarnations(s: State, run: seq<Action>)
    requires Incarnations(s)
    ensures Incarnations(After(s, run))
  {
    if run != [] {
      RunIncarnations(s, run[..|run| - 1]);
      StepIncarnations(After(s, run[..|run| - 1]), run[|run| - 1]);
    }
  }

  /** A switch deletes exactly the task that exited at an earlier one, if any: it was never deleted before, and it is
      neither the current task nor any other task alive, before and after. No other step deletes anything. */
  lemma DeletedOnce(services: nat, run: seq<Action>, a: Action)
    requires services + 2 <= MAX_TASKS
    ensures var s := After(Boot(services), run);
            if IsSwitch(s, a) && s.reap.Some? then
              && s.reap.value !in s.deleted && !Alive(s, s.reap.value)
              && Step(s, a).deleted == s.deleted + {s.reap.value} && !Alive(Step(s, a), s.reap.value)
            else Step(s, a).deleted == s.deleted
  {
    BootIncarnations(services);
    RunIncarnations(Boot(services), run);
    var s := After(Boot(services), run);
    StepIncarnations(s, a);
    StepDeletes(s, a);
  }

  lemma StepDeletes(s: State, a: Action)
    ensures Step(s, a).deleted == s.deleted + if IsSwitch(s, a) && s.reap.Some? then {s.reap.value} else {}
  {
    hide PrepareExit, SwitchTask, SendFrom, SendCall, ReplyTo, NotifyTask, ScheduleTask, StartCall, PollReply, PollReceive,
      PollNotify, PollChild, DeliverOol, ReleaseOol, ReleaseRegions;
    if Live(s, s.current) && Enabled(s, a) {
      if a.Exit? {
        QuietExit(s, a.status);
        SwitchDeletes(PrepareExit(s, a.status));
      } else if IsSwitch(s, a) {
        SwitchDeletes(s);
        SwitchDeletes(Put(s, s.current, TaskOf(s, s.current).(mustSwitch := false)));
      } else if !a.Fork? {
        QuietStep(s, a);
      }
    }
  }

  lemma SwitchDeletes(s: State)
    requires Live(s, s.current)
    ensures SwitchTask(s).deleted == s.deleted + if s.reap.Some? then {s.reap.value} else {}
  {
  }
}
