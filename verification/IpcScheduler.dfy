/** What every run keeps about the run queue and about sleeping tasks. */
module IpcScheduler {
  import opened Common
  import opened IpcModel

  /** A sleeping task is marked with what its code waits for: the loop it is in, or nothing for a new task. */
  predicate MarkedRight(t: Task)
  {
    match t.point
    case Free => t.waitReason == NoReason
    case InReceive => t.waitReason == Receive
    case InWait(mask) => t.waitReason == Notify && t.waitMask == mask
    case Calling(_, _) => false
    case InCall(_) => t.waitReason == Reply
    case InChildWait => t.waitReason == Child
  }

  /** No lost wakeup: a sleeping task has nothing it is waiting for. */
  predicate NothingMissed(t: Task)
  {
    t.state == Waiting ==>
      && MarkedRight(t)
      && (t.waitReason == Receive ==> t.ring == [] && t.pending == {})
      && (t.waitReason == Notify ==> t.pending * t.waitMask == {})
      && (t.waitReason == Reply ==> !t.replyPending)
      && (t.waitReason == Child ==> t.exitRecords == [])
  }

  predicate Bounded(t: Task)
  {
    && |t.ring| <= RING_CAPACITY && |t.exitRecords| <= MAX_CHILD_EXIT_RECORDS && |t.regions| == MAX_OOL_REGIONS
    && (forall b :: b in t.pending ==> b < NOTIFY_TYPES)
  }

  /** Where a live task stands: only the current task runs, a ready task is queued, the current task is queued only when
      it is about to give up the processor (or is the main task before its first switch), the idle task never sleeps. */
  predicate InPlace(t: Task, p: nat, current: bool, queued: bool)
  {
    && t.state != Exited
    && (t.state == Running ==> current)
    && (current && !t.mustSwitch ==> t.state == Running)
    && (t.state == Ready ==> queued)
    && (current && queued ==> t.mustSwitch || p == KERNEL)
    && (p == IDLE ==> t.state != Waiting && !t.mustSwitch)
    && NothingMissed(t) && Bounded(t)
  }

  ghost predicate Placed(s: State, p: nat)
  {
    Live(s, p) ==> InPlace(TaskOf(s, p), p, p == s.current, p in s.queue)
  }

  ghost predicate Shape(s: State)
  {
    && |s.tasks| == MAX_TASKS && Live(s, s.current) && Live(s, KERNEL) && Live(s, IDLE)
    && NoRepeats(s.queue) && (forall i :: 0 <= i < |s.queue| ==> Live(s, s.queue[i]))
  }

  /** Everything but the place of task x (none, when x is no task). */
  ghost predicate SafeBut(s: State, x: int)
  {
    Shape(s) && forall p: nat :: p != x ==> Placed(s, p)
  }

  ghost predicate Safe(s: State)
  {
    SafeBut(s, -1)
  }

  // ----- the primitives

  lemma PutSafe(s: State, p: nat, t: Task)
    requires SafeBut(s, p) && Live(s, p)
    ensures SafeBut(Put(s, p, t), p)
    ensures InPlace(t, p, p == s.current, p in s.queue) ==> Safe(Put(s, p, t))
  {
    var s' := Put(s, p, t);
    assert forall q :: Live(s', q) == Live(s, q);
    forall q: nat | q != p
      ensures Placed(s', q)
    {
      assert Placed(s, q);
    }
  }

  /** Waking a task that may have missed something, but is otherwise in order. */
  lemma WakeSafe(s: State, p: nat)
    requires SafeBut(s, p) && Live(s, p)
    requires var t := TaskOf(s, p); Bounded(t) && (p == s.current ==> t.mustSwitch) && (p == IDLE ==> !t.mustSwitch)
    ensures Safe(ScheduleTask(s, p))
  {
    var s' := ScheduleTask(s, p);
    forall q: nat
      ensures Placed(s', q)
    {
      assert q != p ==> Placed(s, q);
    }
    assert forall q :: Live(s', q) == Live(s, q);
  }

  lemma SafeAt(s: State, p: nat)
    requires Safe(s) && Live(s, p)
    ensures InPlace(TaskOf(s, p), p, p == s.current, p in s.queue) && SafeBut(s, p)
  {
    assert Placed(s, p);
  }

  lemma CurrentLive(s: State)
    requires Safe(s)
    ensures Live(s, s.current)
  {
  }

  // ----- deliveries

  lemma SendMessageSafe(s: State, dst: int, m: Message)
    requires Safe(s)
    ensures Safe(SendMessage(s, dst, m).0) && SendMessage(s, dst, m).0.current == s.current
  {
    if Live(s, dst) {
      SafeAt(s, dst);
      var t := TaskOf(s, dst);
      if m.isReply {
        if AcceptsReply(t, m) {
          var t' := t.(replySlot := m, replyPending := true);
          PutSafe(s, dst, t');
          if t.state == Waiting && t.waitReason == Reply {
            WakeSafe(Put(s, dst, t'), dst);
          }
        }
      } else if |t.ring| < RING_CAPACITY {
        var t' := t.(ring := t.ring + [m]);
        PutSafe(s, dst, t');
        if WakesOnMessage(t) {
          WakeSafe(Put(s, dst, t'), dst);
        }
      }
    }
  }

  lemma NotifySafe(s: State, dst: int, bit: nat)
    requires Safe(s) && bit < NOTIFY_TYPES
    ensures Safe(NotifyTask(s, dst, bit))
  {
    if Live(s, dst) {
      SafeAt(s, dst);
      var t := TaskOf(s, dst);
      var t' := t.(pending := t.pending + {bit});
      PutSafe(s, dst, t');
      if t.state == Waiting && !(t.waitReason == Notify && bit !in t.waitMask) {
        WakeSafe(Put(s, dst, t'), dst);
      }
    }
  }

  lemma RecordChildExitSafe(s: State, parent: nat, child: nat, status: int)
    requires Safe(s) && Live(s, parent)
    ensures Safe(RecordChildExit(s, parent, child, status)) && RecordChildExit(s, parent, child, status).current == s.current
  {
    SafeAt(s, parent);
    var t := TaskOf(s, parent);
    if |t.exitRecords| < MAX_CHILD_EXIT_RECORDS {
      var t' := t.(exitRecords := t.exitRecords + [ExitRecord(child, status)]);
      PutSafe(s, parent, t');
      if t.state == Waiting && t.waitReason == Child {
        WakeSafe(Put(s, parent, t'), parent);
      }
    }
  }

  lemma SendFromSafe(s: State, dst: int, m: Message)
    requires Safe(s)
    ensures Safe(SendFrom(s, dst, m).0) && SendFrom(s, dst, m).0.current == s.current
  {
    var t := TaskOf(s, s.current);
    SafeAt(s, s.current);
    PutSafe(s, s.current, LetGo(t, m.ool));
    SendMessageSafe(Put(s, s.current, LetGo(t, m.ool)), dst, m);
  }

  /** A delivery touches nobody but its destination, and wakes it if and only if it is accepted and the destination
      sleeps waiting for what is delivered: its reply, or any message. */
  lemma SendWakes(s: State, dst: int, m: Message, p: nat)
    requires Live(s, p)
    ensures var (s', err) := SendMessage(s, dst, m);
            && Live(s', p) && (p != dst || err != Ok ==> TaskOf(s', p) == TaskOf(s, p))
            && (TaskOf(s, p).state == Waiting ==>
                  (TaskOf(s', p).state == Ready <==> p == dst && err == Ok && WaitsFor(TaskOf(s, p), m))
                  && (TaskOf(s', p).state == Waiting <==> !(p == dst && err == Ok && WaitsFor(TaskOf(s, p), m))))
            && (TaskOf(s', p).state == Ready && TaskOf(s, p).state == Waiting ==> p in s'.queue)
  {
  }

  /** A doorbell touches nobody but its destination, and wakes it if and only if it sleeps for anything but other
      doorbells. */
  lemma NotifyWakes(s: State, dst: int, bit: nat, p: nat)
    requires Live(s, p)
    ensures var s' := NotifyTask(s, dst, bit);
            && Live(s', p) && (p != dst ==> TaskOf(s', p) == TaskOf(s, p)) && (p == dst ==> bit in TaskOf(s', p).pending)
            && (TaskOf(s, p).state == Waiting ==>
                  var woken := p == dst && !(TaskOf(s, p).waitReason == Notify && bit !in TaskOf(s, p).waitMask);
                  && (TaskOf(s', p).state == Ready <==> woken) && (TaskOf(s', p).state == Waiting <==> !woken)
                  && (woken ==> p in s'.queue))
  {
  }

  predicate WaitsFor(t: Task, m: Message)
  {
    if m.isReply then t.waitReason == Reply else t.waitReason == Receive || t.waitReason == NoReason
  }

  // ----- switching

  /** A task that leaves the processor: it has just exited and is not queued, or it only may have to give up its place. */
  predicate MayLeave(t: Task, p: nat, queued: bool)
  {
    if t.state == Exited then !queued && p != KERNEL && p != IDLE
    else NothingMissed(t) && Bounded(t) && (t.state == Ready ==> queued) && (p == IDLE ==> t.state != Waiting && !t.mustSwitch)
  }

  /** At a switch the idle task is always queued, so the fallback of pick_next_task is never taken. */
  lemma IdleQueued(s: State)
    requires SafeBut(s, s.current) && MayLeave(TaskOf(s, s.current), s.current, s.current in s.queue)
    ensures IDLE in Leave(ReapPendingTask(s)).queue
  {
    if s.current != IDLE {
      assert Placed(s, IDLE);
    }
  }

  lemma PoppedQueue(q: seq<nat>)
    requires NoRepeats(q) && q != []
    ensures NoRepeats(q[1..]) && forall p :: p in q[1..] <==> p in q && p != q[0]
  {
    forall p | p in q && p != q[0]
      ensures p in q[1..]
    {
      var i :| 0 <= i < |q| && q[i] == p;
      assert q[1..][i - 1] == p;
    }
  }

  /** Between leaving and picking no task is on the processor, and every task is in order. */
  ghost predicate AllParked(s: State)
  {
    && |s.tasks| == MAX_TASKS && Live(s, KERNEL) && Live(s, IDLE)
    && NoRepeats(s.queue) && (forall i :: 0 <= i < |s.queue| ==> Live(s, s.queue[i]))
    && forall p: nat :: Parked(s, p)
  }

  ghost predicate Parked(s: State, p: nat)
  {
    Live(s, p) ==> InPlace(TaskOf(s, p), p, false, p in s.queue)
  }

  lemma LeaveParks(s: State)
    requires SafeBut(s, s.current) && MayLeave(TaskOf(s, s.current), s.current, s.current in s.queue)
    ensures AllParked(Leave(ReapPendingTask(s)))
  {
    hide NothingMissed, Bounded;
    var l := Leave(ReapPendingTask(s));
    ReadyMissesNothing(TaskOf(s, s.current));
    forall q: nat
      ensures Parked(l, q)
    {
      assert q != s.current ==> Placed(s, q);
    }
  }

  lemma PickSafe(s: State)
    requires AllParked(s) && s.queue != []
    ensures Safe(PickNextTask(s))
  {
    hide NothingMissed, Bounded;
    var s' := PickNextTask(s);
    PoppedQueue(s.queue);
    assert Parked(s, s.queue[0]);
    RunningMissesNothing(TaskOf(s, s.queue[0]));
    forall q: nat
      ensures Placed(s', q)
    {
      assert Parked(s, q);
    }
  }

  lemma ReadyMissesNothing(t: Task)
    ensures NothingMissed(t.(state := Ready)) && (Bounded(t) ==> Bounded(t.(state := Ready)))
  {
  }

  lemma RunningMissesNothing(t: Task)
    requires NothingMissed(t) && Bounded(t)
    ensures NothingMissed(t.(state := Running)) && Bounded(t.(state := Running))
  {
  }

  lemma SwitchSafe(s: State)
    requires SafeBut(s, s.current) && MayLeave(TaskOf(s, s.current), s.current, s.current in s.queue)
    ensures Safe(SwitchTask(s))
  {
    IdleQueued(s);
    LeaveParks(s);
    PickSafe(Leave(ReapPendingTask(s)));
  }

  // ----- every step

  lemma PollSafe(s: State, t: Task)
    requires Safe(s) && s.current != IDLE && !TaskOf(s, s.current).mustSwitch
    requires Bounded(t) && NothingMissed(t)
    requires (t.state == Running && !t.mustSwitch) || (t.state == Waiting && t.mustSwitch)
    ensures Safe(Put(s, s.current, t))
  {
    SafeAt(s, s.current);
    PutSafe(s, s.current, t);
  }

  lemma SenderRuns(s: State, dst: int, m: Message)
    requires Live(s, s.current) && TaskOf(s, s.current).state == Running
    ensures var r := SendMessage(s, dst, m).0; Live(r, s.current) && TaskOf(r, s.current).state == Running
  {
  }

  lemma SendCallSafe(s: State)
    requires Safe(s) && s.current != IDLE && TaskOf(s, s.current).point.Calling? && !TaskOf(s, s.current).mustSwitch
    ensures Safe(SendCall(s))
  {
    hide SendMessage;
    var t := TaskOf(s, s.current);
    SendMessageSafe(s, t.point.dst, t.point.request);
    var s1 := SendMessage(s, t.point.dst, t.point.request).0;
    SafeAt(s, s.current);
    SafeAt(s1, s.current);
    SenderRuns(s, t.point.dst, t.point.request);
    if t.point.dst >= 0 {
      PutSafe(s1, s.current, TaskOf(s1, s.current).(point := InCall(t.point.dst)));
    }
    PutSafe(s, s.current, Hold(t, t.point.request.ool).(callCorrelation := 0, point := Free));
  }

  lemma ReplyToSafe(s: State, req: Request, m: Message)
    requires Safe(s)
    ensures Safe(ReplyTo(s, req, m))
  {
    var a := AnswerTo(s.current, req, m);
    SendFromSafe(s, req.caller, a);
    var s1 := SendFrom(s, req.caller, a).0;
    SafeAt(s1, s.current);
    PutSafe(s1, s.current, TaskOf(s1, s.current).(held := TaskOf(s1, s.current).held - {req}));
  }

  lemma ExitSafe(s: State, status: int)
    requires Safe(s) && s.current != IDLE && s.current != KERNEL && !TaskOf(s, s.current).mustSwitch
    ensures var e := PrepareExit(s, status);
            && SafeBut(e, e.current) && e.current == s.current
            && MayLeave(TaskOf(e, e.current), e.current, e.current in e.queue)
  {
    var t := TaskOf(s, s.current);
    SafeAt(s, s.current);
    var t1 := t.(regions := NoRegions(), ring := [], pending := {}, replyPending := false);
    PutSafe(s, s.current, t1);
    var s1 := ReleaseAll(s);
    SamePlaces(Put(s, s.current, t1), s1);
    var s2 := if t.parent.Some? && Live(s1, t.parent.value) then RecordChildExit(s1, t.parent.value, s.current, status) else s1;
    if t.parent.Some? && Live(s1, t.parent.value) {
      RecordChildExitSafe(s1, t.parent.value, s.current, status);
    }
    SafeAt(s2, s2.current);
    PutSafe(s2, s2.current, TaskOf(s2, s2.current).(state := Exited));
  }

  lemma SamePlaces(s: State, s': State)
    requires Safe(s) && s'.tasks == s.tasks && s'.queue == s.queue && s'.current == s.current
    ensures Safe(s')
  {
    forall p: nat
      ensures Placed(s', p)
    {
      assert Placed(s, p);
    }
  }

  lemma CreateSafe(s: State, parent: Option<nat>)
    requires Safe(s)
    ensures Safe(CreateTask(s, parent))
  {
    var p, s' := AvailableId(s.tasks, 0), CreateTask(s, parent);
    if p < |s.tasks| {
      assert forall i :: 0 <= i < |s.queue| ==> s.queue[i] != p;
      forall q: nat
        ensures Placed(s', q)
      {
        assert Placed(s, q);
      }
    }
  }

  /** The step the main theorem is about. */
  lemma StepSafe(s: State, a: Action)
    requires Safe(s)
    ensures Safe(Step(s, a))
  {
    hide SwitchTask, PrepareExit, SendFrom, SendCall, ReplyTo, NotifyTask, CreateTask, ScheduleTask, NothingMissed,
      Bounded,
      StartCall, PollReply, PollReceive, PollNotify, PollChild, DeliverOol, ReleaseOol, ReleaseRegions;
    if !Enabled(s, a) {
      return;
    }
    var t := TaskOf(s, s.current);
    SafeAt(s, s.current);
    YieldMissesNothing(t);
    match a {
      case Preempt => SwitchSafe(s);
      case Yield =>
        PutSafe(s, s.current, t.(mustSwitch := false));
        SwitchSafe(Put(s, s.current, t.(mustSwitch := false)));
      case Doorbell(to, bit) => NotifySafe(s, to, bit);
      case Send(dst, m) => SendFromSafe(s, dst, OneWay(m));
      case AnswerAgain(req, m) => SendFromSafe(s, req.caller, AnswerTo(s.current, req, m));
      case UnaskedReply(dst, m) => SendFromSafe(s, dst, Unasked(s.current, m));
      case SendRequest => SendCallSafe(s);
      case Answer(req, m) => ReplyToSafe(s, req, m);
      case Fork => CreateSafe(s, Some(s.current));
      case Wake(child) => WakeChildSafe(s, child);
      case Exit(status) => ExitSafe(s, status); SwitchSafe(PrepareExit(s, status));
      case _ =>
        if IsBufferStep(a) {
          BufferStepSafe(s, a);
        } else {
          OwnStepSafe(s, a);
        }
    }
  }

  lemma WakeChildSafe(s: State, child: nat)
    requires Safe(s) && child != s.current
    ensures Safe(ScheduleTask(s, child))
  {
    if Live(s, child) {
      SafeAt(s, child);
      WakeSafe(s, child);
    }
  }

  lemma YieldMissesNothing(t: Task)
    ensures NothingMissed(t) ==> NothingMissed(t.(mustSwitch := false))
    ensures Bounded(t) ==> Bounded(t.(mustSwitch := false))
  {
  }

  /** The sections of the blocking calls. */
  /** As a section of its code leaves a task: running, or asleep with nothing missed. */
  predicate RunsOrSleeps(t: Task)
  {
    Bounded(t) && NothingMissed(t) && ((t.state == Running && !t.mustSwitch) || (t.state == Waiting && t.mustSwitch))
  }

  lemma PollsSleepRight(t: Task)
    requires t.state == Running && !t.mustSwitch && Bounded(t)
    ensures RunsOrSleeps(PollReceive(t))
    ensures t.point.InCall? ==> RunsOrSleeps(PollReply(t))
    ensures RunsOrSleeps(PollChild(t))
  {
    hide Lowest, Awaiting;
  }

  lemma NotifySleepsRight(t: Task, mask: set<nat>)
    requires t.state == Running && !t.mustSwitch && Bounded(t)
    ensures RunsOrSleeps(PollNotify(t, mask))
  {
  }

  lemma StartRuns(t: Task, self: nat, dst: int, m: Message, id: nat)
    requires t.state == Running && !t.mustSwitch && Bounded(t)
    ensures RunsOrSleeps(StartCall(t, self, dst, m, id))
  {
    hide NextCorrelation;
  }

  lemma OwnStepSafe(s: State, a: Action)
    requires Safe(s) && Enabled(s, a) && (a.Call? || a.AwaitReply? || a.ReceiveMessage? || a.WaitNotification? || a.WaitChild?)
    ensures Safe(Step(s, a))
  {
    hide Safe, SafeBut, StartCall, PollReply, PollReceive, PollNotify, PollChild, NothingMissed, Bounded;
    CurrentLive(s);
    var t := TaskOf(s, s.current);
    SafeAt(s, s.current);
    PollsSleepRight(t);
    if a.Call? {
      StartRuns(t, s.current, a.dst, a.m, s.callIds);
    }
    if a.WaitNotification? {
      NotifySleepsRight(t, a.mask);
    }
    match a {
      case Call(dst, m) =>
        PollSafe(s, StartCall(t, s.current, dst, m, s.callIds));
        SamePlaces(Put(s, s.current, StartCall(t, s.current, dst, m, s.callIds)), Step(s, a));
      case AwaitReply => PollSafe(s, PollReply(t));
      case ReceiveMessage => PollSafe(s, PollReceive(t));
      case WaitNotification(mask) => PollSafe(s, PollNotify(t, mask));
      case WaitChild => PollSafe(s, PollChild(t));
    }
  }

  predicate IsBufferStep(a: Action)
  {
    a.AllocPayload? || a.FreePayload? || a.Deliver? || a.Release? || a.Exec?
  }

  /** Moving buffers between hands and mapped regions moves no task. */
  lemma BufferStepSafe(s: State, a: Action)
    requires Safe(s) && Enabled(s, a) && IsBufferStep(a)
    ensures Safe(Step(s, a))
  {
    var t, s' := TaskOf(s, s.current), Step(s, a);
    SafeAt(s, s.current);
    assert Live(s', s.current);
    var t' := TaskOf(s', s.current);
    PollSafe(s, t');
    assert s'.tasks == Put(s, s.current, t').tasks;
    SamePlaces(Put(s, s.current, t'), s');
  }

  lemma BootSafe(services: nat)
    requires services + 2 <= MAX_TASKS
    ensures Safe(Boot(services))
  {
    var s := Boot(services);
    forall p: nat
      ensures Placed(s, p)
    {
      assert p < services + 2 ==> s.queue[p] == p;
    }
  }

  /** In every reachable state no task sleeps through what it waits for, every ready task is queued exactly once, and
      the queue and the current task are alive. */
  lemma {:induction false} EveryRunIsSafe(s: State, run: seq<Action>)
    requires Safe(s)
    ensures Safe(After(s, run))
  {
    if run != [] {
      EveryRunIsSafe(s, run[..|run| - 1]);
      StepSafe(After(s, run[..|run| - 1]), run[|run| - 1]);
    }
  }

  /** The same, spelled out for the states the kernel can reach after boot. */
  lemma NoLostWakeup(services: nat, run: seq<Action>, p: nat)
    requires services + 2 <= MAX_TASKS
    ensures var s := After(Boot(services), run);
            Live(s, p) && TaskOf(s, p).state == Waiting ==>
              var t := TaskOf(s, p);
              && MarkedRight(t)
              && (t.point.InReceive? ==> t.ring == [] && t.pending == {})
              && (t.point.InWait? ==> t.pending * t.point.mask == {})
              && (t.point.InCall? ==> !t.replyPending)
              && (t.point.InChildWait? ==> t.exitRecords == [])
  {
    hide After, Boot, Shape, Bounded;
    BootSafe(services);
    EveryRunIsSafe(Boot(services), run);
    assert Placed(After(Boot(services), run), p);
  }

  /** After boot pick_next_task never falls back to the idle task: whoever leaves, somebody is queued. */
  lemma IdleFallbackUnreachable(services: nat, run: seq<Action>, status: int)
    requires services + 2 <= MAX_TASKS
    ensures var s := After(Boot(services), run);
            && Live(s, s.current) && Leave(ReapPendingTask(s)).queue != []
            && (Enabled(s, Exit(status)) ==> var e := PrepareExit(s, status); Live(e, e.current) && Leave(ReapPendingTask(e)).queue != [])
  {
    hide After, Boot, Leave, PrepareExit;
    BootSafe(services);
    EveryRunIsSafe(Boot(services), run);
    var s := After(Boot(services), run);
    SafeAt(s, s.current);
    IdleQueued(s);
    if Enabled(s, Exit(status)) {
      ExitSafe(s, status);
      IdleQueued(PrepareExit(s, status));
    }
  }
}
