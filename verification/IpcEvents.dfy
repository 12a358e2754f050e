/** Doorbells and child exits: each waits for its task until the task takes it, and a task gets nothing else. */
module IpcEvents {
  import opened IpcModel
  import opened IpcScheduler
  import opened IpcRuns
  import opened IpcReplies
  import opened IpcDelivery

  /** The record of a child that exits in this step: its id and status, for the task in its parent's slot, unless eight
      records wait there already. */
  function Reported(s: State, a: Action, p: nat): seq<ExitRecord>
  {
    if Live(s, s.current) && Enabled(s, a) && a.Exit? && TaskOf(s, s.current).parent == Some(p) && Live(s, p)
       && |TaskOf(s, p).exitRecords| < MAX_CHILD_EXIT_RECORDS
    then [ExitRecord(s.current, a.status)] else []
  }

  /** The record task p takes in this step: the oldest. */
  function Collected(s: State, a: Action, p: nat): seq<ExitRecord>
  {
    if Live(s, p) && p == s.current && Enabled(s, a) && a.WaitChild? && TaskOf(s, p).exitRecords != []
    then [TaskOf(s, p).exitRecords[0]] else []
  }

  /** The doorbell of task p that rings in this step. */
  function Rung(s: State, a: Action, p: nat): set<nat>
  {
    if Live(s, s.current) && Enabled(s, a) && a.Doorbell? && a.to == p then {a.bit} else {}
  }

  /** The doorbells task p takes in this step: the lowest that rang, or those it waits for. */
  function Answered(s: State, a: Action, p: nat): set<nat>
  {
    if !(Live(s, p) && p == s.current && Enabled(s, a)) then {}
    else
      var rang := TaskOf(s, p).pending;
      match a
      case ReceiveMessage => set b | b in rang && forall c :: c in rang ==> b <= c
      case WaitNotification(mask) => rang * mask
      case _ => {}
  }

  // ----- the parts of a step

  predicate SameEvents(s: State, s': State, p: nat)
  {
    Remains(s, s', p) ==> TaskOf(s', p).exitRecords == TaskOf(s, p).exitRecords && TaskOf(s', p).pending == TaskOf(s, p).pending
  }

  lemma SendEvents(s: State, dst: int, m: Message, p: nat)
    requires Live(s, p)
    ensures Live(SendMessage(s, dst, m).0, p) && SameEvents(s, SendMessage(s, dst, m).0, p)
  {
  }

  lemma SendFromEvents(s: State, dst: int, m: Message, p: nat)
    requires Live(s, p) && Live(s, s.current)
    ensures Live(SendFrom(s, dst, m).0, p) && SameEvents(s, SendFrom(s, dst, m).0, p)
  {
    hide SendMessage;
    var s1 := Put(s, s.current, LetGo(TaskOf(s, s.current), m.ool));
    QuietSend(s1, dst, m);
    SendEvents(s1, dst, m, p);
  }

  lemma SendCallEvents(s: State, p: nat)
    requires Live(s, p) && Live(s, s.current) && TaskOf(s, s.current).point.Calling?
    ensures SameEvents(s, SendCall(s), p)
  {
    hide SendMessage;
    var point := TaskOf(s, s.current).point;
    QuietSend(s, point.dst, point.request);
    SendEvents(s, point.dst, point.request, p);
  }

  lemma ReplyEvents(s: State, req: Request, m: Message, p: nat)
    requires Live(s, p) && Live(s, s.current)
    ensures SameEvents(s, ReplyTo(s, req, m), p)
  {
    hide SendFrom;
    QuietSendFrom(s, req.caller, AnswerTo(s.current, req, m));
    SendFromEvents(s, req.caller, AnswerTo(s.current, req, m), p);
  }

  lemma SwitchEvents(s: State, p: nat)
    requires Live(s, s.current)
    ensures Live(SwitchTask(s), p) ==> Live(s, p) && SameEvents(s, SwitchTask(s), p) && TaskOf(SwitchTask(s), p).birth == TaskOf(s, p).birth
  {
    hide Leave, PickNextTask;
    LeaveEvents(ReapPendingTask(s), p);
    PickEvents(Leave(ReapPendingTask(s)), p);
  }

  lemma LeaveEvents(s: State, p: nat)
    requires Live(s, s.current)
    ensures Live(Leave(s), p) ==> Live(s, p) && SameEvents(s, Leave(s), p) && TaskOf(Leave(s), p).birth == TaskOf(s, p).birth
  {
  }

  lemma PickEvents(s: State, p: nat)
    ensures Live(PickNextTask(s), p) ==> Live(s, p) && SameEvents(s, PickNextTask(s), p) && TaskOf(PickNextTask(s), p).birth == TaskOf(s, p).birth
  {
  }

  lemma ExitEvents(s: State, status: int, p: nat)
    requires Live(s, s.current) && Live(s, p) && p != s.current && Enabled(s, Exit(status))
    ensures var e := PrepareExit(s, status);
            && Live(e, p) && TaskOf(e, p).pending == TaskOf(s, p).pending && TaskOf(e, p).birth == TaskOf(s, p).birth
            && TaskOf(e, p).exitRecords == TaskOf(s, p).exitRecords + Reported(s, Exit(status), p)
  {
    hide NoRegions, Kaddrs, Attached, RecordChildExit;
    var s1, parent := ReleaseAll(s), TaskOf(s, s.current).parent;
    if parent.Some? && Live(s1, parent.value) {
      RecordEvents(s1, parent.value, s.current, status, p);
      QuietRecord(s1, parent.value, s.current, status);
    }
  }

  lemma RecordEvents(s: State, parent: nat, child: nat, status: int, p: nat)
    requires Live(s, parent) && Live(s, p)
    ensures var e := RecordChildExit(s, parent, child, status);
            && Live(e, p) && TaskOf(e, p).pending == TaskOf(s, p).pending && TaskOf(e, p).birth == TaskOf(s, p).birth
            && TaskOf(e, p).exitRecords ==
               TaskOf(s, p).exitRecords + (if parent == p && |TaskOf(s, p).exitRecords| < MAX_CHILD_EXIT_RECORDS then [ExitRecord(child, status)] else [])
  {
  }

  lemma NotifyEvents(s: State, to: int, bit: nat, p: nat)
    requires Live(s, p)
    ensures Live(NotifyTask(s, to, bit), p)
    ensures TaskOf(NotifyTask(s, to, bit), p).exitRecords == TaskOf(s, p).exitRecords
    ensures TaskOf(NotifyTask(s, to, bit), p).pending == TaskOf(s, p).pending + (if to == p then {bit} else {})
  {
  }

  lemma LowestIsLeast(bits: set<nat>)
    requires bits != {} && forall b :: b in bits ==> b < NOTIFY_TYPES
    ensures (set b | b in bits && forall c :: c in bits ==> b <= c) == {Lowest(bits)}
  {
    var b :| b in bits;
    assert b == 0 || b == 1 || b == 2 || b == 3 || b == 4;
    assert Lowest(bits) in bits;
  }

  /** Steps in which the current task takes something, or only goes to sleep. */
  lemma OwnEvents(s: State, a: Action, p: nat)
    requires Live(s, s.current) && Live(s, p) && Enabled(s, a) && IsOwnSection(a) && Bounded(TaskOf(s, s.current))
    ensures Live(Step(s, a), p)
    ensures TaskOf(s, p).exitRecords == Collected(s, a, p) + TaskOf(Step(s, a), p).exitRecords
    ensures TaskOf(Step(s, a), p).pending == TaskOf(s, p).pending - Answered(s, a, p)
  {
    hide Step, Enabled, Bounded;
    OwnSectionStep(s, a);
    var t := TaskOf(s, s.current);
    if a.ReceiveMessage? && t.pending != {} {
      BoundedBells(t);
      LowestIsLeast(t.pending);
    }
    OwnSectionEvents(t, s.current, s.callIds, a);
    hide OwnSectionOf, Lowest;
  }

  lemma BoundedBells(t: Task)
    requires Bounded(t)
    ensures forall b :: b in t.pending ==> b < NOTIFY_TYPES
  {
  }

  lemma OwnSectionEvents(t: Task, self: nat, id: nat, a: Action)
    requires IsOwnSection(a)
    ensures var t' := OwnSectionOf(t, self, id, a);
            && t'.exitRecords == (if a.WaitChild? && t.exitRecords != [] then t.exitRecords[1..] else t.exitRecords)
            && t'.pending == (if a.ReceiveMessage? && t.pending != {} then t.pending - {Lowest(t.pending)}
                              else if a.WaitNotification? && t.pending * a.mask != {} then t.pending - a.mask else t.pending)
  {
    hide Lowest, Awaiting;
  }

  // ----- one step

  lemma SendingEvents(s: State, a: Action, p: nat)
    requires Live(s, s.current) && Live(s, p) && Enabled(s, a)
    requires a.Send? || a.AnswerAgain? || a.UnaskedReply? || a.SendRequest? || a.Answer?
    ensures SameEvents(s, Step(s, a), p)
  {
    hide SendMessage, SendFrom, SendCall, ReplyTo;
    match a {
      case Send(dst, m) => SendFromEvents(s, dst, OneWay(m), p);
      case AnswerAgain(req, m) => SendFromEvents(s, req.caller, AnswerTo(s.current, req, m), p);
      case UnaskedReply(dst, m) => SendFromEvents(s, dst, Unasked(s.current, m), p);
      case SendRequest => SendCallEvents(s, p);
      case Answer(req, m) => ReplyEvents(s, req, m, p);
    }
  }

  ghost predicate EventsKept(s: State, a: Action, p: nat)
    requires Live(s, p) && Live(Step(s, a), p)
  {
    && TaskOf(s, p).exitRecords + Reported(s, a, p) == Collected(s, a, p) + TaskOf(Step(s, a), p).exitRecords
    && TaskOf(Step(s, a), p).pending == TaskOf(s, p).pending - Answered(s, a, p) + Rung(s, a, p)
  }

  lemma SameKept(s: State, a: Action, p: nat)
    requires Remains(s, Step(s, a), p) && SameEvents(s, Step(s, a), p)
    requires !a.Exit? && !a.Doorbell? && !IsOwnSection(a)
    ensures EventsKept(s, a, p)
  {
    hide Step, Enabled;
  }

  lemma SwitchKept(s: State, a: Action, p: nat)
    requires Safe(s) && Live(s, s.current) && Enabled(s, a) && Remains(s, Step(s, a), p) && (a.Preempt? || a.Yield? || a.Exit?)
    ensures EventsKept(s, a, p)
  {
    hide SwitchTask, PrepareExit, Safe, NothingMissed, Shape;
    match a {
      case Preempt => SwitchEvents(s, p);
      case Yield => SwitchEvents(Put(s, s.current, TaskOf(s, s.current).(mustSwitch := false)), p);
      case Exit(status) =>
        if p == s.current {
          ExitLeaves(s, status);
        } else {
          QuietExit(s, status);
          ExitEvents(s, status, p);
          SwitchEvents(PrepareExit(s, status), p);
        }
    }
  }

  lemma QuietKept(s: State, a: Action, p: nat)
    requires Live(s, s.current) && Enabled(s, a) && Remains(s, Step(s, a), p)
    requires !a.Preempt? && !a.Yield? && !a.Exit? && !IsOwnSection(a)
    ensures EventsKept(s, a, p)
  {
    hide SwitchTask, PrepareExit, SendFrom, SendCall, ReplyTo, NotifyTask, ScheduleTask, CreateTask, DeliverOol, ReleaseOol,
      ReleaseRegions, EventsKept, SameEvents;
    match a {
      case Doorbell(to, bit) => BellKept(s, to, bit, p);
      case Wake(child) =>
        WakeEvents(s, child, p);
        SameKept(s, a, p);
      case Fork =>
        CreateEvents(s, Some(s.current), p);
        SameKept(s, a, p);
      case _ =>
        if IsBufferStep(a) {
          BufferEvents(s, a, p);
        } else {
          SendingEvents(s, a, p);
        }
        SameKept(s, a, p);
    }
  }

  lemma DisabledKept(s: State, a: Action, p: nat)
    requires Live(s, s.current) && !Enabled(s, a) && Live(s, p)
    ensures Live(Step(s, a), p) && EventsKept(s, a, p)
  {
    hide Enabled, Act;
  }

  lemma OwnKept(s: State, a: Action, p: nat)
    requires Live(s, s.current) && Live(s, p) && Enabled(s, a) && IsOwnSection(a) && Bounded(TaskOf(s, s.current))
    ensures Live(Step(s, a), p) && EventsKept(s, a, p)
  {
    hide Enabled, Step, Bounded, Collected, Answered;
    OwnEvents(s, a, p);
  }

  lemma BellKept(s: State, to: int, bit: nat, p: nat)
    requires Live(s, s.current) && Enabled(s, Doorbell(to, bit)) && Live(s, p)
    ensures Live(Step(s, Doorbell(to, bit)), p) && EventsKept(s, Doorbell(to, bit), p)
  {
    hide NotifyTask;
    NotifyEvents(s, to, bit, p);
  }

  /** One step: the records a task had and the one it is sent are the one it takes and those that stay; its doorbells are
      those it had without the ones it takes, and the one that rings. */
  lemma StepEvents(s: State, a: Action, p: nat)
    requires Safe(s) && Remains(s, Step(s, a), p)
    ensures EventsKept(s, a, p)
  {
    hide Step, Safe, Enabled, EventsKept, Bounded, NothingMissed;
    CurrentLive(s);
    if !Enabled(s, a) {
      DisabledKept(s, a, p);
    } else if a.Preempt? || a.Yield? || a.Exit? {
      SwitchKept(s, a, p);
    } else if IsOwnSection(a) {
      SafeAt(s, s.current);
      OwnKept(s, a, p);
    } else {
      QuietKept(s, a, p);
    }
  }

  lemma WakeEvents(s: State, child: nat, p: nat)
    requires Live(s, p)
    ensures SameEvents(s, ScheduleTask(s, child), p)
  {
  }

  lemma CreateEvents(s: State, parent: Option<nat>, p: nat)
    requires Live(s, p)
    ensures SameEvents(s, CreateTask(s, parent), p)
  {
  }

  lemma BufferEvents(s: State, a: Action, p: nat)
    requires Live(s, p) && Live(s, s.current) && Enabled(s, a) && IsBufferStep(a)
    ensures SameEvents(s, Step(s, a), p)
  {
    hide Step, Enabled;
    var t := BufferStepIs(s, a);
  }

  // ----- runs

  function AllReported(s: State, run: seq<Action>, p: nat): seq<ExitRecord>
  {
    if run == [] then [] else AllReported(s, run[..|run| - 1], p) + Reported(After(s, run[..|run| - 1]), run[|run| - 1], p)
  }

  function AllCollected(s: State, run: seq<Action>, p: nat): seq<ExitRecord>
  {
    if run == [] then [] else AllCollected(s, run[..|run| - 1], p) + Collected(After(s, run[..|run| - 1]), run[|run| - 1], p)
  }

  /** Over any run: the records a task had, followed by those of its children's exits that found room, in order and with
      their status, are those it took, followed by those that wait. */
  lemma {:induction false} ExitsAreReported(s: State, run: seq<Action>, p: nat)
    requires Safe(s) && LivesThrough(s, run, p)
    ensures Live(s, p) && Live(After(s, run), p)
    ensures TaskOf(s, p).exitRecords + AllReported(s, run, p) == AllCollected(s, run, p) + TaskOf(After(s, run), p).exitRecords
  {
    hide Safe, Step, Reported, Collected, Rung, Answered;
    if run != [] {
      var before, a := run[..|run| - 1], run[|run| - 1];
      ExitsAreReported(s, before, p);
      EveryRunIsSafe(s, before);
      var b := After(s, before);
      StepEvents(b, a, p);
      var records, records', records'' := TaskOf(s, p).exitRecords, TaskOf(b, p).exitRecords, TaskOf(After(s, run), p).exitRecords;
      var sent, got := AllReported(s, before, p), AllCollected(s, before, p);
      calc {
        records + AllReported(s, run, p);
        (records + sent) + Reported(b, a, p);
        (got + records') + Reported(b, a, p);
        got + (records' + Reported(b, a, p));
        got + (Collected(b, a, p) + records'');
        AllCollected(s, run, p) + records'';
      }
    }
  }

  /** Bit b rang for task p at step i and the task did not take it in the steps after. */
  ghost predicate Unanswered(s: State, run: seq<Action>, p: nat, b: nat, i: nat)
  {
    && i < |run| && b in Rung(After(s, run[..i]), run[i], p)
    && forall j: nat :: i < j < |run| ==> b !in Answered(After(s, run[..j]), run[j], p)
  }

  /** Over any run: a doorbell waits if and only if it did at the start and was never taken, or rang and was not taken
      since. */
  lemma {:induction false} DoorbellsWait(s: State, run: seq<Action>, p: nat, b: nat)
    requires Safe(s) && LivesThrough(s, run, p)
    ensures Live(s, p) && Live(After(s, run), p)
    ensures b in TaskOf(After(s, run), p).pending <==>
            || (b in TaskOf(s, p).pending && forall j: nat :: j < |run| ==> b !in Answered(After(s, run[..j]), run[j], p))
            || exists i: nat :: Unanswered(s, run, p, b, i)
  {
    hide Safe, Step, Reported, Collected, Rung, Answered;
    if run != [] {
      var n := |run| - 1;
      var before, a := run[..n], run[n];
      DoorbellsWait(s, before, p, b);
      EveryRunIsSafe(s, before);
      StepEvents(After(s, before), a, p);
      forall j: nat | j < n
        ensures before[..j] == run[..j]
      {
      }
      BellsLonger(s, run, p, b);
    }
  }

  lemma BellsLonger(s: State, run: seq<Action>, p: nat, b: nat)
    requires run != []
    ensures var n := |run| - 1;
            (exists i: nat :: Unanswered(s, run, p, b, i)) <==>
            || b in Rung(After(s, run[..n]), run[n], p)
            || ((exists i: nat :: Unanswered(s, run[..n], p, b, i)) && b !in Answered(After(s, run[..n]), run[n], p))
  {
    hide After, Rung, Answered;
    var n := |run| - 1;
    forall j: nat | j < n
      ensures run[..n][..j] == run[..j]
    {
    }
    if i: nat :| Unanswered(s, run, p, b, i) {
      if i < n {
        assert Unanswered(s, run[..n], p, b, i);
      }
    }
    if b in Rung(After(s, run[..n]), run[n], p) {
      assert Unanswered(s, run, p, b, n);
    } else if i: nat :| Unanswered(s, run[..n], p, b, i) {
      if b !in Answered(After(s, run[..n]), run[n], p) {
        assert Unanswered(s, run, p, b, i);
      }
    }
  }

  /** fork makes a task in the lowest free slot that knows its parent, waits to be woken and has nothing waiting for it;
      no other task changes. */
  lemma ForkMakesChild(s: State)
    requires Live(s, s.current) && Enabled(s, Fork) && exists q: nat :: q < |s.tasks| && s.tasks[q].None?
    ensures exists q: nat ::
              && q < |s.tasks| && s.tasks[q].None? && (forall r: nat :: r < q ==> Live(s, r))
              && Live(Step(s, Fork), q) && TaskOf(Step(s, Fork), q).parent == Some(s.current)
              && TaskOf(Step(s, Fork), q).state == Waiting && TaskOf(Step(s, Fork), q).birth == s.births
              && TaskOf(Step(s, Fork), q).exitRecords == [] && TaskOf(Step(s, Fork), q).ring == [] && TaskOf(Step(s, Fork), q).pending == {}
              && forall r: nat :: r < |s.tasks| && r != q ==> Step(s, Fork).tasks[r] == s.tasks[r]
  {
    var q := AvailableId(s.tasks, 0);
    assert Live(Step(s, Fork), q);
  }
}
