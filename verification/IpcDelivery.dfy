/** Messages to a task are received in the order they were sent: none is lost, repeated or overtaken. */
module IpcDelivery {
  import opened IpcModel
  import opened IpcScheduler
  import opened IpcRuns
  import opened IpcReplies

  /** The one-way message or request a step hands to SendMessage, and to whom. */
  function Outgoing(s: State, a: Action): Option<(int, Message)>
    requires Live(s, s.current)
  {
    var t := TaskOf(s, s.current);
    match a
    case Send(dst, m) => Some((dst, Message(m.sender, 0, 0, m.correlation, m.isReply, m.ool, m.body)))
    case SendRequest => if t.point.Calling? then Some((t.point.dst, t.point.request)) else None
    case _ => None
  }

  predicate HasRoom(s: State, p: nat)
  {
    Live(s, p) && |TaskOf(s, p).ring| < RING_CAPACITY
  }

  /** What a step puts into the ring of task p. */
  function Sent(s: State, a: Action, p: nat): seq<Message>
  {
    if Live(s, s.current) && Enabled(s, a) && Outgoing(s, a).Some? && Outgoing(s, a).value.0 == p && !Outgoing(s, a).value.1.isReply && HasRoom(s, p) then [Outgoing(s, a).value.1] else []
  }

  /** What task p receives from its ring in a step: doorbells go first, and a task receives only while it runs. */
  function Received(s: State, a: Action, p: nat): seq<Message>
  {
    if Live(s, p) && p == s.current && Enabled(s, a) && a.ReceiveMessage? && TaskOf(s, p).pending == {} && TaskOf(s, p).ring != []
    then [TaskOf(s, p).ring[0]] else []
  }

  /** Task p is the same incarnation before and after. */
  predicate Remains(s: State, s': State, p: nat)
  {
    Live(s, p) && Live(s', p) && TaskOf(s', p).birth == TaskOf(s, p).birth
  }

  predicate SameRing(s: State, s': State, p: nat)
  {
    Remains(s, s', p) ==> TaskOf(s', p).ring == TaskOf(s, p).ring
  }

  lemma SendRing(s: State, dst: int, m: Message, p: nat)
    requires Live(s, p)
    ensures var r := SendMessage(s, dst, m).0;
            Live(r, p) && TaskOf(r, p).ring == TaskOf(s, p).ring + (if !m.isReply && dst == p && HasRoom(s, p) then [m] else [])
  {
  }

  lemma SendFromRing(s: State, dst: int, m: Message, p: nat)
    requires Live(s, p) && Live(s, s.current)
    ensures var r := SendFrom(s, dst, m).0;
            Live(r, p) && TaskOf(r, p).ring == TaskOf(s, p).ring + (if !m.isReply && dst == p && HasRoom(s, p) then [m] else [])
  {
    hide SendMessage;
    SendRing(Put(s, s.current, LetGo(TaskOf(s, s.current), m.ool)), dst, m, p);
    SendOutcome(Put(s, s.current, LetGo(TaskOf(s, s.current), m.ool)), dst, m);
  }

  lemma SendOutcome(s: State, dst: int, m: Message)
    ensures SendMessage(s, dst, m).1 != Ok ==> m.isReply || dst < 0 || !HasRoom(s, dst)
  {
  }

  /** What send_message answers: it fails without effect for no destination, a missing task, a reply that nobody waits for and
      a full queue, each with its own error; otherwise the message is in the reply slot or last in the queue. */
  lemma SendOutcomes(s: State, dst: int, m: Message)
    ensures var (r, err) := SendMessage(s, dst, m);
            && (err == InvalidTask <==> dst != -1 && !Live(s, dst))
            && (err == QueueFull <==> Live(s, dst) && !m.isReply && !HasRoom(s, dst))
            && (err == InvalidArg <==> dst == -1 || (Live(s, dst) && m.isReply && !AcceptsReply(TaskOf(s, dst), m)))
            && (err != Ok ==> r == s)
            && (err == Ok ==> Live(s, dst) && Live(r, dst))
            && (err == Ok && m.isReply ==> TaskOf(r, dst).replyPending && TaskOf(r, dst).replySlot == m && TaskOf(r, dst).ring == TaskOf(s, dst).ring)
            && (err == Ok && !m.isReply ==> TaskOf(r, dst).ring == TaskOf(s, dst).ring + [m] && TaskOf(r, dst).replyPending == TaskOf(s, dst).replyPending)
  {
  }

  lemma SwitchRing(s: State, p: nat)
    requires Live(s, s.current)
    ensures SameRing(s, SwitchTask(s), p)
  {
    hide Leave, PickNextTask;
    LeaveRing(ReapPendingTask(s), p);
    PickRing(Leave(ReapPendingTask(s)), p);
  }

  lemma LeaveRing(s: State, p: nat)
    requires Live(s, s.current)
    ensures Live(Leave(s), p) ==> Live(s, p) && TaskOf(Leave(s), p).ring == TaskOf(s, p).ring && TaskOf(Leave(s), p).birth == TaskOf(s, p).birth
  {
  }

  lemma PickRing(s: State, p: nat)
    ensures Live(PickNextTask(s), p) ==> Live(s, p) && TaskOf(PickNextTask(s), p).ring == TaskOf(s, p).ring
  {
  }

  lemma SendCallRing(s: State, p: nat)
    requires Live(s, p) && Live(s, s.current) && TaskOf(s, s.current).point.Calling?
    ensures var point := TaskOf(s, s.current).point;
            && Live(SendCall(s), p)
            && TaskOf(SendCall(s), p).ring == TaskOf(s, p).ring + (if !point.request.isReply && point.dst == p && HasRoom(s, p) then [point.request] else [])
  {
    hide SendMessage;
    var point := TaskOf(s, s.current).point;
    SendRing(s, point.dst, point.request, p);
    SendRing(s, point.dst, point.request, s.current);
    SendOutcome(s, point.dst, point.request);
  }

  lemma ReplyRing(s: State, req: Request, m: Message, p: nat)
    requires Live(s, s.current)
    ensures SameRing(s, ReplyTo(s, req, m), p)
  {
    hide SendFrom;
    if Live(s, p) {
      SendFromRing(s, req.caller, AnswerTo(s.current, req, m), p);
    }
  }

  lemma ExitRing(s: State, status: int, p: nat)
    requires Live(s, s.current) && p != s.current
    ensures Live(PrepareExit(s, status), p) ==> Live(s, p) && TaskOf(PrepareExit(s, status), p).ring == TaskOf(s, p).ring && TaskOf(PrepareExit(s, status), p).birth == TaskOf(s, p).birth
  {
  }

  /** Steps that change the current task only, and no ring but by receiving. */
  lemma OwnRing(s: State, a: Action, p: nat)
    requires Live(s, p) && Live(s, s.current) && Enabled(s, a)
    requires IsOwnSection(a)
    ensures Live(Step(s, a), p) && TaskOf(s, p).ring == Received(s, a, p) + TaskOf(Step(s, a), p).ring
  {
    hide Step, Enabled;
    OwnSectionStep(s, a);
    OwnSectionKeeps(TaskOf(s, s.current), s.current, s.callIds, a);
    PollRing(TaskOf(s, s.current));
    hide PollReceive, PollReply, PollNotify, PollChild, StartCall;
  }

  lemma PollRing(t: Task)
    ensures t.ring == (if t.pending == {} && t.ring != [] then [t.ring[0]] else []) + PollReceive(t).ring
  {
    hide Lowest, Awaiting;
  }

  lemma BufferRing(s: State, a: Action, p: nat)
    requires Live(s, p) && Live(s, s.current) && Enabled(s, a) && IsBufferStep(a)
    ensures Live(Step(s, a), p) && TaskOf(Step(s, a), p).ring == TaskOf(s, p).ring
  {
    hide Step, Enabled;
    QuietBufferStep(s, a);
  }

  lemma NotifyRing(s: State, dst: int, bit: nat, p: nat)
    requires Live(s, p)
    ensures Live(NotifyTask(s, dst, bit), p) && TaskOf(NotifyTask(s, dst, bit), p).ring == TaskOf(s, p).ring
  {
  }

  lemma ScheduleRing(s: State, child: nat, p: nat)
    requires Live(s, p)
    ensures Live(ScheduleTask(s, child), p) && TaskOf(ScheduleTask(s, child), p).ring == TaskOf(s, p).ring
  {
  }

  lemma CreateRing(s: State, parent: Option<nat>, p: nat)
    requires Live(s, p)
    ensures Live(CreateTask(s, parent), p) && TaskOf(CreateTask(s, parent), p).ring == TaskOf(s, p).ring
  {
  }

  lemma SendingDelivers(s: State, a: Action, p: nat)
    requires Live(s, s.current) && Enabled(s, a) && Remains(s, Step(s, a), p)
    requires a.Send? || a.AnswerAgain? || a.UnaskedReply? || a.SendRequest? || a.Answer?
    ensures TaskOf(s, p).ring + Sent(s, a, p) == TaskOf(Step(s, a), p).ring
  {
    hide SendMessage, SendFrom, SendCall, ReplyTo;
    match a {
      case Send(dst, m) => SendFromRing(s, dst, OneWay(m), p);
      case AnswerAgain(req, m) => SendFromRing(s, req.caller, AnswerTo(s.current, req, m), p);
      case UnaskedReply(dst, m) => SendFromRing(s, dst, Unasked(s.current, m), p);
      case SendRequest => SendCallRing(s, p);
      case Answer(req, m) => ReplyRing(s, req, m, p);
    }
  }

  /** One step: what was queued and what is sent is what is received and what stays queued. */
  lemma StepDelivers(s: State, a: Action, p: nat)
    requires Safe(s) && Remains(s, Step(s, a), p)
    ensures TaskOf(s, p).ring + Sent(s, a, p) == Received(s, a, p) + TaskOf(Step(s, a), p).ring
  {
    hide SwitchTask, PrepareExit, SendMessage, SendFrom, SendCall, ReplyTo, NotifyTask, ScheduleTask, CreateTask,
      StartCall, PollReply, PollReceive, PollNotify, PollChild, DeliverOol, ReleaseOol, ReleaseRegions, Safe;
    CurrentLive(s);
    if !Enabled(s, a) {
      return;
    }
    match a {
      case Preempt => SwitchRing(s, p);
      case Yield => SwitchRing(Put(s, s.current, TaskOf(s, s.current).(mustSwitch := false)), p);
      case Exit(status) =>
        QuietExit(s, status);
        if p == s.current {
          ExitLeaves(s, status);
        } else {
          ExitRing(s, status, p);
          SwitchRing(PrepareExit(s, status), p);
        }
      case Send(_, _) => SendingDelivers(s, a, p);
      case AnswerAgain(_, _) => SendingDelivers(s, a, p);
      case UnaskedReply(_, _) => SendingDelivers(s, a, p);
      case SendRequest => SendingDelivers(s, a, p);
      case Answer(_, _) => SendingDelivers(s, a, p);
      case Doorbell(to, bit) => NotifyRing(s, to, bit, p);
      case Wake(child) => ScheduleRing(s, child, p);
      case Fork => CreateRing(s, Some(s.current), p);
      case _ =>
        if IsBufferStep(a) {
          BufferRing(s, a, p);
        } else {
          OwnRing(s, a, p);
        }
    }
  }

  function AllSent(s: State, run: seq<Action>, p: nat): seq<Message>
  {
    if run == [] then [] else AllSent(s, run[..|run| - 1], p) + Sent(After(s, run[..|run| - 1]), run[|run| - 1], p)
  }

  function AllReceived(s: State, run: seq<Action>, p: nat): seq<Message>
  {
    if run == [] then [] else AllReceived(s, run[..|run| - 1], p) + Received(After(s, run[..|run| - 1]), run[|run| - 1], p)
  }

  /** Task p lives through the run. */
  predicate LivesThrough(s: State, run: seq<Action>, p: nat)
  {
    if run == [] then Live(s, p)
    else LivesThrough(s, run[..|run| - 1], p) && Remains(After(s, run[..|run| - 1]), After(s, run), p)
  }

  /** Over any run: what was queued, followed by everything sent, is everything received, followed by what is queued now. */
  lemma {:induction false} FirstInFirstOut(s: State, run: seq<Action>, p: nat)
    requires Safe(s) && LivesThrough(s, run, p)
    ensures Live(s, p) && Live(After(s, run), p)
    ensures TaskOf(s, p).ring + AllSent(s, run, p) == AllReceived(s, run, p) + TaskOf(After(s, run), p).ring
  {
    hide Safe, Step, Sent, Received;
    if run != [] {
      var before, a := run[..|run| - 1], run[|run| - 1];
      FirstInFirstOut(s, before, p);
      EveryRunIsSafe(s, before);
      var b := After(s, before);
      StepDelivers(b, a, p);
      var ring, ring', ring'' := TaskOf(s, p).ring, TaskOf(b, p).ring, TaskOf(After(s, run), p).ring;
      var sent, got := AllSent(s, before, p), AllReceived(s, before, p);
      calc {
        ring + AllSent(s, run, p);
        (ring + sent) + Sent(b, a, p);
        (got + ring') + Sent(b, a, p);
        got + (ring' + Sent(b, a, p));
        got + (Received(b, a, p) + ring'');
        AllReceived(s, run, p) + ring'';
      }
    }
  }
}
