/** Message passing and task switching as a step machine: one step is one section that kernel/task/ipc.cpp,
    kernel/task/task.cpp or kernel/syscall/handler.cpp runs with interrupts off, one doorbell interrupt or one task
    switch. A blocking loop (receive_blocking, call, wait_notification, sys_wait) is the sequence of its sections; where
    a task is inside such a loop is its program point. */
module IpcModel {
  import opened Common

  const MAX_TASKS: nat := 100
  const RING_CAPACITY: nat := 64
  const MAX_CHILD_EXIT_RECORDS: nat := 8
  const MAX_OOL_REGIONS: nat := 16
  const NOTIFY_TYPES: nat := 5
  const KERNEL: nat := 0
  const IDLE: nat := 1

  datatype Option<T> = None | Some(value: T)

  datatype Error = Ok | InvalidArg | InvalidTask | QueueFull

  datatype TaskState = Ready | Running | Waiting | Exited
  datatype WaitReason = NoReason | Receive | Notify | Reply | Child

  /** ool is the kernel buffer attached to the message, 0 for none. The kernel never reads birth and call, and no sender
      chooses them: they tell which incarnation of a task id made the request and which of all calls ever made it is the
      request of. A reply to a request received has the labels of that request; any other message has 0 for both. */
  datatype Message = Message(sender: nat, birth: nat, call: nat, correlation: nat, isReply: bool, ool: nat, body: int)

  datatype Request = Request(caller: nat, birth: nat, call: nat, correlation: nat)

  /** One slot of a task's region table; it is free when kaddr is 0. */
  datatype Region = Region(kaddr: nat, uaddr: nat)

  datatype ExitRecord = ExitRecord(pid: nat, status: int)

  /** Where the kernel code of a task is: outside any blocking loop, or in one of them. */
  datatype Point = Free | InReceive | InWait(mask: set<nat>) | Calling(dst: int, request: Message) | InCall(server: nat) | InChildWait

  /** The last six fields are no kernel state: the buffers the task's own kernel code holds, the requests it received and
      has not answered, all requests it ever received, the number of calls it made, which of all calls its latest one is
      and the number of its incarnation. mustSwitch says that the next thing its code does is the software interrupt of
      switch_next_task. */
  datatype Task = Task(
    state: TaskState, waitReason: WaitReason, waitMask: set<nat>, pending: set<nat>, ring: seq<Message>,
    nextCorrelation: nat, callCorrelation: nat, replyPending: bool, replySlot: Message,
    exitRecords: seq<ExitRecord>, regions: seq<Region>, parent: Option<nat>,
    point: Point, mustSwitch: bool, hand: multiset<nat>, held: set<Request>, seen: set<Request>, calls: nat, callId: nat, birth: nat)

  /** payloads are the live out-of-line buffers. Incarnations and calls are numbered from 1 on: births and callIds are the
      numbers the next ones get, and deleted has the incarnations whose task was deleted. */
  datatype State = State(
    tasks: seq<Option<Task>>, queue: seq<nat>, current: nat, reap: Option<nat>,
    births: nat, deleted: set<nat>, callIds: nat, payloads: set<nat>)

  predicate Live(s: State, p: int)
  {
    0 <= p < |s.tasks| && s.tasks[p].Some?
  }

  function TaskOf(s: State, p: nat): Task
    requires Live(s, p)
  {
    s.tasks[p].value
  }

  function Put(s: State, p: nat, t: Task): State
    requires p < |s.tasks|
  {
    s.(tasks := s.tasks[p := Some(t)])
  }

  // ----- scheduling

  function ScheduleTask(s: State, p: int): State
  {
    if !Live(s, p) then s
    else
      var s' := Put(s, p, TaskOf(s, p).(state := Ready));
      if p in s.queue then s' else s'.(queue := s.queue + [p])
  }

  /** The next task in the queue, the idle task when there is none. A queued task is alive in every reachable state; a
      dead one, for which the source has no defined behaviour, leaves the state as it is. */
  function PickNextTask(s: State): State
  {
    if s.queue == [] then s.(current := IDLE)
    else if !Live(s, s.queue[0]) then s
    else
      var p := s.queue[0];
      Put(s, p, TaskOf(s, p).(state := Running)).(queue := s.queue[1..], current := p)
  }

  /** Deletes the task that exited at the switch before, if any. */
  function ReapPendingTask(s: State): State
  {
    if s.reap.Some? then s.(deleted := s.deleted + {s.reap.value}, reap := None) else s
  }

  /** What switch_task does to the task that leaves the processor. */
  function Leave(s: State): State
    requires Live(s, s.current)
  {
    var t := TaskOf(s, s.current);
    if t.state == Exited then s.(reap := Some(t.birth), tasks := s.tasks[s.current := None])
    else if t.state != Waiting then ScheduleTask(s, s.current)
    else s
  }

  function SwitchTask(s: State): State
    requires Live(s, s.current)
  {
    PickNextTask(Leave(ReapPendingTask(s)))
  }

  // ----- delivery

  predicate WakesOnMessage(t: Task)
  {
    t.state == Waiting && (t.waitReason == Receive || t.waitReason == NoReason)
  }

  predicate AcceptsReply(t: Task, m: Message)
  {
    t.callCorrelation != 0 && t.callCorrelation == m.correlation && !t.replyPending
  }

  /** send_message: a reply goes to the slot of the task whose outstanding call it names, anything else to the ring. */
  function SendMessage(s: State, dst: int, m: Message): (State, Error)
  {
    if dst == -1 then (s, InvalidArg)
    else if !Live(s, dst) then (s, InvalidTask)
    else
      var t := TaskOf(s, dst);
      if m.isReply then
        if !AcceptsReply(t, m) then (s, InvalidArg)
        else
          var s' := Put(s, dst, t.(replySlot := m, replyPending := true));
          (if t.state == Waiting && t.waitReason == Reply then ScheduleTask(s', dst) else s', Ok)
      else if |t.ring| >= RING_CAPACITY then (s, QueueFull)
      else
        var s' := Put(s, dst, t.(ring := t.ring + [m]));
        (if WakesOnMessage(t) then ScheduleTask(s', dst) else s', Ok)
  }

  function NotifyTask(s: State, dst: int, bit: nat): State
  {
    if !Live(s, dst) then s
    else
      var t := TaskOf(s, dst);
      var s' := Put(s, dst, t.(pending := t.pending + {bit}));
      if t.state != Waiting || (t.waitReason == Notify && bit !in t.waitMask) then s'
      else ScheduleTask(s', dst)
  }

  // ----- buffers in the hands of a task's kernel code

  function Hold(t: Task, ool: nat): Task
  {
    if ool == 0 then t else t.(hand := t.hand + multiset{ool})
  }

  function LetGo(t: Task, ool: nat): Task
  {
    if ool == 0 then t else t.(hand := t.hand - multiset{ool})
  }

  /** Sends a message of the current task; the attached buffer leaves its hands exactly when the send succeeds. */
  function SendFrom(s: State, dst: int, m: Message): (State, Error)
    requires Live(s, s.current)
  {
    var r := SendMessage(Put(s, s.current, LetGo(TaskOf(s, s.current), m.ool)), dst, m);
    if r.1 == Ok then r else (s, r.1)
  }

  // ----- the sections of the current task

  /** The section that puts the current task to sleep at a program point. */
  function Sleep(t: Task, reason: WaitReason, point: Point): Task
  {
    t.(waitReason := reason, state := Waiting, point := point, mustSwitch := true)
  }

  function NextCorrelation(c: nat): nat
  {
    if (c + 1) % U32 == 0 then 1 else (c + 1) % U32
  }

  function StartCall(t: Task, self: nat, dst: int, m: Message, id: nat): Task
  {
    if dst == self then t
    else
      var c := NextCorrelation(t.nextCorrelation);
      LetGo(t, m.ool).(nextCorrelation := c, callCorrelation := c, replyPending := false, calls := t.calls + 1, callId := id,
         point := Calling(dst, m.(sender := self, birth := t.birth, call := id, correlation := c, isReply := false)))
  }

  function SendCall(s: State): State
    requires Live(s, s.current) && TaskOf(s, s.current).point.Calling?
  {
    var point := TaskOf(s, s.current).point;
    var r := SendMessage(s, point.dst, point.request);
    if r.1 == Ok && Live(r.0, s.current) && point.dst >= 0 then
      Put(r.0, s.current, TaskOf(r.0, s.current).(point := InCall(point.dst)))
    else
      Put(s, s.current, Hold(TaskOf(s, s.current), point.request.ool).(callCorrelation := 0, point := Free))
  }

  function PollReply(t: Task): Task
  {
    if t.replyPending then
      Hold(t, t.replySlot.ool).(replyPending := false, callCorrelation := 0, state := Running, waitReason := NoReason, point := Free)
    else Sleep(t, Reply, t.point)
  }

  function Lowest(bits: set<nat>): nat
  {
    if 0 in bits then 0 else if 1 in bits then 1 else if 2 in bits then 2 else if 3 in bits then 3 else 4
  }

  function Awaiting(m: Message): set<Request>
  {
    if m.correlation == 0 then {} else {Request(m.sender, m.birth, m.call, m.correlation)}
  }

  /** Doorbells first, lowest bit first, then the ring in order. */
  function PollReceive(t: Task): Task
  {
    var awake := t.(state := Running, waitReason := NoReason, point := Free);
    if t.pending != {} then awake.(pending := t.pending - {Lowest(t.pending)})
    else if t.ring != [] then
      var asked := Awaiting(t.ring[0]);
      Hold(awake, t.ring[0].ool).(ring := t.ring[1..], held := t.held + asked, seen := t.seen + asked)
    else Sleep(t, Receive, InReceive)
  }

  function PollNotify(t: Task, mask: set<nat>): Task
  {
    if t.pending * mask != {} then t.(pending := t.pending - mask, waitReason := NoReason, point := Free)
    else Sleep(t, Notify, InWait(mask)).(waitMask := mask)
  }

  function PollChild(t: Task): Task
  {
    if t.exitRecords != [] then t.(exitRecords := t.exitRecords[1..], state := Running, waitReason := NoReason, point := Free)
    else Sleep(t, Child, InChildWait)
  }

  /** reply: the answer goes to the caller under the request's correlation. */
  function AnswerTo(self: nat, req: Request, m: Message): Message
  {
    m.(sender := self, birth := req.birth, call := req.call, correlation := req.correlation, isReply := true)
  }

  function ReplyTo(s: State, req: Request, m: Message): State
    requires Live(s, s.current)
  {
    var r := SendFrom(s, req.caller, AnswerTo(s.current, req, m));
    if r.1 == Ok && Live(r.0, s.current) then
      Put(r.0, s.current, TaskOf(r.0, s.current).(held := TaskOf(r.0, s.current).held - {req}))
    else s
  }

  /** The first free slot of a region table. */
  function FreeSlot(regions: seq<Region>): (i: nat)
    ensures i <= |regions| && (i < |regions| ==> regions[i].kaddr == 0)
    ensures forall j :: 0 <= j < i ==> regions[j].kaddr != 0
  {
    if regions == [] || regions[0].kaddr == 0 then 0
    else
      var i := FreeSlot(regions[1..]);
      assert forall j :: 1 <= j < i + 1 ==> regions[j] == regions[1..][j - 1];
      i + 1
  }

  /** deliver_ool_to_user: the buffer becomes a mapped region, or is freed when it is unaligned, the region table is full
      or it cannot be mapped. */
  function DeliverOol(s: State, ool: nat, aligned: bool, mapped: bool, uaddr: nat): State
    requires Live(s, s.current)
  {
    var t := LetGo(TaskOf(s, s.current), ool);
    var i := FreeSlot(t.regions);
    if !aligned || i == |t.regions| || !mapped then Put(s, s.current, t).(payloads := s.payloads - {ool})
    else Put(s, s.current, t.(regions := t.regions[i := Region(ool, uaddr)]))
  }

  /** The first slot that holds a buffer mapped at uaddr. */
  function RegionIndex(regions: seq<Region>, uaddr: nat): (i: nat)
    ensures i <= |regions| && (i < |regions| ==> regions[i].kaddr != 0 && regions[i].uaddr == uaddr)
    ensures forall j :: 0 <= j < i ==> regions[j].kaddr == 0 || regions[j].uaddr != uaddr
  {
    if regions == [] || (regions[0].kaddr != 0 && regions[0].uaddr == uaddr) then 0
    else
      var i := RegionIndex(regions[1..], uaddr);
      assert forall j :: 1 <= j < i + 1 ==> regions[j] == regions[1..][j - 1];
      i + 1
  }

  function ReleaseOol(s: State, uaddr: nat): State
    requires Live(s, s.current)
  {
    var t := TaskOf(s, s.current);
    var i := RegionIndex(t.regions, uaddr);
    if i == |t.regions| then s
    else Put(s, s.current, t.(regions := t.regions[i := Region(0, 0)])).(payloads := s.payloads - {t.regions[i].kaddr})
  }

  function Kaddrs(regions: seq<Region>): set<nat>
  {
    set i | 0 <= i < |regions| :: regions[i].kaddr
  }

  function Attached(ring: seq<Message>): set<nat>
  {
    set i | 0 <= i < |ring| :: ring[i].ool
  }

  /** A region table with every slot free. */
  function NoRegions(): (regions: seq<Region>)
    ensures |regions| == MAX_OOL_REGIONS && forall i :: 0 <= i < |regions| ==> regions[i] == Region(0, 0)
  {
    seq(MAX_OOL_REGIONS, _ => Region(0, 0))
  }

  function ReleaseRegions(s: State): State
    requires Live(s, s.current)
  {
    var t := TaskOf(s, s.current);
    Put(s, s.current, t.(regions := NoRegions())).(payloads := s.payloads - Kaddrs(t.regions))
  }

  /** release_all_ool: every buffer the task owns goes, with the messages that carried them. */
  function ReleaseAll(s: State): State
    requires Live(s, s.current)
  {
    var t := TaskOf(s, s.current);
    Put(s, s.current, t.(regions := NoRegions(), ring := [], pending := {}, replyPending := false))
    .(payloads := s.payloads - Kaddrs(t.regions) - Attached(t.ring) - (if t.replyPending then {t.replySlot.ool} else {}))
  }

  function RecordChildExit(s: State, parent: nat, child: nat, status: int): State
    requires Live(s, parent)
  {
    var t := TaskOf(s, parent);
    if |t.exitRecords| >= MAX_CHILD_EXIT_RECORDS then s
    else
      var s' := Put(s, parent, t.(exitRecords := t.exitRecords + [ExitRecord(child, status)]));
      if t.state == Waiting && t.waitReason == Child then ScheduleTask(s', parent) else s'
  }

  /** exit_task up to its final switch. */
  function PrepareExit(s: State, status: int): State
    requires Live(s, s.current)
  {
    var parent := TaskOf(s, s.current).parent;
    var s1 := ReleaseAll(s);
    var s2 := if parent.Some? && Live(s1, parent.value) then RecordChildExit(s1, parent.value, s.current, status) else s1;
    if Live(s2, s.current) then Put(s2, s.current, TaskOf(s2, s.current).(state := Exited)) else s2
  }

  // ----- creating tasks

  function NewTask(parent: Option<nat>, birth: nat): Task
  {
    Task(Waiting, NoReason, {}, {}, [], 0, 0, false, Message(0, 0, 0, 0, false, 0, 0), [], NoRegions(), parent,
         Free, false, multiset{}, {}, {}, 0, 0, birth)
  }

  function AvailableId(tasks: seq<Option<Task>>, i: nat): (r: nat)
    requires i <= |tasks|
    ensures i <= r <= |tasks| && (r < |tasks| ==> tasks[r].None?)
    ensures forall j :: i <= j < r ==> tasks[j].Some?
    decreases |tasks| - i
  {
    if i == |tasks| || tasks[i].None? then i else AvailableId(tasks, i + 1)
  }

  /** create_task in the lowest free slot; a full table changes nothing. */
  function CreateTask(s: State, parent: Option<nat>): State
  {
    var p := AvailableId(s.tasks, 0);
    if p == |s.tasks| then s
    else Put(s, p, NewTask(parent, s.births)).(births := s.births + 1)
  }

  // ----- steps and runs

  datatype Action =
    | Preempt
    | Yield
    | Doorbell(to: int, bit: nat)
    | AllocPayload(ool: nat)
    | FreePayload(ool: nat)
    | Send(dst: int, m: Message)
    | Call(dst: int, m: Message)
    | SendRequest
    | AwaitReply
    | Answer(req: Request, m: Message)
    | AnswerAgain(req: Request, m: Message)
    | UnaskedReply(dst: int, m: Message)
    | ReceiveMessage
    | WaitNotification(mask: set<nat>)
    | WaitChild
    | Deliver(ool: nat, aligned: bool, mapped: bool, uaddr: nat)
    | Release(uaddr: nat)
    | Exec
    | Fork
    | Wake(child: nat)
    | Exit(status: int)

  /** A message the current task may send: its buffer, if any, is in the task's hands. */
  predicate Sendable(t: Task, m: Message)
  {
    m.ool == 0 || m.ool in t.hand
  }

  predicate Unmapped(t: Task, uaddr: nat)
  {
    forall i :: 0 <= i < |t.regions| ==> t.regions[i].kaddr == 0 || t.regions[i].uaddr != uaddr
  }

  /** A one-way message as the kernel sends it: whatever sender and correlation it states, no call made it. */
  function OneWay(m: Message): Message
  {
    m.(birth := 0, call := 0)
  }

  /** A reply that answers no request its sender received. */
  function Unasked(self: nat, m: Message): Message
  {
    m.(sender := self, birth := 0, call := 0, isReply := true)
  }

  /** The current task's own code runs outside its blocking loops, except where stated: interrupts come at any time, the
      idle task only idles and the two scheduler tasks never exit. A destination is a slot number or -1. */
  predicate Enabled(s: State, a: Action)
    requires Live(s, s.current)
  {
    var t := TaskOf(s, s.current);
    var runs := s.current != IDLE && !t.mustSwitch;
    var outside := runs && t.point.Free?;
    match a
    case Preempt => true
    case Yield => t.mustSwitch
    case Doorbell(_, bit) => bit < NOTIFY_TYPES
    case AllocPayload(p) => outside && p != 0 && p !in s.payloads
    case FreePayload(p) => outside && p in t.hand
    case Send(dst, m) => outside && -1 <= dst < MAX_TASKS && !m.isReply && Sendable(t, m)
    case Call(dst, m) => outside && -1 <= dst < MAX_TASKS && Sendable(t, m)
    case SendRequest => runs && t.point.Calling?
    case AwaitReply => runs && t.point.InCall?
    case Answer(req, m) => outside && req in t.held && Sendable(t, m)
    case AnswerAgain(req, m) => outside && req in t.seen && Sendable(t, m)
    case UnaskedReply(dst, m) => outside && -1 <= dst < MAX_TASKS && Sendable(t, m)
    case ReceiveMessage => runs && (t.point.Free? || t.point.InReceive?)
    case WaitNotification(mask) => runs && (t.point.Free? || t.point == InWait(mask)) && forall b :: b in mask ==> b < 32
    case WaitChild => runs && (t.point.Free? || t.point.InChildWait?)
    case Deliver(p, _, _, uaddr) => outside && p != 0 && p in t.hand && Unmapped(t, uaddr)
    case Release(_) => outside
    case Exec => outside
    case Fork => outside && t.parent.None?
    case Wake(child) => outside && child != s.current
    case Exit(_) => outside && t.hand == multiset{} && s.current != KERNEL
  }

  function Act(s: State, a: Action): State
    requires Live(s, s.current)
  {
    var t := TaskOf(s, s.current);
    match a
    case Preempt => SwitchTask(s)
    case Yield => SwitchTask(Put(s, s.current, t.(mustSwitch := false)))
    case Doorbell(to, bit) => NotifyTask(s, to, bit)
    case AllocPayload(p) => Put(s, s.current, Hold(t, p)).(payloads := s.payloads + {p})
    case FreePayload(p) => Put(s, s.current, LetGo(t, p)).(payloads := s.payloads - {p})
    case Send(dst, m) => SendFrom(s, dst, OneWay(m)).0
    case Call(dst, m) => Put(s, s.current, StartCall(t, s.current, dst, m, s.callIds)).(callIds := s.callIds + 1)
    case SendRequest => if t.point.Calling? then SendCall(s) else s
    case AwaitReply => Put(s, s.current, PollReply(t))
    case Answer(req, m) => ReplyTo(s, req, m)
    case AnswerAgain(req, m) => SendFrom(s, req.caller, AnswerTo(s.current, req, m)).0
    case UnaskedReply(dst, m) => SendFrom(s, dst, Unasked(s.current, m)).0
    case ReceiveMessage => Put(s, s.current, PollReceive(t))
    case WaitNotification(mask) => Put(s, s.current, PollNotify(t, mask))
    case WaitChild => Put(s, s.current, PollChild(t))
    case Deliver(p, aligned, mapped, uaddr) => DeliverOol(s, p, aligned, mapped, uaddr)
    case Release(uaddr) => ReleaseOol(s, uaddr)
    case Exec => ReleaseRegions(s)
    case Fork => CreateTask(s, Some(s.current))
    case Wake(child) => ScheduleTask(s, child)
    case Exit(status) =>
      var e := PrepareExit(s, status);
      if Live(e, e.current) then SwitchTask(e) else e
  }

  /** A step that is not enabled does nothing. */
  function Step(s: State, a: Action): State
  {
    if Live(s, s.current) && Enabled(s, a) then Act(s, a) else s
  }

  /** The state after a run. */
  function After(s: State, run: seq<Action>): State
  {
    if run == [] then s else Step(After(s, run[..|run| - 1]), run[|run| - 1])
  }

  // ----- boot

  /** initialize: the kernel's main task, the idle task and the services, all queued; the main task is current. */
  function Boot(services: nat): State
    requires services + 2 <= MAX_TASKS
  {
    var n := services + 2;
    State(seq(MAX_TASKS, i requires 0 <= i < MAX_TASKS => if i < n then Some(NewTask(None, i + 1).(state := if i == KERNEL then Running else Ready)) else None),
          seq(n, i requires 0 <= i < n => i), KERNEL, None, n + 1, {}, 1, {})
  }
}
