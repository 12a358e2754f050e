/** The kernel's own data structures: the task table, the linked run queue, and in each task the message ring, the doorbell
    words, the exit records and the region table. The sections of kernel/task/ipc.cpp, kernel/task/task.cpp and sys_wait do
    to them what the step machine does to its state, so what is proved about its runs holds for the kernel. */
module IpcKernel {
  import opened Common
  import opened BitUtils
  import opened Words
  import opened IpcModel
  import opened IpcScheduler
  import opened IpcRuns
  import opened IpcCalls
  import opened IntrusiveList
  import opened TaskObjects

  class Kernel {
    const tasks: array<TaskObject?>
    const runQueue: Elem
    /** Null until the kernel has booted. */
    var current: TaskObject?
    var idle: TaskObject?
    var taskPendingReap: TaskObject?
    var births: nat
    var callIds: nat
    var payloads: set<nat>
    /** The state of the step machine that all this stands for, and the elements of the run queue in order. */
    ghost var s: State
    ghost var elems: seq<Elem>
    ghost var repr: set<object>

    /** Slot i of the task table is slot i of the step machine. */
    ghost predicate SlotValid(i: nat)
      requires tasks in repr && i < tasks.Length
      reads this, repr
    {
      if tasks[i] == null then i < |s.tasks| && s.tasks[i].None?
      else
        && tasks[i].id == i && tasks[i].elem.container == i
        && tasks[i].Repr() <= repr && {this, tasks, runQueue} !! tasks[i].Repr()
        && tasks[i].Valid() && i < |s.tasks| && s.tasks[i] == Some(tasks[i].Abs())
    }

    ghost predicate Separate(i: nat, j: nat)
      requires i < tasks.Length && j < tasks.Length
      reads tasks
    {
      i != j && tasks[i] != null && tasks[j] != null ==> tasks[i].Repr() !! tasks[j].Repr()
    }

    ghost predicate QueueEntry(i: nat)
      requires i < |s.queue| && |s.queue| == |elems|
      reads this, tasks
    {
      s.queue[i] < tasks.Length && tasks[s.queue[i]] != null && tasks[s.queue[i]].elem == elems[i]
    }

    /** The list holds the elements of the queued tasks, in order. */
    ghost predicate QueueValid()
      requires tasks in repr
      reads this, repr
    {
      && runQueue in repr && (forall e :: e in elems ==> e in repr) && IsList(runQueue, elems)
      && |s.queue| == |elems| && forall i: nat :: i < |s.queue| ==> QueueEntry(i)
    }

    ghost predicate PointersValid()
      requires tasks.Length == MAX_TASKS
      reads this, tasks
    {
      && s.current == (if current == null then KERNEL else current.id)
      && (current != null ==> current.id < tasks.Length && (tasks[current.id] != null ==> tasks[current.id] == current))
      && (idle != null ==> idle.id == IDLE && (tasks[IDLE] != null ==> tasks[IDLE] == idle))
      && s.reap == (if taskPendingReap == null then None else Some(taskPendingReap.birth))
      && s.births == births && s.callIds == callIds && s.payloads == payloads && 0 !in payloads
    }

    ghost predicate Valid()
      reads this, repr
    {
      && this in repr && tasks in repr && tasks.Length == MAX_TASKS && |s.tasks| == MAX_TASKS
      && (forall i: nat :: i < tasks.Length ==> SlotValid(i))
      && (forall i: nat, j: nat :: i < tasks.Length && j < tasks.Length ==> Separate(i, j))
      && QueueValid() && PointersValid()
    }

    /** No task yet. */
    constructor Empty()
      ensures Valid() && fresh(repr) && current == null && idle == null
      ensures s == State(seq(MAX_TASKS, _ => None), [], KERNEL, None, 1, {}, 1, {})
    {
      tasks := new TaskObject?[MAX_TASKS](_ => null);
      var h := new Elem(0);
      runQueue := h;
      current, idle, taskPendingReap := null, null, null;
      births, callIds, payloads := 1, 1, {};
      s, elems := State(seq(MAX_TASKS, _ => None), [], KERNEL, None, 1, {}, 1, {}), [];
      repr := {this, tasks, h};
      new;
      Init(runQueue);
      assert forall i: nat :: i < MAX_TASKS ==> tasks[i] == null;
    }

    /** When nothing but one task changes, apart from the links of the list, that task of the step machine changes and no
        other. */
    twostate lemma Updated(p: int)
      requires old(Valid()) && tasks[..] == old(tasks[..]) && repr == old(repr)
      requires |s.tasks| == MAX_TASKS && forall i :: 0 <= i < MAX_TASKS && i != p ==> s.tasks[i] == old(s).tasks[i]
      requires forall i: nat :: i < tasks.Length && i != p && tasks[i] != null ==> unchanged(tasks[i].Body())
      requires 0 <= p < tasks.Length && tasks[p] != null ==> tasks[p].Valid() && s.tasks[p] == Some(tasks[p].Abs())
      requires 0 <= p < tasks.Length && tasks[p] == null ==> s.tasks[p].None?
      requires QueueValid() && PointersValid()
      ensures Valid()
    {
      assert forall i: nat :: i < tasks.Length ==> tasks[i] == old(tasks[i]);
      forall i: nat | i < tasks.Length
        ensures SlotValid(i)
      {
        assert old(SlotValid(i));
      }
      forall i: nat, j: nat | i < tasks.Length && j < tasks.Length
        ensures Separate(i, j)
      {
        assert old(Separate(i, j));
      }
    }

    /** The same when no link changes. */
    twostate lemma TaskUpdated(p: nat)
      requires old(Valid()) && tasks[..] == old(tasks[..]) && repr == old(repr) && elems == old(elems)
      requires p < tasks.Length && tasks[p] != null && tasks[p].Valid()
      requires s.tasks == old(s).tasks[p := Some(tasks[p].Abs())] && s.queue == old(s).queue
      requires forall o :: o in repr && o !in tasks[p].Body() && o != this ==> unchanged(o)
      requires PointersValid()
      ensures Valid()
    {
      hide TaskObject.Abs, TaskObject.Valid;
      forall i: nat | i < tasks.Length && tasks[i] != null
        ensures unchanged(tasks[i].elem) && (i != p ==> unchanged(tasks[i].Body()))
      {
        assert tasks[i] == old(tasks[i]);
        assert old(SlotValid(i)) && old(SlotValid(p)) && old(Separate(i, p));
      }
      LinksKept();
      Updated(p);
    }

    twostate lemma LinksKept()
      requires old(Valid()) && tasks[..] == old(tasks[..]) && repr == old(repr) && elems == old(elems) && s.queue == old(s).queue
      requires unchanged(runQueue) && forall i: nat :: i < tasks.Length && tasks[i] != null ==> unchanged(tasks[i].elem)
      ensures QueueValid()
    {
      hide SlotValid, Separate;
      forall i: nat | i < |s.queue|
        ensures QueueEntry(i) && unchanged(elems[i])
      {
        assert old(QueueEntry(i));
        assert tasks[s.queue[i]] == old(tasks[s.queue[i]]);
      }
      assert old(IsList(runQueue, elems));
    }

    /** The same when no task changes at all. */
    twostate lemma SelfUpdated()
      requires old(Valid()) && repr == old(repr) && elems == old(elems) && s.tasks == old(s).tasks && s.queue == old(s).queue
      requires forall o :: o in repr && o != this ==> unchanged(o)
      requires PointersValid()
      ensures Valid()
    {
      hide TaskObject.Abs, TaskObject.Valid;
      assert old(PointersValid());
      forall i: nat | i < tasks.Length && tasks[i] != null
        ensures unchanged(tasks[i].elem) && unchanged(tasks[i].Body())
      {
        assert old(SlotValid(i));
      }
      LinksKept();
      Updated(-1);
    }

    /** What the fields of a task say about the step machine's task. */
    lemma Fields(id: nat)
      requires Valid() && id < tasks.Length && tasks[id] != null
      ensures Live(s, id) && tasks[id].Valid() && TaskOf(s, id) == tasks[id].Abs() && tasks[id].id == id
      ensures tasks[id].Repr() <= repr && {this, tasks, runQueue} !! tasks[id].Repr()
      ensures var t := TaskOf(s, id);
              && t.state == tasks[id].state && t.waitReason == tasks[id].waitReason && t.waitMask == Bits(tasks[id].waitNotifyMask)
              && t.callCorrelation == tasks[id].callCorrelation && t.replyPending == tasks[id].replyPending
              && t.replySlot == tasks[id].replySlot && t.point == tasks[id].point && t.parent == tasks[id].parent && t.birth == tasks[id].birth
    {
      assert SlotValid(id);
    }

    lemma Dead(id: nat)
      requires Valid() && id < tasks.Length && tasks[id] == null
      ensures !Live(s, id)
    {
      assert SlotValid(id);
    }

    /** The table and the pointers into it are as before. */
    twostate predicate SameTable()
      reads this, tasks
    {
      tasks[..] == old(tasks[..]) && current == old(current) && idle == old(idle) && repr == old(repr)
    }

    // ----- scheduling

    /** A task is queued exactly when its element is in the list. */
    lemma QueuedElem(id: nat)
      requires Valid() && id < tasks.Length && tasks[id] != null
      ensures tasks[id].elem in elems <==> id in s.queue
    {
      if tasks[id].elem in elems {
        var k :| 0 <= k < |elems| && elems[k] == tasks[id].elem;
        assert QueueEntry(k) && Separate(id, s.queue[k]);
        assert tasks[id].elem in tasks[id].Repr() && tasks[id].elem in tasks[s.queue[k]].Repr();
      }
      if id in s.queue {
        var k :| 0 <= k < |s.queue| && s.queue[k] == id;
        assert QueueEntry(k);
      }
    }

    lemma ElemsOwned()
      requires Valid()
      ensures runQueue in repr && forall e :: e in elems ==> e in repr
    {
    }

    method Enqueue(id: nat)
      requires Valid() && id < tasks.Length && tasks[id] != null && id !in s.queue
      modifies this`s, this`elems, runQueue, elems, tasks[id].elem
      ensures Valid() && s == old(s).(queue := old(s).queue + [id])
    {
      hide IsList, Separate, TaskObject.Abs, TaskObject.Valid;
      assert SlotValid(id);
      QueuedElem(id);
      var elem := tasks[id].elem;
      PushBack(runQueue, elem, elems);
      elems := elems + [elem];
      s := s.(queue := s.queue + [id]);
      forall i: nat | i < |s.queue|
        ensures QueueEntry(i)
      {
        assert i < |old(s).queue| ==> old(QueueEntry(i));
      }
      Updated(-1);
    }

    method SetState(id: nat, x: TaskState)
      requires Valid() && id < tasks.Length && tasks[id] != null
      modifies this`s, tasks[id]
      ensures Valid() && Live(old(s), id) && s == Put(old(s), id, TaskOf(old(s), id).(state := x))
    {
      hide Valid, TaskObject.Abs, TaskObject.Valid;
      Whole();
      Fields(id);
      tasks[id].SetState(x);
      s := Put(s, id, TaskOf(s, id).(state := x));
      TaskUpdated(id);
    }

    method IsQueued(id: nat) returns (queued: bool)
      requires Valid() && id < tasks.Length && tasks[id] != null
      ensures queued <==> id in s.queue
    {
      hide IsList, Separate, SlotValid;
      QueuedElem(id);
      queued := Contains(runQueue, tasks[id].elem, elems);
    }

    method ScheduleTask(id: int)
      requires Valid()
      modifies repr
      ensures Valid() && s == IpcModel.ScheduleTask(old(s), id) && SameTable()
    {
      hide Valid;
      Whole();
      if id < 0 || tasks.Length <= id || tasks[id] == null {
        if 0 <= id < tasks.Length {
          Dead(id);
        }
        return;
      }
      Fields(id);
      SetState(id, Ready);
      var queued := IsQueued(id);
      if queued {
        return;
      }
      ElemsOwned();
      Enqueue(id);
    }

    /** The front of the list is the front of the queue. */
    method Dequeue() returns (front: Elem)
      requires Valid() && s.queue != []
      modifies this`s, this`elems, runQueue, elems
      ensures Valid() && s == old(s).(queue := old(s).queue[1..])
      ensures old(s).queue[0] < tasks.Length && tasks[old(s).queue[0]] != null && front.container == old(s).queue[0]
    {
      hide IsList, Separate, TaskObject.Abs, TaskObject.Valid;
      assert QueueEntry(0) && SlotValid(s.queue[0]);
      front := PopFront(runQueue, elems);
      elems := elems[1..];
      s := s.(queue := s.queue[1..]);
      forall i: nat | i < |s.queue|
        ensures QueueEntry(i)
      {
        assert old(QueueEntry(i + 1));
      }
      Updated(-1);
    }

    method PickNextTask()
      requires Valid() && idle != null
      modifies repr
      ensures Valid() && s == IpcModel.PickNextTask(old(s)) && current != null
      ensures tasks[..] == old(tasks[..]) && idle == old(idle) && repr == old(repr)
    {
      hide Valid;
      Whole();
      ElemsOwned();
      var empty := QueueIsEmpty();
      if empty {
        SetCurrent(idle);
        return;
      }
      var front := Dequeue();
      var scheduled := tasks[front.container];
      Fields(front.container);
      SetState(front.container, Running);
      SetCurrent(scheduled);
    }

    method SetCurrent(t: TaskObject)
      requires Valid() && t.id < tasks.Length && (tasks[t.id] != null ==> tasks[t.id] == t)
      modifies this`current, this`s
      ensures Valid() && s == old(s).(current := t.id) && current == t
    {
      hide Valid, SlotValid, Separate, IsList;
      Whole();
      current := t;
      s := s.(current := t.id);
      SelfUpdated();
    }

    method QueueIsEmpty() returns (empty: bool)
      requires Valid()
      ensures empty <==> s.queue == []
    {
      hide IsList, Separate, SlotValid;
      empty := IsEmpty(runQueue, elems);
    }

    method ReapPendingTask()
      requires Valid()
      modifies this`taskPendingReap, this`s
      ensures Valid() && s == IpcModel.ReapPendingTask(old(s))
    {
      hide Valid, SlotValid, Separate, IsList;
      Whole();
      taskPendingReap := null;
      s := IpcModel.ReapPendingTask(s);
      SelfUpdated();
    }

    lemma Whole()
      requires Valid()
      ensures tasks in repr && this in repr && tasks.Length == MAX_TASKS && |s.tasks| == MAX_TASKS && PointersValid()
    {
    }

    /** The task in a slot leaves the table; the next switch deletes it. */
    method StashTask(id: nat)
      requires Valid() && id < tasks.Length && tasks[id] != null && id !in s.queue
      modifies this`taskPendingReap, this`s, tasks
      ensures Valid() && Live(old(s), id) && current == old(current) && idle == old(idle) && repr == old(repr)
      ensures s == old(s).(reap := Some(TaskOf(old(s), id).birth), tasks := old(s).tasks[id := None])
    {
      hide IsList, TaskObject.Abs, TaskObject.Valid;
      Fields(id);
      taskPendingReap := tasks[id];
      tasks[id] := null;
      s := s.(reap := Some(TaskOf(s, id).birth), tasks := s.tasks[id := None]);
      forall i: nat | i < tasks.Length
        ensures SlotValid(i)
      {
        assert old(SlotValid(i));
      }
      forall i: nat, j: nat | i < tasks.Length && j < tasks.Length
        ensures Separate(i, j)
      {
        assert old(Separate(i, j));
      }
      forall i: nat | i < |s.queue|
        ensures QueueEntry(i)
      {
        assert old(QueueEntry(i));
      }
    }

    method SwitchTask()
      requires Valid() && SafeBut(s, s.current) && MayLeave(TaskOf(s, s.current), s.current, s.current in s.queue)
      requires current != null && idle != null
      modifies repr
      ensures Valid() && s == IpcModel.SwitchTask(old(s)) && Safe(s) && current != null && idle == old(idle) && repr == old(repr)
    {
      hide Valid, Safe, SafeBut, MayLeave;
      Whole();
      SwitchSafe(s);
      CurrentExists(s);
      CurrentNow();
      ReapPendingTask();
      Whole();
      Fields(current.id);
      if current.state == Exited {
        MayStash(old(s));
        StashTask(current.id);
      } else if current.state != Waiting {
        ScheduleTask(current.id);
      }
      PickNextTask();
    }

    /** CURRENT_TASK is the task in its own slot. */
    lemma CurrentNow()
      requires Valid() && current != null && Live(s, s.current)
      ensures current.id == s.current && current.id < tasks.Length && tasks[current.id] == current
    {
      assert SlotValid(current.id);
    }

    /** get_available_task_id and create_task. */
    method CreateTask(parent: Option<nat>)
      requires Valid() && (current != null ==> Live(s, s.current)) && (idle != null ==> Live(s, IDLE))
      modifies repr
      ensures Valid() && s == IpcModel.CreateTask(old(s), parent) && fresh(repr - old(repr))
      ensures current == old(current) && idle == old(idle)
    {
      hide Valid, IpcModel.CreateTask, TaskObject.Abs, TaskObject.Valid;
      Whole();
      var i := FindFree();
      if i == tasks.Length {
        Full(s, parent);
        return;
      }
      var t := new TaskObject(i, parent, births);
      Created(s, parent, i);
      Dead(i);
      AddTask(t, parent);
    }

    method FindFree() returns (i: nat)
      requires Valid()
      ensures i <= tasks.Length && i == AvailableId(s.tasks, 0) && (i < tasks.Length ==> tasks[i] == null)
    {
      i := 0;
      while i < tasks.Length && tasks[i] != null
        invariant i <= tasks.Length && AvailableId(s.tasks, 0) == AvailableId(s.tasks, i)
      {
        assert SlotValid(i);
        i := i + 1;
      }
      assert i < tasks.Length ==> SlotValid(i);
    }

    method AddTask(t: TaskObject, parent: Option<nat>)
      requires Valid() && t.id < tasks.Length && tasks[t.id] == null && t.Repr() !! repr && t.elem.container == t.id
      requires t.Valid() && t.Abs() == NewTask(parent, births) && (t.id == IDLE ==> idle == null) && (current != null ==> t.id != current.id)
      modifies this`births, this`s, this`repr, tasks
      ensures Valid() && repr == old(repr) + t.Repr() && current == old(current) && idle == old(idle)
      ensures s == Put(old(s), t.id, NewTask(parent, old(s).births)).(births := old(s).births + 1)
    {
      hide IsList, TaskObject.Abs, TaskObject.Valid;
      tasks[t.id] := t;
      births := births + 1;
      repr := repr + t.Repr();
      s := Put(s, t.id, NewTask(parent, s.births)).(births := s.births + 1);
      forall i: nat | i < tasks.Length
        ensures SlotValid(i)
      {
        assert old(SlotValid(i));
      }
      forall i: nat, j: nat | i < tasks.Length && j < tasks.Length
        ensures Separate(i, j)
      {
        assert old(Separate(i, j)) && old(SlotValid(i)) && old(SlotValid(j));
      }
      forall i: nat | i < |s.queue|
        ensures QueueEntry(i)
      {
        assert old(QueueEntry(i));
      }
    }

    /** initialize: the two scheduler tasks and the services, created and scheduled in order; the main task runs. */
    method Initialize(services: nat)
      requires Valid() && services + 2 <= MAX_TASKS && current == null && idle == null
      requires s == State(seq(MAX_TASKS, _ => None), [], KERNEL, None, 1, {}, 1, {})
      modifies repr
      ensures Valid() && s == Boot(services) && Safe(s) && current != null && idle != null && fresh(repr - old(repr))
    {
      hide Valid, IpcModel.CreateTask, IpcModel.ScheduleTask;
      var i := 0;
      while i < services + 2
        invariant i <= services + 2 && Valid() && s == Spawned(i) && current == null && idle == null && fresh(repr - old(repr))
      {
        CreateTask(None);
        ScheduleTask(i);
        SpawnNext(i);
        i := i + 1;
      }
      Whole();
      assert Live(s, KERNEL) && Live(s, IDLE);
      Alive(KERNEL);
      Alive(IDLE);
      SetCurrent(tasks[KERNEL]);
      SetIdle(tasks[IDLE]);
      SetState(KERNEL, Running);
      assert s.tasks == Boot(services).tasks;
      BootSafe(services);
    }

    method SetIdle(t: TaskObject)
      requires Valid() && t.id == IDLE && (tasks[IDLE] != null ==> tasks[IDLE] == t)
      modifies this`idle
      ensures Valid() && idle == t
    {
      hide Valid, SlotValid, Separate, IsList;
      Whole();
      idle := t;
      SelfUpdated();
    }

    lemma Alive(id: nat)
      requires Valid() && Live(s, id)
      ensures id < tasks.Length && tasks[id] != null && tasks[id].id == id && tasks[id] in repr
    {
      assert SlotValid(id);
    }

    // ----- delivery

    method SendMessage(dst: int, m: Message) returns (err: Error)
      requires Valid()
      modifies repr
      ensures Valid() && (s, err) == IpcModel.SendMessage(old(s), dst, m) && SameTable()
    {
      hide Valid, TaskObject.Abs, TaskObject.Valid, IpcModel.ScheduleTask;
      Whole();
      if dst == -1 {
        return InvalidArg;
      }
      if dst < 0 || tasks.Length <= dst || tasks[dst] == null {
        if 0 <= dst < tasks.Length {
          Dead(dst);
        }
        return InvalidTask;
      }
      Fields(dst);
      var t := tasks[dst];
      if m.isReply {
        if t.callCorrelation == 0 || t.callCorrelation != m.correlation || t.replyPending {
          return InvalidArg;
        }
        t.AcceptReply(m);
        s := Put(s, dst, TaskOf(s, dst).(replySlot := m, replyPending := true));
        TaskUpdated(dst);
        if t.state == Waiting && t.waitReason == Reply {
          ScheduleTask(dst);
        }
        return Ok;
      }
      err := QueueMessage(dst, m);
    }

    method QueueMessage(dst: nat, m: Message) returns (err: Error)
      requires Valid() && dst < tasks.Length && tasks[dst] != null && !m.isReply
      modifies repr
      ensures Valid() && (s, err) == IpcModel.SendMessage(old(s), dst, m) && SameTable()
    {
      hide Valid, TaskObject.Abs, TaskObject.Valid, IpcModel.ScheduleTask;
      Whole();
      Fields(dst);
      var t := tasks[dst];
      var pushed := t.Push(m);
      if !pushed {
        assert s.tasks[dst := Some(t.Abs())] == s.tasks;
        TaskUpdated(dst);
        return QueueFull;
      }
      s := Put(s, dst, TaskOf(s, dst).(ring := TaskOf(s, dst).ring + [m]));
      TaskUpdated(dst);
      if t.state == Waiting && (t.waitReason == Receive || t.waitReason == NoReason) {
        ScheduleTask(dst);
      }
      return Ok;
    }

    method NotifyTask(dst: int, bit: nat)
      requires Valid() && bit < NOTIFY_TYPES
      modifies repr
      ensures Valid() && s == IpcModel.NotifyTask(old(s), dst, bit) && SameTable()
    {
      hide Valid, TaskObject.Abs, TaskObject.Valid, IpcModel.ScheduleTask;
      Whole();
      if dst < 0 || dst >= tasks.Length || tasks[dst] == null {
        if 0 <= dst < tasks.Length {
          Dead(dst);
        }
        return;
      }
      Fields(dst);
      var t := tasks[dst];
      t.RaiseNotification(bit);
      s := Put(s, dst, TaskOf(s, dst).(pending := TaskOf(s, dst).pending + {bit}));
      TaskUpdated(dst);
      if t.state != Waiting {
        return;
      }
      MaskBit(t.waitNotifyMask, bit);
      if t.waitReason == Notify && And(t.waitNotifyMask, Pow2(bit)) == 0 {
        return;
      }
      ScheduleTask(dst);
    }

    /** A send of the current task: the attached buffer leaves its hands exactly when the send succeeds. */
    method SendFrom(dst: int, m: Message) returns (err: Error)
      requires Valid() && current != null && Live(s, s.current)
      modifies repr
      ensures Valid() && (s, err) == IpcModel.SendFrom(old(s), dst, m) && SameTable() && Live(s, s.current)
    {
      hide Valid, TaskObject.Abs, TaskObject.Valid, IpcModel.SendMessage, IpcModel.SendFrom, Put;
      SendThenLetGo(s, dst, m);
      err := SendMessage(dst, m);
      if err == Ok {
        LetGoOf(m.ool);
      }
    }

    ghost method LetGoOf(ool: nat)
      requires Valid() && current != null && Live(s, s.current)
      modifies repr
      ensures Valid() && s == Put(old(s), old(s).current, LetGo(TaskOf(old(s), old(s).current), ool)) && SameTable() && Live(s, s.current)
    {
      hide Valid, TaskObject.Abs, TaskObject.Valid, LetGo;
      Whole();
      CurrentNow();
      Fields(current.id);
      current.LetsGo(ool);
      s := Put(s, current.id, LetGo(TaskOf(s, current.id), ool));
      TaskUpdated(current.id);
    }

    // ----- the sections of the blocking calls

    /** call() up to its send. */
    method StartCall(dst: int, m: Message)
      requires Valid() && current != null && Live(s, s.current)
      modifies repr
      ensures Valid() && SameTable()
      ensures s == Put(old(s), old(s).current, IpcModel.StartCall(TaskOf(old(s), old(s).current), old(s).current, dst, m, old(s).callIds)).(callIds := old(s).callIds + 1)
    {
      hide Valid, TaskObject.Abs, TaskObject.Valid, IpcModel.StartCall;
      Whole();
      CurrentNow();
      Fields(current.id);
      current.BeginCall(dst, m, callIds);
      s := Put(s, current.id, IpcModel.StartCall(TaskOf(s, current.id), current.id, dst, m, s.callIds)).(callIds := s.callIds + 1);
      callIds := callIds + 1;
      TaskUpdated(current.id);
    }

    method SendCall()
      requires Valid() && current != null && Live(s, s.current) && TaskOf(s, s.current).point.Calling?
      modifies repr
      ensures Valid() && s == IpcModel.SendCall(old(s)) && SameTable()
    {
      hide Valid, TaskObject.Abs, TaskObject.Valid, IpcModel.SendMessage;
      Whole();
      CurrentNow();
      Fields(current.id);
      var point := current.point;
      QuietSend(s, point.dst, point.request);
      Refused(s, point.dst, point.request);
      NoNegative(s, point.dst, point.request);
      var err := SendMessage(point.dst, point.request);
      if err != Ok {
        FailCall();
      } else {
        EnterCall(point.dst);
      }
    }

    method FailCall()
      requires Valid() && current != null && Live(s, s.current) && TaskOf(s, s.current).point.Calling?
      modifies repr
      ensures Valid() && SameTable()
      ensures var t := TaskOf(old(s), old(s).current);
              s == Put(old(s), old(s).current, Hold(t, t.point.request.ool).(callCorrelation := 0, point := Free))
    {
      hide Valid, TaskObject.Abs, TaskObject.Valid, Hold;
      Whole();
      CurrentNow();
      Fields(current.id);
      ghost var t := TaskOf(s, current.id);
      current.CallFails();
      s := Put(s, current.id, Hold(t, t.point.request.ool).(callCorrelation := 0, point := Free));
      TaskUpdated(current.id);
    }

    method EnterCall(dst: nat)
      requires Valid() && current != null && Live(s, s.current)
      modifies repr
      ensures Valid() && s == Put(old(s), old(s).current, TaskOf(old(s), old(s).current).(point := InCall(dst))) && SameTable()
    {
      hide Valid, TaskObject.Abs, TaskObject.Valid;
      Whole();
      CurrentNow();
      Fields(current.id);
      current.SetPoint(InCall(dst));
      s := Put(s, current.id, TaskOf(s, current.id).(point := InCall(dst)));
      TaskUpdated(current.id);
    }

    /** One pass of call()'s loop. */
    method AwaitReply() returns (reply: Option<Message>)
      requires Valid() && current != null && Live(s, s.current)
      modifies repr
      ensures var t := TaskOf(old(s), old(s).current); reply == if t.replyPending then Some(t.replySlot) else None
      ensures Valid() && s == Put(old(s), old(s).current, PollReply(TaskOf(old(s), old(s).current))) && SameTable()
    {
      hide Valid, TaskObject.Abs, TaskObject.Valid, PollReply;
      Whole();
      CurrentNow();
      Fields(current.id);
      reply := current.AwaitReply();
      s := Put(s, current.id, PollReply(TaskOf(s, current.id)));
      TaskUpdated(current.id);
    }

    /** One pass of receive_blocking's loop. */
    method ReceiveBlocking() returns (arrival: Arrival)
      requires Valid() && current != null && Live(s, s.current)
      modifies repr
      ensures var t := TaskOf(old(s), old(s).current);
              match arrival
              case Bell(bit) => bit in t.pending && forall b :: b in t.pending ==> bit <= b
              case Letter(m) => t.pending == {} && t.ring != [] && m == t.ring[0]
              case Nothing => t.pending == {} && t.ring == []
      ensures Valid() && s == Put(old(s), old(s).current, PollReceive(TaskOf(old(s), old(s).current))) && SameTable()
    {
      hide Valid, TaskObject.Abs, TaskObject.Valid, PollReceive;
      Whole();
      CurrentNow();
      Fields(current.id);
      arrival := current.ReceiveBlocking();
      s := Put(s, current.id, PollReceive(TaskOf(s, current.id)));
      TaskUpdated(current.id);
    }

    /** One pass of wait_notification's loop. */
    method WaitNotification(mask: nat)
      requires Valid() && current != null && Live(s, s.current) && mask < U32
      modifies repr
      ensures Valid() && s == Put(old(s), old(s).current, PollNotify(TaskOf(old(s), old(s).current), Bits(mask))) && SameTable()
    {
      hide Valid, TaskObject.Abs, TaskObject.Valid, PollNotify;
      Whole();
      CurrentNow();
      Fields(current.id);
      current.WaitNotification(mask);
      s := Put(s, current.id, PollNotify(TaskOf(s, current.id), Bits(mask)));
      TaskUpdated(current.id);
    }

    /** One pass of sys_wait's loop: the oldest record, the others move up. */
    method SysWait() returns (record: Option<ExitRecord>)
      requires Valid() && current != null && Live(s, s.current)
      modifies repr
      ensures var t := TaskOf(old(s), old(s).current); record == if t.exitRecords != [] then Some(t.exitRecords[0]) else None
      ensures Valid() && s == Put(old(s), old(s).current, PollChild(TaskOf(old(s), old(s).current))) && SameTable()
    {
      hide Valid, TaskObject.Abs, TaskObject.Valid, PollChild;
      Whole();
      CurrentNow();
      Fields(current.id);
      record := current.SysWait();
      s := Put(s, current.id, PollChild(TaskOf(s, current.id)));
      TaskUpdated(current.id);
    }

    method ReplyTo(req: Request, m: Message)
      requires Valid() && current != null && Live(s, s.current)
      modifies repr
      ensures Valid() && s == IpcModel.ReplyTo(old(s), req, m) && SameTable()
    {
      hide Valid, TaskObject.Abs, TaskObject.Valid, IpcModel.SendFrom;
      Whole();
      CurrentNow();
      QuietSendFrom(s, req.caller, AnswerTo(s.current, req, m));
      RefusedFrom(s, req.caller, AnswerTo(s.current, req, m));
      var err := SendFrom(req.caller, AnswerTo(current.id, req, m));
      if err == Ok {
        Forget(req);
      }
    }

    ghost method Forget(req: Request)
      requires Valid() && current != null && Live(s, s.current)
      modifies repr
      ensures Valid() && SameTable()
      ensures var t := TaskOf(old(s), old(s).current); s == Put(old(s), old(s).current, t.(held := t.held - {req}))
    {
      hide Valid, TaskObject.Abs, TaskObject.Valid;
      Whole();
      CurrentNow();
      Fields(current.id);
      current.Forgets(req);
      s := Put(s, current.id, TaskOf(s, current.id).(held := TaskOf(s, current.id).held - {req}));
      TaskUpdated(current.id);
    }

    // ----- out-of-line buffers

    method DeliverOol(ool: nat, aligned: bool, mapped: bool, uaddr: nat)
      requires Valid() && current != null && Live(s, s.current) && ool != 0
      modifies repr
      ensures Valid() && s == IpcModel.DeliverOol(old(s), ool, aligned, mapped, uaddr) && SameTable()
    {
      hide Valid, TaskObject.Abs, TaskObject.Valid, LetGo, FreeSlot;
      Whole();
      CurrentNow();
      Fields(current.id);
      RegionCount(current);
      SameRegions(TaskOf(s, current.id), ool);
      var i := current.FindFreeRegion();
      LetGoOf(ool);
      if !aligned || i == MAX_OOL_REGIONS || !mapped {
        FreeBuffer(ool);
        return;
      }
      SetRegion(i, Region(ool, uaddr));
    }

    method FreeBuffer(ool: nat)
      requires Valid()
      modifies this`payloads, this`s
      ensures Valid() && s == old(s).(payloads := old(s).payloads - {ool}) && SameTable()
    {
      hide Valid, SlotValid, Separate, IsList;
      Whole();
      payloads := payloads - {ool};
      s := s.(payloads := payloads);
      SelfUpdated();
    }

    method SetRegion(i: nat, r: Region)
      requires Valid() && current != null && Live(s, s.current) && i < |TaskOf(s, s.current).regions| && (r.kaddr == 0 ==> r == Region(0, 0))
      modifies repr
      ensures Valid() && SameTable()
      ensures var t := TaskOf(old(s), old(s).current); s == Put(old(s), old(s).current, t.(regions := t.regions[i := r]))
    {
      hide Valid, TaskObject.Abs, TaskObject.Valid;
      Whole();
      CurrentNow();
      Fields(current.id);
      RegionCount(current);
      current.SetRegion(i, r);
      s := Put(s, current.id, TaskOf(s, current.id).(regions := TaskOf(s, current.id).regions[i := r]));
      TaskUpdated(current.id);
    }

    method ReleaseOol(uaddr: nat)
      requires Valid() && current != null && Live(s, s.current)
      modifies repr
      ensures Valid() && s == IpcModel.ReleaseOol(old(s), uaddr) && SameTable()
    {
      hide Valid, TaskObject.Abs, TaskObject.Valid, RegionIndex;
      Whole();
      CurrentNow();
      Fields(current.id);
      RegionCount(current);
      ghost var t := TaskOf(s, current.id);
      var i := current.FindRegion(uaddr);
      if i == MAX_OOL_REGIONS {
        return;
      }
      FreeBuffer(current.regions[i].kaddr);
      SetRegion(i, Region(0, 0));
    }

    method ReleaseRegions()
      requires Valid() && current != null && Live(s, s.current)
      modifies repr
      ensures Valid() && s == IpcModel.ReleaseRegions(old(s)) && SameTable()
    {
      hide Valid, TaskObject.Abs, TaskObject.Valid, Kaddrs;
      Whole();
      CurrentNow();
      Fields(current.id);
      payloads := current.ClearRegions(payloads);
      s := Put(s, current.id, TaskOf(s, current.id).(regions := NoRegions())).(payloads := payloads);
      TaskUpdated(current.id);
    }

    // ----- exit

    method RecordChildExit(parent: nat, child: nat, status: int)
      requires Valid() && Live(s, parent)
      modifies repr
      ensures Valid() && s == IpcModel.RecordChildExit(old(s), parent, child, status) && SameTable()
    {
      hide Valid, TaskObject.Abs, TaskObject.Valid, IpcModel.ScheduleTask;
      Whole();
      Alive(parent);
      Fields(parent);
      var t := tasks[parent];
      var added := t.AddExitRecord(ExitRecord(child, status));
      if !added {
        assert s.tasks[parent := Some(t.Abs())] == s.tasks;
        TaskUpdated(parent);
        return;
      }
      s := Put(s, parent, TaskOf(s, parent).(exitRecords := TaskOf(s, parent).exitRecords + [ExitRecord(child, status)]));
      TaskUpdated(parent);
      if t.state == Waiting && t.waitReason == Child {
        ScheduleTask(parent);
      }
    }

    /** release_all_ool: the regions, then everything try_receive still gives, then an uncollected reply. */
    method ReleaseAll()
      requires Valid() && current != null && Live(s, s.current)
      modifies repr
      ensures Valid() && s == IpcModel.ReleaseAll(old(s)) && SameTable()
    {
      hide Valid, TaskObject.Abs, TaskObject.Valid, Kaddrs, Attached;
      ReleaseRegions();
      DrainMessages();
      DropReply();
    }

    method DrainMessages()
      requires Valid() && current != null && Live(s, s.current)
      modifies repr
      ensures Valid() && SameTable()
      ensures var t := TaskOf(old(s), old(s).current);
              s == Put(old(s), old(s).current, t.(pending := {}, ring := [])).(payloads := old(s).payloads - Attached(t.ring))
    {
      hide Valid, TaskObject.Abs, TaskObject.Valid, Attached;
      Whole();
      CurrentNow();
      Fields(current.id);
      payloads := current.DrainMessages(payloads);
      s := Put(s, current.id, TaskOf(s, current.id).(pending := {}, ring := [])).(payloads := payloads);
      TaskUpdated(current.id);
    }

    method DropReply()
      requires Valid() && current != null && Live(s, s.current)
      modifies repr
      ensures Valid() && SameTable()
      ensures var t := TaskOf(old(s), old(s).current);
              s == Put(old(s), old(s).current, t.(replyPending := false)).(payloads := old(s).payloads - if t.replyPending then {t.replySlot.ool} else {})
    {
      hide Valid, TaskObject.Abs, TaskObject.Valid;
      Whole();
      CurrentNow();
      Fields(current.id);
      if !current.replyPending {
        assert s.tasks[current.id := Some(TaskOf(s, current.id).(replyPending := false))] == s.tasks;
        return;
      }
      payloads := payloads - {current.replySlot.ool};
      current.DropReply();
      s := Put(s, current.id, TaskOf(s, current.id).(replyPending := false)).(payloads := payloads);
      TaskUpdated(current.id);
    }

    /** exit_task up to its final switch. */
    method PrepareExit(status: int)
      requires Valid() && current != null && Live(s, s.current)
      modifies repr
      ensures Valid() && s == IpcModel.PrepareExit(old(s), status) && SameTable()
    {
      hide Valid, IpcModel.ReleaseAll, IpcModel.RecordChildExit, TaskObject.Abs, TaskObject.Valid;
      Whole();
      CurrentNow();
      Fields(current.id);
      Released(s);
      ReleaseAll();
      CurrentNow();
      NotifyParent(current.parent, status);
      CurrentNow();
      SetState(current.id, Exited);
    }

    method NotifyParent(parent: Option<nat>, status: int)
      requires Valid() && current != null && Live(s, s.current)
      modifies repr
      ensures Valid() && SameTable() && Live(s, s.current) && s.current == old(s).current
      ensures s == if parent.Some? && Live(old(s), parent.value) then IpcModel.RecordChildExit(old(s), parent.value, old(s).current, status) else old(s)
    {
      hide Valid, IpcModel.RecordChildExit, TaskObject.Abs, TaskObject.Valid;
      Whole();
      CurrentNow();
      if parent.Some? && parent.value < tasks.Length && tasks[parent.value] != null {
        Fields(parent.value);
        QuietRecord(s, parent.value, current.id, status);
        RecordChildExit(parent.value, current.id, status);
      } else if parent.Some? && parent.value < tasks.Length {
        Dead(parent.value);
      }
    }

    method ExitTask(status: int)
      requires Valid() && Safe(s) && current != null && idle != null && Enabled(s, Exit(status))
      modifies repr
      ensures Valid() && s == Step(old(s), Exit(status)) && Safe(s) && current != null && idle == old(idle) && repr == old(repr)
    {
      hide Valid, Safe, SafeBut, MayLeave, IpcModel.SwitchTask, IpcModel.PrepareExit;
      CurrentLive(s);
      ExitSafe(s, status);
      QuietExit(s, status);
      PrepareExit(status);
      SwitchTask();
    }

    // ----- every step

    method AllocateBuffer(ool: nat)
      requires Valid() && current != null && Live(s, s.current) && ool != 0
      modifies repr
      ensures Valid() && SameTable()
      ensures s == Put(old(s), old(s).current, Hold(TaskOf(old(s), old(s).current), ool)).(payloads := old(s).payloads + {ool})
    {
      hide Valid, TaskObject.Abs, TaskObject.Valid, Hold;
      Whole();
      CurrentNow();
      Fields(current.id);
      current.Holds(ool);
      payloads := payloads + {ool};
      s := Put(s, current.id, Hold(TaskOf(s, current.id), ool)).(payloads := payloads);
      TaskUpdated(current.id);
    }

    /** The software interrupt of switch_next_task. */
    method SwitchNextTask()
      requires Valid() && Safe(s) && current != null && idle != null && Enabled(s, Yield)
      modifies repr
      ensures Valid() && s == Step(old(s), Yield) && Safe(s) && current != null && idle == old(idle) && repr == old(repr)
    {
      hide Valid, Safe, SafeBut, MayLeave, IpcModel.SwitchTask, TaskObject.Abs, TaskObject.Valid;
      Whole();
      CurrentLive(s);
      CurrentNow();
      Fields(current.id);
      YieldMayLeave(s);
      current.Switches();
      s := Put(s, current.id, TaskOf(s, current.id).(mustSwitch := false));
      TaskUpdated(current.id);
      SwitchTask();
    }

    /** Whatever may happen next, happens: the kernel does what the step machine does. */
    method Do(a: Action)
      requires Valid() && Safe(s) && current != null && idle != null && Enabled(s, a)
      modifies repr
      ensures Valid() && s == Step(old(s), a) && Safe(s) && current != null && idle != null && fresh(repr - old(repr))
    {
      hide Valid, Safe, SafeBut, MayLeave, IpcModel.SwitchTask, IpcModel.PrepareExit, IpcModel.SendMessage, IpcModel.SendFrom,
        IpcModel.SendCall, IpcModel.ReplyTo, IpcModel.NotifyTask, IpcModel.CreateTask, IpcModel.ScheduleTask, IpcModel.StartCall,
        PollReply, PollReceive, PollNotify, PollChild, IpcModel.DeliverOol, IpcModel.ReleaseOol, IpcModel.ReleaseRegions, Hold, LetGo;
      Whole();
      CurrentLive(s);
      CurrentNow();
      StepSafe(s, a);
      match a {
        case Preempt => YieldMayLeave(s); SwitchTask();
        case Yield => SwitchNextTask();
        case Doorbell(to, bit) => NotifyTask(to, bit);
        case AllocPayload(ool) => AllocateBuffer(ool);
        case FreePayload(ool) => LetGoOf(ool); FreeBuffer(ool);
        case Send(dst, m) => var err := SendFrom(dst, OneWay(m));
        case AnswerAgain(req, m) => var err := SendFrom(req.caller, AnswerTo(current.id, req, m));
        case UnaskedReply(dst, m) => var err := SendFrom(dst, Unasked(current.id, m));
        case Call(dst, m) => StartCall(dst, m);
        case SendRequest => SendCall();
        case AwaitReply => var reply := AwaitReply();
        case Answer(req, m) => ReplyTo(req, m);
        case ReceiveMessage => var arrival := ReceiveBlocking();
        case WaitNotification(mask) =>
          BitsOfWord(mask);
          WaitNotification(Word(mask, 32));
        case WaitChild => var record := SysWait();
        case Deliver(ool, aligned, mapped, uaddr) => DeliverOol(ool, aligned, mapped, uaddr);
        case Release(uaddr) => ReleaseOol(uaddr);
        case Exec => ReleaseRegions();
        case Fork => Scheduled(s); CreateTask(Some(current.id));
        case Wake(child) => ScheduleTask(child);
        case Exit(status) => ExitTask(status);
      }
    }

    /** So does every run. */
    method Run(run: seq<Action>)
      requires Valid() && Safe(s) && current != null && idle != null && AllEnabled(s, run)
      modifies repr
      ensures Valid() && s == After(old(s), run) && Safe(s) && current != null && idle != null && fresh(repr - old(repr))
    {
      hide Valid, Safe, Step, Enabled;
      ghost var s0 := s;
      var i := 0;
      assert run[..0] == [];
      while i < |run|
        invariant 0 <= i <= |run| && Valid() && Safe(s) && current != null && idle != null && s == After(s0, run[..i]) && fresh(repr - old(repr))
      {
        assert run[..i + 1][..i] == run[..i];
        EnabledAt(s0, run, i);
        Do(run[i]);
        i := i + 1;
      }
      assert run[..i] == run;
    }

    /** No lost wakeup, in the kernel's own words: a sleeping task has an empty ring, no doorbell it waits for, no reply or
        no exit record, whichever it sleeps for. Run keeps this in every state it passes. */
    lemma NothingMissedHere(id: nat)
      requires Valid() && Safe(s) && id < tasks.Length && tasks[id] != null && tasks[id].state == Waiting
      ensures Live(s, id) && MarkedRight(TaskOf(s, id)) && TaskOf(s, id).point == tasks[id].point && TaskOf(s, id).waitReason == tasks[id].waitReason
      ensures tasks[id].waitReason == Receive ==> tasks[id].messages.count == 0 && tasks[id].pendingNotifications == 0
      ensures tasks[id].waitReason == Notify ==> And(tasks[id].pendingNotifications, tasks[id].waitNotifyMask) == 0
      ensures tasks[id].waitReason == Reply ==> !tasks[id].replyPending
      ensures tasks[id].waitReason == Child ==> tasks[id].numExitRecords == 0
    {
      hide Safe;
      Fields(id);
      SafeAt(s, id);
      var t := tasks[id];
      assert t.Abs() == TaskOf(s, id);
      NoBits(t.pendingNotifications);
      AndBits(t.pendingNotifications, t.waitNotifyMask);
      AndShrinks(t.pendingNotifications, t.waitNotifyMask);
      NoBits(And(t.pendingNotifications, t.waitNotifyMask));
    }

    /** A live task runs or is in the linked list, or it sleeps; it is in the list at most once. */
    lemma ReadyIsQueued(id: nat)
      requires Valid() && Safe(s) && id < tasks.Length && tasks[id] != null
      ensures tasks[id].state == Ready ==> tasks[id].elem in elems
      ensures tasks[id].state == Running ==> tasks[id] == current || current == null
      ensures Unique(elems)
    {
      Fields(id);
      SafeAt(s, id);
      QueuedElem(id);
      assert IsList(runQueue, elems);
    }
  }

  lemma CurrentExists(s: State)
    requires SafeBut(s, s.current)
    ensures Live(s, s.current)
  {
  }

  lemma MayStash(s: State)
    requires SafeBut(s, s.current) && MayLeave(TaskOf(s, s.current), s.current, s.current in s.queue)
    ensures TaskOf(s, s.current).state == Exited ==> s.current !in s.queue
  {
  }

  lemma Full(s: State, parent: Option<nat>)
    requires AvailableId(s.tasks, 0) == |s.tasks|
    ensures CreateTask(s, parent) == s
  {
  }

  lemma Created(s: State, parent: Option<nat>, p: nat)
    requires p == AvailableId(s.tasks, 0) && p < |s.tasks|
    ensures CreateTask(s, parent) == Put(s, p, NewTask(parent, s.births)).(births := s.births + 1)
  {
  }

  lemma MaskBit(mask: nat, bit: nat)
    requires mask < U32 && bit < 32
    ensures And(mask, Pow2(bit)) == 0 <==> bit !in Bits(mask)
  {
    AndBits(mask, Pow2(bit));
    AndShrinks(mask, Pow2(bit));
    NoBits(And(mask, Pow2(bit)));
    assert Bits(Pow2(bit)) == {bit} by {
      forall i: nat
        ensures Bit(Pow2(bit), i) <==> i == bit
      {
        BitPow2(bit, i);
      }
    }
  }

  /** Whether a buffer is let go before a delivery or after it makes no difference. */
  lemma SendThenLetGo(s: State, dst: int, m: Message)
    requires Live(s, s.current)
    ensures var r := SendMessage(s, dst, m);
            && Live(r.0, s.current) && r.0.current == s.current
            && SendFrom(s, dst, m) == if r.1 == Ok then (Put(r.0, s.current, LetGo(TaskOf(r.0, s.current), m.ool)), Ok) else r
  {
    var t := LetGo(TaskOf(s, s.current), m.ool);
    if dst != s.current {
      SendElsewhere(s, dst, m, s.current, t);
      QuietSend(s, dst, m);
      QuietSend(Put(s, s.current, t), dst, m);
      hide SendMessage;
      Refused(s, dst, m);
      Refused(Put(s, s.current, t), dst, m);
    } else {
      SendToSelf(s, m, t.hand);
      SameHand(s, m);
    }
  }

  lemma Refused(s: State, dst: int, m: Message)
    ensures SendMessage(s, dst, m).1 != Ok ==> SendMessage(s, dst, m).0 == s
  {
  }

  lemma SameHand(s: State, m: Message)
    requires Live(s, s.current)
    ensures Live(SendMessage(s, s.current, m).0, s.current) && SendMessage(s, s.current, m).0.current == s.current
    ensures TaskOf(SendMessage(s, s.current, m).0, s.current).hand == TaskOf(s, s.current).hand
    ensures SendMessage(s, s.current, m).1 != Ok ==> SendMessage(s, s.current, m).0 == s
  {
  }

  lemma SendToSelf(s: State, m: Message, hand: multiset<nat>)
    requires Live(s, s.current)
    ensures var r, r' := SendMessage(s, s.current, m), SendMessage(Put(s, s.current, TaskOf(s, s.current).(hand := hand)), s.current, m);
            && r'.1 == r.1 && Live(r.0, s.current)
            && (r.1 == Ok ==> r'.0 == Put(r.0, s.current, TaskOf(r.0, s.current).(hand := hand)))
  {
    var r, r' := SendMessage(s, s.current, m), SendMessage(Put(s, s.current, TaskOf(s, s.current).(hand := hand)), s.current, m);
    if r.1 == Ok {
      assert r'.0.tasks == Put(r.0, s.current, TaskOf(r.0, s.current).(hand := hand)).tasks;
    }
  }

  /** The state after the first i tasks of boot. */
  function Spawned(i: nat): State
    requires i <= MAX_TASKS
  {
    State(seq(MAX_TASKS, j requires 0 <= j < MAX_TASKS => if j < i then Some(NewTask(None, j + 1).(state := Ready)) else None),
          seq(i, j requires 0 <= j < i => j), KERNEL, None, i + 1, {}, 1, {})
  }

  lemma SpawnNext(i: nat)
    requires i < MAX_TASKS
    ensures ScheduleTask(CreateTask(Spawned(i), None), i) == Spawned(i + 1)
  {
    var s := Spawned(i);
    assert AvailableId(s.tasks, 0) == i by { FreeAt(s.tasks, 0, i); }
    var s' := ScheduleTask(CreateTask(s, None), i);
    assert s'.tasks == Spawned(i + 1).tasks;
    assert s'.queue == Spawned(i + 1).queue;
  }

  lemma {:induction false} FreeAt(tasks: seq<Option<Task>>, i: nat, p: nat)
    requires i <= p < |tasks| && tasks[p].None? && forall j :: i <= j < p ==> tasks[j].Some?
    ensures AvailableId(tasks, i) == p
    decreases p - i
  {
    if i < p {
      FreeAt(tasks, i + 1, p);
    }
  }

  lemma NoNegative(s: State, dst: int, m: Message)
    ensures SendMessage(s, dst, m).1 == Ok ==> dst >= 0
  {
  }

  lemma RefusedFrom(s: State, dst: int, m: Message)
    requires Live(s, s.current)
    ensures SendFrom(s, dst, m).1 != Ok ==> SendFrom(s, dst, m).0 == s
  {
  }

  lemma SameRegions(t: Task, ool: nat)
    ensures LetGo(t, ool).regions == t.regions
  {
  }

  lemma RegionCount(t: TaskObject)
    requires t.Valid()
    ensures |t.Abs().regions| == MAX_OOL_REGIONS == t.regions.Length && t.Abs().regions == t.regions[..]
  {
  }

  lemma Released(s: State)
    requires Live(s, s.current)
    ensures var s' := ReleaseAll(s); s'.current == s.current && Live(s', s.current) && TaskOf(s', s.current).parent == TaskOf(s, s.current).parent
  {
  }

  lemma Scheduled(s: State)
    requires Safe(s)
    ensures Live(s, KERNEL) && Live(s, IDLE)
  {
  }

  /** Every step of a run is one the kernel can take. */
  ghost predicate AllEnabled(s: State, run: seq<Action>)
  {
    run != [] ==>
      && AllEnabled(s, run[..|run| - 1])
      && var b := After(s, run[..|run| - 1]); Live(b, b.current) && Enabled(b, run[|run| - 1])
  }

  lemma {:induction false} EnabledAt(s: State, run: seq<Action>, i: nat)
    requires AllEnabled(s, run) && i < |run|
    ensures var b := After(s, run[..i]); Live(b, b.current) && Enabled(b, run[i])
  {
    hide Enabled, Step;
    if i < |run| - 1 {
      EnabledAt(s, run[..|run| - 1], i);
      assert run[..|run| - 1][..i] == run[..i];
    }
  }
}
