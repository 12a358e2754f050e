/** Runs in which a call gets a reply that does not answer it. In the first a server answers the same request twice while
    the caller's task id is taken over by another task: the second answer is accepted as the reply to the new task's call,
    and the buffer it carries is lost for good. In the others the main task replies to a request it has not received, and
    to a one-way message that only looks like a request. */
module IpcReuse {
  import opened IpcModel
  import opened IpcReplies
  import opened IpcOwnership

  /** An empty message. */
  const M: Message := Message(0, 0, 0, 0, false, 0, 0)
  /** The first call of the first task in slot 2, and a second answer to it that carries a buffer. */
  const REQUEST: Request := Request(2, 3, 1, 1)
  const SECOND: Message := Message(0, 3, 1, 1, true, 7, 0)

  /** The parts of the state the run depends on: the main task, the idle task and what is in slot 2. */
  ghost predicate At(s: State, main: Task, idle: Task, child: Option<Task>, queue: seq<nat>, current: nat, births: nat,
                     callIds: nat)
  {
    7 !in s.payloads && Tasks(s, main, idle, child, queue, current, births, callIds)
  }

  ghost predicate Tasks(s: State, main: Task, idle: Task, child: Option<Task>, queue: seq<nat>, current: nat,
                        births: nat, callIds: nat)
  {
    && |s.tasks| == MAX_TASKS && s.tasks[0] == Some(main) && s.tasks[1] == Some(idle) && s.tasks[2] == child && s.tasks[50].None?
    && s.queue == queue && s.current == current && s.births == births && s.callIds == callIds
  }

  /** One more step of a run from boot. */
  lemma Do(run: seq<Action>, a: Action) returns (s: State)
    ensures s == After(Boot(0), run + [a]) == Step(After(Boot(0), run), a)
  {
    assert (run + [a])[..|run + [a]| - 1] == run;
    s := Step(After(Boot(0), run), a);
  }

  /** A timer tick: the running task goes to the end of the queue. */
  lemma Tick(run: seq<Action>) returns (s: State)
    requires var b := After(Boot(0), run);
             && Live(b, b.current) && TaskOf(b, b.current).state == Running && b.current !in b.queue
             && b.queue != [] && Live(b, b.queue[0])
    ensures var b := After(Boot(0), run);
            && s == After(Boot(0), run + [Preempt]) && s.births == b.births && s.callIds == b.callIds && s.payloads == b.payloads
            && s.current == b.queue[0] && s.queue == b.queue[1..] + [b.current]
            && s.tasks == b.tasks[b.current := Some(TaskOf(b, b.current).(state := Ready))][b.queue[0] := Some(TaskOf(b, b.queue[0]).(state := Running))]
  {
    hide After;
    s := Do(run, Preempt);
  }

  lemma Create(run: seq<Action>) returns (s: State)
    requires var b := After(Boot(0), run);
             && |b.tasks| == MAX_TASKS && b.tasks[0].Some? && b.tasks[1].Some? && b.tasks[2].None?
             && b.current == 0 && b.tasks[0].value.parent == None && b.tasks[0].value.point == Free && !b.tasks[0].value.mustSwitch
    ensures var b := After(Boot(0), run);
            s == After(Boot(0), run + [Fork]) == Put(b, 2, NewTask(Some(0), b.births)).(births := b.births + 1)
  {
    hide After;
    assert AvailableId(After(Boot(0), run).tasks, 0) == 2;
    s := Do(run, Fork);
  }

  function Main(): Task
  {
    NewTask(None, 1).(state := Running)
  }

  function Idle(): Task
  {
    NewTask(None, 2).(state := Ready)
  }

  /** Slot 2, waiting for the answer to its first call. */
  function Child(): Task
  {
    NewTask(Some(0), 3).(state := Waiting, waitReason := Reply, point := InCall(0), calls := 1, callId := 1, nextCorrelation := 1, callCorrelation := 1)
  }

  /** The main task starts a child and lets it run. */
  lemma ChildStarts() returns (run: seq<Action>)
    ensures At(After(Boot(0), run), Main().(state := Ready), Idle(), Some(NewTask(Some(0), 3).(state := Running)), [0, 1], 2, 4, 1)
  {
    run := [];
    hide After, SwitchTask;
    BootIs();
    var s := Create(run);
    run := run + [Fork];
    s := Do(run, Wake(2));
    run := run + [Wake(2)];
    assert s.queue == [0, 1, 2];
    s := FirstTick(run);
    run := run + [Preempt];
    s := Tick(run);
    run := run + [Preempt];
    s := Tick(run);
    run := run + [Preempt];
  }

  lemma BootIs()
    ensures After(Boot(0), []) == Boot(0) && At(Boot(0), Main(), Idle(), None, [0, 1], 0, 3, 1) && Boot(0).payloads == {}
  {
  }

  /** The main task is still queued from boot, so the first switch goes back to it. */
  lemma FirstTick(run: seq<Action>) returns (s: State)
    requires var b := After(Boot(0), run);
             Live(b, b.current) && TaskOf(b, b.current).state == Running && b.queue != [] && b.queue[0] == b.current
    ensures var b := After(Boot(0), run);
            && s == After(Boot(0), run + [Preempt]) && s.births == b.births && s.callIds == b.callIds && s.payloads == b.payloads
            && s.current == b.current && s.queue == b.queue[1..] && s.tasks == b.tasks
  {
    hide After;
    s := Do(run, Preempt);
  }

  // ----- the child calls the main task and goes to sleep

  function Asking(): Message
  {
    M.(sender := 2, birth := 3, call := 1, correlation := 1)
  }

  lemma CallStarts(s: State)
    requires At(s, Main().(state := Ready), Idle(), Some(NewTask(Some(0), 3).(state := Running)), [0, 1], 2, 4, 1)
    ensures At(Step(s, Call(0, M)), Main().(state := Ready), Idle(), Some(Child().(state := Running, waitReason := NoReason, point := Calling(0, Asking()))), [0, 1], 2, 4, 2)
  {
  }

  lemma CallSent(s: State)
    requires At(s, Main().(state := Ready), Idle(), Some(Child().(state := Running, waitReason := NoReason, point := Calling(0, Asking()))), [0, 1], 2, 4, 2)
    ensures At(Step(s, SendRequest), Main().(state := Ready, ring := [Asking()]), Idle(), Some(Child().(state := Running, waitReason := NoReason)), [0, 1], 2, 4, 2)
  {
    assert [] + [Asking()] == [Asking()];
  }

  lemma CallSleeps(s: State)
    requires At(s, Main().(state := Ready, ring := [Asking()]), Idle(), Some(Child().(state := Running, waitReason := NoReason)), [0, 1], 2, 4, 2)
    ensures At(Step(s, AwaitReply), Main().(state := Ready, ring := [Asking()]), Idle(), Some(Child().(mustSwitch := true)), [0, 1], 2, 4, 2)
  {
  }

  lemma CallYields(s: State)
    requires At(s, Main().(state := Ready, ring := [Asking()]), Idle(), Some(Child().(mustSwitch := true)), [0, 1], 2, 4, 2)
    ensures At(Step(s, Yield), Main().(ring := [Asking()]), Idle(), Some(Child()), [1], 0, 4, 2)
  {
  }

  lemma ChildCalls(run0: seq<Action>) returns (run: seq<Action>)
    requires At(After(Boot(0), run0), Main().(state := Ready), Idle(), Some(NewTask(Some(0), 3).(state := Running)), [0, 1], 2, 4, 1)
    ensures At(After(Boot(0), run), Main().(ring := [Asking()]), Idle(), Some(Child()), [1], 0, 4, 2)
  {
    hide After, Step, At, Boot;
    CallStarts(After(Boot(0), run0));
    var s := Do(run0, Call(0, M));
    CallSent(s);
    run := run0 + [Call(0, M)];
    s := Do(run, SendRequest);
    CallSleeps(s);
    run := run + [SendRequest];
    s := Do(run, AwaitReply);
    CallYields(s);
    run := run + [AwaitReply];
    s := Do(run, Yield);
    run := run + [Yield];
  }

  // ----- the main task receives the request and answers it

  /** The main task once it has received the request. */
  function Server(): Task
  {
    Main().(seen := {REQUEST})
  }

  function Done(): Task
  {
    Child().(state := Ready, replyPending := true, replySlot := AnswerTo(0, REQUEST, M))
  }

  lemma RequestReceived(s: State)
    requires At(s, Main().(ring := [Asking()]), Idle(), Some(Child()), [1], 0, 4, 2)
    ensures At(Step(s, ReceiveMessage), Server().(held := {REQUEST}), Idle(), Some(Child()), [1], 0, 4, 2)
  {
    assert [Asking()][1..] == [] && {} + Awaiting(Asking()) == {REQUEST};
  }

  lemma RequestAnswered(s: State)
    requires At(s, Server().(held := {REQUEST}), Idle(), Some(Child()), [1], 0, 4, 2)
    ensures At(Step(s, Answer(REQUEST, M)), Server(), Idle(), Some(Done()), [1, 2], 0, 4, 2)
  {
    assert {REQUEST} - {REQUEST} == {};
  }

  lemma MainAnswers(run0: seq<Action>) returns (run: seq<Action>)
    requires At(After(Boot(0), run0), Main().(ring := [Asking()]), Idle(), Some(Child()), [1], 0, 4, 2)
    ensures At(After(Boot(0), run), Server(), Idle(), Some(Done()), [1, 2], 0, 4, 2)
  {
    hide After, Step, At, Boot;
    RequestReceived(After(Boot(0), run0));
    var s := Do(run0, ReceiveMessage);
    RequestAnswered(s);
    run := run0 + [ReceiveMessage];
    s := Do(run, Answer(REQUEST, M));
    run := run + [Answer(REQUEST, M)];
  }

  // ----- the child collects the reply and exits

  lemma ReplyCollected(s: State)
    requires At(s, Server().(state := Ready), Idle(), Some(Done().(state := Running)), [0, 1], 2, 4, 2)
    ensures At(Step(s, AwaitReply), Server().(state := Ready), Idle(), Some(Leaving()), [0, 1], 2, 4, 2)
  {
  }

  function Leaving(): Task
  {
    Done().(state := Running, waitReason := NoReason, replyPending := false, callCorrelation := 0, point := Free)
  }

  lemma ExitPrepared(s: State)
    requires At(s, Server().(state := Ready), Idle(), Some(Leaving()), [0, 1], 2, 4, 2)
    ensures At(PrepareExit(s, 0), Server().(state := Ready, exitRecords := [ExitRecord(2, 0)]), Idle(), Some(Leaving().(state := Exited)), [0, 1], 2, 4, 2)
  {
    assert [] + [ExitRecord(2, 0)] == [ExitRecord(2, 0)];
  }

  lemma ExitSwitches(s: State)
    requires At(s, Server().(state := Ready, exitRecords := [ExitRecord(2, 0)]), Idle(), Some(Leaving().(state := Exited)), [0, 1], 2, 4, 2)
    ensures At(SwitchTask(s), Server().(exitRecords := [ExitRecord(2, 0)]), Idle(), None, [1], 0, 4, 2)
  {
  }

  lemma ExitStep(s: State)
    requires At(s, Server().(state := Ready), Idle(), Some(Leaving()), [0, 1], 2, 4, 2)
    ensures At(Step(s, Exit(0)), Server().(exitRecords := [ExitRecord(2, 0)]), Idle(), None, [1], 0, 4, 2)
  {
    hide PrepareExit, SwitchTask;
    ExitPrepared(s);
    ExitSwitches(PrepareExit(s, 0));
  }

  /** A timer tick from the main task passes the idle task on to the child. */
  lemma TwoTicks(run: seq<Action>, main: Task, child: Task, births: nat, callIds: nat)
    requires At(After(Boot(0), run), main, Idle(), Some(child), [1, 2], 0, births, callIds) && main.state == Running && child.state == Ready
    ensures At(After(Boot(0), run + [Preempt] + [Preempt]), main.(state := Ready), Idle(), Some(child.(state := Running)), [0, 1], 2, births, callIds)
  {
    hide After, SwitchTask, Boot;
    var s := Tick(run);
    s := Tick(run + [Preempt]);
  }

  lemma ChildExits(run0: seq<Action>) returns (run: seq<Action>)
    requires At(After(Boot(0), run0), Server(), Idle(), Some(Done()), [1, 2], 0, 4, 2)
    ensures At(After(Boot(0), run), Server().(exitRecords := [ExitRecord(2, 0)]), Idle(), None, [1], 0, 4, 2)
  {
    hide After, Step, At, Boot;
    TwoTicks(run0, Server(), Done(), 4, 2);
    run := run0 + [Preempt] + [Preempt];
    ReplyCollected(After(Boot(0), run));
    var s := Do(run, AwaitReply);
    ExitStep(s);
    run := run + [AwaitReply];
    s := Do(run, Exit(0));
    run := run + [Exit(0)];
  }

  // ----- another child gets the same id

  /** The second task in slot 2, with its first call started. */
  function NewChild(): Task
  {
    NewTask(Some(0), 4).(state := Ready, calls := 1, callId := 2, nextCorrelation := 1, callCorrelation := 1,
                         point := Calling(50, M.(sender := 2, birth := 4, call := 2, correlation := 1)))
  }

  function Parent(): Task
  {
    Server().(exitRecords := [ExitRecord(2, 0)])
  }

  lemma ChildReady(s: State)
    requires At(s, Parent(), Idle(), Some(NewTask(Some(0), 4)), [1], 0, 5, 2)
    ensures At(Step(s, Wake(2)), Parent(), Idle(), Some(NewTask(Some(0), 4).(state := Ready)), [1, 2], 0, 5, 2)
  {
  }

  lemma NewCallStarts(s: State)
    requires At(s, Parent().(state := Ready), Idle(), Some(NewTask(Some(0), 4).(state := Running)), [0, 1], 2, 5, 2)
    ensures At(Step(s, Call(50, M)), Parent().(state := Ready), Idle(), Some(NewChild().(state := Running)), [0, 1], 2, 5, 3)
  {
  }

  lemma BackToMain(run: seq<Action>)
    requires At(After(Boot(0), run), Parent().(state := Ready), Idle(), Some(NewChild().(state := Running)), [0, 1], 2, 5, 3)
    ensures At(After(Boot(0), run + [Preempt]), Parent(), Idle(), Some(NewChild()), [1, 2], 0, 5, 3)
  {
    hide After, SwitchTask, Boot;
    var s := Tick(run);
  }

  /** The main task starts another child, which gets the same id and starts a call of its own, to nobody. */
  lemma IdReused(run0: seq<Action>) returns (run: seq<Action>)
    requires At(After(Boot(0), run0), Parent(), Idle(), None, [1], 0, 4, 2)
    ensures At(After(Boot(0), run), Parent(), Idle(), Some(NewChild()), [1, 2], 0, 5, 3)
  {
    hide After, Step, Boot, SwitchTask;
    var s := Create(run0);
    run := run0 + [Fork];
    ChildReady(s);
    s := Do(run, Wake(2));
    run := run + [Wake(2)];
    TwoTicks(run, Parent(), NewTask(Some(0), 4).(state := Ready), 5, 2);
    run := run + [Preempt] + [Preempt];
    NewCallStarts(After(Boot(0), run));
    s := Do(run, Call(50, M));
    run := run + [Call(50, M)];
    BackToMain(run);
    run := run + [Preempt];
  }

  /** The main task answers the first request once more, with a buffer, and the new child gets it. */
  lemma AnsweredAgain(run0: seq<Action>) returns (run: seq<Action>)
    requires At(After(Boot(0), run0), Parent(), Idle(), Some(NewChild()), [1, 2], 0, 5, 3)
    ensures Tasks(After(Boot(0), run), Parent(), Idle(), Some(NewChild().(replyPending := true, replySlot := SECOND)), [1, 2], 0, 5, 3)
  {
    hide After;
    run := run0;
    var s := Do(run, AllocPayload(7));
    run := run + [AllocPayload(7)];
    assert s.tasks[0].value.hand == multiset{7};
    s := Do(run, AnswerAgain(REQUEST, M.(ool := 7)));
    run := run + [AnswerAgain(REQUEST, M.(ool := 7))];
    assert s.tasks[0].value.hand == multiset{};
  }

  /** The reply in the slot answers a request of another incarnation than the one whose call is waiting for it. */
  lemma WrongReplyAccepted() returns (run: seq<Action>)
    ensures var s := After(Boot(0), run);
            Wronged(s, 2) && TaskOf(s, 2).callCorrelation != 0 && TaskOf(s, 2).replySlot.birth != TaskOf(s, 2).birth
    ensures Tasks(After(Boot(0), run), Parent(), Idle(), Some(NewChild().(replyPending := true, replySlot := SECOND)), [1, 2], 0, 5, 3)
  {
    hide After, Boot, At;
    run := ChildStarts();
    run := ChildCalls(run);
    run := MainAnswers(run);
    run := ChildExits(run);
    run := IdReused(run);
    run := AnsweredAgain(run);
  }

  /** The new child's call cannot be sent; its next call overwrites the reply, and nobody owns the buffer any more. */
  lemma BufferLost() returns (run: seq<Action>)
    ensures !OwnedOnce(After(Boot(0), run))
  {
    run := WrongReplyAccepted();
    hide After, SwitchTask;
    var s := Tick(run);
    run := run + [Preempt];
    s := Tick(run);
    run := run + [Preempt];
    s := Do(run, SendRequest);
    run := run + [SendRequest];
    assert s.tasks[2] == Some(NewChild().(state := Running, callCorrelation := 0, point := Free, replyPending := true, replySlot := SECOND));
    var b := s;
    s := Do(run, Call(50, M));
    run := run + [Call(50, M)];
    assert LosesReply(b, Call(50, M));
    BuffersOwnedOnce(0, run);
    NotNever(run);
  }

  lemma NotNever(run: seq<Action>)
    requires run != [] && LosesReply(After(Boot(0), run[..|run| - 1]), run[|run| - 1])
    ensures !NeverLoses(Boot(0), run)
  {
  }

  // ----- replies nobody asked for

  /** The main task replies to the child before it has received the child's request. */
  lemma UnreceivedRequestAnswered() returns (run: seq<Action>)
    ensures Wronged(After(Boot(0), run), 2)
  {
    hide After, Boot, Step, At;
    run := ChildStarts();
    run := ChildCalls(run);
    RepliedUnasked(After(Boot(0), run));
    var s := Do(run, UnaskedReply(2, M.(correlation := 1)));
    run := run + [UnaskedReply(2, M.(correlation := 1))];
  }

  lemma RepliedUnasked(s: State)
    requires At(s, Main().(ring := [Asking()]), Idle(), Some(Child()), [1], 0, 4, 2)
    ensures Wronged(Step(s, UnaskedReply(2, M.(correlation := 1))), 2)
  {
  }

  /** A one-way message of the main task to itself that looks like a request of the child. */
  const FORGED: Message := Message(2, 0, 0, 1, false, 0, 0)
  const FORGED_REQUEST: Request := Request(2, 0, 0, 1)

  lemma ForgedSent(s: State)
    requires At(s, Main().(ring := [Asking()]), Idle(), Some(Child()), [1], 0, 4, 2)
    ensures At(Step(s, Send(0, FORGED)), Main().(ring := [Asking(), FORGED]), Idle(), Some(Child()), [1], 0, 4, 2)
  {
    assert [Asking()] + [FORGED] == [Asking(), FORGED];
  }

  lemma BothReceived(s: State)
    requires At(s, Main().(ring := [Asking(), FORGED]), Idle(), Some(Child()), [1], 0, 4, 2)
    ensures var main := Main().(held := {REQUEST, FORGED_REQUEST}, seen := {REQUEST, FORGED_REQUEST});
            At(Step(Step(s, ReceiveMessage), ReceiveMessage), main, Idle(), Some(Child()), [1], 0, 4, 2)
  {
    assert [Asking(), FORGED][1..] == [FORGED] && {} + Awaiting(Asking()) == {REQUEST};
    assert At(Step(s, ReceiveMessage), Server().(ring := [FORGED], held := {REQUEST}), Idle(), Some(Child()), [1], 0, 4, 2);
    assert [FORGED][1..] == [] && {REQUEST} + Awaiting(FORGED) == {REQUEST, FORGED_REQUEST};
  }

  lemma ForgedAnswered(s: State)
    requires var main := Main().(held := {REQUEST, FORGED_REQUEST}, seen := {REQUEST, FORGED_REQUEST});
             At(s, main, Idle(), Some(Child()), [1], 0, 4, 2)
    ensures Wronged(Step(s, Answer(FORGED_REQUEST, M)), 2)
  {
  }

  lemma ForgedRequestWrongs() returns (run: seq<Action>)
    ensures Wronged(After(Boot(0), run), 2)
  {
    hide After, Boot, Step, At;
    run := ChildStarts();
    run := ChildCalls(run);
    ForgedSent(After(Boot(0), run));
    var s := Do(run, Send(0, FORGED));
    run := run + [Send(0, FORGED)];
    BothReceived(s);
    s := Do(run, ReceiveMessage);
    run := run + [ReceiveMessage];
    s := Do(run, ReceiveMessage);
    run := run + [ReceiveMessage];
    ForgedAnswered(s);
    s := Do(run, Answer(FORGED_REQUEST, M));
    run := run + [Answer(FORGED_REQUEST, M)];
  }
}
