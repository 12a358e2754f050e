/** Out-of-line buffers have exactly one owner: the hands of a task's kernel code, a message in a ring, a reply slot or a
    mapped region. */
module IpcOwnership {
  import opened IpcModel
  import opened IpcScheduler
  import opened IpcCalls

  function One(ool: nat, x: nat): nat
  {
    if ool != 0 && ool == x then 1 else 0
  }

  function Queued(ring: seq<Message>, x: nat): nat
  {
    if ring == [] then 0 else One(ring[0].ool, x) + Queued(ring[1..], x)
  }

  function Mapped(regions: seq<Region>, x: nat): nat
  {
    if regions == [] then 0 else One(regions[0].kaddr, x) + Mapped(regions[1..], x)
  }

  function InSlot(t: Task): nat
  {
    if t.replyPending then t.replySlot.ool else 0
  }

  function InRequest(t: Task): nat
  {
    if t.point.Calling? then t.point.request.ool else 0
  }

  /** How many times a task owns buffer x: in its hands, with the request it is about to send, queued for it, mapped, or
      in its reply slot. */
  function Owned(t: Task, x: nat): nat
  {
    t.hand[x] + One(InRequest(t), x) + Queued(t.ring, x) + Mapped(t.regions, x) + One(InSlot(t), x)
  }

  function Share(x: Option<Task>, ool: nat): nat
  {
    if x.None? then 0 else Owned(x.value, ool)
  }

  /** How many owners a buffer has. */
  function Owners(tasks: seq<Option<Task>>, ool: nat): nat
  {
    if tasks == [] then 0 else Owners(tasks[..|tasks| - 1], ool) + Share(tasks[|tasks| - 1], ool)
  }

  lemma {:induction false} OwnersUpdate(tasks: seq<Option<Task>>, i: nat, x: Option<Task>, ool: nat)
    requires i < |tasks|
    ensures Owners(tasks[i := x], ool) == Owners(tasks, ool) - Share(tasks[i], ool) + Share(x, ool)
  {
    hide Share;
    var n := |tasks| - 1;
    if i < n {
      OwnersUpdate(tasks[..n], i, x, ool);
      assert tasks[i := x][..n] == tasks[..n][i := x];
    } else {
      assert tasks[i := x][..n] == tasks[..n];
    }
  }

  /** Live buffers have one owner each, except the lost ones, which have none; nothing else is owned. */
  ghost predicate OwnedBut(s: State, lost: set<nat>)
  {
    lost <= s.payloads && 0 !in s.payloads && forall ool: nat :: Owners(s.tasks, ool) == Count(s.payloads - lost, ool)
  }

  /** Live buffers have one owner each, and nothing else is owned. */
  ghost predicate OwnedOnce(s: State)
  {
    OwnedBut(s, {})
  }

  function Count(payloads: set<nat>, ool: nat): nat
  {
    if ool in payloads then 1 else 0
  }

  lemma PutOwners(s: State, p: nat, t: Task, x: nat)
    requires Live(s, p)
    ensures Owners(Put(s, p, t).tasks, x) == Owners(s.tasks, x) - Owned(TaskOf(s, p), x) + Owned(t, x)
  {
    hide Owned;
    OwnersUpdate(s.tasks, p, Some(t), x);
  }

  lemma ScheduleOwners(s: State, p: int, x: nat)
    ensures Owners(ScheduleTask(s, p).tasks, x) == Owners(s.tasks, x) && ScheduleTask(s, p).payloads == s.payloads
  {
    if Live(s, p) {
      PutOwners(s, p, TaskOf(s, p).(state := Ready), x);
    }
  }

  lemma {:induction false} QueuedAppend(ring: seq<Message>, m: Message, x: nat)
    ensures Queued(ring + [m], x) == Queued(ring, x) + One(m.ool, x)
  {
    if ring == [] {
      assert ring + [m] == [m];
    } else {
      assert (ring + [m])[1..] == ring[1..] + [m];
      QueuedAppend(ring[1..], m, x);
    }
  }

  lemma {:induction false} QueuedSet(ring: seq<Message>, x: nat)
    requires x != 0
    ensures x in Attached(ring) <==> Queued(ring, x) > 0
  {
    if ring != [] {
      QueuedSet(ring[1..], x);
      assert forall i :: 1 <= i < |ring| ==> ring[i] == ring[1..][i - 1];
      assert x in Attached(ring) <==> ring[0].ool == x || x in Attached(ring[1..]);
    }
  }

  lemma {:induction false} MappedSet(regions: seq<Region>, x: nat)
    requires x != 0
    ensures x in Kaddrs(regions) <==> Mapped(regions, x) > 0
  {
    if regions != [] {
      MappedSet(regions[1..], x);
      assert forall i :: 1 <= i < |regions| ==> regions[i] == regions[1..][i - 1];
      assert x in Kaddrs(regions) <==> regions[0].kaddr == x || x in Kaddrs(regions[1..]);
    }
  }

  /** A delivered message hands its buffer to the destination; a refused one changes nothing. */
  lemma SendMessageOwners(s: State, dst: int, m: Message, x: nat)
    ensures var r := SendMessage(s, dst, m);
            && r.0.payloads == s.payloads
            && (r.1 == Ok ==> Owners(r.0.tasks, x) == Owners(s.tasks, x) + One(m.ool, x))
            && (r.1 != Ok ==> r.0 == s)
  {
    hide ScheduleTask, Queued, Mapped;
    if Live(s, dst) {
      var t := TaskOf(s, dst);
      var t' := if m.isReply then t.(replySlot := m, replyPending := true) else t.(ring := t.ring + [m]);
      QueuedAppend(t.ring, m, x);
      PutOwners(s, dst, t', x);
      ScheduleOwners(Put(s, dst, t'), dst, x);
    }
  }

  lemma SendFromOwners(s: State, dst: int, m: Message, x: nat)
    requires Live(s, s.current) && Sendable(TaskOf(s, s.current), m)
    ensures var r := SendFrom(s, dst, m).0; Owners(r.tasks, x) == Owners(s.tasks, x) && r.payloads == s.payloads
  {
    hide SendMessage;
    var t := TaskOf(s, s.current);
    PutOwners(s, s.current, LetGo(t, m.ool), x);
    SendMessageOwners(Put(s, s.current, LetGo(t, m.ool)), dst, m, x);
  }

  // ----- steps that move buffers

  ghost predicate SameOwners(s: State, s': State)
  {
    s'.payloads == s.payloads && forall x: nat :: Owners(s'.tasks, x) == Owners(s.tasks, x)
  }

  lemma SendSameOwners(s: State, dst: int, m: Message)
    requires Live(s, s.current) && Sendable(TaskOf(s, s.current), m)
    ensures SameOwners(s, SendFrom(s, dst, m).0)
  {
    hide SendFrom;
    forall x: nat
      ensures Owners(SendFrom(s, dst, m).0.tasks, x) == Owners(s.tasks, x)
    {
      SendFromOwners(s, dst, m, x);
    }
    SendFromOwners(s, dst, m, 0);
  }

  ghost predicate OwnsTheSame(t: Task, t': Task)
  {
    forall x: nat :: Owned(t', x) == Owned(t, x)
  }

  lemma PutSameOwners(s: State, p: nat, t: Task)
    requires Live(s, p) && OwnsTheSame(TaskOf(s, p), t)
    ensures SameOwners(s, Put(s, p, t))
  {
    hide Owned;
    forall x: nat
      ensures Owners(Put(s, p, t).tasks, x) == Owners(s.tasks, x)
    {
      PutOwners(s, p, t, x);
    }
  }

  lemma ScheduleSameOwners(s: State, p: int)
    ensures SameOwners(s, ScheduleTask(s, p))
  {
    hide ScheduleTask;
    forall x: nat
      ensures Owners(ScheduleTask(s, p).tasks, x) == Owners(s.tasks, x)
    {
      ScheduleOwners(s, p, x);
    }
    ScheduleOwners(s, p, 0);
  }

  lemma SameOwnersBut(s: State, s': State, lost: set<nat>)
    requires OwnedBut(s, lost) && SameOwners(s, s')
    ensures OwnedBut(s', lost)
  {
  }

  /** One task gains or loses buffers that come to life or die with it. */
  lemma PutOwnedBut(s: State, lost: set<nat>, p: nat, t: Task, payloads: set<nat>, lost': set<nat>)
    requires OwnedBut(s, lost) && Live(s, p) && 0 !in payloads && lost' <= payloads
    requires forall x: nat :: Owned(t, x) + Count(s.payloads - lost, x) == Owned(TaskOf(s, p), x) + Count(payloads - lost', x)
    ensures OwnedBut(Put(s, p, t).(payloads := payloads), lost')
  {
    hide Owned;
    forall x: nat
      ensures Owners(Put(s, p, t).tasks, x) == Count(payloads - lost', x)
    {
      PutOwners(s, p, t, x);
      assert Owners(s.tasks, x) == Count(s.payloads - lost, x);
    }
  }

  /** What a task owns is alive, not lost, and owned once. */
  lemma OwnedAlive(s: State, lost: set<nat>, p: nat, x: nat)
    requires OwnedBut(s, lost) && Live(s, p)
    ensures Owned(TaskOf(s, p), x) <= Count(s.payloads - lost, x)
  {
    hide Owned;
    OwnersUpdate(s.tasks, p, None, x);
    assert Owners(s.tasks, x) == Count(s.payloads - lost, x);
  }

  // ----- the sections of the current task

  lemma ReceiveOwned(t: Task)
    requires t.point.Free? || t.point.InReceive?
    ensures OwnsTheSame(t, PollReceive(t))
  {
    hide Lowest, Awaiting;
  }

  lemma PollOwned(t: Task, mask: set<nat>)
    ensures t.point.InCall? ==> OwnsTheSame(t, PollReply(t))
    ensures t.point.Free? || t.point.InWait? ==> OwnsTheSame(t, PollNotify(t, mask))
    ensures t.point.Free? || t.point.InChildWait? ==> OwnsTheSame(t, PollChild(t))
  {
    hide Queued, Mapped;
  }

  /** Starting a call keeps what the task owns except the buffer of an unclaimed reply in its slot. */
  lemma StartCallOwned(t: Task, self: nat, dst: int, m: Message, id: nat, x: nat)
    requires t.point.Free? && Sendable(t, m)
    ensures Owned(t, x) == Owned(StartCall(t, self, dst, m, id), x) + if dst == self then 0 else One(InSlot(t), x)
  {
    hide Queued, Mapped;
  }

  lemma SwitchSameOwners(s: State)
    requires Live(s, s.current) && (TaskOf(s, s.current).state == Exited ==> forall x: nat :: Owned(TaskOf(s, s.current), x) == 0)
    ensures SameOwners(s, SwitchTask(s))
  {
    hide Owned;
    var r := ReapPendingTask(s);
    var l := Leave(r);
    if TaskOf(s, s.current).state == Exited {
      forall x: nat
        ensures Owners(l.tasks, x) == Owners(s.tasks, x)
      {
        OwnersUpdate(s.tasks, s.current, None, x);
      }
    } else {
      ScheduleSameOwners(r, s.current);
    }
    if l.queue != [] && Live(l, l.queue[0]) {
      StateOwned(TaskOf(l, l.queue[0]));
      PutSameOwners(l, l.queue[0], TaskOf(l, l.queue[0]).(state := Running));
    }
  }

  lemma StateOwned(t: Task)
    ensures OwnsTheSame(t, t.(state := Running)) && OwnsTheSame(t, t.(state := Exited)) && OwnsTheSame(t, t.(mustSwitch := false))
  {
  }

  lemma RecordSameOwners(s: State, parent: nat, child: nat, status: int)
    requires Live(s, parent) && Live(s, s.current)
    ensures var s' := RecordChildExit(s, parent, child, status);
            && SameOwners(s, s') && s'.current == s.current && Live(s', s.current)
            && OwnsTheSame(TaskOf(s, s.current), TaskOf(s', s.current))
  {
    var t := TaskOf(s, parent);
    var t' := t.(exitRecords := t.exitRecords + [ExitRecord(child, status)]);
    PutSameOwners(s, parent, t');
    ScheduleSameOwners(Put(s, parent, t'), parent);
  }

  lemma ReleaseAllOwned(s: State, lost: set<nat>)
    requires OwnedBut(s, lost) && Live(s, s.current) && TaskOf(s, s.current).hand == multiset{} && TaskOf(s, s.current).point.Free?
    ensures OwnedBut(ReleaseAll(s), lost) && Live(ReleaseAll(s), s.current)
    ensures forall x: nat :: Owned(TaskOf(ReleaseAll(s), s.current), x) == 0
  {
    hide Owners, Attached, Kaddrs, Mapped;
    var t := TaskOf(s, s.current);
    var t' := t.(regions := NoRegions(), ring := [], pending := {}, replyPending := false);
    var payloads := ReleaseAll(s).payloads;
    forall x: nat
      ensures Owned(t', x) == 0 && Owned(t', x) + Count(s.payloads - lost, x) == Owned(t, x) + Count(payloads - lost, x)
      ensures x in lost ==> x in payloads
    {
      OwnedAlive(s, lost, s.current, x);
      NothingMapped(NoRegions(), x);
      if x != 0 {
        QueuedSet(t.ring, x);
        MappedSet(t.regions, x);
      }
    }
    PutOwnedBut(s, lost, s.current, t', payloads, lost);
  }

  lemma ExitOwned(s: State, lost: set<nat>, status: int)
    requires OwnedBut(s, lost) && Live(s, s.current) && TaskOf(s, s.current).hand == multiset{} && TaskOf(s, s.current).point.Free?
    ensures var e := PrepareExit(s, status);
            && OwnedBut(e, lost) && e.current == s.current && Live(e, e.current)
            && forall x: nat :: Owned(TaskOf(e, e.current), x) == 0
  {
    hide Owned, Owners, ReleaseAll, RecordChildExit;
    var t := TaskOf(s, s.current);
    ReleaseAllOwned(s, lost);
    var s1 := ReleaseAll(s);
    assert s1.current == s.current by { ReleaseCurrent(s); }
    var s2 := if t.parent.Some? && Live(s1, t.parent.value) then RecordChildExit(s1, t.parent.value, s.current, status) else s1;
    if t.parent.Some? && Live(s1, t.parent.value) {
      RecordSameOwners(s1, t.parent.value, s.current, status);
    }
    StateOwned(TaskOf(s2, s.current));
    PutSameOwners(s2, s.current, TaskOf(s2, s.current).(state := Exited));
  }

  lemma ReleaseCurrent(s: State)
    requires Live(s, s.current)
    ensures ReleaseAll(s).current == s.current
  {
  }

  lemma ReleaseRegionsOwned(s: State, lost: set<nat>)
    requires OwnedBut(s, lost) && Live(s, s.current)
    ensures OwnedBut(ReleaseRegions(s), lost)
  {
    hide Owners, Kaddrs, Queued, Mapped;
    var t := TaskOf(s, s.current);
    var t' := t.(regions := NoRegions());
    var payloads := s.payloads - Kaddrs(t.regions);
    forall x: nat
      ensures Owned(t', x) + Count(s.payloads - lost, x) == Owned(t, x) + Count(payloads - lost, x)
      ensures x in lost ==> x in payloads
    {
      OwnedAlive(s, lost, s.current, x);
      NothingMapped(NoRegions(), x);
      if x != 0 {
        MappedSet(t.regions, x);
      }
    }
    PutOwnedBut(s, lost, s.current, t', payloads, lost);
  }

  lemma {:induction false} NothingMapped(regions: seq<Region>, x: nat)
    requires forall i :: 0 <= i < |regions| ==> regions[i].kaddr == 0
    ensures Mapped(regions, x) == 0
  {
    if regions != [] {
      NothingMapped(regions[1..], x);
    }
  }

  /** One buffer a task owns is freed. */
  lemma FreedOne(s: State, lost: set<nat>, p: nat, t: Task, k: nat)
    requires OwnedBut(s, lost) && Live(s, p) && forall x: nat :: Owned(TaskOf(s, p), x) == Owned(t, x) + One(k, x)
    ensures OwnedBut(Put(s, p, t).(payloads := s.payloads - {k}), lost)
  {
    hide Owned, Owners;
    forall x: nat
      ensures Owned(t, x) + Count(s.payloads - lost, x) == Owned(TaskOf(s, p), x) + Count(s.payloads - {k} - lost, x)
      ensures x in lost ==> x in s.payloads - {k}
    {
      OwnedAlive(s, lost, p, x);
    }
    PutOwnedBut(s, lost, p, t, s.payloads - {k}, lost);
  }

  /** One slot of a region table changes. */
  lemma {:induction false} RegionChanged(regions: seq<Region>, i: nat, r: Region, x: nat)
    requires i < |regions|
    ensures Mapped(regions[i := r], x) == Mapped(regions, x) - One(regions[i].kaddr, x) + One(r.kaddr, x)
  {
    if i > 0 {
      RegionChanged(regions[1..], i - 1, r, x);
      assert regions[i := r][1..] == regions[1..][i - 1 := r];
    } else {
      assert regions[i := r][1..] == regions[1..];
    }
  }

  predicate MappedAt(regions: seq<Region>, i: nat, uaddr: nat)
  {
    i < |regions| && regions[i].kaddr != 0 && regions[i].uaddr == uaddr
  }

  lemma ReleaseOolOwned(s: State, lost: set<nat>, uaddr: nat)
    requires OwnedBut(s, lost) && Live(s, s.current)
    ensures OwnedBut(ReleaseOol(s, uaddr), lost)
    ensures ReleaseOol(s, uaddr) == s <==> forall i: nat :: !MappedAt(TaskOf(s, s.current).regions, i, uaddr)
    ensures ReleaseOol(s, uaddr) != s ==>
            exists i: nat ::
              && MappedAt(TaskOf(s, s.current).regions, i, uaddr)
              && ReleaseOol(s, uaddr).payloads == s.payloads - {TaskOf(s, s.current).regions[i].kaddr}
              && Live(ReleaseOol(s, uaddr), s.current) && TaskOf(ReleaseOol(s, uaddr), s.current).regions == TaskOf(s, s.current).regions[i := Region(0, 0)]
  {
    hide OwnedBut, Queued, Mapped;
    var t := TaskOf(s, s.current);
    var i := RegionIndex(t.regions, uaddr);
    if i < |t.regions| {
      var t', k := t.(regions := t.regions[i := Region(0, 0)]), t.regions[i].kaddr;
      forall x: nat
        ensures Owned(t, x) == Owned(t', x) + One(k, x)
      {
        RegionChanged(t.regions, i, Region(0, 0), x);
      }
      FreedOne(s, lost, s.current, t', k);
      assert MappedAt(t.regions, i, uaddr);
    } else {
      assert forall j: nat :: !MappedAt(t.regions, j, uaddr);
    }
  }

  predicate Takes(regions: seq<Region>, regions': seq<Region>, i: nat, region: Region)
  {
    i < |regions| && regions[i].kaddr == 0 && regions' == regions[i := region]
  }

  ghost predicate Delivered(s: State, n: State, ool: nat, fits: bool, uaddr: nat)
    requires Live(s, s.current)
  {
    var regions := TaskOf(s, s.current).regions;
    && Live(n, s.current) && ool in s.payloads
    && if fits && exists i :: 0 <= i < |regions| && regions[i].kaddr == 0 then
         n.payloads == s.payloads && exists i :: Takes(regions, TaskOf(n, s.current).regions, i, Region(ool, uaddr))
       else n.payloads == s.payloads - {ool} && TaskOf(n, s.current).regions == regions
  }

  lemma DeliverOutcome(s: State, ool: nat, aligned: bool, mapped: bool, uaddr: nat)
    requires Live(s, s.current) && ool in s.payloads
    ensures Delivered(s, DeliverOol(s, ool, aligned, mapped, uaddr), ool, aligned && mapped, uaddr)
  {
    var n, t := DeliverOol(s, ool, aligned, mapped, uaddr), LetGo(TaskOf(s, s.current), ool);
    var i := FreeSlot(t.regions);
    if aligned && i < |t.regions| && mapped {
      assert TaskOf(n, s.current) == t.(regions := t.regions[i := Region(ool, uaddr)]);
      assert Takes(t.regions, TaskOf(n, s.current).regions, i, Region(ool, uaddr));
    }
  }

  /** The buffer of an aligned message that could be mapped becomes a region if a slot is free; otherwise it is freed. */
  lemma DeliverOolOwned(s: State, lost: set<nat>, ool: nat, aligned: bool, mapped: bool, uaddr: nat)
    requires OwnedBut(s, lost) && Live(s, s.current) && ool in TaskOf(s, s.current).hand
    ensures OwnedBut(DeliverOol(s, ool, aligned, mapped, uaddr), lost)
    ensures Delivered(s, DeliverOol(s, ool, aligned, mapped, uaddr), ool, aligned && mapped, uaddr)
  {
    NotNull(s, lost, s.current, ool);
    DeliverOutcome(s, ool, aligned, mapped, uaddr);
    hide OwnedBut, Queued, Mapped, Delivered;
    var t := TaskOf(s, s.current);
    var t' := LetGo(t, ool);
    var i := FreeSlot(t'.regions);
    if !aligned || i == |t'.regions| || !mapped {
      FreedOne(s, lost, s.current, t', ool);
    } else {
      var t2 := t'.(regions := t'.regions[i := Region(ool, uaddr)]);
      forall x: nat
        ensures Owned(t2, x) == Owned(t, x)
      {
        RegionChanged(t'.regions, i, Region(ool, uaddr), x);
      }
      PutSameOwners(s, s.current, t2);
      SameOwnersBut(s, Put(s, s.current, t2), lost);
    }
  }

  lemma NotNull(s: State, lost: set<nat>, p: nat, ool: nat)
    requires OwnedBut(s, lost) && Live(s, p) && ool in TaskOf(s, p).hand
    ensures ool != 0 && ool in s.payloads
  {
    OwnedAlive(s, lost, p, ool);
  }

  lemma AllocOwned(s: State, lost: set<nat>, ool: nat)
    requires OwnedBut(s, lost) && Live(s, s.current) && ool != 0 && ool !in s.payloads
    ensures OwnedBut(Put(s, s.current, Hold(TaskOf(s, s.current), ool)).(payloads := s.payloads + {ool}), lost)
  {
    hide Owners, Queued, Mapped;
    PutOwnedBut(s, lost, s.current, Hold(TaskOf(s, s.current), ool), s.payloads + {ool}, lost);
  }

  lemma FreeOwned(s: State, lost: set<nat>, ool: nat)
    requires OwnedBut(s, lost) && Live(s, s.current) && ool in TaskOf(s, s.current).hand
    ensures OwnedBut(Put(s, s.current, LetGo(TaskOf(s, s.current), ool)).(payloads := s.payloads - {ool}), lost)
  {
    NotNull(s, lost, s.current, ool);
    hide Owners, Queued, Mapped, OwnedBut;
    FreedOne(s, lost, s.current, LetGo(TaskOf(s, s.current), ool), ool);
  }

  lemma PointKept(s: State, dst: int, m: Message, p: nat)
    requires Live(s, p)
    ensures var r := SendMessage(s, dst, m).0; Live(r, p) && TaskOf(r, p).point == TaskOf(s, p).point
    ensures dst < 0 ==> SendMessage(s, dst, m).1 != Ok
  {
  }

  lemma SendCallOwners(s: State, x: nat)
    requires Live(s, s.current) && TaskOf(s, s.current).point.Calling?
    ensures Owners(SendCall(s).tasks, x) == Owners(s.tasks, x) && SendCall(s).payloads == s.payloads
  {
    hide SendMessage, Queued, Mapped, Owners;
    var t := TaskOf(s, s.current);
    var point := t.point;
    PointKept(s, point.dst, point.request, s.current);
    SendMessageOwners(s, point.dst, point.request, x);
    var r := SendMessage(s, point.dst, point.request).0;
    if point.dst >= 0 {
      PutOwners(r, s.current, TaskOf(r, s.current).(point := InCall(point.dst)), x);
    }
    PutOwners(s, s.current, Hold(t, point.request.ool).(callCorrelation := 0, point := Free), x);
  }

  lemma SendCallOwned(s: State)
    requires Live(s, s.current) && TaskOf(s, s.current).point.Calling?
    ensures SameOwners(s, SendCall(s))
  {
    hide SendCall;
    forall x: nat
      ensures Owners(SendCall(s).tasks, x) == Owners(s.tasks, x)
    {
      SendCallOwners(s, x);
    }
    SendCallOwners(s, 0);
  }

  lemma ReplyToOwned(s: State, req: Request, m: Message)
    requires Live(s, s.current) && Sendable(TaskOf(s, s.current), m)
    ensures SameOwners(s, ReplyTo(s, req, m))
  {
    hide SendFrom, Owners;
    var a := AnswerTo(s.current, req, m);
    SendSameOwners(s, req.caller, a);
    var r := SendFrom(s, req.caller, a).0;
    if Live(r, s.current) {
      PutSameOwners(r, s.current, TaskOf(r, s.current).(held := TaskOf(r, s.current).held - {req}));
    }
  }

  // ----- every step

  /** A call that starts while an unclaimed reply with a buffer sits in the task's slot overwrites that reply. */
  predicate LosesReply(s: State, a: Action)
  {
    Live(s, s.current) && Enabled(s, a) && a.Call? && a.dst != s.current && InSlot(TaskOf(s, s.current)) != 0
  }

  lemma NotifySameOwners(s: State, dst: int, bit: nat)
    ensures SameOwners(s, NotifyTask(s, dst, bit))
  {
    hide ScheduleTask, Owners;
    if Live(s, dst) {
      var t' := TaskOf(s, dst).(pending := TaskOf(s, dst).pending + {bit});
      PutSameOwners(s, dst, t');
      ScheduleSameOwners(Put(s, dst, t'), dst);
    }
  }

  lemma CreateSameOwners(s: State, parent: Option<nat>)
    ensures SameOwners(s, CreateTask(s, parent))
  {
    hide Owners;
    var p := AvailableId(s.tasks, 0);
    if p < |s.tasks| {
      forall x: nat
        ensures Owners(CreateTask(s, parent).tasks, x) == Owners(s.tasks, x)
      {
        OwnersUpdate(s.tasks, p, Some(NewTask(parent, s.births)), x);
        NothingMapped(NoRegions(), x);
      }
    }
  }

  /** What a step loses. */
  function LosesNow(s: State, a: Action): set<nat>
  {
    if LosesReply(s, a) then {InSlot(TaskOf(s, s.current))} else {}
  }

  lemma CallOwned(s: State, lost: set<nat>, a: Action)
    requires OwnedBut(s, lost) && Live(s, s.current) && Enabled(s, a) && a.Call?
    ensures OwnedBut(Step(s, a), lost + LosesNow(s, a)) && LosesNow(s, a) !! lost
  {
    hide Owned, StartCall, Owners;
    var t := TaskOf(s, s.current);
    var t' := StartCall(t, s.current, a.dst, a.m, s.callIds);
    var lost' := lost + LosesNow(s, a);
    SlotAlive(s, lost);
    forall x: nat
      ensures Owned(t', x) + Count(s.payloads - lost, x) == Owned(t, x) + Count(s.payloads - lost', x)
    {
      StartCallOwned(t, s.current, a.dst, a.m, s.callIds, x);
    }
    PutOwnedBut(s, lost, s.current, t', s.payloads, lost');
  }

  lemma SlotAlive(s: State, lost: set<nat>)
    requires OwnedBut(s, lost) && Live(s, s.current)
    ensures InSlot(TaskOf(s, s.current)) != 0 ==> InSlot(TaskOf(s, s.current)) in s.payloads - lost
  {
    hide Owners, Queued, Mapped;
    OwnedAlive(s, lost, s.current, InSlot(TaskOf(s, s.current)));
  }

  lemma OtherSameOwners(s: State, a: Action)
    requires Live(s, s.current) && Enabled(s, a)
    requires a.Doorbell? || a.Send? || a.SendRequest? || a.AwaitReply? || a.Answer? || a.AnswerAgain? || a.UnaskedReply? || a.ReceiveMessage?
             || a.WaitNotification? || a.WaitChild? || a.Fork? || a.Wake?
    ensures SameOwners(s, Step(s, a))
  {
    hide Owners, SendFrom, SendCall, ReplyTo, NotifyTask, CreateTask, ScheduleTask,
      PollReceive, PollReply, PollNotify, PollChild, OwnsTheSame, Owned;
    var t := TaskOf(s, s.current);
    match a {
      case Doorbell(to, bit) => NotifySameOwners(s, to, bit);
      case Send(dst, m) => SendSameOwners(s, dst, OneWay(m));
      case AnswerAgain(req, m) => SendSameOwners(s, req.caller, AnswerTo(s.current, req, m));
      case UnaskedReply(dst, m) => SendSameOwners(s, dst, Unasked(s.current, m));
      case SendRequest => SendCallOwned(s);
      case AwaitReply => PollOwned(t, {}); PutSameOwners(s, s.current, PollReply(t));
      case Answer(req, m) => ReplyToOwned(s, req, m);
      case ReceiveMessage => ReceiveOwned(t); PutSameOwners(s, s.current, PollReceive(t));
      case WaitNotification(mask) => PollOwned(t, mask); PutSameOwners(s, s.current, PollNotify(t, mask));
      case WaitChild => PollOwned(t, {}); PutSameOwners(s, s.current, PollChild(t));
      case Fork => CreateSameOwners(s, Some(s.current));
      case Wake(child) => ScheduleSameOwners(s, child);
    }
  }

  /** Every step keeps each live buffer with exactly one owner, except the one that overwrites an unclaimed reply: the
      buffer of that reply is lost. */
  lemma StepOwned(s: State, lost: set<nat>, a: Action)
    requires Safe(s) && OwnedBut(s, lost)
    ensures OwnedBut(Step(s, a), lost + LosesNow(s, a)) && LosesNow(s, a) !! lost
  {
    hide Bounded, NothingMissed, OwnedBut, SwitchTask, PrepareExit, SendFrom, SendCall, ReplyTo, NotifyTask,
      DeliverOol, ReleaseOol, ReleaseRegions,
      CreateTask, ScheduleTask, PollReceive, PollReply, PollNotify, PollChild, OwnsTheSame, Owned;
    assert lost + {} == lost;
    if !Live(s, s.current) || !Enabled(s, a) {
      return;
    }
    var t := TaskOf(s, s.current);
    SafeAt(s, s.current);
    match a {
      case Preempt =>
        SwitchSameOwners(s);
        SameOwnersBut(s, SwitchTask(s), lost);
      case Yield =>
        StateOwned(t);
        PutSameOwners(s, s.current, t.(mustSwitch := false));
        SameOwnersBut(s, Put(s, s.current, t.(mustSwitch := false)), lost);
        SwitchSameOwners(Put(s, s.current, t.(mustSwitch := false)));
        SameOwnersBut(Put(s, s.current, t.(mustSwitch := false)), SwitchTask(Put(s, s.current, t.(mustSwitch := false))), lost);
      case Exit(status) =>
        ExitOwned(s, lost, status);
        SwitchSameOwners(PrepareExit(s, status));
        SameOwnersBut(PrepareExit(s, status), SwitchTask(PrepareExit(s, status)), lost);
      case AllocPayload(ool) => AllocOwned(s, lost, ool);
      case FreePayload(ool) => FreeOwned(s, lost, ool);
      case Deliver(ool, aligned, mapped, uaddr) => DeliverOolOwned(s, lost, ool, aligned, mapped, uaddr);
      case Release(uaddr) => ReleaseOolOwned(s, lost, uaddr);
      case Exec => ReleaseRegionsOwned(s, lost);
      case Call(dst, m) => CallOwned(s, lost, a);
      case _ =>
        OtherSameOwners(s, a);
        SameOwnersBut(s, Step(s, a), lost);
    }
  }

  lemma BootOwnedOnce(services: nat)
    requires services + 2 <= MAX_TASKS
    ensures OwnedOnce(Boot(services))
  {
    var tasks := Boot(services).tasks;
    forall x: nat
      ensures Owners(tasks, x) == 0
    {
      NothingMapped(NoRegions(), x);
      NobodyOwns(tasks, x);
    }
  }

  lemma {:induction false} NobodyOwns(tasks: seq<Option<Task>>, x: nat)
    requires forall i :: 0 <= i < |tasks| ==> Share(tasks[i], x) == 0
    ensures Owners(tasks, x) == 0
  {
    hide Share;
    if tasks != [] {
      NobodyOwns(tasks[..|tasks| - 1], x);
    }
  }

  // ----- every run

  /** Everything a run loses. */
  function Lost(s: State, run: seq<Action>): set<nat>
  {
    if run == [] then {} else Lost(s, run[..|run| - 1]) + LosesNow(After(s, run[..|run| - 1]), run[|run| - 1])
  }

  /** Over any run every live buffer has exactly one owner, except those the run lost: they stay alive and nobody has
      them. */
  lemma {:induction false} RunOwned(s: State, run: seq<Action>)
    requires Safe(s) && OwnedOnce(s)
    ensures OwnedBut(After(s, run), Lost(s, run))
  {
    hide Safe, OwnedBut, Step, LosesNow;
    if run != [] {
      var before := run[..|run| - 1];
      RunOwned(s, before);
      EveryRunIsSafe(s, before);
      StepOwned(After(s, before), Lost(s, before), run[|run| - 1]);
    }
  }

  ghost predicate NeverLoses(s: State, run: seq<Action>)
  {
    run != [] ==> NeverLoses(s, run[..|run| - 1]) && !LosesReply(After(s, run[..|run| - 1]), run[|run| - 1])
  }

  lemma {:induction false} LostNothing(s: State, run: seq<Action>)
    ensures Lost(s, run) == {} <==> NeverLoses(s, run)
  {
    hide LosesReply;
    if run != [] {
      LostNothing(s, run[..|run| - 1]);
    }
  }

  /** After boot, and whatever the tasks do, every live buffer has exactly one owner at the end of a run if and only if
      no call of the run started while an unclaimed reply with a buffer was in its caller's slot. */
  lemma BuffersOwnedOnce(services: nat, run: seq<Action>)
    requires services + 2 <= MAX_TASKS
    ensures OwnedOnce(After(Boot(services), run)) <==> NeverLoses(Boot(services), run)
  {
    hide After, Boot, Safe, Owners;
    BootSafe(services);
    BootOwnedOnce(services);
    RunOwned(Boot(services), run);
    LostNothing(Boot(services), run);
    var s, lost := After(Boot(services), run), Lost(Boot(services), run);
    if lost != {} {
      SomeLost(s, lost);
    }
  }

  lemma SomeLost(s: State, lost: set<nat>)
    requires OwnedBut(s, lost) && lost != {}
    ensures !OwnedOnce(s)
  {
    hide Owners;
    var x :| x in lost;
    assert Owners(s.tasks, x) == Count(s.payloads - lost, x) == 0;
    assert Count(s.payloads - {}, x) == 1;
  }

  /** A disciplined run loses nothing. */
  lemma {:induction false} DisciplinedLosesNothing(s: State, run: seq<Action>)
    requires Safe(s) && CallsOk(s) && DisciplinedRun(s, run)
    ensures NeverLoses(s, run)
  {
    hide Safe, Step, Disciplined, CallsOk, LosesReply;
    if run != [] {
      var before := run[..|run| - 1];
      DisciplinedLosesNothing(s, before);
      RunCalls(s, before);
      NothingLost(After(s, before), run[|run| - 1]);
    }
  }

  lemma NothingLost(s: State, a: Action)
    requires CallsOk(s)
    ensures !LosesReply(s, a)
  {
    assert CallsOkAt(s, s.current);
  }
}
