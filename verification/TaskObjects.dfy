/** A task as kernel/task/task.hpp lays it out: the message ring, the doorbell words, the exit records and the region
    table are storage that is updated in place. Abs() is the task of the step machine it stands for. */
module TaskObjects {
  import opened Common
  import opened BitUtils
  import opened Words
  import opened IpcModel
  import opened IntrusiveList
  import opened MessageQueues

  const NO_MESSAGE: Message := Message(0, 0, 0, 0, false, 0, 0)

  /** One bit for each of the NOTIFY_TYPES doorbells. */
  const NOTIFY_WORDS: nat := 32

  /** What is no kernel state: see IpcModel.Task. */
  datatype Aux = Aux(mustSwitch: bool, hand: multiset<nat>, held: set<Request>, seen: set<Request>, calls: nat)

  /** What one pass of receive_blocking finds: a doorbell, a message, or nothing. */
  datatype Arrival = Bell(bit: nat) | Letter(m: Message) | Nothing

  class TaskObject {
    const id: nat
    const parent: Option<nat>
    const birth: nat
    const elem: Elem
    const messages: MessageQueue
    const exitRecords: array<ExitRecord>
    const regions: array<Region>
    var state: TaskState
    var waitReason: WaitReason
    var waitNotifyMask: nat
    var pendingNotifications: nat
    var nextCorrelation: nat
    var callCorrelation: nat
    var replyPending: bool
    var replySlot: Message
    var numExitRecords: nat
    /** Where its code is, with the variables of call(). */
    var point: Point
    var callId: nat
    ghost var aux: Aux

    ghost function Repr(): set<object>
    {
      {this, elem, messages, exitRecords, regions} + if messages.ring == null then {} else {messages.ring}
    }

    /** All of it but the links of the run queue. */
    ghost function Body(): set<object>
    {
      Repr() - {elem}
    }

    ghost predicate Valid()
      reads this, messages, regions
    {
      && messages.Valid() && messages.ring != null
      && exitRecords.Length == MAX_CHILD_EXIT_RECORDS && numExitRecords <= MAX_CHILD_EXIT_RECORDS && regions.Length == MAX_OOL_REGIONS
      && waitNotifyMask < U32 && pendingNotifications < NOTIFY_WORDS && nextCorrelation < U32
      && forall i :: 0 <= i < regions.Length && regions[i].kaddr == 0 ==> regions[i] == Region(0, 0)
    }

    ghost function Abs(): Task
      requires Valid()
      reads this, messages, messages.ring, exitRecords, regions
    {
      Task(state, waitReason, Bits(waitNotifyMask), Bits(pendingNotifications), messages.Contents(),
           nextCorrelation, callCorrelation, replyPending, replySlot,
           exitRecords[..numExitRecords], regions[..], parent,
           point, aux.mustSwitch, aux.hand, aux.held, aux.seen, aux.calls, callId, birth)
    }

    lemma SameFields()
      requires Valid()
      ensures Abs().nextCorrelation == nextCorrelation && Abs().birth == birth
    {
    }

    constructor (number: nat, parentId: Option<nat>, incarnation: nat)
      ensures Valid() && Abs() == NewTask(parentId, incarnation) && id == number && elem.container == number
      ensures birth == incarnation && fresh(Repr())
    {
      id, parent, birth := number, parentId, incarnation;
      elem := new Elem(number);
      var storage := new Message[RING_CAPACITY](_ => NO_MESSAGE);
      messages := new MessageQueue(storage);
      exitRecords := new ExitRecord[MAX_CHILD_EXIT_RECORDS](_ => ExitRecord(0, 0));
      regions := new Region[MAX_OOL_REGIONS](_ => Region(0, 0));
      state, waitReason, waitNotifyMask, pendingNotifications := Waiting, NoReason, 0, 0;
      nextCorrelation, callCorrelation, replyPending, replySlot := 0, 0, false, NO_MESSAGE;
      numExitRecords, point, callId := 0, Free, 0;
      aux := Aux(false, multiset{}, {}, {}, 0);
      new;
      NoBits(0);
      assert regions[..] == NoRegions();
    }

    // ----- single fields

    method SetState(x: TaskState)
      requires Valid()
      modifies this`state
      ensures Valid() && Abs() == old(Abs()).(state := x)
    {
      state := x;
    }

    method AcceptReply(m: Message)
      requires Valid()
      modifies this`replySlot, this`replyPending
      ensures Valid() && Abs() == old(Abs()).(replySlot := m, replyPending := true)
    {
      replySlot := m;
      replyPending := true;
    }

    method DropReply()
      requires Valid()
      modifies this`replyPending
      ensures Valid() && Abs() == old(Abs()).(replyPending := false)
    {
      replyPending := false;
    }

    method Push(m: Message) returns (ok: bool)
      requires Valid()
      modifies messages, messages.ring
      ensures Valid() && (ok <==> |old(Abs()).ring| < RING_CAPACITY)
      ensures Abs() == if ok then old(Abs()).(ring := old(Abs()).ring + [m]) else old(Abs())
    {
      ok := messages.Push(m);
    }

    ghost method Holds(ool: nat)
      requires Valid()
      modifies this`aux
      ensures Valid() && Abs() == Hold(old(Abs()), ool)
    {
      if ool != 0 {
        aux := aux.(hand := aux.hand + multiset{ool});
      }
    }

    ghost method LetsGo(ool: nat)
      requires Valid()
      modifies this`aux
      ensures Valid() && Abs() == LetGo(old(Abs()), ool)
    {
      if ool != 0 {
        aux := aux.(hand := aux.hand - multiset{ool});
      }
    }

    ghost method Forgets(req: Request)
      requires Valid()
      modifies this`aux
      ensures Valid() && Abs() == old(Abs()).(held := old(Abs()).held - {req})
    {
      aux := aux.(held := aux.held - {req});
    }

    ghost method Switches()
      requires Valid()
      modifies this`aux
      ensures Valid() && Abs() == old(Abs()).(mustSwitch := false)
    {
      aux := aux.(mustSwitch := false);
    }

    // ----- the sections of the blocking calls

    method GoToSleep(reason: WaitReason, at: Point)
      requires Valid()
      modifies this`waitReason, this`state, this`point, this`aux
      ensures Valid() && Abs() == Sleep(old(Abs()), reason, at)
    {
      waitReason := reason;
      state := Waiting;
      point := at;
      aux := aux.(mustSwitch := true);
    }

    method WakeUp()
      requires Valid()
      modifies this`waitReason, this`state, this`point
      ensures Valid() && Abs() == old(Abs()).(state := Running, waitReason := NoReason, point := Free)
    {
      state := Running;
      waitReason := NoReason;
      point := Free;
    }

    /** The next correlation; 0 is skipped when the counter wraps. */
    method TakeCorrelation() returns (correlation: nat)
      requires Valid()
      modifies this`nextCorrelation
      ensures Valid() && correlation == NextCorrelation(old(nextCorrelation)) && Abs() == old(Abs()).(nextCorrelation := correlation)
    {
      correlation := (nextCorrelation + 1) % U32;
      nextCorrelation := correlation;
      if correlation == 0 {
        correlation := (nextCorrelation + 1) % U32;
        nextCorrelation := correlation;
      }
    }

    method IssueCall(dst: int, request: Message)
      requires Valid()
      modifies this`callCorrelation, this`replyPending, this`point, this`callId, this`aux
      ensures Valid()
      ensures Abs() == old(Abs()).(callCorrelation := request.correlation, replyPending := false, point := Calling(dst, request),
                                   callId := request.call, calls := old(Abs()).calls + 1)
    {
      callCorrelation := request.correlation;
      replyPending := false;
      point, callId := Calling(dst, request), request.call;
      aux := aux.(calls := aux.calls + 1);
    }

    /** call() up to its send; the request is left in `point`. */
    method BeginCall(dst: int, m: Message, number: nat)
      requires Valid()
      modifies this
      ensures Valid() && Abs() == StartCall(old(Abs()), id, dst, m, number)
    {
      hide NextCorrelation, Valid, Abs;
      SameFields();
      if dst == id {
        return;
      }
      var correlation := TakeCorrelation();
      LetsGo(m.ool);
      IssueCall(dst, m.(sender := id, birth := birth, call := number, correlation := correlation, isReply := false));
    }

    /** The send of call() has failed. */
    method CallFails()
      requires Valid() && point.Calling?
      modifies this
      ensures Valid() && Abs() == Hold(old(Abs()), old(point).request.ool).(callCorrelation := 0, point := Free)
    {
      Holds(point.request.ool);
      callCorrelation := 0;
      point := Free;
    }

    method SetPoint(x: Point)
      requires Valid()
      modifies this`point
      ensures Valid() && Abs() == old(Abs()).(point := x)
    {
      point := x;
    }

    /** One pass of call()'s loop. */
    method AwaitReply() returns (reply: Option<Message>)
      requires Valid()
      modifies this
      ensures Valid() && Abs() == PollReply(old(Abs()))
      ensures reply == if old(Abs()).replyPending then Some(old(Abs()).replySlot) else None
    {
      if replyPending {
        reply := Some(replySlot);
        Holds(replySlot.ool);
        replyPending := false;
        callCorrelation := 0;
        WakeUp();
        return;
      }
      GoToSleep(Reply, point);
      reply := None;
    }

    /** One pass of receive_blocking's loop. */
    method ReceiveBlocking() returns (arrival: Arrival)
      requires Valid()
      modifies this, messages
      ensures Valid() && Abs() == PollReceive(old(Abs()))
      ensures match arrival
              case Bell(bit) => bit in old(Abs()).pending && forall b :: b in old(Abs()).pending ==> bit <= b
              case Letter(m) => old(Abs()).pending == {} && old(Abs()).ring != [] && m == old(Abs()).ring[0]
              case Nothing => old(Abs()).pending == {} && old(Abs()).ring == []
    {
      LowestFirst(Abs().pending);
      var popped, bit := PopNotification();
      if popped {
        WakeUp();
        return Bell(bit);
      }
      var received, m := messages.Pop();
      if received {
        WakeUp();
        Holds(m.ool);
        aux := aux.(held := aux.held + Awaiting(m), seen := aux.seen + Awaiting(m));
        return Letter(m);
      }
      GoToSleep(Receive, InReceive);
      arrival := Nothing;
    }

    /** One pass of wait_notification's loop. */
    method WaitNotification(mask: nat)
      requires Valid() && mask < U32
      modifies this
      ensures Valid() && Abs() == PollNotify(old(Abs()), Bits(mask))
    {
      var taken := TakeNotifications(mask);
      if taken {
        waitReason := NoReason;
        point := Free;
        return;
      }
      GoToSleep(Notify, InWait(Bits(mask)));
      waitNotifyMask := mask;
    }

    /** One pass of sys_wait's loop. */
    method SysWait() returns (record: Option<ExitRecord>)
      requires Valid()
      modifies this, exitRecords
      ensures Valid() && Abs() == PollChild(old(Abs()))
      ensures record == if old(Abs()).exitRecords != [] then Some(old(Abs()).exitRecords[0]) else None
    {
      if numExitRecords > 0 {
        var r := TakeExitRecord();
        WakeUp();
        return Some(r);
      }
      GoToSleep(Child, InChildWait);
      record := None;
    }

    // ----- doorbells

    /** pop_notification: which doorbell, if one is pending. */
    method PopNotification() returns (popped: bool, bit: nat)
      requires Valid()
      modifies this`pendingNotifications
      ensures Valid() && (popped <==> old(Abs()).pending != {})
      ensures popped ==> bit == Lowest(old(Abs()).pending) && bit in old(Abs()).pending
      ensures Abs() == old(Abs()).(pending := if popped then old(Abs()).pending - {bit} else old(Abs()).pending)
    {
      NoBits(pendingNotifications);
      if pendingNotifications == 0 {
        return false, 0;
      }
      bit := Ctz(pendingNotifications);
      LowestIsCtz(pendingNotifications);
      PopBits(pendingNotifications);
      AndShrinks(pendingNotifications, pendingNotifications - 1);
      pendingNotifications := And(pendingNotifications, pendingNotifications - 1);
      popped := true;
    }

    /** notify's update of the word. */
    method RaiseNotification(bit: nat)
      requires Valid() && bit < NOTIFY_TYPES
      modifies this`pendingNotifications
      ensures Valid() && Abs() == old(Abs()).(pending := old(Abs()).pending + {bit})
    {
      RaisedWord(pendingNotifications, bit);
      pendingNotifications := Or(pendingNotifications, Pow2(bit));
    }

    /** wait_notification's test and update of the word. */
    method TakeNotifications(mask: nat) returns (taken: bool)
      requires Valid() && mask < U32
      modifies this`pendingNotifications
      ensures Valid() && (taken <==> old(Abs()).pending * Bits(mask) != {})
      ensures Abs() == old(Abs()).(pending := if taken then old(Abs()).pending - Bits(mask) else old(Abs()).pending)
    {
      AndBits(pendingNotifications, mask);
      AndShrinks(pendingNotifications, mask);
      NoBits(And(pendingNotifications, mask));
      taken := And(pendingNotifications, mask) != 0;
      if taken {
        AndNotBits(pendingNotifications, mask);
        AndNotShrinks(pendingNotifications, mask);
        pendingNotifications := AndNot(pendingNotifications, mask);
      }
    }

    // ----- exit records

    /** record_child_exit's append; a full table drops the record. */
    method AddExitRecord(r: ExitRecord) returns (added: bool)
      requires Valid()
      modifies this`numExitRecords, exitRecords
      ensures Valid() && (added <==> |old(Abs()).exitRecords| < MAX_CHILD_EXIT_RECORDS)
      ensures Abs() == if added then old(Abs()).(exitRecords := old(Abs()).exitRecords + [r]) else old(Abs())
    {
      if numExitRecords >= MAX_CHILD_EXIT_RECORDS {
        return false;
      }
      exitRecords[numExitRecords] := r;
      numExitRecords := numExitRecords + 1;
      assert exitRecords[..numExitRecords] == old(exitRecords[..numExitRecords]) + [r];
      added := true;
    }

    /** sys_wait takes the oldest record and moves the others up. */
    method TakeExitRecord() returns (r: ExitRecord)
      requires Valid() && numExitRecords > 0
      modifies this`numExitRecords, exitRecords
      ensures Valid() && Abs() == old(Abs()).(exitRecords := old(Abs()).exitRecords[1..]) && r == old(Abs()).exitRecords[0]
    {
      ghost var before := exitRecords[..];
      r := exitRecords[0];
      var i := 1;
      while i < numExitRecords
        invariant 1 <= i <= numExitRecords && numExitRecords == old(numExitRecords)
        invariant forall j :: 1 <= j < i ==> exitRecords[j - 1] == before[j]
        invariant forall j :: i - 1 <= j < exitRecords.Length ==> exitRecords[j] == before[j]
      {
        exitRecords[i - 1] := exitRecords[i];
        i := i + 1;
      }
      numExitRecords := numExitRecords - 1;
      assert exitRecords[..numExitRecords] == before[..numExitRecords + 1][1..];
    }

    // ----- regions and draining

    /** The search for a free slot in deliver_ool_to_user. */
    method FindFreeRegion() returns (i: nat)
      requires Valid()
      ensures i == FreeSlot(Abs().regions)
    {
      i := 0;
      while i < regions.Length && regions[i].kaddr != 0
        invariant i <= regions.Length && forall j :: 0 <= j < i ==> regions[j].kaddr != 0
      {
        i := i + 1;
      }
      assert forall j :: 0 <= j < regions.Length ==> regions[..][j] == regions[j];
    }

    /** The search for a mapped address in release_ool_region. */
    method FindRegion(uaddr: nat) returns (i: nat)
      requires Valid()
      ensures i == RegionIndex(Abs().regions, uaddr)
    {
      i := 0;
      while i < regions.Length && (regions[i].kaddr == 0 || regions[i].uaddr != uaddr)
        invariant i <= regions.Length && forall j :: 0 <= j < i ==> regions[j].kaddr == 0 || regions[j].uaddr != uaddr
      {
        i := i + 1;
      }
      assert forall j :: 0 <= j < regions.Length ==> regions[..][j] == regions[j];
    }

    method SetRegion(i: nat, r: Region)
      requires Valid() && i < MAX_OOL_REGIONS && (r.kaddr == 0 ==> r == Region(0, 0))
      modifies regions
      ensures Valid() && Abs() == old(Abs()).(regions := old(Abs()).regions[i := r])
    {
      regions[i] := r;
      assert regions[..] == old(regions[..])[i := r];
    }

    /** release_ool_regions: every occupied slot is emptied and its buffer freed. */
    method ClearRegions(payloads: set<nat>) returns (rest: set<nat>)
      requires Valid() && 0 !in payloads
      modifies regions
      ensures Valid() && Abs() == old(Abs()).(regions := NoRegions())
      ensures rest == payloads - Kaddrs(old(Abs()).regions)
    {
      ghost var before := regions[..];
      rest := payloads;
      var i := 0;
      while i < regions.Length
        invariant i <= regions.Length && Valid() && rest == payloads - Kaddrs(before[..i])
        invariant forall j :: 0 <= j < regions.Length ==> regions[j] == if j < i then Region(0, 0) else before[j]
      {
        KaddrsNext(before, i);
        if regions[i].kaddr != 0 {
          rest := rest - {regions[i].kaddr};
          regions[i] := Region(0, 0);
        }
        i := i + 1;
      }
      assert before[..i] == before;
      assert regions[..] == NoRegions();
    }

    /** try_receive: a doorbell, or the oldest message. */
    method TryReceive() returns (received: bool, m: Message)
      requires Valid()
      modifies this`pendingNotifications, messages
      ensures Valid() && (received <==> old(Abs()).pending != {} || old(Abs()).ring != [])
      ensures Abs() == Drained(old(Abs()))
      ensures old(Abs()).pending != {} ==> Lowest(old(Abs()).pending) in old(Abs()).pending
      ensures received ==> m == if old(Abs()).pending != {} then NO_MESSAGE else old(Abs()).ring[0]
    {
      var popped, bit := PopNotification();
      if popped {
        return true, NO_MESSAGE;
      }
      received, m := messages.Pop();
    }

    /** The draining loop of release_all_ool: doorbells go, messages go and their buffers are freed. */
    method DrainMessages(payloads: set<nat>) returns (rest: set<nat>)
      requires Valid() && 0 !in payloads
      modifies this`pendingNotifications, messages
      ensures Valid() && Abs() == old(Abs()).(pending := {}, ring := [])
      ensures rest == payloads - Attached(old(Abs()).ring)
    {
      hide Abs, Attached, Drained;
      rest := payloads;
      ghost var was := Abs();
      DrainStep(was, rest);
      var more, m := TryReceive();
      while more
        invariant Valid() && 0 !in rest && Abs() == was.(pending := Abs().pending, ring := Abs().ring)
        invariant more || (Abs().pending == {} && Abs().ring == [])
        invariant rest - (if more then {m.ool} else {}) - Attached(Abs().ring) == payloads - Attached(was.ring)
        decreases Left(Abs(), more)
      {
        if m.ool != 0 {
          rest := rest - {m.ool};
        }
        DrainStep(Abs(), rest);
        more, m := TryReceive();
      }
      NothingAttached();
    }
  }

  /** What one successful receive leaves. */
  function Drained(t: Task): Task
  {
    if t.pending != {} then t.(pending := t.pending - {Lowest(t.pending)})
    else if t.ring != [] then t.(ring := t.ring[1..])
    else t
  }

  ghost function Left(t: Task, more: bool): nat
  {
    |t.ring| + |t.pending| + if more then 1 else 0
  }

  lemma DrainStep(t: Task, rest: set<nat>)
    requires 0 !in rest
    ensures var d := Drained(t);
            && d == t.(pending := d.pending, ring := d.ring)
            && (t.pending != {} ==> d.ring == t.ring && (Lowest(t.pending) in t.pending ==> Left(d, true) < Left(t, true)))
            && (t.pending == {} && t.ring != [] ==> Left(d, true) < Left(t, true) && rest - {t.ring[0].ool} - Attached(d.ring) == rest - Attached(t.ring))
            && (t.pending == {} && t.ring == [] ==> d == t)
  {
    hide Lowest;
    AttachedFirst(t.ring);
  }

  lemma NothingAttached()
    ensures Attached([]) == {}
  {
  }

  lemma AttachedFirst(ring: seq<Message>)
    ensures ring != [] ==> Attached(ring) == {ring[0].ool} + Attached(ring[1..])
  {
    if ring != [] {
      assert forall i :: 0 <= i < |ring[1..]| ==> ring[1..][i] == ring[i + 1];
      forall x | x in Attached(ring)
        ensures x == ring[0].ool || x in Attached(ring[1..])
      {
        var i :| 0 <= i < |ring| && ring[i].ool == x;
        if i > 0 {
          assert ring[1..][i - 1].ool == x;
        }
      }
    }
  }

  lemma KaddrsNext(regions: seq<Region>, i: nat)
    requires i < |regions|
    ensures Kaddrs(regions[..i + 1]) == Kaddrs(regions[..i]) + {regions[i].kaddr}
  {
    var a, b := regions[..i + 1], regions[..i];
    assert forall j :: 0 <= j < i ==> a[j] == b[j];
    assert a[i] == regions[i];
    forall x
      ensures x in Kaddrs(a) <==> x in Kaddrs(b) || x == regions[i].kaddr
    {
      if x in Kaddrs(b) {
        var j :| 0 <= j < |b| && b[j].kaddr == x;
        assert a[j].kaddr == x;
      }
      if x == regions[i].kaddr {
        assert a[i].kaddr == x;
      }
    }
  }

  lemma LowestFirst(bits: set<nat>)
    ensures forall b :: b in bits ==> Lowest(bits) <= b
  {
  }

  lemma LowestIsCtz(x: nat)
    requires 0 < x < NOTIFY_WORDS
    ensures Ctz(x) < NOTIFY_TYPES && Lowest(Bits(x)) == Ctz(x)
  {
    assert Pow2(NOTIFY_TYPES) == NOTIFY_WORDS;
    CtzBelow(x, NOTIFY_TYPES);
    PopBits(x);
  }

  lemma RaisedWord(x: nat, bit: nat)
    requires x < NOTIFY_WORDS && bit < NOTIFY_TYPES
    ensures Or(x, Pow2(bit)) < NOTIFY_WORDS && Bits(Or(x, Pow2(bit))) == Bits(x) + {bit}
  {
    assert Pow2(NOTIFY_TYPES) == NOTIFY_WORDS;
    Pow2Monotone(bit, NOTIFY_TYPES);
    OrBelow(x, Pow2(bit), NOTIFY_TYPES);
    OrBits(x, bit);
  }
}
