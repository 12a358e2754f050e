/** The command and transfer ring of kernel/hardware/usb/xhci/ring.cpp against a controller that only follows cycle bits and
    the link TRB (sections 4.9.2, 4.9.3 and 6.4.4.1 of the xHCI specification). */
module XhciRing {
  import opened Common

  const LINK_TYPE: nat := 6
  const TRB_BYTES: nat := 16

  /** Four 32-bit words; bit 0 of the last is the cycle bit, bit 1 of a link TRB's toggles it, bits 10 to 15 are the type. */
  datatype Trb = Trb(w0: nat, w1: nat, w2: nat, w3: nat)

  predicate Cycle(t: Trb)
  {
    t.w3 % 2 == 1
  }

  predicate ToggleCycle(t: Trb)
  {
    t.w3 / 2 % 2 == 1
  }

  function Type(t: Trb): nat
  {
    t.w3 / 1024 % 64
  }

  /** Where a link TRB points. */
  function Pointer(t: Trb): nat
  {
    t.w1 * U32 + t.w0 / 16 * 16
  }

  /** The TRB with its cycle bit set to c. */
  function Stamped(t: Trb, c: bool): Trb
  {
    t.(w3 := t.w3 / 2 * 2 + if c then 1 else 0)
  }

  /** The same TRB apart from the cycle bit. */
  predicate SameTrb(t: Trb, u: Trb)
  {
    t.w0 == u.w0 && t.w1 == u.w1 && t.w2 == u.w2 && t.w3 / 2 == u.w3 / 2
  }

  /** What was taken is what was pushed first, TRB by TRB. */
  ghost predicate AsPushed(taken: seq<Trb>, pushed: seq<Trb>)
  {
    |taken| <= |pushed| && forall k :: 0 <= k < |taken| ==> SameTrb(taken[k], pushed[k])
  }

  const ZERO: Trb := Trb(0, 0, 0, 0)

  /** A link to the start of the ring that toggles the cycle state. */
  function LinkTrb(base: nat): Trb
  {
    Trb(base % U32, base / U32, 0, LINK_TYPE * 1024 + 2)
  }

  lemma LinkTrbFields(base: nat, c: bool)
    requires base % TRB_BYTES == 0
    ensures var l := Stamped(LinkTrb(base), c); Type(l) == LINK_TYPE && ToggleCycle(l) && Cycle(l) == c && Pointer(l) == base
  {
    var low := base % U32;
    assert low % 16 == 0;
  }

  lemma StampedFields(t: Trb, c: bool)
    ensures Cycle(Stamped(t, c)) == c && SameTrb(Stamped(t, c), t) && Type(Stamped(t, c)) == Type(t)
  {
    var x, b := t.w3 / 2, if c then 1 else 0;
    assert (x * 2 + b) / 2 == x && (x * 2 + b) % 2 == b;
    assert (x * 2 + b) / 1024 == x / 512 && t.w3 / 1024 == x / 512;
  }

  // ----- where the k-th TRB goes

  /** A place on a ring of n data slots: the slot and the cycle state there. */
  datatype Place = Place(slot: nat, cycle: bool)

  function Next(p: Place, n: nat): Place
  {
    if p.slot + 1 == n then Place(0, !p.cycle) else Place(p.slot + 1, p.cycle)
  }

  function PlaceOf(k: nat, n: nat): (p: Place)
    requires n > 0
    ensures p.slot < n
  {
    if k == 0 then Place(0, true) else Next(PlaceOf(k - 1, n), n)
  }

  /** Up to one lap ahead: the slots go round, and the cycle state changes with the wrap. */
  lemma {:induction false} Ahead(k: nat, j: nat, n: nat)
    requires n > 0 && j <= n
    ensures var p, q := PlaceOf(k, n), PlaceOf(k + j, n);
            if p.slot + j < n then q == Place(p.slot + j, p.cycle) else q == Place(p.slot + j - n, !p.cycle)
  {
    if j > 0 {
      Ahead(k, j - 1, n);
    }
  }

  // ----- the ring

  class Ring {
    var buffer: array?<Trb>
    const base: nat
    var cycleBit: bool
    var writeIndex: nat
    var readIndex: nat
    /** Every TRB ever pushed, as it was given, and how many of them were reported as consumed. */
    ghost var pushed: seq<Trb>
    ghost var reported: nat

    ghost predicate Valid()
      reads this, buffer
    {
      && base % TRB_BYTES == 0
      && (buffer == null || buffer.Length < 2 ==> pushed == [])
      && (buffer != null && buffer.Length >= 2 ==> Holds(buffer[..], base, pushed, reported, writeIndex, readIndex, cycleBit))
    }

    /** initialize; without memory there is no buffer. */
    constructor (memory: array?<Trb>, address: nat)
      requires address % TRB_BYTES == 0 && (memory != null ==> forall i :: 0 <= i < memory.Length ==> memory[i] == ZERO)
      ensures Valid() && buffer == memory && base == address && pushed == [] && reported == 0
    {
      buffer, base := memory, address;
      cycleBit, writeIndex, readIndex := true, 0, 0;
      pushed, reported := [], 0;
    }

    /** The slot gets the words as they are, with the ring's cycle bit for theirs. */
    method CopyToLast(data: Trb)
      requires buffer != null && writeIndex < buffer.Length
      modifies buffer
      ensures buffer[..] == old(buffer[..])[writeIndex := buffer[writeIndex]] && buffer[writeIndex] == Stamped(data, cycleBit)
      ensures SameTrb(buffer[writeIndex], data) && Cycle(buffer[writeIndex]) == cycleBit
    {
      StampedFields(data, cycleBit);
      buffer[writeIndex] := Stamped(data, cycleBit);
    }

    /** Refused exactly when one slot fewer than there are data slots is unreported; never touches an unreported slot. */
    method Push(data: Trb) returns (slot: int)
      requires Valid() && Type(data) != LINK_TYPE
      modifies this`writeIndex, this`cycleBit, this`pushed, buffer
      ensures Valid()
      ensures slot == -1 <==> buffer == null || buffer.Length < 2 || |old(pushed)| - reported == buffer.Length - 2
      ensures slot == -1 ==> pushed == old(pushed) && (buffer != null ==> buffer[..] == old(buffer[..]))
      ensures slot != -1 ==> 0 <= slot < buffer.Length && SameTrb(buffer[slot], data) && Cycle(buffer[slot]) == old(cycleBit)
      ensures slot != -1 ==> pushed == old(pushed) + [data] && slot == PlaceOf(|old(pushed)|, buffer.Length - 1).slot
      ensures slot != -1 ==> Unused(slot, reported, |old(pushed)|, buffer.Length - 1)
    {
      hide Stamped, SameTrb, Type, Cycle, Holds, LinkTrb, Unused, PlaceOf;
      if buffer == null || buffer.Length < 2 {
        return -1;
      }
      ghost var n, before := buffer.Length - 1, buffer[..];
      HoldsIndices(before, base, pushed, reported, writeIndex, readIndex, cycleBit);
      Window(|pushed|, reported, n);
      var nextWriteIndex := writeIndex + 1;
      if nextWriteIndex == buffer.Length - 1 {
        nextWriteIndex := 0;
      }
      if nextWriteIndex == readIndex {
        return -1;
      }
      slot := writeIndex;
      CopyToLast(data);
      writeIndex := writeIndex + 1;
      if writeIndex == buffer.Length - 1 {
        CopyToLast(LinkTrb(base));
        writeIndex := 0;
        cycleBit := !cycleBit;
      }
      OneMore(before, base, pushed, reported, readIndex, data);
      pushed := pushed + [data];
    }

    /** The controller reported the TRB in a slot. A slot outside the ring is ignored. */
    method OnConsumed(slot: int, ghost k: nat)
      requires Valid()
      requires buffer != null && 0 <= slot < buffer.Length ==>
                 buffer.Length >= 2 && reported <= k < |pushed| && slot == PlaceOf(k, buffer.Length - 1).slot
      modifies this`readIndex, this`reported
      ensures Valid() && pushed == old(pushed)
      ensures reported == if buffer != null && 0 <= slot < buffer.Length then k + 1 else old(reported)
    {
      if buffer == null || slot < 0 || slot >= buffer.Length {
        return;
      }
      var nextReadIndex := slot + 1;
      if nextReadIndex >= buffer.Length - 1 {
        nextReadIndex := 0;
      }
      readIndex := nextReadIndex;
      reported := k + 1;
    }
  }

  /** What the buffer holds after `pushed`: the last lap's TRBs stamped with the cycle state of their lap, zeros where nothing
      was written yet, and behind the data slots the link TRB once the first lap is complete. */
  ghost predicate Holds(buffer: seq<Trb>, base: nat, pushed: seq<Trb>, reported: nat, writeIndex: nat, readIndex: nat,
                        cycleBit: bool)
  {
    && |buffer| >= 2 && var n, count := |buffer| - 1, |pushed|;
    && PlaceOf(count, n) == Place(writeIndex, cycleBit) && readIndex == PlaceOf(reported, n).slot
    && reported <= count <= reported + n - 1
    && NoLinks(pushed) && HoldsLap(buffer, pushed, n) && HoldsRest(buffer, base, count, n, cycleBit)
  }

  ghost predicate NoLinks(pushed: seq<Trb>)
  {
    forall k :: 0 <= k < |pushed| ==> Type(pushed[k]) != LINK_TYPE
  }

  ghost predicate HoldsLap(buffer: seq<Trb>, pushed: seq<Trb>, n: nat)
    requires 0 < n < |buffer|
  {
    forall k :: 0 <= k < |pushed| && |pushed| - n <= k ==> buffer[PlaceOf(k, n).slot] == Stamped(pushed[k], PlaceOf(k, n).cycle)
  }

  /** The link TRB was last written at the end of the lap before the current one. */
  ghost predicate HoldsRest(buffer: seq<Trb>, base: nat, count: nat, n: nat, cycleBit: bool)
    requires 0 < n < |buffer|
  {
    && (forall i :: count <= i < n ==> buffer[i] == ZERO)
    && buffer[n] == if count < n then ZERO else Stamped(LinkTrb(base), !cycleBit)
  }

  lemma HoldsIndices(buffer: seq<Trb>, base: nat, pushed: seq<Trb>, reported: nat, writeIndex: nat, readIndex: nat,
                     cycleBit: bool)
    requires Holds(buffer, base, pushed, reported, writeIndex, readIndex, cycleBit)
    ensures PlaceOf(|pushed|, |buffer| - 1) == Place(writeIndex, cycleBit) && readIndex == PlaceOf(reported, |buffer| - 1).slot
    ensures reported <= |pushed| <= reported + |buffer| - 2
  {
  }

  /** None of the TRBs numbered `from` up to `to` is in the slot. */
  ghost predicate Unused(slot: nat, from: nat, to: nat, n: nat)
    requires n > 0
  {
    forall k :: from <= k < to ==> PlaceOf(k, n).slot != slot
  }

  /** Full, in terms of the two indices. */
  lemma Window(count: nat, reported: nat, n: nat)
    requires n > 0 && reported <= count <= reported + n - 1
    ensures Next(PlaceOf(count, n), n).slot == PlaceOf(reported, n).slot <==> count - reported == n - 1
    ensures Unused(PlaceOf(count, n).slot, reported, count, n)
  {
    Ahead(reported, count - reported, n);
    Ahead(reported, count + 1 - reported, n);
    forall k | reported <= k < count
      ensures PlaceOf(k, n).slot != PlaceOf(count, n).slot
    {
      Ahead(k, count - k, n);
    }
  }

  /** The buffer after one more TRB at a place, and after the link TRB when that place is the last of the lap. */
  function Written(buffer: seq<Trb>, base: nat, p: Place, data: Trb): seq<Trb>
    requires |buffer| >= 2 && p.slot < |buffer| - 1
  {
    var b := buffer[p.slot := Stamped(data, p.cycle)];
    if p.slot + 1 == |buffer| - 1 then b[|buffer| - 1 := Stamped(LinkTrb(base), p.cycle)] else b
  }

  lemma OneMore(buffer: seq<Trb>, base: nat, pushed: seq<Trb>, reported: nat, readIndex: nat, data: Trb)
    requires |buffer| >= 2 && Type(data) != LINK_TYPE && |pushed| - reported < |buffer| - 2
    requires var p := PlaceOf(|pushed|, |buffer| - 1); Holds(buffer, base, pushed, reported, p.slot, readIndex, p.cycle)
    ensures var p := PlaceOf(|pushed|, |buffer| - 1);
            var q := Next(p, |buffer| - 1);
            Holds(Written(buffer, base, p, data), base, pushed + [data], reported, q.slot, readIndex, q.cycle)
  {
    hide Stamped, Type, LinkTrb, HoldsLap, HoldsRest, PlaceOf;
    var n, count := |buffer| - 1, |pushed|;
    var p := PlaceOf(count, n);
    LapAdvanced(buffer, base, pushed, data);
    RestAdvanced(buffer, base, count, data);
    PlaceAfter(count, n);
  }

  lemma PlaceAfter(k: nat, n: nat)
    requires n > 0
    ensures PlaceOf(k + 1, n) == Next(PlaceOf(k, n), n)
  {
  }

  lemma LapAdvanced(buffer: seq<Trb>, base: nat, pushed: seq<Trb>, data: Trb)
    requires |buffer| >= 2 && HoldsLap(buffer, pushed, |buffer| - 1)
    ensures HoldsLap(Written(buffer, base, PlaceOf(|pushed|, |buffer| - 1), data), pushed + [data], |buffer| - 1)
  {
    hide Stamped, LinkTrb, PlaceOf;
    var n, count := |buffer| - 1, |pushed|;
    var p := PlaceOf(count, n);
    var after, more := Written(buffer, base, p, data), pushed + [data];
    forall k | 0 <= k < count + 1 && count + 1 - n <= k
      ensures after[PlaceOf(k, n).slot] == Stamped(more[k], PlaceOf(k, n).cycle)
    {
      if k < count {
        Ahead(k, count - k, n);
      }
    }
  }

  lemma RestAdvanced(buffer: seq<Trb>, base: nat, count: nat, data: Trb)
    requires |buffer| >= 2 && HoldsRest(buffer, base, count, |buffer| - 1, PlaceOf(count, |buffer| - 1).cycle)
    ensures var p := PlaceOf(count, |buffer| - 1);
            HoldsRest(Written(buffer, base, p, data), base, count + 1, |buffer| - 1, Next(p, |buffer| - 1).cycle)
  {
    hide Stamped, LinkTrb;
    FirstLap(count, |buffer| - 1);
  }

  /** In the first lap the slot is the number of TRBs pushed so far. */
  lemma FirstLap(count: nat, n: nat)
    requires n > 0
    ensures count < n ==> PlaceOf(count, n) == Place(count, true)
  {
    if count < n {
      Ahead(0, count, n);
    }
  }

  // ----- the controller

  /** An xHC that dequeues from a ring. It knows the ring's memory and nothing else: it looks at the TRB it has reached, and
      when the cycle bit matches its own cycle state it follows a link or takes a TRB. */
  class Controller {
    const ring: Ring
    var index: nat
    var cycleState: bool
    ghost var taken: seq<Trb>

    /** It has taken the first TRBs that were pushed, in order, at least those reported, and stands before the next one or
        at the link TRB that leads to it. */
    ghost predicate Valid()
      reads this, ring, ring.buffer
    {
      && ring.Valid() && ring.buffer != null && ring.buffer.Length >= 2
      && AsPushed(taken, ring.pushed) && ring.reported <= |taken|
      && Before(Place(index, cycleState), |taken|, ring.buffer.Length - 1)
    }

    constructor (r: Ring)
      requires r.Valid() && r.buffer != null && r.buffer.Length >= 2 && r.reported == 0
      ensures Valid() && ring == r && taken == []
    {
      ring, index, cycleState, taken := r, 0, true, [];
    }

    /** One look at the ring: the TRB taken, if any, and the slot it was in. */
    method Look() returns (got: bool, trb: Trb, slot: nat)
      requires Valid()
      modifies this`index, this`cycleState, this`taken
      ensures Valid()
      ensures got ==> |old(taken)| < |ring.pushed| && SameTrb(trb, ring.pushed[|old(taken)|]) && taken == old(taken) + [trb]
      ensures got ==> slot == PlaceOf(|old(taken)|, ring.buffer.Length - 1).slot
      ensures !got ==> taken == old(taken)
      ensures got <==> old(index) < ring.buffer.Length - 1 && |old(taken)| < |ring.pushed|
      ensures index == if got then old(index) + 1 else if old(index) == ring.buffer.Length - 1 then 0 else old(index)
    {
      hide Stamped, SameTrb, Type, Cycle, Holds, LinkTrb, ToggleCycle, Pointer, PlaceOf;
      slot := index;
      trb := ring.buffer[index];
      Seen(ring.buffer[..], ring.base, ring.pushed, ring.reported, ring.writeIndex, ring.readIndex, ring.cycleBit, Place(index, cycleState), |taken|);
      if Cycle(trb) != cycleState {
        return false, trb, slot;
      }
      if Type(trb) == LINK_TYPE {
        index := (Pointer(trb) - ring.base) / TRB_BYTES;
        if ToggleCycle(trb) {
          cycleState := !cycleState;
        }
        return false, trb, slot;
      }
      index := index + 1;
      taken := taken + [trb];
      got := true;
    }
  }

  /** A consumer that took k TRBs stands at the place of the next one, or at the link TRB at the end of the lap before. */
  predicate Before(p: Place, k: nat, n: nat)
    requires n > 0
  {
    p == PlaceOf(k, n) || (k > 0 && PlaceOf(k, n).slot == 0 && p == Place(n, !PlaceOf(k, n).cycle))
  }

  /** What a consumer before TRB k sees. */
  lemma Seen(buffer: seq<Trb>, base: nat, pushed: seq<Trb>, reported: nat, writeIndex: nat, readIndex: nat,
             cycleBit: bool, p: Place, k: nat)
    requires base % TRB_BYTES == 0 && Holds(buffer, base, pushed, reported, writeIndex, readIndex, cycleBit)
    requires reported <= k <= |pushed| && Before(p, k, |buffer| - 1)
    ensures var n := |buffer| - 1;
            && p.slot < |buffer| && var t := buffer[p.slot];
            && (p.slot == n ==> Cycle(t) == p.cycle && Type(t) == LINK_TYPE && Pointer(t) == base && ToggleCycle(t) && Place(0, !p.cycle) == PlaceOf(k, n))
            && (p.slot < n && k == |pushed| ==> Cycle(t) != p.cycle)
            && (p.slot < n && k < |pushed| ==> Cycle(t) == p.cycle && Type(t) != LINK_TYPE && SameTrb(t, pushed[k]) && Before(Place(p.slot + 1, p.cycle), k + 1, n))
  {
    var n, count := |buffer| - 1, |pushed|;
    if p.slot == n {
      AtLink(k, count, n);
      LinkTrbFields(base, p.cycle);
    } else if k < count {
      StampedFields(pushed[k], p.cycle);
    } else {
      FirstLap(count, n);
      if count >= n {
        Ahead(count - n, n, n);
        StampedFields(pushed[count - n], !p.cycle);
      }
    }
  }

  /** Whoever stands at the link TRB is less than a lap behind its last writing. */
  lemma AtLink(k: nat, count: nat, n: nat)
    requires n > 0 && 0 < k <= count < k + n && PlaceOf(k, n).slot == 0
    ensures count >= n && PlaceOf(count, n).cycle == PlaceOf(k, n).cycle
  {
    FirstLap(k, n);
    Ahead(k, count - k, n);
  }

  /** Anything that can happen to a ring: a push, a look of the controller, or an event that reports the j-th of the TRBs
      taken and not yet reported, and with it those before it. */
  datatype Event = PushTrb(trb: Trb) | LookAtRing | ReportTrb(j: nat)

  /** The ring as a queue: all TRBs ever pushed, how many were taken and how many of those reported, and whether the
      controller stands at the link TRB behind a lap. */
  datatype Fifo = Fifo(pushed: seq<Trb>, taken: nat, reported: nat, atLink: bool)

  /** A queue that holds n - 1 TRBs that were not reported. A look takes the next TRB, if any; at the end of each lap of n TRBs
      one look goes to the link TRB. */
  function FifoStep(f: Fifo, e: Event, n: nat): Fifo
    requires n > 0
  {
    match e
    case PushTrb(trb) => if |f.pushed| - f.reported == n - 1 then f else f.(pushed := f.pushed + [trb])
    case LookAtRing =>
      if f.atLink then f.(atLink := false)
      else if f.taken < |f.pushed| then f.(taken := f.taken + 1, atLink := PlaceOf(f.taken, n).slot == n - 1)
      else f
    case ReportTrb(j) => if j < f.taken - f.reported then f.(reported := f.reported + j + 1) else f
  }

  function FifoRun(f: Fifo, events: seq<Event>, n: nat): Fifo
    requires n > 0
  {
    if events == [] then f else FifoStep(FifoRun(f, events[..|events| - 1], n), events[|events| - 1], n)
  }

  lemma NoSlots(reported: nat, n: nat)
    requires n > 0
    ensures SlotsOf([], reported, reported, n)
  {
  }

  /** What ring and controller stand for. */
  ghost function AsFifo(xhc: Controller): Fifo
    requires xhc.ring.buffer != null
    reads xhc, xhc.ring
  {
    Fifo(xhc.ring.pushed, |xhc.taken|, xhc.ring.reported, xhc.index == xhc.ring.buffer.Length - 1)
  }

  /** The slots of the TRBs that were taken and not yet reported. */
  ghost predicate SlotsOf(slots: seq<nat>, reported: nat, taken: nat, n: nat)
    requires n > 0
  {
    |slots| == taken - reported && forall j :: 0 <= j < |slots| ==> slots[j] == PlaceOf(reported + j, n).slot
  }

  method Happens(ring: Ring, xhc: Controller, e: Event, slots: seq<nat>) returns (slots': seq<nat>)
    requires xhc.Valid() && xhc.ring == ring && SlotsOf(slots, ring.reported, |xhc.taken|, ring.buffer.Length - 1)
    requires e.PushTrb? ==> Type(e.trb) != LINK_TYPE
    modifies ring, ring.buffer, xhc
    ensures xhc.Valid() && ring.buffer == old(ring.buffer) && old(xhc.taken) <= xhc.taken
    ensures SlotsOf(slots', ring.reported, |xhc.taken|, ring.buffer.Length - 1)
    ensures AsFifo(xhc) == FifoStep(old(AsFifo(xhc)), e, ring.buffer.Length - 1)
  {
    hide PlaceOf, Holds, Type, SameTrb;
    slots' := slots;
    match e {
      case PushTrb(trb) =>
        var slot := ring.Push(trb);
      case LookAtRing =>
        var got, trb, slot := xhc.Look();
        if got {
          slots' := slots + [slot];
        }
      case ReportTrb(j) =>
        if j < |slots| {
          ring.OnConsumed(slots[j], ring.reported + j);
          slots' := slots[j + 1..];
        }
    }
  }

  /** Whatever the interleaving, over any number of wraps: ring and controller behave as the queue does, and what the
      controller took is what was pushed, in order, once each and word for word. */
  method RefinesFifo(ring: Ring, xhc: Controller, events: seq<Event>)
    requires xhc.Valid() && xhc.ring == ring && ring.reported == |xhc.taken|
    requires forall i :: 0 <= i < |events| && events[i].PushTrb? ==> Type(events[i].trb) != LINK_TYPE
    modifies ring, ring.buffer, xhc
    ensures xhc.Valid() && ring.buffer == old(ring.buffer)
    ensures AsFifo(xhc) == FifoRun(old(AsFifo(xhc)), events, ring.buffer.Length - 1)
    ensures AsPushed(xhc.taken, ring.pushed) && old(xhc.taken) <= xhc.taken
    ensures |ring.pushed| - |xhc.taken| <= ring.buffer.Length - 2
  {
    hide PlaceOf, Holds, Type, AsPushed, Before, SlotsOf, FifoStep;
    ghost var n, f0 := ring.buffer.Length - 1, AsFifo(xhc);
    NoSlots(ring.reported, n);
    var slots: seq<nat> := [];
    var i := 0;
    while i < |events|
      invariant i <= |events| && xhc.Valid() && ring.buffer == old(ring.buffer) && old(xhc.taken) <= xhc.taken
      invariant AsFifo(xhc) == FifoRun(f0, events[..i], n)
      invariant SlotsOf(slots, ring.reported, |xhc.taken|, n)
    {
      assert events[..i + 1][..i] == events[..i];
      slots := Happens(ring, xhc, events[i], slots);
      i := i + 1;
    }
    assert events[..i] == events;
    HoldsIndices(ring.buffer[..], ring.base, ring.pushed, ring.reported, ring.writeIndex, ring.readIndex, ring.cycleBit);
  }
}
