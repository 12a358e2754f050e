/** The bounded ring of kernel/task/message_queue.cpp that holds a task's incoming messages. */
module MessageQueues {
  import M = IpcModel

  class MessageQueue {
    const ring: array?<M.Message>
    var head: nat
    var count: nat

    ghost predicate Valid()
      reads this
    {
      head < M.RING_CAPACITY && count <= M.RING_CAPACITY && if ring == null then count == 0 else ring.Length == M.RING_CAPACITY
    }

    /** The queued messages, oldest first. */
    ghost function Contents(): (s: seq<M.Message>)
      requires Valid()
      reads this, ring
      ensures |s| == count
    {
      if ring == null then [] else Unrolled(ring[..], head, count)
    }

    /** Without storage every push will fail. */
    constructor (storage: array?<M.Message>)
      requires storage != null ==> storage.Length == M.RING_CAPACITY
      ensures Valid() && ring == storage && Contents() == []
    {
      ring, head, count := storage, 0, 0;
    }

    /** Fails exactly when the ring is full or has no storage, and then changes nothing. */
    method Push(m: M.Message) returns (ok: bool)
      requires Valid()
      modifies this`count, ring
      ensures Valid()
      ensures ok <==> ring != null && |old(Contents())| < M.RING_CAPACITY
      ensures Contents() == if ok then old(Contents()) + [m] else old(Contents())
    {
      if ring == null || count >= M.RING_CAPACITY {
        return false;
      }
      ghost var before := ring[..];
      ring[Slot(head, count)] := m;
      count := count + 1;
      Pushed(before, ring[..], head, count - 1, m);
      return true;
    }

    /** First in, first out. */
    method Pop() returns (ok: bool, m: M.Message)
      requires Valid()
      modifies this`head, this`count
      ensures Valid()
      ensures ok <==> old(Contents()) != []
      ensures if ok then [m] + Contents() == old(Contents()) else Contents() == old(Contents())
    {
      m := M.Message(0, 0, 0, 0, false, 0, 0);
      if count == 0 {
        return false, m;
      }
      Popped(ring[..], head, count);
      m := ring[head];
      head := (head + 1) % M.RING_CAPACITY;
      count := count - 1;
      return true, m;
    }
  }

  function Slot(h: nat, i: nat): nat
  {
    (h + i) % M.RING_CAPACITY
  }

  /** n slots of a circular buffer, from slot h on. */
  function Unrolled<T>(buffer: seq<T>, h: nat, n: nat): (s: seq<T>)
    requires |buffer| == M.RING_CAPACITY
    ensures |s| == n
  {
    seq(n, i requires 0 <= i < n => buffer[Slot(h, i)])
  }

  lemma Pushed<T>(before: seq<T>, after: seq<T>, h: nat, n: nat, x: T)
    requires |before| == M.RING_CAPACITY && h < M.RING_CAPACITY && n < M.RING_CAPACITY
    requires after == before[Slot(h, n) := x]
    ensures Unrolled(after, h, n + 1) == Unrolled(before, h, n) + [x]
  {
    forall i | 0 <= i < n
      ensures after[Slot(h, i)] == before[Slot(h, i)]
    {
      assert Slot(h, i) != Slot(h, n);
    }
  }

  lemma Popped<T>(buffer: seq<T>, h: nat, n: nat)
    requires |buffer| == M.RING_CAPACITY && h < M.RING_CAPACITY && 0 < n <= M.RING_CAPACITY
    ensures Unrolled(buffer, h, n) == [buffer[h]] + Unrolled(buffer, (h + 1) % M.RING_CAPACITY, n - 1)
  {
    forall i | 1 <= i < n
      ensures Slot(h, i) == Slot((h + 1) % M.RING_CAPACITY, i - 1)
    {
    }
  }
}
