/** The message queue object: a byte buffer used as a ring of fixed-size slots, proved to make
    the steps of QueueSpec, where the queue is a FIFO of whole messages. */
module MsgQueue {
  import opened Arith
  import opened Common
  import opened SyncSpec
  import opened Sync
  import opened TaskControl
  import Q = QueueSpec


  // ----- slots of a ring buffer

  predicate HasSlot(len: nat, size: nat, i: nat) { i * size + size <= len }

  function Slot(s: seq<Byte>, size: nat, i: nat): seq<Byte>
    requires HasSlot(|s|, size, i)
  {
    s[i * size..i * size + size]
  }

  lemma SlotInside(i: nat, cap: nat, size: nat)
    requires i < cap
    ensures HasSlot(cap * size, size, i)
  {
    assert (cap - i - 1) * size >= 0;
    assert cap * size == i * size + size + (cap - i - 1) * size;
  }

  /** Different slots do not overlap. */
  lemma SlotsApart(i: nat, j: nat, size: nat)
    requires i != j
    ensures i * size + size <= j * size || j * size + size <= i * size
  {
    if i < j {
      SlotInside(i, j, size);
    } else {
      SlotInside(j, i, size);
    }
  }

  /** The buffer holds the messages of fifo in consecutive slots from head on, wrapping round. */
  ghost predicate Ring(s: seq<Byte>, size: nat, cap: nat, head: nat, fifo: seq<seq<Byte>>) {
    && cap > 0 && head < cap && |fifo| <= cap && |s| == cap * size
    && forall k :: 0 <= k < |fifo| ==> Holds(s, size, (head + k) % cap, fifo[k])
  }

  ghost predicate Holds(s: seq<Byte>, size: nat, i: nat, msg: seq<Byte>) {
    HasSlot(|s|, size, i) && Slot(s, size, i) == msg
  }

  lemma RingPush(s: seq<Byte>, s': seq<Byte>, size: nat, cap: nat, head: nat, fifo: seq<seq<Byte>>, msg: seq<Byte>)
    requires Ring(s, size, cap, head, fifo) && |fifo| < cap && |s'| == |s|
    requires var tail := (head + |fifo|) % cap;
             && Holds(s', size, tail, msg)
             && forall j :: 0 <= j < |s| && !(tail * size <= j < tail * size + size) ==> s'[j] == s[j]
    ensures Ring(s', size, cap, head, fifo + [msg])
  {
    var tail := (head + |fifo|) % cap;
    forall k | 0 <= k < |fifo| ensures Holds(s', size, (head + k) % cap, fifo[k]) {
      var i := (head + k) % cap;
      RingDistinct(head, k, |fifo|, cap);
      SlotsApart(i, tail, size);
      assert Holds(s, size, i, fifo[k]);
      assert Slot(s', size, i) == Slot(s, size, i);
    }
  }

  lemma RingPop(s: seq<Byte>, size: nat, cap: nat, head: nat, fifo: seq<seq<Byte>>)
    requires Ring(s, size, cap, head, fifo) && fifo != []
    ensures Holds(s, size, head, fifo[0])
    ensures Ring(s, size, cap, (head + 1) % cap, fifo[1..])
  {
    ModSmall(head, cap);
    assert Holds(s, size, (head + 0) % cap, fifo[0]);
    forall k | 0 <= k < |fifo| - 1 ensures Holds(s, size, ((head + 1) % cap + k) % cap, fifo[1..][k]) {
      ModAdd(head + 1, k, cap);
      assert Holds(s, size, (head + (k + 1)) % cap, fifo[k + 1]);
    }
  }

  // ----- the object

  /** A task waits in one place only. */
  ghost predicate Disjoint(a: WaitList, b: WaitList)
    reads a, b
  {
    && a != b
    && (forall t :: t in a.tasks ==> t !in b.tasks && t !in b.pending)
    && (forall t :: t in b.tasks ==> t !in a.pending)
    && (forall t :: t in a.pending ==> t !in b.pending)
  }

  class Queue {
    const buffer: array<Byte>
    const msgSize: nat
    const capacity: nat
    var head: nat
    var tail: nat
    var count: nat
    const senders: WaitList
    const receivers: WaitList
    ghost var fifo: seq<seq<Byte>>
    ghost var sent: seq<seq<Byte>>
    ghost var received: seq<seq<Byte>>

    ghost predicate Bytes()
      reads this, buffer
    {
      && Ring(buffer[..], msgSize, capacity, head, fifo)
      && count == |fifo| && tail == (head + count) % capacity
    }

    ghost predicate Valid()
      reads this, buffer, senders, senders.tasks, senders.pending, receivers, receivers.tasks, receivers.pending
    {
      Bytes() && Disjoint(senders, receivers) && senders.Valid() && receivers.Valid()
    }

    ghost function Abs(): Q.Queue<Tcb, seq<Byte>>
      reads this, senders, receivers
    {
      Q.Queue(capacity, fifo, senders.View(), receivers.View(), sent, received)
    }

    /** msgq_init on a buffer of capacity * msgSize bytes. */
    constructor (buffer: array<Byte>, msgSize: nat, capacity: nat)
      requires msgSize > 0 && capacity > 0 && buffer.Length == capacity * msgSize
      ensures Valid() && Abs() == Q.Fresh(capacity) && this.buffer == buffer && this.msgSize == msgSize
      ensures fresh(senders) && fresh(receivers)
    {
      this.buffer, this.msgSize, this.capacity := buffer, msgSize, capacity;
      head, tail, count := 0, 0, 0;
      fifo, sent, received := [], [], [];
      var s := new WaitList();
      var r := new WaitList();
      senders, receivers := s, r;
    }

    method CopyIn(msg: seq<Byte>)
      requires Bytes() && |msg| == msgSize && count < capacity
      modifies buffer
      ensures Ring(buffer[..], msgSize, capacity, head, fifo + [msg])
    {
      ghost var was := buffer[..];
      var base := tail * msgSize;
      SlotInside(tail, capacity, msgSize);
      var i := 0;
      while i < msgSize
        invariant i <= msgSize
        invariant buffer[base..base + i] == msg[..i]
        invariant forall j :: 0 <= j < buffer.Length && !(base <= j < base + i) ==> buffer[j] == was[j]
      {
        buffer[base + i] := msg[i];
        i := i + 1;
      }
      assert Slot(buffer[..], msgSize, tail) == msg;
      RingPush(was, buffer[..], msgSize, capacity, head, fifo, msg);
    }

    method CopyOut() returns (msg: seq<Byte>)
      requires Bytes() && count > 0
      ensures msg == fifo[0]
    {
      RingPop(buffer[..], msgSize, capacity, head, fifo);
      var base := head * msgSize;
      msg := [];
      var i := 0;
      while i < msgSize
        invariant i <= msgSize && msg == buffer[base..base + i]
      {
        msg := msg + [buffer[base + i]];
        i := i + 1;
      }
      assert msg == Slot(buffer[..], msgSize, head);
    }

    /** One pass of msgq_send. To park a task that is still parked breaks the list. */
    method Send(task: Tcb, msg: seq<Byte>, wait: bool) returns (o: Q.Outcome)
      requires Valid() && |msg| == msgSize
      modifies this, buffer, senders, senders.tasks, receivers, receivers.tasks, task
      ensures o == if old(count) < capacity then Q.Done else if wait then Q.Parked else Q.WouldBlock
      ensures o != Q.Parked || old(Elsewhere(senders, task)) ==> Valid() && (Abs(), o) == Q.Send(old(Abs()), task, msg, wait)
      ensures o == Q.Parked && task in old(senders.tasks) ==>
                !senders.Linked() && senders.head == task && task.next == old(senders.head)
    {
      if count >= capacity {
        if !wait {
          senders.Leave(task);
          return Q.WouldBlock;
        }
        Park(senders, receivers, task);
        return Q.Parked;
      }
      senders.Leave(task);
      Push(msg);
      Wake(receivers, senders);
      return Q.Done;
    }

    // The two lists share no task, so relinking one leaves the other alone.

    method Park(list: WaitList, ghost other: WaitList, task: Tcb)
      requires list.Valid() && other.Valid() && Disjoint(list, other)
      modifies list, list.tasks, task
      ensures task !in old(list.tasks) && task !in other.tasks && task !in other.pending ==>
                list.Valid() && other.Valid() && Disjoint(list, other) && list.View() == old(list.View()).Park(task)
      ensures task in old(list.tasks) ==> !list.Linked() && list.head == task && task.next == old(list.head)
    {
      list.Park(task, this);
      if task !in old(list.tasks) && task !in other.tasks && task !in other.pending {
        forall k | 0 <= k < |other.tasks| ensures LinkedAt(other.tasks, k) {
          assert old(LinkedAt(other.tasks, k)) && other.tasks[k] in other.tasks;
        }
      }
    }

    method Wake(list: WaitList, ghost other: WaitList)
      requires list.Valid() && other.Valid() && Disjoint(list, other)
      modifies list, list.tasks
      ensures list.Valid() && other.Valid() && Disjoint(list, other)
      ensures list.View() == old(list.View()).WakeOne()
    {
      list.WakeOne();
      forall k | 0 <= k < |other.tasks| ensures LinkedAt(other.tasks, k) {
        assert old(LinkedAt(other.tasks, k)) && other.tasks[k] in other.tasks;
      }
    }

    /** The task is not parked, and not woken by the other list. */
    ghost predicate Elsewhere(list: WaitList, task: Tcb)
      reads this, senders, receivers
    {
      && task !in senders.tasks && task !in receivers.tasks
      && (list == senders ==> task !in receivers.pending) && (list == receivers ==> task !in senders.pending)
    }

    method Push(msg: seq<Byte>)
      requires Bytes() && |msg| == msgSize && count < capacity
      modifies this, buffer
      ensures Bytes() && fifo == old(fifo) + [msg] && sent == old(sent) + [msg] && received == old(received)
    {
      CopyIn(msg);
      fifo, sent := fifo + [msg], sent + [msg];
      ModAdd(head + count, 1, capacity);
      tail := (tail + 1) % capacity;
      count := count + 1;
    }

    /** One pass of msgq_recv. */
    method Receive(task: Tcb, wait: bool) returns (o: Q.Outcome, msg: seq<Byte>)
      requires Valid()
      modifies this, senders, senders.tasks, receivers, receivers.tasks, task
      ensures o == if old(count) > 0 then Q.Done else if wait then Q.Parked else Q.WouldBlock
      ensures o != Q.Parked || old(Elsewhere(receivers, task)) ==> Valid() && (Abs(), o) == Q.Receive(old(Abs()), task, wait)
      ensures o == Q.Parked && task in old(receivers.tasks) ==>
                !receivers.Linked() && receivers.head == task && task.next == old(receivers.head)
      ensures o == Q.Done ==> msg == old(fifo)[0]
    {
      msg := [];
      if count == 0 {
        if !wait {
          receivers.Leave(task);
          return Q.WouldBlock, msg;
        }
        Park(receivers, senders, task);
        return Q.Parked, msg;
      }
      receivers.Leave(task);
      msg := Pop();
      Wake(senders, receivers);
      return Q.Done, msg;
    }

    method Pop() returns (msg: seq<Byte>)
      requires Bytes() && count > 0
      modifies this
      ensures Bytes() && msg == old(fifo)[0] && fifo == old(fifo)[1..]
      ensures sent == old(sent) && received == old(received) + [msg]
    {
      msg := CopyOut();
      RingPop(buffer[..], msgSize, capacity, head, fifo);
      ModAdd(head + 1, count - 1, capacity);
      fifo, received := fifo[1..], received + [msg];
      head := (head + 1) % capacity;
      count := count - 1;
    }
  }
}
