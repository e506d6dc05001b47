/** The UART driver's rings and transmit state, changed in place; each method is one atomic section. */
module Uart {
  import opened Common
  import opened UartSpec

  /** What a ring buffer of SIZE bytes holds between its two indices. */
  function Content(buf: seq<Byte>, tail: int, head: int): seq<Byte>
    requires |buf| == SIZE && 0 <= tail < SIZE && 0 <= head < SIZE
  {
    if tail <= head then buf[tail..head] else buf[tail..] + buf[..head]
  }

  /** (i + 1) % SIZE */
  function Next(i: int): int { (i + 1) % 256 }

  lemma ContentPush(buf: seq<Byte>, tail: int, head: int, b: Byte)
    requires |buf| == SIZE && 0 <= tail < SIZE && 0 <= head < SIZE
    ensures 0 <= Next(head) < SIZE && (Next(head) == tail <==> |Content(buf, tail, head)| == SIZE - 1)
    ensures Next(head) != tail ==> Content(buf[head := b], tail, Next(head)) == Content(buf, tail, head) + [b]
  {
  }

  lemma ContentPop(buf: seq<Byte>, tail: int, head: int)
    requires |buf| == SIZE && 0 <= tail < SIZE && 0 <= head < SIZE
    ensures 0 <= Next(tail) < SIZE && (tail == head <==> Content(buf, tail, head) == [])
    ensures tail != head ==> Content(buf, tail, head) == [buf[tail]] + Content(buf, Next(tail), head)
  {
    if tail != head { ContentFront(buf, tail, head); }
  }

  lemma ContentFront(buf: seq<Byte>, tail: int, head: int)
    requires |buf| == SIZE && 0 <= tail < SIZE && 0 <= head < SIZE && tail != head
    ensures Content(buf, tail, head) == [buf[tail]] + Content(buf, Next(tail), head)
  {
    NextIs(tail);
    hide Next;
    var n := Next(tail);
    if tail < head {
      assert buf[tail..head] == [buf[tail]] + buf[n..head];
    } else if n == 0 {
      assert buf[tail..] == [buf[tail]];
      assert buf[..head] == buf[n..head];
    } else {
      Peel(buf, tail, buf[..head]);
    }
  }

  lemma Peel(buf: seq<Byte>, tail: nat, rest: seq<Byte>)
    requires tail < |buf|
    ensures buf[tail..] + rest == [buf[tail]] + (buf[tail + 1..] + rest)
  {
  }

  lemma NextIs(i: int)
    requires 0 <= i < SIZE
    ensures Next(i) == if i == SIZE - 1 then 0 else i + 1
  {
  }

  function Payload<W>(ring: seq<(W, Byte)>): (p: seq<Byte>)
    ensures |p| == |ring|
  {
    seq(|ring|, i requires 0 <= i < |ring| => ring[i].1)
  }

  lemma PayloadSnoc<W>(ring: seq<(W, Byte)>, w: W, b: Byte)
    ensures Payload(ring + [(w, b)]) == Payload(ring) + [b]
  {
  }

  lemma PayloadSplit<W>(ring: seq<(W, Byte)>, m: nat)
    requires m <= |ring|
    ensures Payload(ring[..m]) == Payload(ring)[..m] && Payload(ring[m..]) == Payload(ring)[m..]
  {
  }

  lemma PayloadJoin<W>(a: seq<(W, Byte)>, b: seq<(W, Byte)>)
    ensures Payload(a + b) == Payload(a) + Payload(b)
  {
  }

  lemma DrainNone<W>(s: Tx<W>)
    ensures Drain(s, 0) == s
  {
    assert s.wire + [] == s.wire;
  }

  lemma DrainAll<W>(s: Tx<W>, n: nat, room: nat)
    requires n <= |s.ring| && n <= room && Drain(s, n).ring == []
    ensures Drain(s, room) == Drain(s, n)
  {
  }

  lemma DrainMore<W>(s: Tx<W>, n: nat)
    requires n <= |s.ring|
    ensures Drain(Drain(s, n), 1) == Drain(s, n + 1) && |Drain(s, n).ring| == |s.ring| - n
  {
    if n < |s.ring| {
      assert s.ring[..n + 1] == s.ring[..n] + s.ring[n..][..1];
      assert s.ring[n..][1..] == s.ring[n + 1..];
    } else {
      assert s.ring[n..] == [];
      assert (s.wire + s.ring[..n]) + [] == s.wire + s.ring[..n];
    }
  }

  /** The transmit half of uart_dev_t; the ghost view names the writers. */
  class Transmitter<W(==)> {
    const buffer: array<Byte>
    var head: int
    var tail: int
    var active: bool
    var sem: nat            // tx_sem's count
    var interruptOn: bool   // the INT_TX bit of UART_IMSC
    var wire: seq<Byte>     // what was written to UART_DR
    ghost var view: Tx<W>

    ghost predicate Shape()
      reads this
    {
      buffer.Length == SIZE && 0 <= head < SIZE && 0 <= tail < SIZE
    }

    /** The real fields are the view without its ghost parts. */
    ghost predicate Valid()
      reads this, buffer
    {
      && Shape()
      && Content(buffer[..], tail, head) == Payload(view.ring) && wire == Payload(view.wire)
      && sem == view.tokens && active == view.active && interruptOn == view.enabled
    }

    constructor ()
      ensures Valid() && view == TxInit()
    {
      buffer := new Byte[SIZE];
      head, tail, active, sem, interruptOn, wire := 0, 0, false, SIZE, false, [];
      view := TxInit();
    }

    /** A successful sem_wait on tx_sem, by a writer not already past it. */
    method TakeToken(w: W)
      requires Valid() && sem > 0
      modifies this`sem, this`view
      ensures Valid() && view == old(view).(tokens := old(view.tokens) - 1, holders := old(view.holders) + {w})
    {
      sem := sem - 1;
      view := view.(tokens := view.tokens - 1, holders := view.holders + {w});
    }

    /** One byte to the hardware, one token back. */
    method SendOne()
      requires Valid() && tail != head
      modifies this`tail, this`sem, this`wire, this`view
      ensures Valid() && view == Drain(old(view), 1)
    {
      hide Content;
      ContentPop(buffer[..], tail, head);
      PayloadSplit(view.ring, 1);
      PayloadJoin(view.wire, view.ring[..1]);
      wire := wire + [buffer[tail]];
      tail := (tail + 1) % 256;
      sem := sem + 1;
      view := Drain(view, 1);
    }

    /** Moves bytes to the hardware while it has room. */
    method DrainTo(room: nat)
      requires Valid()
      modifies this`tail, this`sem, this`wire, this`view
      ensures Valid() && view == Drain(old(view), room)
    {
      hide Content, Payload, Drain;
      ghost var was := view;
      ghost var n := 0;
      var left := room;
      DrainNone(was);
      ContentPop(buffer[..], tail, head);
      while left > 0 && tail != head
        invariant Valid() && n + left == room && left >= 0 && n <= |was.ring| && view == Drain(was, n)
        invariant tail == head <==> view.ring == []
      {
        DrainMore(was, n);
        SendOne();
        ContentPop(buffer[..], tail, head);
        left, n := left - 1, n + 1;
      }
      if left > 0 { DrainAll(was, n, room); }
    }

    /** uart_write between taking the lock and releasing it. */
    method WriteSection(w: W, b: Byte, room: nat) returns (stored: bool)
      requires Valid()
      modifies this`head, this`tail, this`active, this`sem, this`interruptOn, this`wire, this`view, buffer
      ensures Valid() && view == StoreByte(old(view), w, b, room)
      ensures stored <==> |old(view).ring| < SIZE - 1
    {
      hide Content, Payload;
      stored := Append(w, b);
      if !active {
        active := true;
        view := view.(active := true);
        DrainTo(room);
        interruptOn := true;
        view := view.(enabled := true);
      }
    }

    method Append(w: W, b: Byte) returns (stored: bool)
      requires Valid()
      modifies this`head, this`view, buffer
      ensures Valid() && (stored <==> |old(view).ring| < SIZE - 1)
      ensures var s := old(view).(holders := old(view).holders - {w});
              view == if stored then s.(ring := s.ring + [(w, b)], stored := s.stored + [(w, b)])
                      else s.(lost := s.lost + 1)
    {
      ContentPush(buffer[..], tail, head, b);
      PayloadSnoc(view.ring, w, b);
      view := view.(holders := view.holders - {w});
      var nextHead := (head + 1) % 256;
      stored := nextHead != tail;
      if stored {
        buffer[head] := b;
        head := nextHead;
        view := view.(ring := view.ring + [(w, b)], stored := view.stored + [(w, b)]);
      } else {
        view := view.(lost := view.lost + 1);
      }
    }

    /** The transmit part of uart_irq_handler. */
    method Interrupt(room: nat)
      requires Valid()
      modifies this`tail, this`sem, this`wire, this`view, this`active, this`interruptOn
      ensures Valid() && view == TxInterrupt(old(view), room)
    {
      DrainTo(room);
      ContentPop(buffer[..], tail, head);
      if tail == head {
        interruptOn := false;
        active := false;
        view := view.(active := false, enabled := false);
      }
    }
  }

  /** The receive half of uart_dev_t. */
  class Receiver<R(==)> {
    const buffer: array<Byte>
    var head: int
    var tail: int
    var sem: nat
    ghost var view: Rx<R>

    ghost predicate Valid()
      reads this, buffer
    {
      && buffer.Length == SIZE && 0 <= head < SIZE && 0 <= tail < SIZE
      && Content(buffer[..], tail, head) == view.ring && sem == view.tokens
    }

    constructor ()
      ensures Valid() && view == RxInit()
    {
      buffer := new Byte[SIZE];
      head, tail, sem := 0, 0, 0;
      view := RxInit();
    }

    /** A successful sem_wait on rx_sem, by a reader not already past it. */
    method TakeToken(r: R)
      requires Valid() && sem > 0
      modifies this`sem, this`view
      ensures Valid() && view == old(view).(tokens := old(view.tokens) - 1, holders := old(view.holders) + {r})
    {
      sem := sem - 1;
      view := view.(tokens := view.tokens - 1, holders := view.holders + {r});
    }

    method Accept(f: Frame)
      requires Valid()
      modifies this`head, this`sem, this`view, buffer
      ensures Valid() && view == Arrive(old(view), f)
    {
      if f.broken {
        return;
      }
      ContentPush(buffer[..], tail, head, f.byte);
      var nextHead := (head + 1) % 256;
      if nextHead != tail {
        buffer[head] := f.byte;
        head := nextHead;
        sem := sem + 1;
        view := Arrive(view, f);
      }
    }

    /** The receive part of uart_irq_handler, on the frames the hardware holds. */
    method Interrupt(frames: seq<Frame>)
      requires Valid()
      modifies this`head, this`sem, this`view, buffer
      ensures Valid() && view == RxInterrupt(old(view), frames)
    {
      var i := 0;
      while i < |frames|
        invariant i <= |frames| && Valid()
        invariant RxInterrupt(view, frames[i..]) == RxInterrupt(old(view), frames)
      {
        assert frames[i..][1..] == frames[i + 1..];
        Accept(frames[i]);
        i := i + 1;
      }
    }

    /** uart_read between taking the lock and releasing it. */
    method ReadSection(r: R) returns (got: bool, b: Byte)
      requires Valid()
      modifies this`tail, this`view
      ensures Valid() && view == TakeByte(old(view), r)
      ensures got <==> old(view).ring != []
      ensures got ==> old(view).ring[0] == b
    {
      ContentPop(buffer[..], tail, head);
      got, b := tail != head, 0;
      if got {
        b := buffer[tail];
        tail := (tail + 1) % 256;
      }
      view := TakeByte(view, r);
    }
  }
}
