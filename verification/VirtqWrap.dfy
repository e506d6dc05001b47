/** A ring size that does not divide 2^16: once the 16-bit index wraps, a slot is overwritten before it was read. */
module VirtqWrap {
  import opened Common
  import opened VirtqSpec
  import opened VirtqSystem

  /** A transmit queue of 3 after n frames, each sent and given back before the next. */
  function Queue3(n: nat): Virtq {
    var i := n % 65536;
    Virtq(3, 0, 3, i, [1, 2, END], [None, None, None], [0, 0, 0], i, [0, 0, 0], i)
  }

  function Sent(n: nat): Sys {
    Sys(Queue3(n), false, n % 65536, [0, 1, 2], [], [], [], n, n, n, n, n, Upto(n))
  }

  const FRAME: seq<Event> := [Submit(true), Take, Complete(0), Consume]

  // The steps of one frame.

  function Offered(n: nat): Sys {
    var s, i := Sent(n), n % 65536;
    s.(q := s.q.(freeHead := 1, numFree := 2, next := [0, 2, END], buffers := [Some(n), None, None], availIdx := (i + 1) % 65536),
       free := [1, 2], avail := [Chain([0], n)], made := n + 1, offered := n + 1)
  }

  function Taken3(n: nat): Sys {
    var s := Offered(n);
    s.(seenIdx := (n % 65536 + 1) % 65536, seen := n + 1, avail := [], held := [Chain([0], n)])
  }

  function Completed(n: nat): Sys {
    var s := Taken3(n);
    s.(q := s.q.(usedIdx := (n % 65536 + 1) % 65536), put := n + 1, held := [], done := [Chain([0], n)])
  }

  lemma SlotKeeps(n: nat)
    ensures [0, 0, 0][(n % 65536) % 3 := 0] == [0, 0, 0]
    ensures (n % 65536 + 1) % 65536 == (n + 1) % 65536 != n % 65536
  {
  }

  lemma Offers(n: nat)
    ensures Enabled(Sent(n), Submit(true)) && Step(Sent(n), Submit(true)) == Offered(n)
  {
    SlotKeeps(n);
    var s := Sent(n);
    assert FreeChain(s.q, s.free);
    var chain := Taken(s.q, false);
    assert chain == [0] && s.free[1..] == [1, 2];
    assert PostChain(s.q, false, n) == Offered(n).q;
  }

  lemma Takes(n: nat)
    ensures Enabled(Offered(n), Take) && Step(Offered(n), Take) == Taken3(n)
  {
    SlotKeeps(n);
    assert [Chain([0], n)][1..] == [] && [] + [Chain([0], n)] == [Chain([0], n)];
  }

  lemma Completes(n: nat)
    ensures Enabled(Taken3(n), Complete(0)) && Step(Taken3(n), Complete(0)) == Completed(n)
  {
    SlotKeeps(n);
    var s := Taken3(n);
    assert VirtqSpec.Without(s.held, 0) == [] && s.done + [s.held[0]] == [Chain([0], n)];
    assert s.q.usedRing[s.q.usedIdx % 3 := 0] == [0, 0, 0];
  }

  lemma Reaps(n: nat)
    ensures Enabled(Completed(n), Consume) && ReadsDone(Completed(n)) && ReapChain(Completed(n).q, false) == Queue3(n + 1)
  {
    SlotKeeps(n);
    assert Finished(Completed(n).q, false) == [0] && [0][1..] == [];
  }

  lemma Consumes(n: nat)
    ensures Enabled(Completed(n), Consume) && Step(Completed(n), Consume) == Sent(n + 1)
  {
    Reaps(n);
    SlotKeeps(n);
    hide ReapChain, ReadsDone, Queue3, Enabled;
    var s := Completed(n);
    assert s.done[1..] == [];
    assert Back([0]) + s.free == [0, 1, 2];
    assert Upto(n) + [n] == Upto(n + 1);
    assert Reap(s) == Sent(n + 1);
  }

  lemma OneFrame(n: nat)
    ensures Runs(Sent(n), FRAME) && Run(Sent(n), FRAME) == Sent(n + 1)
  {
    hide Enabled, Step, Sent, Offered, Taken3, Completed;
    Offers(n);
    Takes(n);
    Completes(n);
    Consumes(n);
    assert FRAME[1..] == [Take, Complete(0), Consume] && FRAME[1..][1..] == [Complete(0), Consume];
    assert [Complete(0), Consume][1..] == [Consume] && [Consume][1..] == [];
    assert Runs(Sent(n + 1), []);
    assert Runs(Completed(n), [Consume]) && Run(Completed(n), [Consume]) == Sent(n + 1);
    assert Runs(Taken3(n), [Complete(0), Consume]) && Run(Taken3(n), [Complete(0), Consume]) == Sent(n + 1);
  }

  lemma {:induction false} RunsJoin(s: Sys, a: seq<Event>, b: seq<Event>)
    requires Runs(s, a) && Runs(Run(s, a), b)
    ensures Runs(s, a + b) && Run(s, a + b) == Run(Run(s, a), b)
    decreases |a|
  {
    hide Enabled, Step;
    if a == [] {
      assert a + b == b;
    } else {
      assert (a + b)[0] == a[0] && (a + b)[1..] == a[1..] + b;
      RunsJoin(Step(s, a[0]), a[1..], b);
    }
  }

  function Frames(n: nat): seq<Event> { if n == 0 then [] else Frames(n - 1) + FRAME }

  lemma {:induction false} ManyFrames(n: nat)
    ensures Runs(Sent(0), Frames(n)) && Run(Sent(0), Frames(n)) == Sent(n)
  {
    hide Sent, Enabled, Step;
    if n > 0 {
      ManyFrames(n - 1);
      OneFrame(n - 1);
      RunsJoin(Sent(0), Frames(n - 1), FRAME);
    }
  }

  lemma Starts()
    ensures Start(3, false) == Sent(0)
  {
  }

  /** After 65535 frames two more are offered at once. Both are published in slot 0, and the slot the device reads next
      no longer holds the older of the two. */
  lemma WrapOverwrites()
    ensures 65536 % 3 != 0
    ensures var es := Frames(65535) + [Submit(true), Submit(true)];
            var s := Run(Start(3, false), es);
            && Runs(Start(3, false), es) && |s.avail| == 2 && s.q.num == |s.q.availRing| == 3
            && s.avail[0].descs == [0] && s.avail[1].descs == [1] && s.q.availRing[s.seenIdx % 3] == 1
  {
    hide Sent, Frames, Runs, Run, Start;
    Starts();
    ManyFrames(65535);
    TwoMore();
    RunsJoin(Sent(0), Frames(65535), [Submit(true), Submit(true)]);
  }

  lemma TwoMore()
    ensures var s := Run(Sent(65535), [Submit(true), Submit(true)]);
            && Runs(Sent(65535), [Submit(true), Submit(true)]) && |s.avail| == 2 && |s.q.availRing| == 3 == s.q.num
            && s.avail[0].descs == [0] && s.avail[1].descs == [1] && s.seenIdx == 65535 && s.q.availRing[0] == 1
  {
    Offers(65535);
    SecondOffer();
    hide Step, Enabled, Offered, Sent;
    var s, t := Offered(65535), Step(Offered(65535), Submit(true));
    assert [Submit(true), Submit(true)][1..] == [Submit(true)] && [Submit(true)][1..] == [];
    assert Run(t, []) == t && Runs(t, []);
    assert Run(s, [Submit(true)]) == t && Runs(s, [Submit(true)]);
  }

  lemma SecondOffer()
    ensures var t := Step(Offered(65535), Submit(true));
            && Enabled(Offered(65535), Submit(true)) && t.q.num == |t.q.availRing| == 3
            && t.avail == [Chain([0], 65535), Chain([1], 65536)] && t.seenIdx == 65535 && t.q.availRing[0] == 1
  {
    var s := Offered(65535);
    assert FreeChain(s.q, s.free);
    assert Taken(s.q, false) == [1];
  }
}
