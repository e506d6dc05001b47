/** Every interleaving of driver and device steps over one virtqueue. */
module VirtqSystem {
  import opened Arith
  import opened Common
  import opened VirtqSpec

  /** The shared queue, the device's own position in the available ring, and an observer's record:
      who owns every descriptor, how many ring entries were ever published and consumed (made, seen,
      put, got, unbounded), and the serial numbers of the buffers given back so far. */
  datatype Sys = Sys(
    q: Virtq, pair: bool, seenIdx: nat,
    free: seq<nat>, avail: seq<Chain>, held: seq<Chain>, done: seq<Chain>,
    made: nat, seen: nat, put: nat, got: nat,
    offered: nat, freed: seq<nat>)

  // ----- steps

  /** The descriptors a submission takes: header and data on the receive queue, one on the transmit queue. */
  function Taken(q: Virtq, pair: bool): seq<nat>
    requires Shaped(q) && q.numFree >= 2 && q.freeHead < q.num && Pop(q).freeHead < q.num
  {
    if pair then [q.freeHead, Pop(q).freeHead] else [q.freeHead]
  }

  /** The driver's queue after it has submitted buffer serial. */
  function PostChain(q: Virtq, pair: bool, serial: nat): Virtq
    requires Shaped(q) && q.numFree >= 2 && q.freeHead < q.num && Pop(q).freeHead < q.num
  {
    var chain := Taken(q, pair);
    var q1 := if pair then Pop(Pop(q)) else Pop(q);
    Publish(Link(q1, chain), chain[0], serial)
  }

  /** The chain behind the next unread used-ring entry. */
  function Finished(q: Virtq, pair: bool): seq<nat>
    requires Shaped(q) && q.usedRing[q.lastUsed % q.num] < q.num
  {
    var id := q.usedRing[q.lastUsed % q.num];
    if pair then [id, q.next[id]] else [id]
  }

  /** One iteration of the driver's used-ring loop. */
  function ReapChain(q: Virtq, pair: bool): Virtq
    requires Shaped(q) && q.usedRing[q.lastUsed % q.num] < q.num && Below(Finished(q, pair), q.num)
  {
    var chain := Finished(q, pair);
    var q1 := q.(buffers := q.buffers[chain[0] := None]);
    PushAll(q1, chain).(lastUsed := (q.lastUsed + 1) % INDICES)
  }

  /** eth_rx_add_buffer and eth_send: ok says whether a buffer (header room) was available. A frame
      that is turned away is freed at once; a receive buffer that is not available does not exist. */
  ghost function Offer(s: Sys, ok: bool): Sys
    requires Shaped(s.q) && FreeChain(s.q, s.free)
  {
    if s.q.numFree < 2 || !ok then
      if s.pair then s else s.(offered := s.offered + 1, freed := s.freed + [s.offered])
    else
      FreeFront(s.q, s.free);
      var chain := Taken(s.q, s.pair);
      s.(q := PostChain(s.q, s.pair, s.offered),
         free := s.free[|chain|..],
         avail := s.avail + [Chain(chain, s.offered)],
         made := s.made + 1, offered := s.offered + 1)
  }

  /** The device takes the next available head. */
  ghost function DeviceTake(s: Sys): Sys
    requires s.avail != []
  {
    s.(seenIdx := (s.seenIdx + 1) % INDICES, seen := s.seen + 1, avail := s.avail[1..], held := s.held + [s.avail[0]])
  }

  /** The device completes any chain it holds. */
  ghost function DeviceComplete(s: Sys, i: nat): Sys
    requires Shaped(s.q) && i < |s.held| && s.held[i].descs != []
  {
    s.(q := s.q.(usedRing := s.q.usedRing[s.q.usedIdx % s.q.num := s.held[i].descs[0]],
                 usedIdx := (s.q.usedIdx + 1) % INDICES),
       put := s.put + 1, held := Without(s.held, i), done := s.done + [s.held[i]])
  }

  /** eth_rx_process and eth_tx_process, one used entry. */
  ghost function Reap(s: Sys): Sys
    requires Shaped(s.q) && s.done != []
    requires s.q.usedRing[s.q.lastUsed % s.q.num] < s.q.num && Below(Finished(s.q, s.pair), s.q.num)
  {
    s.(q := ReapChain(s.q, s.pair), free := Back(s.done[0].descs) + s.free,
       done := s.done[1..], got := s.got + 1, freed := s.freed + [s.done[0].serial])
  }

  /** Order in which freed descriptors end up at the front of the chain. */
  function Back(ds: seq<nat>): seq<nat> { if ds == [] then [] else Back(ds[1..]) + [ds[0]] }

  // ----- invariant

  ghost predicate ChainOk(q: Virtq, pair: bool, c: Chain) {
    && |c.descs| == (if pair then 2 else 1)
    && c.descs[0] < |q.next| && c.descs[0] < |q.buffers|
    && (pair ==> q.next[c.descs[0]] == c.descs[1])
    && q.buffers[c.descs[0]] == Some(c.serial)
  }

  ghost predicate AllOk(q: Virtq, pair: bool, cs: seq<Chain>) {
    forall i :: 0 <= i < |cs| ==> ChainOk(q, pair, cs[i])
  }

  ghost predicate HasHead(cs: seq<Chain>, h: nat) {
    exists i :: 0 <= i < |cs| && cs[i].descs != [] && cs[i].descs[0] == h
  }

  /** The free chain and the chains in flight partition the descriptors. */
  ghost predicate Partition(s: Sys) {
    multiset(s.free) + Descs(s.avail) + Descs(s.held) + Descs(s.done) == All(s.q.num)
  }

  /** Only heads in flight have a saved buffer (AllOk says that all of them do). */
  ghost predicate Saved(s: Sys) {
    forall h :: 0 <= h < |s.q.buffers| && s.q.buffers[h].Some? ==>
      HasHead(s.avail, h) || HasHead(s.held, h) || HasHead(s.done, h)
  }

  /** Every buffer ever offered has been given back once or is in flight. */
  ghost predicate Accounted(s: Sys) {
    multiset(s.freed) + Serials(s.avail) + Serials(s.held) + Serials(s.done) == All(s.offered)
  }

  /** The 16-bit indices are the unbounded counts, wrapped. */
  ghost predicate Counted(s: Sys) {
    && s.q.availIdx == s.made % 65536 && s.seenIdx == s.seen % 65536
    && s.q.usedIdx == s.put % 65536 && s.q.lastUsed == s.got % 65536
    && s.made == s.seen + |s.avail| && s.put == s.got + |s.done|
  }

  /** Ring slots from start on hold the heads of the chains not yet consumed. */
  ghost predicate Window(ring: seq<nat>, start: nat, cs: seq<Chain>) {
    |ring| > 0 && |cs| <= |ring| &&
    forall k :: 0 <= k < |cs| ==> cs[k].descs != [] && ring[(start + k) % |ring|] == cs[k].descs[0]
  }

  ghost predicate Chains(s: Sys) {
    && FreeChain(s.q, s.free)
    && AllOk(s.q, s.pair, s.avail) && AllOk(s.q, s.pair, s.held) && AllOk(s.q, s.pair, s.done)
  }

  ghost predicate Rings(s: Sys) {
    Counted(s) && Window(s.q.availRing, s.seen, s.avail) && Window(s.q.usedRing, s.got, s.done)
  }

  ghost predicate Inv(s: Sys) {
    && Shaped(s.q) && s.q.num <= 256 && 65536 % s.q.num == 0
    && Chains(s) && Partition(s) && Saved(s) && Accounted(s) && Rings(s)
  }

  // ----- ring slots under 16-bit wrap

  /** With a ring size that divides 2^16 the slot of a wrapped index is the slot of the count. */
  lemma SlotOfIndex(count: nat, num: nat)
    requires num > 0 && 65536 % num == 0
    ensures (count % 65536) % num == count % num
  {
    var k := 65536 / num;
    assert 65536 == num * k;
    var q, r := count / 65536, count % 65536;
    assert count == 65536 * q + r == r + num * (k * q) by { assert num * (k * q) == (num * k) * q; }
    ModShift(r, num, k * q);
  }

  /** Exactly those ring sizes work: otherwise the index that wraps to 0 lands in another slot. */
  lemma RingSizeExact(num: nat)
    requires num > 0
    ensures (forall count: nat :: (count % 65536) % num == count % num) <==> 65536 % num == 0
  {
    if 65536 % num == 0 {
      forall count: nat ensures (count % 65536) % num == count % num { SlotOfIndex(count, num); }
    } else {
      assert (65536 % 65536) % num == 0;
    }
  }

  lemma WindowPush(ring: seq<nat>, start: nat, cs: seq<Chain>, c: Chain)
    requires Window(ring, start, cs) && |cs| < |ring| && c.descs != []
    ensures Window(ring[(start + |cs|) % |ring| := c.descs[0]], start, cs + [c])
  {
    var n := |ring|;
    var ring' := ring[(start + |cs|) % n := c.descs[0]];
    forall k | 0 <= k < |cs| ensures ring'[(start + k) % n] == cs[k].descs[0] {
      RingDistinct(start, k, |cs|, n);
    }
  }

  lemma WindowPop(ring: seq<nat>, start: nat, cs: seq<Chain>)
    requires Window(ring, start, cs) && cs != []
    ensures ring[start % |ring|] == cs[0].descs[0] && Window(ring, start + 1, cs[1..])
  {
    assert ring[(start + 0) % |ring|] == cs[0].descs[0];
    forall k | 0 <= k < |cs| - 1 ensures cs[1..][k].descs != [] && ring[(start + 1 + k) % |ring|] == cs[1..][k].descs[0] {
      assert ring[(start + (k + 1)) % |ring|] == cs[k + 1].descs[0];
    }
  }

  // ----- ownership facts

  lemma Apart(x: multiset<nat>, y: multiset<nat>, n: nat, d: nat)
    requires x + y <= All(n) && d in x
    ensures d !in y && d < n
  {
    AllCounts(n, d);
    assert (x + y)[d] <= All(n)[d];
  }

  lemma FreeFront(q: Virtq, free: seq<nat>)
    requires Shaped(q) && FreeChain(q, free) && q.numFree >= 2
    ensures q.freeHead == free[0] < q.num && Pop(q).freeHead == free[1] < q.num
    ensures FreeChain(Pop(q), free[1..]) && FreeChain(Pop(Pop(q)), free[2..])
  {
    PopChain(q, free);
    PopChain(Pop(q), free[1..]);
    assert free[1..][1..] == free[2..];
  }

  /** What the driver finds in the used ring is the head of the oldest finished chain. */
  lemma ReapReads(s: Sys)
    requires Inv(s) && s.done != []
    ensures s.q.usedRing[s.q.lastUsed % s.q.num] == s.done[0].descs[0] < s.q.num
    ensures Finished(s.q, s.pair) == s.done[0].descs && Below(s.done[0].descs, s.q.num)
  {
    var c := s.done[0];
    SlotOfIndex(s.got, s.q.num);
    WindowPop(s.q.usedRing, s.got, s.done);
    assert ChainOk(s.q, s.pair, c);
    assert c.descs == if s.pair then [c.descs[0], c.descs[1]] else [c.descs[0]];
    forall k | 0 <= k < |c.descs| ensures c.descs[k] < s.q.num {
      DescsMember(s.done, 0, c.descs[k]);
      Apart(Descs(s.done), multiset(s.free) + Descs(s.avail) + Descs(s.held), s.q.num, c.descs[k]);
    }
  }

  ghost predicate NoHeadIn(cs: seq<Chain>, ds: seq<nat>) {
    forall i :: 0 <= i < |cs| && cs[i].descs != [] ==> cs[i].descs[0] !in ds
  }

  lemma HeadsApart(cs: seq<Chain>, ds: seq<nat>, n: nat)
    requires Descs(cs) + multiset(ds) <= All(n)
    ensures NoHeadIn(cs, ds)
  {
    forall i | 0 <= i < |cs| && cs[i].descs != [] ensures cs[i].descs[0] !in ds {
      DescsMember(cs, i, cs[i].descs[0]);
      Apart(Descs(cs), multiset(ds), n, cs[i].descs[0]);
    }
  }

  lemma {:induction false} AllOkSizes(q: Virtq, pair: bool, cs: seq<Chain>)
    requires AllOk(q, pair, cs)
    ensures |Descs(cs)| >= |cs|
  {
    forall i | 0 <= i < |cs| ensures cs[i].descs != [] { assert ChainOk(q, pair, cs[i]); }
    DescsSize(cs);
  }

  /** There are never more chains in flight than descriptors outside the free chain. */
  lemma FlightBound(s: Sys)
    requires Inv(s)
    ensures |s.free| + |s.avail| + |s.held| + |s.done| <= s.q.num
  {
    AllOkSizes(s.q, s.pair, s.avail);
    AllOkSizes(s.q, s.pair, s.held);
    AllOkSizes(s.q, s.pair, s.done);
    AllCounts(s.q.num, 0);
    assert |multiset(s.free) + Descs(s.avail) + Descs(s.held) + Descs(s.done)| == s.q.num;
  }

  /** The indices tell the two sides apart: they differ exactly while something is unconsumed. */
  lemma IndicesDiffer(s: Sys)
    requires Inv(s)
    ensures s.q.lastUsed != s.q.usedIdx <==> s.done != []
    ensures s.seenIdx != s.q.availIdx <==> s.avail != []
  {
    hide Shaped, Chains, Partition, Saved, Accounted, Window;
    FlightBound(s);
    WrapDiffers(s.got, |s.done|);
    WrapDiffers(s.seen, |s.avail|);
  }

  lemma WrapDiffers(start: nat, n: nat)
    requires n < 65536
    ensures start % 65536 != (start + n) % 65536 <==> n > 0
  {
    if n > 0 { RingDistinct(start, 0, n, 65536); }
  }

  // ----- every step keeps the invariant

  lemma AllOkFrame(q: Virtq, q': Virtq, pair: bool, cs: seq<Chain>, ds: seq<nat>)
    requires AllOk(q, pair, cs) && NoHeadIn(cs, ds) && |q'.next| == |q.next| && |q'.buffers| == |q.buffers|
    requires forall d :: 0 <= d < |q.next| && d !in ds ==> q'.next[d] == q.next[d]
    requires forall d :: 0 <= d < |q.buffers| && d !in ds ==> q'.buffers[d] == q.buffers[d]
    ensures AllOk(q', pair, cs)
  {
    forall i | 0 <= i < |cs| ensures ChainOk(q', pair, cs[i]) { assert ChainOk(q, pair, cs[i]); }
  }

  lemma DeviceTakeKeeps(s: Sys)
    requires Inv(s) && s.avail != []
    ensures Inv(DeviceTake(s))
  {
    hide Shaped, Chains, Partition, Saved, Accounted, Rings;
    TakeChains(s);
    TakeOwners(s);
    TakeSaved(s);
    TakeRings(s);
  }

  lemma TakeChains(s: Sys)
    requires Chains(s) && s.avail != []
    ensures Chains(DeviceTake(s))
  {
    AllOkAppend(s.q, s.pair, s.held, s.avail[0], s.q);
  }

  lemma TakeSaved(s: Sys)
    requires Saved(s) && s.avail != []
    ensures Saved(DeviceTake(s))
  {
    hide Saved;
    assert s.avail == [s.avail[0]] + s.avail[1..];
    SavedMove(s, DeviceTake(s));
  }

  lemma TakeOwners(s: Sys)
    requires Partition(s) && Accounted(s) && s.avail != []
    ensures Partition(DeviceTake(s)) && Accounted(DeviceTake(s))
  {
    var s' := DeviceTake(s);
    MoveFirst(s.avail, s.held);
    Regroup(multiset(s.free), Descs(s.avail), Descs(s.held), Descs(s'.avail), Descs(s'.held), Descs(s.done));
    Regroup(multiset(s.freed), Serials(s.avail), Serials(s.held), Serials(s'.avail), Serials(s'.held), Serials(s.done));
  }

  lemma TakeRings(s: Sys)
    requires Rings(s) && s.avail != []
    ensures Rings(DeviceTake(s))
  {
    WindowPop(s.q.availRing, s.seen, s.avail);
    ModAdd(s.seen, 1, 65536);
  }

  lemma Regroup(x: multiset<nat>, b: multiset<nat>, c: multiset<nat>, b': multiset<nat>, c': multiset<nat>, y: multiset<nat>)
    requires b + c == b' + c'
    ensures x + b + c + y == x + b' + c' + y
  {
    assert x + b + c + y == x + (b + c) + y;
    assert x + b' + c' + y == x + (b' + c') + y;
  }

  lemma MoveFirst(from: seq<Chain>, to: seq<Chain>)
    requires from != []
    ensures Descs(from) + Descs(to) == Descs(from[1..]) + Descs(to + [from[0]])
    ensures Serials(from) + Serials(to) == Serials(from[1..]) + Serials(to + [from[0]])
  {
    DescsConcat(to, [from[0]]);
    SerialsConcat(to, [from[0]]);
    One(from[0]);
  }

  lemma MoveAny(from: seq<Chain>, i: nat, to: seq<Chain>)
    requires i < |from|
    ensures Descs(from) + Descs(to) == Descs(Without(from, i)) + Descs(to + [from[i]])
    ensures Serials(from) + Serials(to) == Serials(Without(from, i)) + Serials(to + [from[i]])
  {
    hide Descs, Serials;
    DescsConcat(to, [from[i]]);
    SerialsConcat(to, [from[i]]);
    DescsWithout(from, i);
    SerialsWithout(from, i);
    One(from[i]);
  }

  /** Moving chains between the lists keeps every saved buffer's head in flight. */
  lemma SavedMove(s: Sys, s': Sys)
    requires Saved(s) && s'.q.buffers == s.q.buffers
    requires forall c :: c in s.avail || c in s.held || c in s.done ==> c in s'.avail || c in s'.held || c in s'.done
    ensures Saved(s')
  {
    forall h | 0 <= h < |s'.q.buffers| && s'.q.buffers[h].Some?
      ensures HasHead(s'.avail, h) || HasHead(s'.held, h) || HasHead(s'.done, h)
    {
      var c := HeadOf(s, h);
      HeadIs(s'.avail, c);
      HeadIs(s'.held, c);
      HeadIs(s'.done, c);
    }
  }

  lemma HeadOf(s: Sys, h: nat) returns (c: Chain)
    requires HasHead(s.avail, h) || HasHead(s.held, h) || HasHead(s.done, h)
    ensures c.descs != [] && c.descs[0] == h && (c in s.avail || c in s.held || c in s.done)
  {
    var cs := if HasHead(s.avail, h) then s.avail else if HasHead(s.held, h) then s.held else s.done;
    var i :| 0 <= i < |cs| && cs[i].descs != [] && cs[i].descs[0] == h;
    c := cs[i];
  }

  lemma HeadIs(cs: seq<Chain>, c: Chain)
    requires c.descs != []
    ensures c in cs ==> HasHead(cs, c.descs[0])
  {
    if c in cs { var i :| 0 <= i < |cs| && cs[i] == c; assert cs[i].descs[0] == c.descs[0]; }
  }

  lemma DeviceCompleteKeeps(s: Sys, i: nat)
    requires Inv(s) && i < |s.held|
    ensures s.held[i].descs != [] && Inv(DeviceComplete(s, i))
  {
    assert ChainOk(s.q, s.pair, s.held[i]);
    hide Chains, Partition, Saved, Accounted, Rings, DeviceComplete;
    FlightBound(s);
    CompleteShaped(s, i);
    CompleteChains(s, i);
    CompleteOwners(s, i);
    CompleteSaved(s, i);
    CompleteRings(s, i);
  }

  lemma CompleteShaped(s: Sys, i: nat)
    requires Shaped(s.q) && i < |s.held| && s.held[i].descs != []
    ensures Shaped(DeviceComplete(s, i).q) && DeviceComplete(s, i).q.num == s.q.num
  {
  }

  lemma CompleteSaved(s: Sys, i: nat)
    requires Shaped(s.q) && Saved(s) && i < |s.held| && s.held[i].descs != []
    ensures Saved(DeviceComplete(s, i))
  {
    hide Saved;
    WithoutKeeps(s.held, i);
    SavedMove(s, DeviceComplete(s, i));
  }

  lemma CompleteOwners(s: Sys, i: nat)
    requires Shaped(s.q) && Partition(s) && Accounted(s) && i < |s.held| && s.held[i].descs != []
    ensures Partition(DeviceComplete(s, i)) && Accounted(DeviceComplete(s, i))
  {
    var s' := DeviceComplete(s, i);
    MoveAny(s.held, i, s.done);
    RegroupLast(multiset(s.free) + Descs(s.avail), Descs(s.held), Descs(s.done), Descs(s'.held), Descs(s'.done));
    RegroupLast(multiset(s.freed) + Serials(s.avail), Serials(s.held), Serials(s.done), Serials(s'.held), Serials(s'.done));
  }

  lemma RegroupLast(x: multiset<nat>, c: multiset<nat>, d: multiset<nat>, c': multiset<nat>, d': multiset<nat>)
    requires c + d == c' + d'
    ensures x + c + d == x + c' + d'
  {
    assert x + c + d == x + (c + d);
    assert x + c' + d' == x + (c' + d');
  }

  lemma CompleteChains(s: Sys, i: nat)
    requires Shaped(s.q) && Chains(s) && i < |s.held| && s.held[i].descs != []
    ensures Chains(DeviceComplete(s, i))
  {
    var q' := DeviceComplete(s, i).q;
    AllOkSame(s.q, q', s.pair, s.avail);
    AllOkWithout(s.q, q', s.pair, s.held, i);
    AllOkAppend(q', s.pair, s.done, s.held[i], s.q);
    FreeChainSame(s.q, q', s.free);
  }

  lemma FreeChainSame(q: Virtq, q': Virtq, free: seq<nat>)
    requires FreeChain(q, free) && q'.next == q.next && q'.freeHead == q.freeHead && q'.numFree == q.numFree
    ensures FreeChain(q', free)
  {
  }

  lemma CompleteRings(s: Sys, i: nat)
    requires Shaped(s.q) && 65536 % s.q.num == 0 && Rings(s) && i < |s.held| && s.held[i].descs != []
    requires |s.done| < s.q.num
    ensures Rings(DeviceComplete(s, i))
  {
    SlotOfIndex(s.put, s.q.num);
    WindowPush(s.q.usedRing, s.got, s.done, s.held[i]);
    ModAdd(s.put, 1, 65536);
  }

  lemma WithoutKeeps(cs: seq<Chain>, i: nat)
    requires i < |cs|
    ensures forall c :: c in cs ==> c in Without(cs, i) || c == cs[i]
  {
    forall c | c in cs && c != cs[i] ensures c in Without(cs, i) {
      var j :| 0 <= j < |cs| && cs[j] == c;
      assert Without(cs, i)[if j < i then j else j - 1] == c;
    }
  }

  lemma AllOkSame(q: Virtq, q': Virtq, pair: bool, cs: seq<Chain>)
    requires AllOk(q, pair, cs) && q'.next == q.next && q'.buffers == q.buffers
    ensures AllOk(q', pair, cs)
  {
    forall i | 0 <= i < |cs| ensures ChainOk(q', pair, cs[i]) { assert ChainOk(q, pair, cs[i]); }
  }

  lemma AllOkWithout(q: Virtq, q': Virtq, pair: bool, cs: seq<Chain>, i: nat)
    requires AllOk(q, pair, cs) && q'.next == q.next && q'.buffers == q.buffers && i < |cs|
    ensures AllOk(q', pair, Without(cs, i))
  {
    forall k | 0 <= k < |cs| - 1 ensures ChainOk(q', pair, Without(cs, i)[k]) {
      assert ChainOk(q, pair, cs[if k < i then k else k + 1]);
    }
  }

  lemma AllOkAppend(q': Virtq, pair: bool, cs: seq<Chain>, c: Chain, q: Virtq)
    requires AllOk(q, pair, cs) && q'.next == q.next && q'.buffers == q.buffers && ChainOk(q, pair, c)
    ensures AllOk(q', pair, cs + [c])
  {
    forall k | 0 <= k < |cs| + 1 ensures ChainOk(q', pair, (cs + [c])[k]) {
      if k < |cs| { assert ChainOk(q, pair, cs[k]); }
    }
  }

  // ----- submission

  ghost predicate NoneIn(ds: seq<nat>, free: seq<nat>) {
    forall k :: 0 <= k < |free| ==> free[k] !in ds
  }

  lemma FreeChainFrame(q: Virtq, q': Virtq, free: seq<nat>, ds: seq<nat>)
    requires FreeChain(q, free) && NoneIn(ds, free)
    requires |q'.next| == |q.next| && q'.freeHead == q.freeHead && q'.numFree == q.numFree
    requires forall d :: 0 <= d < |q.next| && d !in ds ==> q'.next[d] == q.next[d]
    ensures FreeChain(q', free)
  {
    forall k | 0 <= k < |free| ensures q'.next[free[k]] == At(free, k + 1) {
      assert q.next[free[k]] == At(free, k + 1);
    }
  }

  /** Descriptors counted once cannot be in two places. */
  lemma NotInBoth(ds: seq<nat>, free: seq<nat>, n: nat)
    requires multiset(ds) + multiset(free) <= All(n)
    ensures NoneIn(ds, free) && Below(ds, n)
  {
    forall k | 0 <= k < |free| ensures free[k] !in ds {
      assert free[k] in multiset(free);
      Apart(multiset(free), multiset(ds), n, free[k]);
    }
    forall k | 0 <= k < |ds| ensures ds[k] < n {
      assert ds[k] in multiset(ds);
      Apart(multiset(ds), multiset(free), n, ds[k]);
    }
  }

  /** The descriptors taken come off the front of the free chain and belong to no chain in flight. */
  lemma TakenFresh(s: Sys)
    requires Shaped(s.q) && FreeChain(s.q, s.free) && Partition(s) && s.q.numFree >= 2
    requires s.q.freeHead < s.q.num && Pop(s.q).freeHead < s.q.num
    ensures var chain, rest := Taken(s.q, s.pair), s.free[(if s.pair then 2 else 1)..];
            && s.free == chain + rest
            && NoneIn(chain, rest) && Below(chain, s.q.num)
            && NoHeadIn(s.avail, chain) && NoHeadIn(s.held, chain) && NoHeadIn(s.done, chain)
  {
    FreeFront(s.q, s.free);
    var chain, rest := Taken(s.q, s.pair), s.free[(if s.pair then 2 else 1)..];
    assert s.free == chain + rest;
    hide FreeChain;
    var a, h, d := Descs(s.avail), Descs(s.held), Descs(s.done);
    Shares(chain, rest, a, h, d, All(s.q.num));
    NotInBoth(chain, rest, s.q.num);
    HeadsApart(s.avail, chain, s.q.num);
    HeadsApart(s.held, chain, s.q.num);
    HeadsApart(s.done, chain, s.q.num);
  }

  lemma FreeDistinct(s: Sys)
    requires Partition(s) && |s.free| >= 2
    ensures s.free[0] != s.free[1]
  {
    hide Descs, All;
    var x, rest := s.free[0], s.free[2..];
    assert s.free == [x, s.free[1]] + rest;
    FrontTwice(x, rest, Descs(s.avail), Descs(s.held), Descs(s.done), s.q.num);
  }

  lemma FrontTwice(x: nat, rest: seq<nat>, a: multiset<nat>, h: multiset<nat>, d: multiset<nat>, n: nat)
    ensures multiset([x, x] + rest) + a + h + d != All(n)
  {
    hide All;
    AllCounts(n, x);
    assert (multiset([x, x] + rest) + a + h + d)[x] >= 2;
  }

  lemma Shares(chain: seq<nat>, rest: seq<nat>, a: multiset<nat>, h: multiset<nat>, d: multiset<nat>, all: multiset<nat>)
    requires multiset(chain + rest) + a + h + d == all
    ensures multiset(chain) + multiset(rest) <= all
    ensures a + multiset(chain) <= all && h + multiset(chain) <= all && d + multiset(chain) <= all
  {
    assert multiset(chain + rest) == multiset(chain) + multiset(rest);
  }

  lemma OfferKeeps(s: Sys, ok: bool)
    requires Inv(s)
    ensures Inv(Offer(s, ok))
  {
    hide Inv;
    if s.q.numFree >= 2 && ok {
      OfferAccepted(s);
    } else if !s.pair {
      OfferRejected(s, ok);
    }
  }

  lemma OfferAccepted(s: Sys)
    requires Inv(s) && s.q.numFree >= 2
    ensures Inv(Offer(s, true))
  {
    hide Shaped, FreeChain, AllOk, Partition, Saved, Accounted, Rings, NoneIn, Below, NoHeadIn, PostChain, Taken, Pop;
    FreeFront(s.q, s.free);
    FrontDiffers(s);
    TakenFresh(s);
    FlightBound(s);
    var chain := Taken(s.q, s.pair);
    TakenSize(s.q, s.pair);
    var rest := s.free[|chain|..];
    OfferShaped(s);
    OfferChains(s, chain, rest);
    OfferOwners(s, chain, rest);
    OfferAccounted(s);
    OfferSaved(s);
    OfferRings(s);
  }

  lemma TakenSize(q: Virtq, pair: bool)
    requires Shaped(q) && q.numFree >= 2 && q.freeHead < q.num && Pop(q).freeHead < q.num
    ensures |Taken(q, pair)| == if pair then 2 else 1
  {
  }

  lemma FrontDiffers(s: Sys)
    requires Shaped(s.q) && FreeChain(s.q, s.free) && Partition(s) && s.q.numFree >= 2
    ensures s.q.freeHead != Pop(s.q).freeHead
  {
    hide Partition;
    FreeFront(s.q, s.free);
    FreeDistinct(s);
  }

  lemma OfferShaped(s: Sys)
    requires Shaped(s.q) && FreeChain(s.q, s.free) && s.q.numFree >= 2 && s.q.freeHead != Pop(s.q).freeHead
    ensures Shaped(Offer(s, true).q) && Offer(s, true).q.num == s.q.num
  {
    hide Taken, PostChain;
    FreeFront(s.q, s.free);
    PostFrame(s.q, s.pair, s.offered);
  }

  lemma OfferRejected(s: Sys, ok: bool)
    requires Inv(s) && !s.pair && (s.q.numFree < 2 || !ok)
    ensures Inv(Offer(s, ok))
  {
    var f, a, h, d := multiset(s.freed), Serials(s.avail), Serials(s.held), Serials(s.done);
    assert multiset(s.freed + [s.offered]) + a + h + d == (f + a + h + d) + multiset{s.offered};
  }

  /** Submitting a chain touches only that chain's descriptors and makes it a good one. */
  lemma PostFrame(q: Virtq, pair: bool, serial: nat)
    requires Shaped(q) && q.numFree >= 2 && q.freeHead < q.num && Pop(q).freeHead < q.num
    requires q.freeHead != Pop(q).freeHead
    ensures var q', chain, q1 := PostChain(q, pair, serial), Taken(q, pair), if pair then Pop(Pop(q)) else Pop(q);
            && Shaped(q') && q'.num == q.num && q'.freeHead == q1.freeHead && q'.numFree == q1.numFree
            && (forall d :: 0 <= d < q.num && d !in chain ==> q'.next[d] == q.next[d])
            && (forall d :: 0 <= d < q.num && d !in chain ==> q'.buffers[d] == q.buffers[d])
            && ChainOk(q', pair, Chain(chain, serial))
  {
  }

  lemma OfferChains(s: Sys, chain: seq<nat>, rest: seq<nat>)
    requires Shaped(s.q) && Chains(s) && s.q.numFree >= 2 && s.q.freeHead < s.q.num && Pop(s.q).freeHead < s.q.num
    requires s.q.freeHead != Pop(s.q).freeHead
    requires chain == Taken(s.q, s.pair) && rest == s.free[|chain|..] && NoneIn(chain, rest)
    requires NoHeadIn(s.avail, chain) && NoHeadIn(s.held, chain) && NoHeadIn(s.done, chain)
    ensures Chains(Offer(s, true))
  {
    var q' := PostChain(s.q, s.pair, s.offered);
    PostFrame(s.q, s.pair, s.offered);
    assert FreeChain(q', rest) by {
      FreeFront(s.q, s.free);
      FreeChainFrame(if s.pair then Pop(Pop(s.q)) else Pop(s.q), q', rest, chain);
    }
    assert AllOk(q', s.pair, s.avail + [Chain(chain, s.offered)]) by {
      AllOkFrame(s.q, q', s.pair, s.avail, chain);
      AllOkAppend(q', s.pair, s.avail, Chain(chain, s.offered), q');
    }
    AllOkFrame(s.q, q', s.pair, s.held, chain);
    AllOkFrame(s.q, q', s.pair, s.done, chain);
  }

  lemma OfferOwners(s: Sys, chain: seq<nat>, rest: seq<nat>)
    requires Shaped(s.q) && FreeChain(s.q, s.free) && s.q.numFree >= 2 && s.q.freeHead < s.q.num && Pop(s.q).freeHead < s.q.num
    requires chain == Taken(s.q, s.pair) && rest == s.free[|chain|..] && s.free == chain + rest && Partition(s)
    ensures Partition(Offer(s, true))
  {
    var c := Chain(chain, s.offered);
    assert Descs(s.avail + [c]) == Descs(s.avail) + multiset(chain) by { DescsConcat(s.avail, [c]); One(c); }
    Reassign(chain, rest, Descs(s.avail), Descs(s.held), Descs(s.done));
  }

  lemma OfferAccounted(s: Sys)
    requires Shaped(s.q) && FreeChain(s.q, s.free) && s.q.numFree >= 2 && Accounted(s)
    ensures Accounted(Offer(s, true))
  {
    FreeFront(s.q, s.free);
    var c := Chain(Taken(s.q, s.pair), s.offered);
    assert Serials(s.avail + [c]) == Serials(s.avail) + multiset{s.offered} by { SerialsConcat(s.avail, [c]); One(c); }
    Include(multiset(s.freed), Serials(s.avail), s.offered, Serials(s.held), Serials(s.done));
  }

  lemma Reassign(chain: seq<nat>, rest: seq<nat>, a: multiset<nat>, h: multiset<nat>, d: multiset<nat>)
    ensures multiset(chain + rest) + a + h + d == multiset(rest) + (a + multiset(chain)) + h + d
  {
    assert multiset(chain + rest) == multiset(chain) + multiset(rest);
  }

  lemma Include(f: multiset<nat>, a: multiset<nat>, x: nat, h: multiset<nat>, d: multiset<nat>)
    ensures f + (a + multiset{x}) + h + d == (f + a + h + d) + multiset{x}
  {
  }

  lemma OfferSaved(s: Sys)
    requires Shaped(s.q) && FreeChain(s.q, s.free) && s.q.numFree >= 2 && s.q.freeHead < s.q.num && Pop(s.q).freeHead < s.q.num
    requires Saved(s)
    ensures Saved(Offer(s, true))
  {
    var s' := Offer(s, true);
    var c := Chain(Taken(s.q, s.pair), s.offered);
    forall h | 0 <= h < |s'.q.buffers| && s'.q.buffers[h].Some?
      ensures HasHead(s'.avail, h) || HasHead(s'.held, h) || HasHead(s'.done, h)
    {
      if h == c.descs[0] {
        HeadIs(s'.avail, c);
      } else {
        var b := HeadOf(s, h);
        assert b in s.avail ==> b in s'.avail;
        HeadIs(s'.avail, b);
        HeadIs(s'.held, b);
        HeadIs(s'.done, b);
      }
    }
  }

  lemma OfferRings(s: Sys)
    requires Shaped(s.q) && FreeChain(s.q, s.free) && s.q.numFree >= 2 && s.q.freeHead < s.q.num && Pop(s.q).freeHead < s.q.num
    requires 65536 % s.q.num == 0 && Rings(s) && |s.avail| < s.q.num
    ensures Rings(Offer(s, true))
  {
    hide Window;
    SlotOfIndex(s.made, s.q.num);
    WindowPush(s.q.availRing, s.seen, s.avail, Chain(Taken(s.q, s.pair), s.offered));
    ModAdd(s.made, 1, 65536);
  }

  // ----- completion

  /** Giving a chain's descriptors back puts them at the front of the free chain, last one first. */
  lemma {:induction false} PushAllChain(q: Virtq, free: seq<nat>, ds: seq<nat>)
    requires Shaped(q) && FreeChain(q, free) && Below(ds, q.num) && NoneIn(ds, free)
    requires forall i, j :: 0 <= i < j < |ds| ==> ds[i] != ds[j]
    ensures Shaped(PushAll(q, ds)) && FreeChain(PushAll(q, ds), Back(ds) + free)
    decreases |ds|
  {
    if ds == [] {
      assert Back(ds) + free == free;
    } else {
      hide FreeChain, Below, NoneIn, Back;
      RestApart(ds, free, q.num);
      PushChain(q, free, ds[0]);
      PushOnto(q, ds[0]);
      PushAllChain(Push(q, ds[0]), [ds[0]] + free, ds[1..]);
      BackOnto(ds, free);
    }
  }

  lemma {:induction false} PushAllNext(q: Virtq, ds: seq<nat>)
    requires Shaped(q) && Below(ds, q.num)
    ensures forall d :: 0 <= d < q.num && d !in ds ==> d < |PushAll(q, ds).next| && PushAll(q, ds).next[d] == q.next[d]
    decreases |ds|
  {
    if ds != [] {
      PushAllNext(Push(q, ds[0]), ds[1..]);
      assert forall d :: d !in ds ==> d !in ds[1..];
    }
  }

  lemma BackOnto(ds: seq<nat>, free: seq<nat>)
    requires ds != []
    ensures Back(ds) + free == Back(ds[1..]) + ([ds[0]] + free)
  {
  }

  lemma PushOnto(q: Virtq, d: nat)
    requires Shaped(q) && d < q.num
    ensures Shaped(Push(q, d)) && Push(q, d).num == q.num
  {
  }

  lemma RestApart(ds: seq<nat>, free: seq<nat>, n: nat)
    requires ds != [] && Below(ds, n) && NoneIn(ds, free) && forall i, j :: 0 <= i < j < |ds| ==> ds[i] != ds[j]
    ensures ds[0] < n && ds[0] !in free && Below(ds[1..], n) && NoneIn(ds[1..], [ds[0]] + free)
  {
    assert forall d :: d in ds[1..] ==> d in ds && d != ds[0];
  }

  ghost predicate ReadsDone(s: Sys) {
    && Shaped(s.q) && s.done != [] && s.done[0].descs != [] && Below(s.done[0].descs, s.q.num)
    && s.q.usedRing[s.q.lastUsed % s.q.num] < s.q.num && Finished(s.q, s.pair) == s.done[0].descs
  }

  /** The finished chain's descriptors belong to nobody else. */
  lemma DoneApart(s: Sys)
    requires Partition(s) && s.done != []
    ensures var ds := s.done[0].descs;
            && NoneIn(ds, s.free)
            && NoHeadIn(s.avail, ds) && NoHeadIn(s.held, ds) && NoHeadIn(s.done[1..], ds)
            && (forall i, j :: 0 <= i < j < |ds| ==> ds[i] != ds[j])
  {
    var ds, n := s.done[0].descs, s.q.num;
    DoneShares(multiset(s.free), Descs(s.avail), Descs(s.held), multiset(ds), Descs(s.done[1..]), All(n));
    NotInBoth(ds, s.free, n);
    HeadsApart(s.avail, ds, n);
    HeadsApart(s.held, ds, n);
    HeadsApart(s.done[1..], ds, n);
    OnceEach(ds, n);
  }

  lemma DoneShares(f: multiset<nat>, a: multiset<nat>, h: multiset<nat>, x: multiset<nat>, d: multiset<nat>, all: multiset<nat>)
    requires f + a + h + (x + d) == all
    ensures x + f <= all && a + x <= all && h + x <= all && d + x <= all && x <= all
  {
  }

  lemma OnceEach(ds: seq<nat>, n: nat)
    requires multiset(ds) <= All(n)
    ensures forall i, j :: 0 <= i < j < |ds| ==> ds[i] != ds[j]
  {
    forall i, j | 0 <= i < j < |ds| ensures ds[i] != ds[j] {
      AllCounts(n, ds[i]);
      assert ds == ds[..i] + [ds[i]] + ds[i + 1..j] + [ds[j]] + ds[j + 1..];
      assert multiset(ds)[ds[i]] <= 1;
    }
  }

  lemma ReapKeeps(s: Sys)
    requires Inv(s) && s.done != []
    ensures ReadsDone(s) && Inv(Reap(s))
  {
    ReapReads(s);
    assert ChainOk(s.q, s.pair, s.done[0]);
    DoneApart(s);
    assert Shaped(Reap(s).q) && Reap(s).q.num == s.q.num && Chains(Reap(s)) by { ReapChains(s); }
    assert Partition(Reap(s)) by { ReapOwners(s); }
    assert Accounted(Reap(s)) by { ReapAccounted(s); }
    assert Saved(Reap(s)) by { ReapSaved(s); }
    assert Rings(Reap(s)) by { ReapRings(s); }
  }

  lemma ReapFrame(s: Sys, ds: seq<nat>)
    requires ReadsDone(s) && ds == s.done[0].descs && FreeChain(s.q, s.free) && NoneIn(ds, s.free)
    requires forall i, j :: 0 <= i < j < |ds| ==> ds[i] != ds[j]
    ensures var q' := ReapChain(s.q, s.pair);
            && Shaped(q') && q'.num == s.q.num && FreeChain(q', Back(ds) + s.free)
            && (forall d :: 0 <= d < s.q.num && d !in ds ==> q'.next[d] == s.q.next[d])
            && q'.buffers == s.q.buffers[ds[0] := None]
            && q'.availRing == s.q.availRing && q'.usedRing == s.q.usedRing
            && q'.availIdx == s.q.availIdx && q'.usedIdx == s.q.usedIdx && q'.lastUsed == (s.q.lastUsed + 1) % INDICES
  {
    var q1 := s.q.(buffers := s.q.buffers[ds[0] := None]);
    FreeChainSame(s.q, q1, s.free);
    PushAllChain(q1, s.free, ds);
    PushAllNext(q1, ds);
    PushAllRings(q1, ds);
    FreeChainSame(PushAll(q1, ds), ReapChain(s.q, s.pair), Back(ds) + s.free);
  }

  lemma {:induction false} PushAllRings(q: Virtq, ds: seq<nat>)
    requires Shaped(q) && Below(ds, q.num)
    ensures var q' := PushAll(q, ds);
            && q'.availRing == q.availRing && q'.usedRing == q.usedRing && q'.buffers == q.buffers
            && q'.availIdx == q.availIdx && q'.usedIdx == q.usedIdx && q'.num == q.num
    decreases |ds|
  {
    if ds != [] { PushAllRings(Push(q, ds[0]), ds[1..]); }
  }

  lemma ReapChains(s: Sys)
    requires ReadsDone(s) && Chains(s)
    requires var ds := s.done[0].descs;
             && NoneIn(ds, s.free)
             && NoHeadIn(s.avail, ds) && NoHeadIn(s.held, ds) && NoHeadIn(s.done[1..], ds)
             && (forall i, j :: 0 <= i < j < |ds| ==> ds[i] != ds[j])
    ensures Shaped(Reap(s).q) && Reap(s).q.num == s.q.num && Chains(Reap(s))
  {
    var ds, q' := s.done[0].descs, ReapChain(s.q, s.pair);
    ReapFrame(s, ds);
    AllOkFrame(s.q, q', s.pair, s.avail, ds);
    AllOkFrame(s.q, q', s.pair, s.held, ds);
    AllOkFrame(s.q, q', s.pair, s.done[1..], ds);
  }

  lemma {:induction false} BackSame(ds: seq<nat>)
    ensures multiset(Back(ds)) == multiset(ds)
  {
    if ds != [] {
      BackSame(ds[1..]);
      assert ds == [ds[0]] + ds[1..];
    }
  }

  lemma ReapOwners(s: Sys)
    requires ReadsDone(s) && Partition(s) && Reap(s).q.num == s.q.num
    ensures Partition(Reap(s))
  {
    var ds := s.done[0].descs;
    BackSame(ds);
    assert multiset(Back(ds) + s.free) == multiset(ds) + multiset(s.free);
    GiveBack(multiset(s.free), Descs(s.avail), Descs(s.held), multiset(ds), Descs(s.done[1..]));
  }

  lemma GiveBack(f: multiset<nat>, a: multiset<nat>, h: multiset<nat>, x: multiset<nat>, d: multiset<nat>)
    ensures f + a + h + (x + d) == (x + f) + a + h + d
  {
  }

  lemma ReapAccounted(s: Sys)
    requires ReadsDone(s) && Accounted(s)
    ensures Accounted(Reap(s))
  {
    var x := s.done[0].serial;
    assert multiset(s.freed + [x]) == multiset{x} + multiset(s.freed);
    GiveBack(multiset(s.freed), Serials(s.avail), Serials(s.held), multiset{x}, Serials(s.done[1..]));
  }

  lemma ReapSaved(s: Sys)
    requires ReadsDone(s) && Saved(s)
    ensures Saved(Reap(s))
  {
    var s', c := Reap(s), s.done[0];
    var q1 := s.q.(buffers := s.q.buffers[c.descs[0] := None]);
    PushAllRings(q1, c.descs);
    forall h | 0 <= h < |s'.q.buffers| && s'.q.buffers[h].Some?
      ensures HasHead(s'.avail, h) || HasHead(s'.held, h) || HasHead(s'.done, h)
    {
      var b := HeadOf(s, h);
      assert b in s.done ==> b == c || b in s.done[1..];
      HeadIs(s'.avail, b);
      HeadIs(s'.held, b);
      HeadIs(s'.done, b);
    }
  }

  lemma ReapRings(s: Sys)
    requires ReadsDone(s) && Rings(s)
    ensures Rings(Reap(s))
  {
    var q1 := s.q.(buffers := s.q.buffers[s.done[0].descs[0] := None]);
    PushAllRings(q1, s.done[0].descs);
    WindowPop(s.q.usedRing, s.got, s.done);
    ModAdd(s.got, 1, 65536);
  }

  // ----- whole runs

  datatype Event = Submit(ok: bool) | Consume | Take | Complete(i: nat)

  /** Both sides act only on what their indices show them. */
  ghost predicate Enabled(s: Sys, e: Event) {
    match e
    case Submit(_) => true
    case Consume => s.q.lastUsed != s.q.usedIdx
    case Take => s.seenIdx != s.q.availIdx
    case Complete(i) => i < |s.held|
  }

  lemma EnabledMeans(s: Sys, e: Event)
    requires Inv(s) && Enabled(s, e)
    ensures e.Consume? ==> ReadsDone(s)
    ensures e.Take? ==> s.avail != []
    ensures e.Complete? ==> s.held[e.i].descs != []
  {
    IndicesDiffer(s);
    if e.Consume? { ReapKeeps(s); }
    if e.Complete? { DeviceCompleteKeeps(s, e.i); }
  }

  /** What the functions above take for granted; every reachable state provides it (see StepKeeps). */
  ghost predicate Ready(s: Sys, e: Event) {
    match e
    case Submit(_) => Shaped(s.q) && FreeChain(s.q, s.free)
    case Consume => ReadsDone(s)
    case Take => s.avail != []
    case Complete(i) => Shaped(s.q) && i < |s.held| && s.held[i].descs != []
  }

  ghost function Step(s: Sys, e: Event): Sys {
    if !Ready(s, e) then s
    else
      match e
      case Submit(ok) => Offer(s, ok)
      case Consume => Reap(s)
      case Take => DeviceTake(s)
      case Complete(i) => DeviceComplete(s, i)
  }

  lemma StepKeeps(s: Sys, e: Event)
    requires Inv(s) && Enabled(s, e)
    ensures Ready(s, e) && Inv(Step(s, e))
  {
    EnabledMeans(s, e);
    match e
    case Submit(ok) => OfferKeeps(s, ok);
    case Consume => ReapKeeps(s);
    case Take => DeviceTakeKeeps(s);
    case Complete(i) => DeviceCompleteKeeps(s, i);
  }

  ghost predicate Runs(s: Sys, es: seq<Event>)
    decreases |es|
  {
    es == [] || (Enabled(s, es[0]) && Runs(Step(s, es[0]), es[1..]))
  }

  ghost function Run(s: Sys, es: seq<Event>): Sys
    decreases |es|
  {
    if es == [] then s else Run(Step(s, es[0]), es[1..])
  }

  lemma {:induction false} RunKeeps(s: Sys, es: seq<Event>)
    requires Inv(s) && Runs(s, es)
    ensures Inv(Run(s, es))
    decreases |es|
  {
    hide Inv, Enabled, Step;
    if es != [] {
      StepKeeps(s, es[0]);
      RunKeeps(Step(s, es[0]), es[1..]);
    }
  }

  /** The queue as virtq_init leaves it. */
  function Initial(num: nat): Virtq
    requires 0 < num
  {
    Virtq(num, 0, num, 0,
          seq(num, i => if i == num - 1 then END else i + 1), seq(num, _ => None),
          seq(num, _ => 0), 0, seq(num, _ => 0), 0)
  }

  function Upto(n: nat): seq<nat> { seq(n, i => i) }

  lemma {:induction false} UptoAll(n: nat)
    ensures multiset(Upto(n)) == All(n)
  {
    if n > 0 {
      UptoAll(n - 1);
      assert Upto(n) == Upto(n - 1) + [n - 1];
    } else {
      assert Upto(0) == [];
    }
  }

  /** A fresh queue of a size that divides 2^16 starts with every descriptor free. */
  lemma InitialInv(num: nat, pair: bool)
    requires 0 < num <= 256 && 65536 % num == 0
    ensures Inv(Start(num, pair))
  {
    UptoAll(num);
  }

  /** The state after virtq_init of the receive (pair) or transmit queue. */
  function Start(num: nat, pair: bool): Sys
    requires 0 < num
  {
    Sys(Initial(num), pair, 0, Upto(num), [], [], [], 0, 0, 0, 0, 0, [])
  }

  /** Each descriptor is owned once: by the free chain or by a chain on one side's list. */
  lemma OwnedOnce(s: Sys, d: nat)
    requires Inv(s) && d < s.q.num
    ensures multiset(s.free)[d] + Descs(s.avail)[d] + Descs(s.held)[d] + Descs(s.done)[d] == 1
  {
    AllCounts(s.q.num, d);
    assert (multiset(s.free) + Descs(s.avail) + Descs(s.held) + Descs(s.done))[d] == All(s.q.num)[d];
  }

  /** A descriptor has a saved buffer exactly when it heads a chain in flight. */
  lemma SavedIffInFlight(s: Sys, h: nat)
    requires Inv(s) && h < s.q.num
    ensures s.q.buffers[h].Some? <==> HasHead(s.avail, h) || HasHead(s.held, h) || HasHead(s.done, h)
  {
    HeadSaved(s.q, s.pair, s.avail, h);
    HeadSaved(s.q, s.pair, s.held, h);
    HeadSaved(s.q, s.pair, s.done, h);
  }

  lemma HeadSaved(q: Virtq, pair: bool, cs: seq<Chain>, h: nat)
    requires AllOk(q, pair, cs) && h < |q.buffers|
    ensures HasHead(cs, h) ==> q.buffers[h].Some?
  {
    if HasHead(cs, h) {
      var i :| 0 <= i < |cs| && cs[i].descs != [] && cs[i].descs[0] == h;
      assert ChainOk(q, pair, cs[i]);
    }
  }

  /** No buffer is given back twice, and one that was offered and is not in flight has been given back. */
  lemma FreedExactlyOnce(s: Sys, x: nat)
    requires Inv(s)
    ensures multiset(s.freed)[x] <= 1
    ensures multiset(s.freed)[x] == 1 <==>
            x < s.offered && x !in Serials(s.avail) && x !in Serials(s.held) && x !in Serials(s.done)
  {
    AllCounts(s.offered, x);
    assert (multiset(s.freed) + Serials(s.avail) + Serials(s.held) + Serials(s.done))[x] == All(s.offered)[x];
  }

  /** What either side reads next is what the other side put there. */
  lemma NextSlots(s: Sys)
    requires Inv(s)
    ensures s.avail != [] ==> s.q.availRing[s.seenIdx % s.q.num] == s.avail[0].descs[0]
    ensures s.done != [] ==> s.q.usedRing[s.q.lastUsed % s.q.num] == s.done[0].descs[0]
  {
    SlotOfIndex(s.seen, s.q.num);
    SlotOfIndex(s.got, s.q.num);
    if s.avail != [] { WindowPop(s.q.availRing, s.seen, s.avail); }
    if s.done != [] { WindowPop(s.q.usedRing, s.got, s.done); }
  }

  /** Chains not yet given back to the driver. */
  function InFlight(s: Sys): nat { |s.avail| + |s.held| + |s.done| }

  lemma {:induction false} DescsCount(cs: seq<Chain>, pair: bool)
    requires forall i :: 0 <= i < |cs| ==> |cs[i].descs| == if pair then 2 else 1
    ensures |Descs(cs)| == if pair then 2 * |cs| else |cs|
  {
    if cs != [] {
      DescsCount(cs[1..], pair);
      assert |multiset(cs[0].descs)| == |cs[0].descs|;
    }
  }

  /** Descriptors that are not in flight. */
  function Unused(s: Sys): int { if s.pair then s.q.num - 2 * InFlight(s) else s.q.num - InFlight(s) }

  lemma ChainSizes(q: Virtq, pair: bool, cs: seq<Chain>)
    requires AllOk(q, pair, cs)
    ensures |Descs(cs)| == if pair then 2 * |cs| else |cs|
  {
    forall i | 0 <= i < |cs| ensures |cs[i].descs| == if pair then 2 else 1 { assert ChainOk(q, pair, cs[i]); }
    DescsCount(cs, pair);
  }

  lemma FreeCount(s: Sys)
    requires Inv(s)
    ensures s.q.numFree == Unused(s)
  {
    hide Descs, All, AllOk, Saved, Accounted, Rings;
    ChainSizes(s.q, s.pair, s.avail);
    ChainSizes(s.q, s.pair, s.held);
    ChainSizes(s.q, s.pair, s.done);
    AllCounts(s.q.num, 0);
    assert |multiset(s.free) + Descs(s.avail) + Descs(s.held) + Descs(s.done)| == s.q.num;
  }

  /** The device finds the submission behind all others: its chain of two (receive) or one (transmit) is headed by the slot
      just published, with this buffer saved under its head. */
  ghost predicate TakenUp(s: Sys, t: Sys) {
    && |t.avail| == |s.avail| + 1 && t.avail[..|s.avail|] == s.avail && t.freed == s.freed
    && var c := t.avail[|s.avail|];
    && c.serial == s.offered && |c.descs| == (if s.pair then 2 else 1)
    && c.descs[0] < |t.q.buffers| && t.q.buffers[c.descs[0]] == Some(s.offered)
    && |t.q.availRing| > 0 && t.q.availRing[s.q.availIdx % |t.q.availRing|] == c.descs[0]
    && t.q.availIdx == (s.q.availIdx + 1) % 65536
  }

  /** In every reachable state a submission is taken up exactly when a buffer is available and at least two descriptors are
      not in flight. Otherwise no chain is added, and a frame that is turned away is given back at once. */
  lemma OfferedExactly(s: Sys, ok: bool)
    requires Inv(s)
    ensures var t := Offer(s, ok);
            if ok && Unused(s) >= 2 then TakenUp(s, t)
            else t.q == s.q && t.avail == s.avail && t.freed == if s.pair then s.freed else s.freed + [s.offered]
  {
    FreeCount(s);
    if s.q.numFree >= 2 && ok {
      hide Partition, Saved, Accounted, Rings, AllOk, TakenUp;
      OfferTaken(s);
    }
  }

  /** The driver's loop goes on exactly while a chain has been completed and not reaped. Each round gives back the buffer of
      the oldest such chain, clears what was saved under its head and frees its descriptors, and no other. */
  lemma ReapedExactly(s: Sys)
    requires Inv(s)
    ensures s.q.lastUsed != s.q.usedIdx <==> s.done != []
    ensures s.done != [] ==>
              && ReadsDone(s)
              && var t, c := Reap(s), s.done[0];
              && t.done == s.done[1..] && t.avail == s.avail && t.held == s.held && t.freed == s.freed + [c.serial]
              && t.q.numFree == s.q.numFree + (if s.pair then 2 else 1)
              && c.descs != [] && c.descs[0] < |s.q.buffers| && t.q.buffers == s.q.buffers[c.descs[0] := None]
              && t.q.lastUsed == (s.q.lastUsed + 1) % 65536
  {
    IndicesDiffer(s);
    if s.done != [] {
      ReapKeeps(s);
      FreeCount(s);
      FreeCount(Reap(s));
      ReapClears(s);
    }
  }

  lemma ReapClears(s: Sys)
    requires Inv(s) && ReadsDone(s)
    ensures var q', h := ReapChain(s.q, s.pair), s.done[0].descs;
            h != [] && h[0] < |s.q.buffers| && q'.buffers == s.q.buffers[h[0] := None] && q'.lastUsed == (s.q.lastUsed + 1) % 65536
  {
    var ds := Finished(s.q, s.pair);
    PushAllRings(s.q.(buffers := s.q.buffers[ds[0] := None]), ds);
  }

  lemma OfferTaken(s: Sys)
    requires Shaped(s.q) && FreeChain(s.q, s.free) && s.q.numFree >= 2
    ensures TakenUp(s, Offer(s, true))
  {
    FreeFront(s.q, s.free);
    TakenSize(s.q, s.pair);
    Posted(s.q, s.pair, s.offered);
    hide PostChain, Taken, FreeChain, Shaped;
  }

  lemma Posted(q: Virtq, pair: bool, serial: nat)
    requires Shaped(q) && q.numFree >= 2 && q.freeHead < q.num && Pop(q).freeHead < q.num
    ensures var t, h := PostChain(q, pair, serial), Taken(q, pair)[0];
            && h < |t.buffers| && t.buffers[h] == Some(serial) && |t.availRing| == q.num
            && t.availRing[q.availIdx % q.num] == h && t.availIdx == (q.availIdx + 1) % 65536
  {
  }

  lemma {:induction false} PushAllNum(q: Virtq, ds: seq<nat>)
    requires Shaped(q) && Below(ds, q.num)
    ensures PushAll(q, ds).num == q.num
    decreases |ds|
  {
    if ds != [] { PushAllNum(Push(q, ds[0]), ds[1..]); }
  }

  lemma OfferNum(s: Sys, ok: bool)
    requires Shaped(s.q) && FreeChain(s.q, s.free)
    ensures Offer(s, ok).q.num == s.q.num
  {
    hide FreeChain, Shaped;
    if s.q.numFree >= 2 { FreeFront(s.q, s.free); }
  }

  lemma ReapNum(s: Sys)
    requires ReadsDone(s)
    ensures Reap(s).q.num == s.q.num
  {
    var chain := Finished(s.q, s.pair);
    PushAllNum(s.q.(buffers := s.q.buffers[chain[0] := None]), chain);
  }

  lemma StepNum(s: Sys, e: Event)
    ensures Step(s, e).q.num == s.q.num
  {
    hide Offer, Reap;
    if Ready(s, e) {
      if e.Submit? { OfferNum(s, e.ok); }
      if e.Consume? { ReapNum(s); }
    }
  }

  lemma {:induction false} RunNum(s: Sys, es: seq<Event>)
    ensures Run(s, es).q.num == s.q.num
    decreases |es|
  {
    hide Step;
    if es != [] {
      StepNum(s, es[0]);
      RunNum(Step(s, es[0]), es[1..]);
    }
  }

  /** Descriptor d is owned once and has a saved buffer exactly when it heads a chain in flight; buffer x has
      been given back at most once, and exactly once if it was offered and is not in flight. */
  ghost predicate Orderly(s: Sys, d: nat, x: nat) {
    && d < |s.q.buffers|
    && multiset(s.free)[d] + Descs(s.avail)[d] + Descs(s.held)[d] + Descs(s.done)[d] == 1
    && (s.q.buffers[d].Some? <==> HasHead(s.avail, d) || HasHead(s.held, d) || HasHead(s.done, d))
    && multiset(s.freed)[x] <= 1
    && (multiset(s.freed)[x] == 1 <==>
          x < s.offered && x !in Serials(s.avail) && x !in Serials(s.held) && x !in Serials(s.done))
  }

  lemma InvOrderly(s: Sys, d: nat, x: nat)
    requires Inv(s) && d < s.q.num
    ensures Orderly(s, d, x)
  {
    assert d < |s.q.buffers|;
    hide Inv, Descs, Serials, HasHead;
    OwnedOnce(s, d);
    SavedIffInFlight(s, d);
    FreedExactlyOnce(s, x);
  }

  /** In every interleaving of driver and device from virtq_init on, across every wrap of the 16-bit
      indices, the invariant holds, and with it every descriptor and every buffer is in order. */
  lemma Safety(num: nat, pair: bool, es: seq<Event>, d: nat, x: nat)
    requires 0 < num <= 256 && 65536 % num == 0 && d < num
    requires Runs(Start(num, pair), es)
    ensures Inv(Run(Start(num, pair), es)) && Orderly(Run(Start(num, pair), es), d, x)
  {
    hide Inv, Runs, Run, Orderly;
    InitialInv(num, pair);
    RunKeeps(Start(num, pair), es);
    RunNum(Start(num, pair), es);
    InvOrderly(Run(Start(num, pair), es), d, x);
  }
}
