/** One split virtqueue shared by the driver and an honest device. The driver owns the free chain
    and publishes descriptor chains in the available ring; the device takes them in ring order,
    completes them in any order, and publishes them in the used ring. */
module VirtqSpec {
  import opened Arith
  import opened Common

  const END: nat := 0xFFFF        // end mark of the free chain
  const INDICES: nat := 65536     // ring indices are 16 bits wide

  /** What driver and device share, plus the driver's own fields. Buffers are named by the
      serial number of their submission. */
  datatype Virtq = Virtq(
    num: nat, freeHead: nat, numFree: nat, lastUsed: nat,
    next: seq<nat>, buffers: seq<Option<nat>>,
    availRing: seq<nat>, availIdx: nat, usedRing: seq<nat>, usedIdx: nat)

  /** Sizes fit, and every number that is used as a descriptor index is one. */
  predicate Shaped(q: Virtq) {
    && 0 < q.num && |q.next| == |q.buffers| == |q.availRing| == |q.usedRing| == q.num
    && q.lastUsed < INDICES && q.availIdx < INDICES && q.usedIdx < INDICES
  }

  // ----- the driver's functions

  /** virtq_alloc_desc when num_free > 0 */
  function Pop(q: Virtq): Virtq
    requires Shaped(q) && q.freeHead < q.num && q.numFree > 0
  {
    q.(freeHead := q.next[q.freeHead], numFree := q.numFree - 1)
  }

  /** virtq_free_desc */
  function Push(q: Virtq, d: nat): Virtq
    requires Shaped(q) && d < q.num
  {
    q.(next := q.next[d := q.freeHead], freeHead := d, numFree := q.numFree + 1)
  }

  /** Save the buffer under its head and publish the head. */
  function Publish(q: Virtq, head: nat, serial: nat): Virtq
    requires Shaped(q) && head < q.num
  {
    q.(buffers := q.buffers[head := Some(serial)],
       availRing := q.availRing[q.availIdx % q.num := head],
       availIdx := (q.availIdx + 1) % INDICES)
  }

  predicate Below(ds: seq<nat>, num: nat) { forall k :: 0 <= k < |ds| ==> ds[k] < num }

  /** Descriptor setup: header then data for a receive buffer, one descriptor for a frame. */
  function Link(q: Virtq, chain: seq<nat>): Virtq
    requires Shaped(q) && 1 <= |chain| <= 2 && Below(chain, q.num)
  {
    if |chain| == 2 then q.(next := q.next[chain[0] := chain[1]][chain[1] := 0])
    else q.(next := q.next[chain[0] := 0])
  }

  /** Give the descriptors of a chain back, head first. */
  function PushAll(q: Virtq, chain: seq<nat>): Virtq
    requires Shaped(q) && Below(chain, q.num)
    decreases |chain|
  {
    if chain == [] then q else PushAll(Push(q, chain[0]), chain[1..])
  }

  // ----- bookkeeping

  /** A chain in flight: its descriptors, head first, and the submission it carries. */
  datatype Chain = Chain(descs: seq<nat>, serial: nat)

  function Descs(cs: seq<Chain>): multiset<nat> {
    if cs == [] then multiset{} else multiset(cs[0].descs) + Descs(cs[1..])
  }

  function Serials(cs: seq<Chain>): multiset<nat> {
    if cs == [] then multiset{} else multiset{cs[0].serial} + Serials(cs[1..])
  }

  /** 0, 1, ..., n-1, each once. */
  function All(n: nat): multiset<nat> {
    if n == 0 then multiset{} else All(n - 1) + multiset{n - 1}
  }

  lemma {:induction false} AllCounts(n: nat, d: nat)
    ensures All(n)[d] == if d < n then 1 else 0
    ensures |All(n)| == n
  {
    if n > 0 { AllCounts(n - 1, d); }
  }

  lemma {:induction false} DescsConcat(a: seq<Chain>, b: seq<Chain>)
    ensures Descs(a + b) == Descs(a) + Descs(b)
  {
    if a == [] {
      assert a + b == b;
    } else {
      assert (a + b)[1..] == a[1..] + b && (a + b)[0] == a[0];
      calc {
        Descs(a + b);
        multiset(a[0].descs) + Descs(a[1..] + b);
        { DescsConcat(a[1..], b); }
        multiset(a[0].descs) + Descs(a[1..]) + Descs(b);
      }
    }
  }

  lemma {:induction false} SerialsConcat(a: seq<Chain>, b: seq<Chain>)
    ensures Serials(a + b) == Serials(a) + Serials(b)
  {
    if a == [] {
      assert a + b == b;
    } else {
      assert (a + b)[1..] == a[1..] + b && (a + b)[0] == a[0];
      calc {
        Serials(a + b);
        multiset{a[0].serial} + Serials(a[1..] + b);
        { SerialsConcat(a[1..], b); }
        multiset{a[0].serial} + Serials(a[1..]) + Serials(b);
      }
    }
  }

  lemma One(c: Chain)
    ensures Descs([c]) == multiset(c.descs) && Serials([c]) == multiset{c.serial}
  {
    assert [c][1..] == [];
  }

  function Without(cs: seq<Chain>, i: nat): seq<Chain>
    requires i < |cs|
  {
    cs[..i] + cs[i + 1..]
  }

  lemma DescsWithout(cs: seq<Chain>, i: nat)
    requires i < |cs|
    ensures Descs(cs) == Descs(Without(cs, i)) + multiset(cs[i].descs)
  {
    calc {
      Descs(cs);
      { assert cs == cs[..i] + cs[i..]; DescsConcat(cs[..i], cs[i..]); }
      Descs(cs[..i]) + Descs(cs[i..]);
      { assert cs[i..][1..] == cs[i + 1..]; }
      Descs(cs[..i]) + Descs(cs[i + 1..]) + multiset(cs[i].descs);
      { DescsConcat(cs[..i], cs[i + 1..]); }
      Descs(Without(cs, i)) + multiset(cs[i].descs);
    }
  }

  lemma SerialsWithout(cs: seq<Chain>, i: nat)
    requires i < |cs|
    ensures Serials(cs) == Serials(Without(cs, i)) + multiset{cs[i].serial}
  {
    calc {
      Serials(cs);
      { assert cs == cs[..i] + cs[i..]; SerialsConcat(cs[..i], cs[i..]); }
      Serials(cs[..i]) + Serials(cs[i..]);
      { assert cs[i..][1..] == cs[i + 1..]; }
      Serials(cs[..i]) + Serials(cs[i + 1..]) + multiset{cs[i].serial};
      { SerialsConcat(cs[..i], cs[i + 1..]); }
      Serials(Without(cs, i)) + multiset{cs[i].serial};
    }
  }

  lemma {:induction false} DescsMember(cs: seq<Chain>, i: nat, d: nat)
    requires i < |cs| && d in cs[i].descs
    ensures d in Descs(cs)
  {
    if i > 0 { DescsMember(cs[1..], i - 1, d); }
  }

  lemma {:induction false} DescsSize(cs: seq<Chain>)
    requires forall i :: 0 <= i < |cs| ==> cs[i].descs != []
    ensures |Descs(cs)| >= |cs|
  {
    if cs != [] {
      DescsSize(cs[1..]);
      assert cs[0].descs != [];
    }
  }

  /** The free chain threads exactly the descriptors of free, in order. */
  ghost predicate FreeChain(q: Virtq, free: seq<nat>) {
    && q.freeHead == At(free, 0) && q.numFree == |free|
    && (forall k :: 0 <= k < |free| ==> free[k] < |q.next|)
    && (forall k :: 0 <= k < |free| ==> q.next[free[k]] == At(free, k + 1))
  }

  function At(free: seq<nat>, k: nat): nat { if k < |free| then free[k] else END }

  lemma PopChain(q: Virtq, free: seq<nat>)
    requires Shaped(q) && FreeChain(q, free) && free != []
    ensures q.freeHead == free[0] < q.num && FreeChain(Pop(q), free[1..])
  {
    assert q.next[free[0]] == At(free, 1);
    forall k | 0 <= k < |free| - 1 ensures q.next[free[1..][k]] == At(free[1..], k + 1) {
      assert q.next[free[k + 1]] == At(free, k + 2);
    }
  }

  lemma PushChain(q: Virtq, free: seq<nat>, d: nat)
    requires Shaped(q) && FreeChain(q, free) && d < q.num && d !in free
    ensures FreeChain(Push(q, d), [d] + free)
  {
    var q', fs := Push(q, d), [d] + free;
    forall k | 0 <= k < |fs| ensures q'.next[fs[k]] == At(fs, k + 1) {
      if k > 0 { assert q.next[free[k - 1]] == At(free, k) && fs[k] == free[k - 1] && fs[k] in free; }
    }
  }
}
