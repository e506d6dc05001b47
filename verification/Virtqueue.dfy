/** The driver's virtqueue object over its descriptor, available and used arrays. */
module Virtqueue {
  import opened Arith
  import opened Common
  import opened VirtqSpec
  import S = VirtqSystem

  datatype Status = Ok | NoMem

  lemma PushOne(q: Virtq, a: nat)
    requires Shaped(q) && a < q.num && Below([a], q.num)
    ensures PushAll(q, [a]) == Push(q, a)
  {
    assert [a][1..] == [];
  }

  lemma PushTwo(q: Virtq, a: nat, b: nat)
    requires Shaped(q) && a < q.num && b < q.num && Below([a, b], q.num)
    ensures PushAll(q, [a, b]) == Push(Push(q, a), b)
  {
    assert [a, b][1..] == [b];
    PushOne(Push(q, a), b);
  }

  /** s' is s after the driver has consumed |freed| finished transmit chains. */
  ghost predicate Drained(s: S.Sys, s': S.Sys, freed: seq<nat>) {
    && s'.avail == s.avail && s'.held == s.held && s'.freed == s.freed + freed
    && |freed| <= |s.done| && s'.done == s.done[|freed|..]
    && forall k :: 0 <= k < |freed| ==> freed[k] == s.done[k].serial
  }

  lemma DrainedNext(s: S.Sys, s1: S.Sys, s2: S.Sys, freed: seq<nat>, zb: nat)
    requires Drained(s, s1, freed) && s1.done != [] && zb == s1.done[0].serial
    requires s2.avail == s1.avail && s2.held == s1.held && s2.done == s1.done[1..] && s2.freed == s1.freed + [zb]
    ensures Drained(s, s2, freed + [zb])
  {
  }

  lemma DrainedNone(s: S.Sys)
    ensures Drained(s, s, [])
  {
  }

  lemma DrainedAll(s: S.Sys, s': S.Sys, freed: seq<nat>)
    requires Drained(s, s', freed) && s'.done == []
    ensures s'.avail == s.avail && s'.held == s.held && s'.freed == s.freed + freed && |freed| == |s.done|
    ensures forall k :: 0 <= k < |freed| ==> freed[k] == s.done[k].serial
  {
  }

  class Queue {
    var num: nat
    var freeHead: nat
    var numFree: nat
    var lastUsed: nat
    var next: array<nat>             // desc[].next
    var buffers: array<Option<nat>>  // zbuf saved under each head, by submission number
    var availRing: array<nat>
    var availIdx: nat
    var usedRing: array<nat>
    var usedIdx: nat

    ghost predicate Valid()
      reads this, next, buffers, availRing, usedRing
    {
      next != availRing && next != usedRing && availRing != usedRing && Shaped(Abs())
    }

    ghost function Abs(): Virtq
      reads this, next, buffers, availRing, usedRing
    {
      Virtq(num, freeHead, numFree, lastUsed, next[..], buffers[..], availRing[..], availIdx, usedRing[..], usedIdx)
    }

    ghost function Repr(): set<object>
      reads this
    {
      {this, next, buffers, availRing, usedRing}
    }

    /** virtq_init, for the ring size max the device offers; a larger ring is cut to 256. */
    constructor (max: nat)
      requires max > 0
      ensures Valid() && fresh(Repr()) && Abs() == S.Initial(if max > 256 then 256 else max)
    {
      var n := if max > 256 then 256 else max;
      num, freeHead, numFree, lastUsed, availIdx, usedIdx := n, 0, n, 0, 0, 0;
      next := new nat[n](_ => 0);
      buffers := new Option<nat>[n](_ => None);
      availRing := new nat[n](_ => 0);
      usedRing := new nat[n](_ => 0);
      new;
      ChainAll(next);
      assert next[..] == S.Initial(n).next && availRing[..] == S.Initial(n).availRing;
      assert buffers[..] == S.Initial(n).buffers && usedRing[..] == S.Initial(n).usedRing;
    }

    /** Initialize free list: each descriptor leads to the one behind it. */
    static method ChainAll(next: array<nat>)
      requires next.Length > 0
      modifies next
      ensures forall k :: 0 <= k < next.Length ==> next[k] == if k + 1 < next.Length then k + 1 else END
    {
      var n, i := next.Length, 0;
      while i < n - 1
        invariant i <= n - 1 && forall k :: 0 <= k < i ==> next[k] == k + 1
      {
        next[i] := i + 1;
        i := i + 1;
      }
      next[n - 1] := END;
    }

    method AllocDesc() returns (idx: int)
      requires Valid() && (numFree > 0 ==> freeHead < num)
      modifies this`freeHead, this`numFree
      ensures Valid()
      ensures if old(numFree) == 0 then idx == -1 && Abs() == old(Abs()) else idx == old(freeHead) && Abs() == Pop(old(Abs()))
    {
      if numFree == 0 { return -1; }
      idx := freeHead;
      freeHead := next[idx];
      numFree := numFree - 1;
    }

    method FreeDesc(idx: nat)
      requires Valid() && idx < num
      modifies this`freeHead, this`numFree, next
      ensures Valid() && Abs() == Push(old(Abs()), idx)
    {
      next[idx] := freeHead;
      freeHead := idx;
      numFree := numFree + 1;
    }

    /** Save buffer reference, add to available ring. */
    method Publish(head: nat, serial: nat)
      requires Valid() && head < num
      modifies this`availIdx, buffers, availRing
      ensures Valid() && Abs() == VirtqSpec.Publish(old(Abs()), head, serial)
    {
      buffers[head] := Some(serial);
      availRing[availIdx % num] := head;
      availIdx := (availIdx + 1) % INDICES;
    }

    /** eth_rx_add_buffer; zbOk says whether the buffer pool had one. */
    method RxAddBuffer(serial: nat, zbOk: bool) returns (st: Status)
      requires Valid() && (numFree >= 2 ==> freeHead < num && next[freeHead] < num)
      modifies this`freeHead, this`numFree, this`availIdx, next, buffers, availRing
      ensures Valid()
      ensures st == Ok <==> old(numFree) >= 2 && zbOk
      ensures Abs() == if st == Ok then S.PostChain(old(Abs()), true, serial) else old(Abs())
    {
      if numFree < 2 || !zbOk { return NoMem; }
      var hdr := AllocDesc();
      var data := AllocDesc();
      next[hdr] := data;
      next[data] := 0;
      Publish(hdr, serial);
      return Ok;
    }

    /** eth_send of a non-empty frame; room says whether the virtio header could be pushed.
        A frame that is turned away is freed by the caller of this section. */
    method TxSend(serial: nat, room: bool) returns (st: Status)
      requires Valid() && (numFree >= 2 ==> freeHead < num && next[freeHead] < num)
      modifies this`freeHead, this`numFree, this`availIdx, next, buffers, availRing
      ensures Valid()
      ensures st == Ok <==> old(numFree) >= 2 && room
      ensures Abs() == if st == Ok then S.PostChain(old(Abs()), false, serial) else old(Abs())
    {
      if numFree < 2 || !room { return NoMem; }
      var idx := AllocDesc();
      next[idx] := 0;
      Publish(idx, serial);
      return Ok;
    }

    /** One iteration of eth_rx_process up to the point where the buffer is handed on. */
    method RxTake() returns (zb: Option<nat>)
      requires Valid() && usedRing[lastUsed % num] < num && Below(S.Finished(Abs(), true), num)
      modifies this`freeHead, this`numFree, this`lastUsed, next, buffers
      ensures Valid() && Abs() == S.ReapChain(old(Abs()), true)
      ensures zb == old(buffers[usedRing[lastUsed % num]])
    {
      var id := usedRing[lastUsed % num];
      zb := buffers[id];
      buffers[id] := None;
      var nextIdx := next[id];
      assert S.Finished(old(Abs()), true)[1] == nextIdx;
      PushTwo(Abs(), id, nextIdx);
      FreeDesc(id);
      FreeDesc(nextIdx);
      lastUsed := (lastUsed + 1) % INDICES;
    }

    /** One iteration of eth_tx_process. */
    method TxTake() returns (zb: Option<nat>)
      requires Valid() && usedRing[lastUsed % num] < num
      modifies this`freeHead, this`numFree, this`lastUsed, next, buffers
      ensures Valid() && Abs() == S.ReapChain(old(Abs()), false)
      ensures zb == old(buffers[usedRing[lastUsed % num]])
    {
      var id := usedRing[lastUsed % num];
      zb := buffers[id];
      buffers[id] := None;
      PushOne(Abs(), id);
      FreeDesc(id);
      lastUsed := (lastUsed + 1) % INDICES;
    }

    /** eth_tx_process with the device quiet: frees every finished buffer once, in ring order. */
    method TxProcess(ghost s: S.Sys) returns (freed: seq<nat>, ghost s': S.Sys)
      requires Valid() && S.Inv(s) && Abs() == s.q && !s.pair
      modifies this`freeHead, this`numFree, this`lastUsed, next, buffers
      ensures Valid() && S.Inv(s') && Abs() == s'.q && s'.done == [] && s'.avail == s.avail && s'.held == s.held
      ensures s'.freed == s.freed + freed && |freed| == |s.done|
      ensures forall k :: 0 <= k < |freed| ==> freed[k] == s.done[k].serial
    {
      hide S.Inv, Shaped, Drained;
      freed, s' := [], s;
      DrainedNone(s);
      S.IndicesDiffer(s');
      while lastUsed != usedIdx
        invariant Valid() && S.Inv(s') && Abs() == s'.q && !s'.pair
        invariant (lastUsed != usedIdx <==> s'.done != []) && Drained(s, s', freed)
        decreases |s'.done|
      {
        ghost var before, out := s', freed;
        var zb;
        zb, s' := TxStep(s');
        freed := freed + [zb];
        DrainedNext(s, before, s', out, zb);
      }
      DrainedAll(s, s', freed);
    }

    method TxStep(ghost s: S.Sys) returns (zb: nat, ghost s': S.Sys)
      requires Valid() && S.Inv(s) && Abs() == s.q && !s.pair && s.done != []
      modifies this`freeHead, this`numFree, this`lastUsed, next, buffers
      ensures Valid() && S.Inv(s') && Abs() == s'.q && !s'.pair
      ensures s'.avail == s.avail && s'.held == s.held && s'.done == s.done[1..]
      ensures zb == s.done[0].serial && s'.freed == s.freed + [zb]
      ensures lastUsed != usedIdx <==> s'.done != []
    {
      S.ReapKeeps(s);
      assert S.ChainOk(s.q, false, s.done[0]);
      var b := TxTake();
      zb := b.value;
      s' := S.Reap(s);
      S.IndicesDiffer(s');
    }
  }
}
