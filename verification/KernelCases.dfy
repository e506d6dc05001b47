/** Where the shared links break: a caller that passes again while it is parked, and a boosted owner in a ready ring. */
module KernelCases {
  import opened Common
  import opened KernelLinks
  import opened SchedSpec
  import M = MutexSpec

  // ----- what a second pass while still parked does

  /** Adding a task keeps the wait list a list exactly when the task was not in it. */
  lemma ListStaysExactly<T>(m: Tasks<T>, head: Option<T>, ts: seq<T>, t: T)
    requires ListOf(m, head, ts) && t in m
    ensures var r := WaitAdd(m, head, t); (exists l :: ListOf(r.0, r.1, l)) <==> t !in ts
  {
    var r := WaitAdd(m, head, t);
    if t !in ts {
      AddToList(m, head, ts, t);
    } else {
      var i :| 0 <= i < |ts| && ts[i] == t;
      forall l ensures !ListOf(r.0, r.1, l) {
        if ListOf(r.0, r.1, l) { Loops(m, head, ts, i, l, 0); }
      }
    }
  }

  /** From t on the links run through the tasks that were ahead of it, and back to t. */
  lemma {:induction false} Loops<T>(m: Tasks<T>, head: Option<T>, ts: seq<T>, i: nat, l: seq<T>, n: nat)
    requires ListOf(m, head, ts) && i < |ts| && ts[i] in m && n <= i
    requires var r := WaitAdd(m, head, ts[i]); ListOf(r.0, r.1, l)
    requires n < |l| && l[n] == (if n == 0 then ts[i] else ts[n - 1])
    ensures false
    decreases i - n
  {
    var r := WaitAdd(m, head, ts[i]);
    assert ListAt(r.0, l, n) && ListAt(m, ts, n) && ListAt(m, ts, 0);
    if n > 0 { assert ListAt(m, ts, n - 1); }
    assert r.0[l[n]].next == Some(ts[n]);
    if n < i { Loops(m, head, ts, i, l, n + 1); }
  }

  /** Following next only. */
  ghost predicate Reaches<T>(m: Tasks<T>, head: Option<T>, ts: seq<T>) {
    Distinct(ts) && head == Nth(ts, 0) && forall i :: 0 <= i < |ts| ==> ts[i] in m && m[ts[i]].next == Nth(ts, i + 1)
  }

  /** A pass by the i-th parked task, and the wake-up of it that follows, leave it in the list and drop exactly the
      tasks behind it: nobody woke them, and nothing leads to them. */
  lemma SecondPassDrops<T>(m: Tasks<T>, head: Option<T>, ts: seq<T>, i: nat)
    requires ListOf(m, head, ts) && i < |ts|
    ensures ts[i] in m
    ensures var r := WaitAdd(m, head, ts[i]); var p := RemoveFirst(r.0, r.1);
            r.1 == Some(ts[i]) && (i == 0 ==> r.0[ts[0]].next == r.0[ts[0]].prev == Some(ts[0])) && Reaches(p.0, p.1, ts[..i + 1])
  {
    assert ListAt(m, ts, i) && ListAt(m, ts, 0);
    var t, r := ts[i], WaitAdd(m, head, ts[i]);
    var p := RemoveFirst(r.0, r.1);
    var l := ts[..i + 1];
    forall n | 0 <= n < |l| ensures l[n] in p.0 && p.0[l[n]].next == Nth(l, n + 1) {
      assert ListAt(m, ts, n);
    }
  }

  datatype ListOp<T> = Add(t: T) | Remove

  function ListDo<T(==)>(m: Tasks<T>, head: Option<T>, op: ListOp<T>): (Tasks<T>, Option<T>) {
    if op.Add? then (if op.t in m then WaitAdd(m, head, op.t) else (m, head)) else RemoveFirst(m, head)
  }

  /** Who is woken, in order. */
  function Woken<T(==)>(m: Tasks<T>, head: Option<T>, ops: seq<ListOp<T>>): seq<T>
    decreases |ops|
  {
    if ops == [] then []
    else
      var r := ListDo(m, head, ops[0]);
      (if ops[0].Remove? && head.Some? then [head.value] else []) + Woken(r.0, r.1, ops[1..])
  }

  /** Neither the head nor any task outside lost leads into lost. */
  ghost predicate CutOff<T>(m: Tasks<T>, head: Option<T>, lost: set<T>) {
    && (head.Some? ==> head.value !in lost)
    && forall t :: t in m && t !in lost && m[t].next.Some? ==> m[t].next.value !in lost
  }

  /** Tasks that nothing leads to are never woken, by however many posts, unless one of them makes a pass itself. */
  lemma {:induction false} LostForGood<T>(m: Tasks<T>, head: Option<T>, ops: seq<ListOp<T>>, lost: set<T>)
    requires CutOff(m, head, lost) && forall op :: op in ops && op.Add? ==> op.t !in lost
    ensures forall t :: t in lost ==> t !in Woken(m, head, ops)
    decreases |ops|
  {
    if ops != [] {
      var r := ListDo(m, head, ops[0]);
      assert CutOff(r.0, r.1, lost);
      LostForGood(r.0, r.1, ops[1..], lost);
    }
  }

  /** So the tasks behind a caller that passes again while it is parked are never woken after that. */
  lemma StrandedForGood<T>(m: Tasks<T>, head: Option<T>, ts: seq<T>, i: nat, ops: seq<ListOp<T>>)
    requires ListOf(m, head, ts) && i < |ts| && ts[i] in m
    requires forall t :: t in m && t !in ts && m[t].next.Some? ==> m[t].next.value !in ts
    requires forall op :: op in ops && op.Add? ==> op.t !in ts[i + 1..]
    ensures var r := WaitAdd(m, head, ts[i]); var p := RemoveFirst(r.0, r.1);
            forall t :: t in ts[i + 1..] ==> t !in Woken(p.0, p.1, ops)
  {
    var r := WaitAdd(m, head, ts[i]);
    var p := RemoveFirst(r.0, r.1);
    Behind(m, head, ts, i);
    LostForGood(p.0, p.1, ops, Members(ts[i + 1..]));
  }

  lemma Behind<T>(m: Tasks<T>, head: Option<T>, ts: seq<T>, i: nat)
    requires ListOf(m, head, ts) && i < |ts| && ts[i] in m
    requires forall t :: t in m && t !in ts && m[t].next.Some? ==> m[t].next.value !in ts
    ensures var r := WaitAdd(m, head, ts[i]); var p := RemoveFirst(r.0, r.1);
            CutOff(p.0, p.1, Members(ts[i + 1..]))
  {
    var r := WaitAdd(m, head, ts[i]);
    var p := RemoveFirst(r.0, r.1);
    var lost := ts[i + 1..];
    assert ListAt(m, ts, 0);
    assert forall n :: 0 <= n <= i ==> ts[n] !in lost;
    assert forall n :: i < n < |ts| ==> ts[n] == lost[n - i - 1];
    forall t | t in p.0 && t !in lost && p.0[t].next.Some? ensures p.0[t].next.value !in lost {
      if t in ts {
        var n :| 0 <= n < |ts| && ts[n] == t;
        assert n <= i;
        assert ListAt(m, ts, n);
      } else {
        assert forall x :: x in lost ==> x in ts;
      }
    }
  }

  /** A task that slept but kept the processor heads its ring; when the tick links it in again, the others drop out of
      the ring. */
  lemma ReaddDropsOthers<T>(m: Tasks<T>, head: Option<T>, q: seq<T>)
    requires RingOf(m, head, q) && q != []
    ensures q[0] in m && ReadyAdd(m, head, q[0]).Some?
    ensures var r := ReadyAdd(m, head, q[0]).value; RingOf(r.0, r.1, [q[0]]) && (RingOf(r.0, r.1, q) <==> |q| == 1)
  {
    assert RingAt(m, q, 0) && RingAt(m, q, |q| - 1);
    var r := ReadyAdd(m, head, q[0]).value;
    if |q| > 1 {
      assert RingAt(m, q, 1);
      assert RingOf(r.0, r.1, q) ==> RingAt(r.0, q, 0);
    } else {
      assert q == [q[0]];
    }
  }

  // ----- a lost wake-up

  ghost predicate Goes<T>(k: Kernel<T>, a: Act<T>, k': Kernel<T>) { Do(k, a) == Some(k') }

  /** acts leads through the states ks. */
  ghost predicate Leads<T>(ks: seq<Kernel<T>>, acts: seq<Act<T>>) {
    |ks| == |acts| + 1 && forall i :: 0 <= i < |acts| ==> Goes(ks[i], acts[i], ks[i + 1])
  }

  lemma {:induction false} LeadsThere<T>(ks: seq<Kernel<T>>, acts: seq<Act<T>>)
    requires Leads(ks, acts)
    ensures DoAll(ks[0], acts) == Some(ks[|acts|])
    decreases |acts|
  {
    hide Do;
    if acts != [] {
      assert Goes(ks[0], acts[0], ks[1]);
      assert forall i :: 0 <= i < |acts[1..]| ==> acts[1..][i] == acts[i + 1] && ks[1..][i] == ks[i + 1];
      LeadsThere(ks[1..], acts[1..]);
    }
  }

  lemma {:induction false} TopAt<T>(ready: seq<Option<T>>, h: nat)
    requires h < |ready| && ready[h].Some? && forall p :: h < p < |ready| ==> ready[p].None?
    ensures Top(ready) == h
  {
  }

  /** 16 lists, all empty but list 1, which starts with head. */
  function Lists(head: Option<nat>): (r: seq<Option<nat>>)
    ensures |r| == 16 && r[1] == head && forall p :: 0 <= p < 16 && p != 1 ==> r[p].None?
  {
    seq(16, p => if p == 1 then head else None)
  }

  lemma ListsChange(head: Option<nat>, head': Option<nat>)
    ensures Lists(head)[1 := head'] == Lists(head') && Lists(None) == seq(16, _ => None)
    ensures head.Some? ==> Top(Lists(head)) == 1
  {
    if head.Some? { TopAt(Lists(head), 1); }
  }

  // Tasks 0 and 1 have priority 1 and wait for the same semaphore, whose count is 0.
  const PEERS: map<nat, nat> := map[0 := 1, 1 := 1]
  const LOSING: seq<Act<nat>> := [Links(0), Links(1), Begin, Passes, Yields, Passes, Passes, Posts, Posts, Passes]

  const IDLE: Task<nat> := Task(1, false, None, None)
  const RUNS: Task<nat> := Task(1, true, None, None)
  function Between(next: nat, prev: nat): Task<nat> { Task(1, false, Some(next), Some(prev)) }

  const K0 := Kernel(map[0 := IDLE, 1 := IDLE], Lists(None), None, None, 0)
  const K1 := Kernel(map[0 := Between(0, 0), 1 := IDLE], Lists(Some(0)), None, None, 0)
  const K2 := Kernel(map[0 := Between(1, 1), 1 := Between(0, 0)], Lists(Some(0)), None, None, 0)
  const K3 := Kernel(map[0 := RUNS, 1 := Between(1, 1)], Lists(Some(1)), Some(0), None, 0)
  const K4 := Kernel(map[0 := IDLE, 1 := RUNS], Lists(None), Some(1), Some(0), 0)
  const K5 := Kernel(map[0 := IDLE, 1 := Between(1, 1)], Lists(Some(1)), Some(1), Some(0), 0)
  const K6 := Kernel(map[0 := Task(1, false, None, Some(1)), 1 := Task(1, false, Some(0), None)], Lists(Some(1)), Some(1), Some(1), 0)
  const K7 := Kernel(map[0 := Task(1, false, None, Some(1)), 1 := Between(1, 1)], Lists(Some(1)), Some(1), Some(1), 0)
  const K8 := Kernel(map[0 := Task(1, false, None, Some(1)), 1 := IDLE], Lists(Some(1)), Some(1), Some(1), 1)
  const K9 := Kernel(map[0 := Task(1, false, None, Some(1)), 1 := IDLE], Lists(Some(1)), Some(1), None, 2)
  const K10 := Kernel(map[0 := Task(1, false, None, Some(1)), 1 := IDLE], Lists(Some(1)), Some(1), None, 1)

  lemma LosingStarts()
    ensures Boot(PEERS, 16, 0) == K0 && Goes(K0, LOSING[0], K1) && Goes(K1, LOSING[1], K2)
  {
    ListsChange(None, Some(0));
    ListsChange(Some(0), Some(0));
    assert Boot(PEERS, 16, 0).tasks == K0.tasks;
    assert Link(K0, 0).value.tasks == K1.tasks && Link(K1, 1).value.tasks == K2.tasks;
  }

  lemma LosingBegins()
    ensures Goes(K2, LOSING[2], K3)
  {
    ListsChange(Some(0), Some(1));
    assert Schedule(K2).value.tasks == K3.tasks && Schedule(K2).value.ready == K3.ready;
  }

  lemma LosingParks()
    ensures Goes(K3, LOSING[3], K4)
  {
    ListsChange(Some(1), None);
    var k := Kernel(map[0 := IDLE, 1 := Between(1, 1)], Lists(Some(1)), Some(0), Some(0), 0);
    assert Parked(K3).tasks == k.tasks;
    assert Schedule(k).value.tasks == K4.tasks && Schedule(k).value.ready == K4.ready;
  }

  lemma LosingYields()
    ensures Goes(K4, LOSING[4], K5)
  {
    ListsChange(None, Some(1));
    ListsChange(Some(1), Some(1));
    assert Link(K4, 1).value.tasks == K5.tasks;
  }

  lemma LosingSpins()
    ensures Goes(K5, LOSING[5], K6) && Goes(K6, LOSING[6], K7)
  {
    ListsChange(Some(1), Some(1));
    assert Parked(K5).tasks == K6.tasks;
    assert Parked(K6).tasks == K7.tasks;
  }

  lemma LosingPosts()
    ensures Goes(K7, LOSING[7], K8) && Goes(K8, LOSING[8], K9) && Goes(K9, LOSING[9], K10)
  {
    assert Posted(K7).tasks == K8.tasks && Posted(K8).tasks == K9.tasks;
  }

  /** Task 0 parks; task 1, by then alone, ends a time slice and so stays in its ring, parks, keeps the processor and parks
      again. Two posts both wake task 1, which takes one token: a token is left, nobody else was woken, and no number
      of posts will wake task 0. */
  lemma LostWakeUp(ops: seq<ListOp<nat>>)
    requires forall op :: op in ops && op.Add? ==> op.t != 0
    ensures DoAll(Boot(PEERS, 16, 0), LOSING) == Some(K10) && K10.count == 1 && K10.current == Some(1)
    ensures Goes(K7, Posts, K8) && Goes(K8, Posts, K9) && K7.wait == K8.wait == Some(1)
    ensures 0 !in Woken(K10.tasks, K10.wait, ops)
  {
    hide Goes, Woken, DoAll, Boot, Lists;
    LosingStarts();
    LosingBegins();
    LosingParks();
    LosingYields();
    LosingSpins();
    LosingPosts();
    LeadsThere([K0, K1, K2, K3, K4, K5, K6, K7, K8, K9, K10], LOSING);
    LostForGood(K10.tasks, K10.wait, ops, {0});
  }

  // ----- a boost while the owner is ready

  /** The owner's priority field is raised to the caller's. */
  function Raised<T(==)>(k: Kernel<T>, owner: T): Kernel<T> {
    if k.current.None? || k.current.value !in k.tasks || owner !in k.tasks then k
    else if k.tasks[k.current.value].prio <= k.tasks[owner].prio then k
    else k.(tasks := k.tasks[owner := k.tasks[owner].(prio := k.tasks[k.current.value].prio)])
  }

  /** One pass of the loop in mutex_lock by the current task while owner holds the mutex; wait is the mutex's list. */
  function Contends<T(==)>(k: Kernel<T>, owner: T): Option<Kernel<T>> {
    var k1 := Raised(k, owner);
    if k1.current.None? || k1.current.value !in k1.tasks then Some(k1) else Yielded(Parked(k1))
  }

  /** It is the boost of the mutex model. */
  lemma RaisedIs<T>(k: Kernel<T>, m: M.Mutex<T>, t: T, o: T)
    requires k.current == Some(t) && m.owner == Some(o) && t in m.prio && o in m.prio
    requires m.prio.Keys <= k.tasks.Keys && forall u :: u in m.prio ==> k.tasks[u].prio == m.prio[u]
    ensures forall u :: u in m.prio ==> Raised(k, o).tasks[u].prio == M.LoopPass(m, t).0.prio[u]
  {
  }

  /** An owner that is ready and next to run, and that a caller of higher priority boosts, is scheduled but stays the head of
      its old list, with no links; the next task of that priority to become ready then follows a null pointer. */
  lemma BoostBreaksRing<T>(k: Kernel<T>, queues: seq<seq<T>>, parked: seq<T>, p: nat, o: T, c: T)
    requires Holds(k, queues, parked) && p == Highest(queues) && o == queues[p][0]
    requires k.current == Some(c) && c in k.tasks && p < k.tasks[c].prio < |queues|
    requires c !in parked && forall r :: 0 <= r < |queues| ==> c !in queues[r]
    ensures Contends(k, o).Some?
    ensures var k1 := Contends(k, o).value;
            && k1.current == Some(o) && k1.ready[p] == Some(o) && o in k1.tasks && k1.tasks[o].prev == None
            && forall y :: y in k.tasks && k.tasks[y].prio == p && y != o ==> Link(k1, y) == None
  {
    hide Holds, RingOf, Ranked, Raised, Parked, ReadyRemove;
    RaisedAndParked(k, queues, parked, p, o, c);
    var k1 := Parked(Raised(k, o));
    RemoveElsewhere(k1.tasks, k1.ready, queues[p], o);
    var r := ReadyRemove(k1.tasks, k1.ready, o).value;
    var k2 := k1.(tasks := r.0[o := r.0[o].(running := true)], ready := r.1, current := Some(o));
    assert Contends(k, o) == Some(k2);
    forall y | y in k.tasks && k.tasks[y].prio == p && y != o ensures Link(k2, y) == None { }
  }

  /** The ring is as it was, but for its head's priority field. */
  lemma RaisedAndParked<T>(k: Kernel<T>, queues: seq<seq<T>>, parked: seq<T>, p: nat, o: T, c: T)
    requires Holds(k, queues, parked) && p == Highest(queues) && o == queues[p][0]
    requires k.current == Some(c) && c in k.tasks && p < k.tasks[c].prio < |queues|
    requires c !in parked && forall r :: 0 <= r < |queues| ==> c !in queues[r]
    ensures Raised(k, o).current == Some(c) && c in Raised(k, o).tasks
    ensures var k1, f := Parked(Raised(k, o)), k.tasks[c].prio;
            && k1.current == Some(c) && k1.ready == k.ready && |k1.ready| == |queues| && k1.tasks.Keys == k.tasks.Keys
            && Top(k1.ready) == p && k1.ready[p] == Some(o) && k1.ready[f] == None && o != c
            && o in k1.tasks && k1.tasks[o].prio == f && !k1.tasks[c].running
            && RingOf(k1.tasks, k1.ready[p], queues[p])
            && forall y :: y in k.tasks && y != o ==> k1.tasks[y].prio == k.tasks[y].prio
  {
    var q := queues[p];
    TopIs(k.tasks, k.ready, queues);
    assert RingOf(k.tasks, k.ready[p], q) && Ranked(k.tasks, q, p) && q[0] in q && |k.ready| == |queues|;
    assert k.ready[k.tasks[c].prio] == None by { assert RingOf(k.tasks, k.ready[k.tasks[c].prio], queues[k.tasks[c].prio]); }
    assert parked != [] ==> parked[0] in parked && k.wait == Some(parked[0]);
    assert forall t :: t in q ==> t != c && t !in parked;
    hide Ringed, NoneOf, Ranked, Apart, ListOf;
    RingStands(k, q, o, c);
  }

  /** The boost and the blocking of a caller outside touch no link of this ring. */
  lemma RingStands<T>(k: Kernel<T>, q: seq<T>, o: T, c: T)
    requires k.current == Some(c) && c in k.tasks && c !in q && (k.wait.Some? ==> k.wait.value !in q) && o in k.tasks
    requires q != [] && RingOf(k.tasks, Some(q[0]), q)
    ensures RingOf(Parked(Raised(k, o)).tasks, Some(q[0]), q)
  {
    var m := Parked(Raised(k, o)).tasks;
    forall i | 0 <= i < |q| ensures RingAt(m, q, i) { assert RingAt(k.tasks, q, i) && q[i] in q; }
  }

  /** ready_list_remove of a ring's head whose priority field names another, empty list changes no list. */
  lemma RemoveElsewhere<T>(m: Tasks<T>, ready: seq<Option<T>>, q: seq<T>, o: T)
    requires q != [] && o == q[0] && o in m && m[o].prio < |ready| && ready[m[o].prio] == None
    requires RingOf(m, Some(o), q)
    ensures ReadyRemove(m, ready, o).Some?
    ensures var r := ReadyRemove(m, ready, o).value;
            && r.1 == ready && r.0.Keys == m.Keys && r.0[o].next == r.0[o].prev == None
            && forall y :: y in m ==> r.0[y].prio == m[y].prio
  {
    assert RingAt(m, q, 0) && RingAt(m, q, |q| - 1);
    if |q| > 1 { assert RingAt(m, q, 1); }
  }

  // ----- and a run into it

  /** 16 lists, all empty but lists 0 and 9. */
  function TwoLists(low: Option<nat>, high: Option<nat>): (r: seq<Option<nat>>)
    ensures |r| == 16 && r[0] == low && r[9] == high && forall p :: 0 < p < 16 && p != 9 ==> r[p].None?
  {
    seq(16, p => if p == 0 then low else if p == 9 then high else None)
  }

  lemma TwoListsChange(low: Option<nat>, high: Option<nat>, to: Option<nat>)
    ensures TwoLists(low, high)[0 := to] == TwoLists(to, high) && TwoLists(low, high)[9 := to] == TwoLists(low, to)
    ensures TwoLists(None, None) == seq(16, _ => None)
    ensures high.Some? ==> Top(TwoLists(low, high)) == 9
    ensures high.None? && low.Some? ==> Top(TwoLists(low, high)) == 0
  {
    if high.Some? { TopAt(TwoLists(low, high), 9); } else if low.Some? { TopAt(TwoLists(low, high), 0); }
  }

  const BOOSTING: seq<Act<nat>> := [Links(0), Begin, Links(9), Yields]

  function Off(prio: nat): Task<nat> { Task(prio, false, None, None) }
  function On(prio: nat): Task<nat> { Task(prio, true, None, None) }
  function Alone(t: nat, prio: nat): Task<nat> { Task(prio, false, Some(t), Some(t)) }

  const B0 := Kernel(map[0 := Off(0), 1 := Off(1), 9 := Off(9)], TwoLists(None, None), None, None, 0)
  const B1 := Kernel(map[0 := Alone(0, 0), 1 := Off(1), 9 := Off(9)], TwoLists(Some(0), None), None, None, 0)
  const B2 := Kernel(map[0 := On(0), 1 := Off(1), 9 := Off(9)], TwoLists(None, None), Some(0), None, 0)
  const B3 := Kernel(map[0 := On(0), 1 := Off(1), 9 := Alone(9, 9)], TwoLists(None, Some(9)), Some(0), None, 0)
  const B4 := Kernel(map[0 := Alone(0, 0), 1 := Off(1), 9 := On(9)], TwoLists(Some(0), None), Some(9), None, 0)
  const B5 := Kernel(map[0 := On(9), 1 := Off(1), 9 := Off(9)], TwoLists(Some(0), None), Some(0), Some(9), 0)

  lemma BoostBoots()
    ensures Boot(M.DEMO, 16, 0) == B0
  {
    TwoListsChange(None, None, None);
    assert Boot(M.DEMO, 16, 0).tasks == B0.tasks;
  }

  lemma BoostStarts()
    ensures Goes(B0, BOOSTING[0], B1)
  {
    TwoListsChange(None, None, Some(0));
    assert Link(B0, 0).value.tasks == B1.tasks;
  }

  lemma BoostBegins()
    ensures Goes(B1, BOOSTING[1], B2)
  {
    TwoListsChange(Some(0), None, None);
    assert Schedule(B1).value.tasks == B2.tasks && Schedule(B1).value.ready == B2.ready;
  }

  lemma BoostPreempts()
    ensures Goes(B2, BOOSTING[2], B3) && Goes(B3, BOOSTING[3], B4)
  {
    TwoListsChange(None, None, Some(9));
    TwoListsChange(None, Some(9), Some(0));
    TwoListsChange(Some(0), Some(9), None);
    TwoListsChange(Some(0), Some(9), Some(0));
    assert Link(B2, 9).value.tasks == B3.tasks;
    var k := Kernel(map[0 := Alone(0, 0), 1 := Off(1), 9 := Alone(9, 9)], TwoLists(Some(0), Some(9)), Some(0), None, 0);
    assert Link(B3, 0).value.tasks == k.tasks;
    assert Schedule(k).value.tasks == B4.tasks && Schedule(k).value.ready == B4.ready;
  }

  lemma BoostLeaves()
    ensures Contends(B4, 0) == Some(B5)
  {
    TwoListsChange(Some(0), None, None);
    var k := Kernel(map[0 := Alone(0, 9), 1 := Off(1), 9 := Off(9)], TwoLists(Some(0), None), Some(9), Some(9), 0);
    assert Parked(Raised(B4, 0)).tasks == k.tasks;
    assert Schedule(k).value.tasks == B5.tasks && Schedule(k).value.ready == B5.ready;
  }

  /** One run of the scheduler and the mutex: task 0 starts and takes the mutex, task 9 starts, preempts it and blocks on the
      mutex. Task 0 then runs at priority 9, and list 0 still starts with it. */
  lemma BoostBreaksRingReached()
    ensures DoAll(Boot(M.DEMO, 16, 0), BOOSTING) == Some(B4) && Contends(B4, 0) == Some(B5)
    ensures M.Runs(M.Fresh(M.DEMO), [M.CLock(0), M.CLock(9)])
    ensures var m := M.Run(M.Fresh(M.DEMO), [M.CLock(0), M.CLock(9)]).m;
            && m.owner == B5.current == Some(0) && m.waiters.parked == [9] && B5.wait == Some(9)
            && forall t :: t in m.prio ==> t in B5.tasks && B5.tasks[t].prio == m.prio[t]
    ensures B5.ready[0] == Some(0) && B5.tasks[0].next == B5.tasks[0].prev == None
  {
    hide Goes, DoAll, Boot, TwoLists, Contends, M.Inv, M.Runs, M.Run, M.Fresh, M.Moves;
    BoostBoots();
    BoostStarts();
    BoostBegins();
    BoostPreempts();
    BoostLeaves();
    LeadsThere([B0, B1, B2, B3, B4], BOOSTING);
    M.FreshIs();
    M.ZeroTakes();
    M.NineParks();
    M.LeadsRuns([M.S0, M.S1, M.S2], [M.CLock(0), M.CLock(9)]);
  }
}
