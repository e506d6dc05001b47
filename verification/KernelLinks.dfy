/** The scheduler and a semaphore over the same task control blocks, pointer by pointer. A task has one pair of links,
    which its ready ring and the wait list share; following a null pointer is a fault, here no result. */
module KernelLinks {
  import opened Common
  import opened SchedSpec
  import opened SyncSpec

  datatype Task<T(==)> = Task(prio: nat, running: bool, next: Option<T>, prev: Option<T>)

  type Tasks<T(==)> = map<T, Task<T>>

  /** ready_list, current_task (none for the idle task), the semaphore's wait_list and its count. */
  datatype Kernel<T(==)> = Kernel(tasks: Tasks<T>, ready: seq<Option<T>>, current: Option<T>, wait: Option<T>, count: int)

  // ----- the code on pointers

  /** ready_list_add, on ready_list[prio]. */
  function ReadyAdd<T(==)>(m: Tasks<T>, head: Option<T>, t: T): Option<(Tasks<T>, Option<T>)>
    requires t in m
  {
    match head
    case None => Some((m[t := m[t].(running := false, next := Some(t), prev := Some(t))], Some(t)))
    case Some(h) =>
      if h !in m then None
      else
        var m1 := m[t := m[t].(running := false, next := head, prev := m[h].prev)];
        match m1[h].prev
        case None => None
        case Some(l) =>
          if l !in m1 then None
          else
            var m2 := m1[l := m1[l].(next := Some(t))];
            Some((m2[h := m2[h].(prev := Some(t))], head))
  }

  /** ready_list_remove; its list is the one the task's priority field names. */
  function ReadyRemove<T(==)>(m: Tasks<T>, ready: seq<Option<T>>, t: T): Option<(Tasks<T>, seq<Option<T>>)>
    requires t in m && m[t].prio < |ready|
  {
    var p := m[t].prio;
    if m[t].next == Some(t) then Some((m[t := m[t].(next := None, prev := None)], ready[p := None]))
    else if m[t].prev.None? || m[t].prev.value !in m then None
    else
      var a := m[t].prev.value;
      var m1 := m[a := m[a].(next := m[t].next)];
      if m1[t].next.None? || m1[t].next.value !in m1 then None
      else
        var b := m1[t].next.value;
        var m2 := m1[b := m1[b].(prev := m1[t].prev)];
        var ready1 := if ready[p] == Some(t) then ready[p := m2[t].next] else ready;
        Some((m2[t := m2[t].(next := None, prev := None)], ready1))
  }

  /** get_highest_ready: the index of the highest list that is not empty, or -1. */
  function Top<T>(ready: seq<Option<T>>): (h: int)
    ensures -1 <= h < |ready|
    ensures h >= 0 ==> ready[h].Some?
    ensures forall p :: h < p < |ready| ==> ready[p].None?
  {
    if ready == [] then -1
    else if ready[|ready| - 1].Some? then |ready| - 1
    else Top(ready[..|ready| - 1])
  }

  /** schedule_locked */
  function Schedule<T(==)>(k: Kernel<T>): Option<Kernel<T>> {
    var h := Top(k.ready);
    if h < 0 then Some(k.(current := None))
    else
      var next := k.ready[h].value;
      if k.current == Some(next) then Some(k)
      else if next !in k.tasks || k.tasks[next].prio >= |k.ready| then None
      else
        match ReadyRemove(k.tasks, k.ready, next)
        case None => None
        case Some(r) =>
          if next !in r.0 then None
          else Some(k.(tasks := r.0[next := r.0[next].(running := true)], ready := r.1, current := Some(next)))
  }

  /** ready_list_add of a task, to the list its priority names. */
  function Link<T(==)>(k: Kernel<T>, t: T): Option<Kernel<T>> {
    if t !in k.tasks || k.tasks[t].prio >= |k.ready| then None
    else
      var p := k.tasks[t].prio;
      match ReadyAdd(k.tasks, k.ready[p], t)
      case None => None
      case Some(r) => Some(k.(tasks := r.0, ready := k.ready[p := r.1]))
  }

  /** task_yield of a task. */
  function Yielded<T(==)>(k: Kernel<T>): Option<Kernel<T>> {
    if k.current.None? || k.current.value !in k.tasks then Some(k)
    else if !k.tasks[k.current.value].running then Schedule(k)
    else
      match Link(k, k.current.value)
      case None => None
      case Some(k1) =>
        var t := k.current.value;
        if t !in k1.tasks || k1.tasks[t].prio >= |k1.ready| then None
        else Schedule(k1.(ready := k1.ready[k1.tasks[t].prio := k1.tasks[t].next]))
  }

  function Stopped<T(==)>(k: Kernel<T>): Kernel<T> {
    if k.current.None? || k.current.value !in k.tasks then k
    else k.(tasks := k.tasks[k.current.value := k.tasks[k.current.value].(running := false)])
  }

  /** wait_list_add */
  function WaitAdd<T(==)>(m: Tasks<T>, head: Option<T>, t: T): (Tasks<T>, Option<T>)
    requires t in m
  {
    var m1 := m[t := m[t].(next := head, prev := None)];
    (if head.Some? && head.value in m1 then m1[head.value := m1[head.value].(prev := Some(t))] else m1, Some(t))
  }

  /** wait_list_remove_first; the task removed is made READY. */
  function RemoveFirst<T(==)>(m: Tasks<T>, head: Option<T>): (Tasks<T>, Option<T>) {
    if head.None? || head.value !in m then (m, head)
    else
      var h, rest := head.value, m[head.value].next;
      var m1 := if rest.Some? && rest.value in m then m[rest.value := m[rest.value].(prev := None)] else m;
      (m1[h := m1[h].(next := None, running := false)], rest)
  }

  /** One pass of the loop in sem_wait, by the current task. */
  function Pass<T(==)>(k: Kernel<T>): Option<Kernel<T>> {
    if k.current.None? || k.current.value !in k.tasks then Some(k)
    else if k.count > 0 then Some(k.(count := k.count - 1))
    else Yielded(Parked(k))
  }

  /** The part of it before task_yield. */
  function Parked<T(==)>(k: Kernel<T>): Kernel<T>
    requires k.current.Some? && k.current.value in k.tasks
  {
    var r := WaitAdd(Stopped(k).tasks, k.wait, k.current.value);
    k.(tasks := r.0, wait := r.1)
  }

  /** sem_post */
  function Posted<T(==)>(k: Kernel<T>): Kernel<T> {
    var r := RemoveFirst(k.tasks, k.wait);
    k.(tasks := r.0, wait := r.1, count := k.count + 1)
  }

  datatype Act<T> = Begin | Yields | GivesUp | Passes | Posts | Links(t: T)

  function Do<T(==)>(k: Kernel<T>, a: Act<T>): Option<Kernel<T>> {
    match a
    case Begin => Schedule(k)
    case Yields => Yielded(k)
    case GivesUp => Schedule(Stopped(k))
    case Passes => Pass(k)
    case Posts => Some(Posted(k))
    case Links(t) => Link(k, t)
  }

  function DoAll<T(==)>(k: Kernel<T>, acts: seq<Act<T>>): Option<Kernel<T>>
    decreases |acts|
  {
    if acts == [] then Some(k)
    else
      match Do(k, acts[0])
      case None => None
      case Some(k1) => DoAll(k1, acts[1..])
  }

  /** Every task created, none started. */
  function Boot<T(==)>(prio: map<T, nat>, n: nat, count: int): Kernel<T> {
    Kernel(map t | t in prio :: Task(prio[t], false, None, None), seq(n, _ => None), None, None, count)
  }

  // ----- rings and lists

  /** The links of q's tasks run round it, from head on. */
  ghost predicate RingOf<T>(m: Tasks<T>, head: Option<T>, q: seq<T>) {
    && Distinct(q) && head == (if q == [] then None else Some(q[0]))
    && forall i :: 0 <= i < |q| ==> RingAt(m, q, i)
  }

  ghost predicate RingAt<T>(m: Tasks<T>, q: seq<T>, i: nat)
    requires i < |q|
  {
    q[i] in m && m[q[i]].next == Some(Succ(q, i)) && m[q[i]].prev == Some(Pred(q, i))
  }

  function Nth<T>(ts: seq<T>, i: int): Option<T> { if 0 <= i < |ts| then Some(ts[i]) else None }

  /** The links of ts run from head to its end and back. */
  ghost predicate ListOf<T>(m: Tasks<T>, head: Option<T>, ts: seq<T>) {
    && Distinct(ts) && head == Nth(ts, 0)
    && forall i :: 0 <= i < |ts| ==> ListAt(m, ts, i)
  }

  ghost predicate ListAt<T>(m: Tasks<T>, ts: seq<T>, i: nat)
    requires i < |ts|
  {
    ts[i] in m && m[ts[i]].next == Nth(ts, i + 1) && m[ts[i]].prev == Nth(ts, i - 1)
  }

  /** Only the tasks in but have other links or another state; nobody has another priority. */
  ghost predicate Same<T>(m: Tasks<T>, m': Tasks<T>, but: set<T>) {
    forall t :: t in m ==> t in m' && m'[t].prio == m[t].prio && (t !in but ==> m'[t] == m[t])
  }

  lemma RingFrame<T>(m: Tasks<T>, m': Tasks<T>, but: set<T>, head: Option<T>, q: seq<T>)
    requires RingOf(m, head, q) && Same(m, m', but) && forall t :: t in q ==> t !in but
    ensures RingOf(m', head, q)
  {
    forall i | 0 <= i < |q| ensures RingAt(m', q, i) { assert RingAt(m, q, i) && q[i] in q; }
  }

  lemma ListFrame<T>(m: Tasks<T>, m': Tasks<T>, but: set<T>, head: Option<T>, ts: seq<T>)
    requires ListOf(m, head, ts) && Same(m, m', but) && forall t :: t in ts ==> t !in but
    ensures ListOf(m', head, ts)
  {
    forall i | 0 <= i < |ts| ensures ListAt(m', ts, i) { assert ListAt(m, ts, i) && ts[i] in ts; }
  }

  ghost function Members<T>(q: seq<T>): set<T> { set t | t in q }

  /** Adding to a well-linked ring appends, and touches nobody outside it. */
  lemma AddToRing<T>(m: Tasks<T>, head: Option<T>, q: seq<T>, t: T)
    requires RingOf(m, head, q) && t in m && t !in q
    ensures ReadyAdd(m, head, t).Some?
    ensures var r := ReadyAdd(m, head, t).value;
            && RingOf(r.0, r.1, q + [t]) && Same(m, r.0, Members(q) + {t})
            && !r.0[t].running && (forall u :: u in q ==> u in m && r.0[u].running == m[u].running)
            && r.1 == (if q == [] then Some(t) else head) && r.0[t].next == r.1
  {
    if q != [] {
      assert RingAt(m, q, 0) && RingAt(m, q, |q| - 1);
      var r := ReadyAdd(m, head, t).value;
      forall i | 0 <= i < |q| + 1 ensures RingAt(r.0, q + [t], i) {
        if i < |q| { assert RingAt(m, q, i); }
      }
      forall u | u in q ensures u in m && r.0[u].running == m[u].running {
        var i :| 0 <= i < |q| && q[i] == u;
        assert RingAt(m, q, i);
      }
    }
  }

  /** Removing its head leaves the rest well linked, and touches nobody outside. */
  lemma RemoveFromRing<T>(m: Tasks<T>, ready: seq<Option<T>>, p: nat, q: seq<T>)
    requires p < |ready| && q != [] && RingOf(m, ready[p], q) && q[0] in m && m[q[0]].prio == p
    ensures ReadyRemove(m, ready, q[0]).Some?
    ensures var r := ReadyRemove(m, ready, q[0]).value;
            && r.1 == ready[p := if |q| == 1 then None else Some(q[1])]
            && RingOf(r.0, r.1[p], q[1..]) && Same(m, r.0, Members(q))
  {
    assert RingAt(m, q, 0);
    if |q| > 1 {
      assert RingAt(m, q, 1) && RingAt(m, q, |q| - 1);
      var r := ReadyRemove(m, ready, q[0]).value;
      forall i | 0 <= i < |q| - 1 ensures RingAt(r.0, q[1..], i) {
        assert RingAt(m, q, i + 1);
      }
    }
  }

  lemma AddToList<T>(m: Tasks<T>, head: Option<T>, ts: seq<T>, t: T)
    requires ListOf(m, head, ts) && t in m && t !in ts
    ensures var r := WaitAdd(m, head, t);
            ListOf(r.0, r.1, [t] + ts) && Same(m, r.0, Members(ts) + {t}) && r.0[t].running == m[t].running
  {
    var r := WaitAdd(m, head, t);
    if ts != [] { assert ListAt(m, ts, 0); }
    forall i | 0 <= i < |ts| + 1 ensures ListAt(r.0, [t] + ts, i) {
      if i > 0 { assert ListAt(m, ts, i - 1); }
    }
  }

  lemma RemoveFromList<T>(m: Tasks<T>, head: Option<T>, ts: seq<T>)
    requires ListOf(m, head, ts)
    ensures var r := RemoveFirst(m, head);
            ListOf(r.0, r.1, if ts == [] then [] else ts[1..]) && Same(m, r.0, Members(ts))
  {
    if ts != [] {
      assert ListAt(m, ts, 0);
      if |ts| > 1 { assert ListAt(m, ts, 1); }
      var r := RemoveFirst(m, head);
      forall i | 0 <= i < |ts| - 1 ensures ListAt(r.0, ts[1..], i) {
        assert ListAt(m, ts, i + 1);
      }
    }
  }

  // ----- what the pointers stand for

  ghost predicate Ringed<T>(m: Tasks<T>, ready: seq<Option<T>>, queues: seq<seq<T>>) {
    |ready| == |queues| &&
    forall p :: 0 <= p < |queues| ==> RingOf(m, ready[p], queues[p]) && Ranked(m, queues[p], p)
  }

  ghost predicate Ranked<T>(m: Tasks<T>, q: seq<T>, p: nat) { forall t :: t in q ==> t in m && m[t].prio == p }

  ghost predicate NoneOf<T>(queues: seq<seq<T>>, ts: seq<T>) {
    forall p, t :: 0 <= p < |queues| && t in queues[p] ==> t !in ts
  }

  /** The rings hold queues, the wait list holds parked, and no task is in two places. */
  ghost predicate Holds<T>(k: Kernel<T>, queues: seq<seq<T>>, parked: seq<T>) {
    Ringed(k.tasks, k.ready, queues) && Apart(queues) && ListOf(k.tasks, k.wait, parked) && NoneOf(queues, parked)
  }

  ghost predicate Runner<T>(k: Kernel<T>, s: Sched<T>) {
    && k.current == s.current && s.prio < |k.ready|
    && (s.current.Some? ==>
          s.current.value in k.tasks && k.tasks[s.current.value].prio == s.prio && k.tasks[s.current.value].running == s.running)
  }

  /** Ring p may have changed; nobody in another ring or parked was touched. */
  lemma OneRing<T>(k: Kernel<T>, m: Tasks<T>, head: Option<T>, queues: seq<seq<T>>, parked: seq<T>, p: nat, q: seq<T>, but: set<T>)
    requires Holds(k, queues, parked) && p < |queues| && Same(k.tasks, m, but)
    requires forall t :: t in but || t in q ==> t !in parked && forall r :: 0 <= r < |queues| && r != p ==> t !in queues[r]
    requires RingOf(m, head, q) && Ranked(m, q, p)
    ensures Holds(k.(tasks := m, ready := k.ready[p := head]), queues[p := q], parked)
  {
    var ready1, queues1 := k.ready[p := head], queues[p := q];
    forall r | 0 <= r < |queues| ensures RingOf(m, ready1[r], queues1[r]) && Ranked(m, queues1[r], r) {
      if r != p { RingFrame(k.tasks, m, but, k.ready[r], queues[r]); }
    }
    ListFrame(k.tasks, m, but, k.wait, parked);
    OneApart(queues, p, q);
  }

  lemma OneApart<T>(queues: seq<seq<T>>, p: nat, q: seq<T>)
    requires Apart(queues) && p < |queues| && Distinct(q)
    requires forall t :: t in q ==> forall r :: 0 <= r < |queues| && r != p ==> t !in queues[r]
    ensures Apart(queues[p := q])
  {
  }

  /** The wait list may have changed; nobody in a ring was touched. */
  lemma OneList<T>(k: Kernel<T>, m: Tasks<T>, wait: Option<T>, queues: seq<seq<T>>, parked: seq<T>, parked': seq<T>, but: set<T>)
    requires Holds(k, queues, parked) && Same(k.tasks, m, but) && ListOf(m, wait, parked')
    requires forall p, t :: 0 <= p < |queues| && t in queues[p] ==> t !in but && t !in parked'
    ensures Holds(k.(tasks := m, wait := wait), queues, parked')
  {
    forall p | 0 <= p < |queues| ensures RingOf(m, k.ready[p], queues[p]) && Ranked(m, queues[p], p) {
      RingFrame(k.tasks, m, but, k.ready[p], queues[p]);
    }
  }

  lemma TopIs<T>(m: Tasks<T>, ready: seq<Option<T>>, queues: seq<seq<T>>)
    requires Ringed(m, ready, queues)
    ensures Top(ready) == Highest(queues)
    ensures Top(ready) >= 0 ==> ready[Top(ready)] == Some(queues[Top(ready)][0])
  {
    var h, g := Top(ready), Highest(queues);
    assert forall p :: 0 <= p < |queues| ==> RingOf(m, ready[p], queues[p]);
  }

  /** schedule_locked on well-linked rings makes the specified switch and follows no null pointer. */
  lemma Scheduled<T>(k: Kernel<T>, s: Sched<T>, parked: seq<T>)
    requires Holds(k, s.queues, parked) && Runner(k, s)
    ensures Schedule(k).Some?
    ensures var k1 := Schedule(k).value;
            && Holds(k1, Switch(s).queues, parked) && Runner(k1, Switch(s)) && k1.count == k.count && k1.wait == k.wait
            && k1.tasks.Keys == k.tasks.Keys && |k1.ready| == |k.ready|
  {
    TopIs(k.tasks, k.ready, s.queues);
    var h := Highest(s.queues);
    if h >= 0 && k.current != Some(s.queues[h][0]) {
      var q := s.queues[h];
      assert RingOf(k.tasks, k.ready[h], q) && Ranked(k.tasks, q, h) && q[0] in q;
      RemoveFromRing(k.tasks, k.ready, h, q);
      var r := ReadyRemove(k.tasks, k.ready, q[0]).value;
      var m := r.0[q[0] := r.0[q[0]].(running := true)];
      assert q[0] !in q[1..];
      RingFrame(r.0, m, {q[0]}, r.1[h], q[1..]);
      OneRing(k, m, r.1[h], s.queues, parked, h, q[1..], Members(q));
    }
  }

  /** A change of state only. */
  lemma Marked<T>(k: Kernel<T>, t: T, b: bool, queues: seq<seq<T>>, parked: seq<T>)
    requires Holds(k, queues, parked) && t in k.tasks
    ensures Holds(k.(tasks := k.tasks[t := k.tasks[t].(running := b)]), queues, parked)
  {
    var m := k.tasks[t := k.tasks[t].(running := b)];
    forall p | 0 <= p < |queues| ensures RingOf(m, k.ready[p], queues[p]) && Ranked(m, queues[p], p) {
      forall i | 0 <= i < |queues[p]| ensures RingAt(m, queues[p], i) { assert RingAt(k.tasks, queues[p], i); }
    }
    forall i | 0 <= i < |parked| ensures ListAt(m, parked, i) { assert ListAt(k.tasks, parked, i); }
  }

  /** ready_list_add of a task in no ring and not parked. */
  lemma Linked<T>(k: Kernel<T>, queues: seq<seq<T>>, parked: seq<T>, t: T)
    requires Holds(k, queues, parked) && t in k.tasks && k.tasks[t].prio < |queues| && t !in parked
    requires forall p :: 0 <= p < |queues| ==> t !in queues[p]
    ensures Link(k, t).Some?
    ensures var k1, p := Link(k, t).value, k.tasks[t].prio;
            && Holds(k1, AddReady(queues, t, p), parked) && k1.(tasks := k.tasks, ready := k.ready) == k
            && k1.tasks.Keys == k.tasks.Keys && Same(k.tasks, k1.tasks, Members(queues[p]) + {t}) && |k1.ready| == |k.ready|
            && !k1.tasks[t].running && k1.tasks[t].next == k1.ready[p]
  {
    var p := k.tasks[t].prio;
    var q := queues[p];
    assert RingOf(k.tasks, k.ready[p], q) && Ranked(k.tasks, q, p);
    AddToRing(k.tasks, k.ready[p], q, t);
    var r := ReadyAdd(k.tasks, k.ready[p], t).value;
    OneRing(k, r.0, r.1, queues, parked, p, q + [t], Members(q) + {t});
  }
}
