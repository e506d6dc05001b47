/** The ready rings of task objects, linked in place, and the scheduler over them. */
module Scheduler {
  import opened Common
  import opened SchedSpec
  import opened TaskControl

  /** Task k of a ring is linked to its neighbours, the last one to the first. */
  ghost predicate LinkedAt(ts: seq<Tcb>, k: int)
    requires 0 <= k < |ts|
    reads ts
  {
    ts[k].next == Succ(ts, k) && ts[k].prev == Pred(ts, k)
  }

  /** Leaving out item i joins its neighbours and nobody else. */
  lemma Bypassed<T>(ts: seq<T>, i: nat, k: nat)
    requires Distinct(ts) && i < |ts| && k + 1 < |ts|
    ensures var rest, j := ts[..i] + ts[i + 1..], if k < i then k else k + 1;
            && rest[k] == ts[j] && ts[j] != ts[i]
            && Succ(rest, k) == (if ts[j] == Pred(ts, i) then Succ(ts, i) else Succ(ts, j))
            && Pred(rest, k) == (if ts[j] == Succ(ts, i) then Pred(ts, i) else Pred(ts, j))
  {
  }

  lemma RestOf<T>(ts: seq<T>, i: nat)
    requires Distinct(ts) && i < |ts|
    ensures var rest := ts[..i] + ts[i + 1..];
            && Distinct(rest) && ts[i] !in rest
            && (Succ(ts, i) == ts[i] <==> |ts| == 1)
            && (|ts| > 1 ==> rest[0] == if ts[0] == ts[i] then Succ(ts, i) else ts[0])
            && Succ(ts, i) in ts && Pred(ts, i) in ts
  {
  }

  /** One entry of ready_list. */
  class Ring {
    var head: Tcb?
    ghost var tasks: seq<Tcb>

    ghost predicate Linked()
      reads this, tasks
    {
      && Distinct(tasks)
      && head == (if tasks == [] then null else tasks[0])
      && forall k :: 0 <= k < |tasks| ==> LinkedAt(tasks, k)
    }

    constructor ()
      ensures Linked() && tasks == []
    {
      head, tasks := null, [];
    }

    /** ready_list_add: the task goes in just before the head, at the end of the queue. */
    method Add(task: Tcb)
      requires Linked() && task !in tasks
      modifies this, task`state, task`next, task`prev, tasks`next, tasks`prev
      ensures Linked() && tasks == old(tasks) + [task] && task.state == Ready
      ensures forall t :: t in old(tasks) ==> t.state == old(t.state)
    {
      task.state := Ready;
      if head == null {
        head := task;
        task.next := task;
        task.prev := task;
      } else {
        assert LinkedAt(tasks, 0) && LinkedAt(tasks, |tasks| - 1);
        var h := head;
        task.next := h;
        task.prev := h.prev;
        h.prev.next := task;
        h.prev := task;
      }
      ghost var was := tasks;
      tasks := tasks + [task];
      forall k | 0 <= k < |tasks| ensures LinkedAt(tasks, k) {
        if k < |was| { assert old(LinkedAt(was, k)); }
      }
    }

    /** ready_list_remove, of a task anywhere in the ring. */
    method Remove(task: Tcb)
      requires Linked() && task in tasks
      modifies this, tasks`next, tasks`prev
      ensures Linked() && tasks == Without(old(tasks), task) && task !in tasks
      ensures task.next == null && task.prev == null && forall t :: t in tasks ==> t in old(tasks)
    {
      hide Distinct, Succ, Pred, LinkedAt;
      ghost var i :| 0 <= i < |tasks| && tasks[i] == task;
      ghost var was := tasks;
      WithoutAt(was, task, i);
      RestOf(was, i);
      Unhook(task, i);
      tasks := was[..i] + was[i + 1..];
      Relinked(was, i);
    }

    /** Its neighbours are joined, the list head moves on, and it keeps no links. */
    method Unhook(task: Tcb, ghost i: nat)
      requires Linked() && i < |tasks| && task == tasks[i]
      modifies this`head, tasks`next, tasks`prev
      ensures task.next == null && task.prev == null
      ensures head == if |tasks| == 1 then null else if tasks[0] == task then Succ(tasks, i) else tasks[0]
      ensures forall k :: 0 <= k < |tasks| && k != i ==> UnhookedAt(tasks, i, k)
    {
      assert LinkedAt(tasks, i);
      RestOf(tasks, i);
      hide Distinct, Succ, Pred;
      assert forall k :: 0 <= k < |tasks| ==> LinkedAt(tasks, k);
      if task.next == task {
        head := null;
      } else {
        task.prev.next := task.next;
        task.next.prev := task.prev;
        if head == task {
          head := task.next;
        }
      }
      task.next := null;
      task.prev := null;
      forall k | 0 <= k < |tasks| && k != i ensures UnhookedAt(tasks, i, k) {
        assert old(LinkedAt(tasks, k)) && tasks[k] != task;
      }
    }
  }

  /** Task k once task i has been unhooked. */
  ghost predicate UnhookedAt(ts: seq<Tcb>, i: nat, k: nat)
    requires i < |ts| && k < |ts|
    reads ts
  {
    && ts[k].next == (if ts[k] == Pred(ts, i) then Succ(ts, i) else Succ(ts, k))
    && ts[k].prev == (if ts[k] == Succ(ts, i) then Pred(ts, i) else Pred(ts, k))
  }

  lemma Relinked(ts: seq<Tcb>, i: nat)
    requires Distinct(ts) && i < |ts| && forall k :: 0 <= k < |ts| && k != i ==> UnhookedAt(ts, i, k)
    ensures var rest := ts[..i] + ts[i + 1..]; forall k :: 0 <= k < |rest| ==> LinkedAt(rest, k)
  {
    hide Distinct, Succ, Pred;
    var rest := ts[..i] + ts[i + 1..];
    forall k | 0 <= k < |rest| ensures LinkedAt(rest, k) {
      Bypassed(ts, i, k);
      assert UnhookedAt(ts, i, if k < i then k else k + 1);
    }
  }

  lemma {:induction false} WithoutAt<T>(ts: seq<T>, t: T, i: nat)
    requires i < |ts| && ts[i] == t && Distinct(ts)
    ensures Without(ts, t) == ts[..i] + ts[i + 1..]
  {
    if i > 0 {
      WithoutAt(ts[1..], t, i - 1);
      assert ts[..i] == [ts[0]] + ts[1..][..i - 1];
    }
  }

  const MAX_PRIORITY := 16
  const MAX_TASKS := 32

  class Scheduler {
    const readyList: seq<Ring>
    const idle: Tcb
    ghost var all: set<Tcb>  // every task in task_table but the idle one
    ghost var idleListed: bool
    var current: Tcb
    var taskCount: nat
    var schedulerRunning: bool

    /** Ring p holds tasks of priority p, so the rings are disjoint; none of them is running or never started. */
    ghost predicate RingOk(p: nat)
      requires p < |readyList|
      reads this, readyList, all
    {
      && (forall t :: t in readyList[p].tasks ==> t in all && t.priority == p && t.state != Running && t.state != Suspended)
      && readyList[p].Linked()
    }

    ghost predicate Valid()
      reads this, readyList, all, idle`priority
    {
      && |readyList| == MAX_PRIORITY
      && (forall p, q :: 0 <= p < q < MAX_PRIORITY ==> readyList[p] != readyList[q])
      && (forall p :: 0 <= p < MAX_PRIORITY ==> RingOk(p))
      && idle !in all && idle.priority == 0 && (idleListed ==> schedulerRunning)
      && taskCount == |all| + (if idleListed then 1 else 0)
      && (current == idle || (current in all && current.state != Suspended))
      && (forall t :: t in all ==> t.priority < MAX_PRIORITY)
    }

    /** Every queued task is READY. */
    ghost predicate AllReady()
      requires Valid()
      reads this, readyList, all, idle`priority
    {
      forall t :: t in all && Queued(t) ==> t.state == Ready
    }

    ghost predicate Queued(t: Tcb)
      reads this, readyList, t`priority
    {
      t.priority < |readyList| && t in readyList[t.priority].tasks
    }

    ghost function Queues(): (q: seq<seq<Tcb>>)
      reads readyList
    {
      seq(|readyList|, p requires 0 <= p < |readyList| reads readyList => readyList[p].tasks)
    }

    ghost function Abs(): Sched<Tcb>
      reads this, readyList, current
    {
      Sched(Queues(), if current == idle then None else Some(current), current.priority, current.state == Running)
    }

    constructor ()
      ensures Valid() && all == {} && current == idle && Queues() == seq(MAX_PRIORITY, _ => []) && !schedulerRunning
    {
      var rings: seq<Ring> := [];
      while |rings| < MAX_PRIORITY
        invariant |rings| <= MAX_PRIORITY
        invariant forall p :: 0 <= p < |rings| ==> fresh(rings[p]) && rings[p].Linked() && rings[p].tasks == []
        invariant forall p, q :: 0 <= p < q < |rings| ==> rings[p] != rings[q]
      {
        var ring := new Ring();
        rings := rings + [ring];
      }
      var t := new Tcb(0);
      readyList, idle, current := rings, t, t;
      all, taskCount, schedulerRunning, idleListed := {}, 0, false, false;
    }

    /** get_highest_ready */
    method GetHighestReady() returns (task: Tcb)
      requires Valid()
      ensures var h := Highest(Queues());
              if h < 0 then task == idle else task == Queues()[h][0] && task in all && task.priority == h
    {
      var i := MAX_PRIORITY - 1;
      while i >= 0
        invariant -1 <= i < MAX_PRIORITY
        invariant forall p :: i < p < MAX_PRIORITY ==> Queues()[p] == []
      {
        assert RingOk(i);
        if readyList[i].head != null {
          HighestIs(Queues(), i);
          return readyList[i].head;
        }
        i := i - 1;
      }
      return idle;
    }

    /** Ring p may have changed; the other rings' tasks were not touched. */
    twostate lemma OtherRings(p: nat)
      requires |readyList| == MAX_PRIORITY && p < MAX_PRIORITY
      requires forall i, j :: 0 <= i < j < MAX_PRIORITY ==> readyList[i] != readyList[j]
      requires forall q :: 0 <= q < MAX_PRIORITY && q != p ==> old(RingOk(q)) && unchanged(readyList[q])
      requires unchanged(`all) && forall t :: t in old(all) ==> unchanged(t`priority) && (t.priority != p ==> unchanged(t))
      ensures forall q :: 0 <= q < MAX_PRIORITY && q != p ==> RingOk(q)
      ensures RingOk(p) ==> forall q :: 0 <= q < MAX_PRIORITY ==> RingOk(q)
    {
      forall q | 0 <= q < MAX_PRIORITY && q != p ensures RingOk(q) {
        assert old(RingOk(q));
        var ts := readyList[q].tasks;
        forall t | t in ts ensures t in old(all) && t.priority == q && unchanged(t) {
          assert t in old(readyList[q].tasks);
        }
        forall k | 0 <= k < |ts| ensures LinkedAt(ts, k) {
          assert old(LinkedAt(ts, k));
          assert ts[k] in ts;
        }
      }
    }

    /** ready_list_add */
    method ReadyListAdd(task: Tcb)
      requires Valid() && task in all && task !in readyList[task.priority].tasks
      modifies readyList, all`state, all`next, all`prev
      ensures Valid() && Queues() == AddReady(old(Queues()), task, task.priority)
      ensures readyList[task.priority].tasks == old(readyList[task.priority].tasks) + [task]
      ensures forall p :: 0 <= p < MAX_PRIORITY && p != task.priority ==> readyList[p].tasks == old(readyList[p].tasks)
      ensures task.state == Ready && forall t :: t in all && t != task ==> t.state == old(t.state)
      ensures old(AllReady()) ==> AllReady()
    {
      var p := task.priority;
      assert RingOk(p);
      readyList[p].Add(task);
      OtherRings(p);
    }

    /** ready_list_remove */
    method ReadyListRemove(task: Tcb)
      requires Valid() && task in all && task in readyList[task.priority].tasks
      modifies readyList, all`state, all`next, all`prev
      ensures Valid() && Queues() == old(Queues())[task.priority := Without(old(Queues())[task.priority], task)]
      ensures task !in readyList[task.priority].tasks
      ensures forall t :: t in all ==> t.state == old(t.state)
      ensures old(AllReady()) ==> AllReady()
    {
      var p := task.priority;
      assert RingOk(p);
      readyList[p].Remove(task);
      OtherRings(p);
    }

    /** The next task takes the processor. */
    method Promote(next: Tcb)
      requires Valid() && (next == idle || (next in all && next !in readyList[next.priority].tasks))
      modifies this`current, next`state
      ensures Valid() && Queues() == old(Queues()) && current == next && next.state == Running
      ensures old(AllReady()) ==> AllReady()
    {
      next.state := Running;
      current := next;
      forall p | 0 <= p < MAX_PRIORITY ensures RingOk(p) {
        assert old(RingOk(p));
        var ts := readyList[p].tasks;
        assert next !in ts;
        forall k | 0 <= k < |ts| ensures LinkedAt(ts, k) {
          assert old(LinkedAt(ts, k));
        }
      }
    }

    /** schedule_locked */
    method ScheduleLocked()
      requires Valid()
      modifies this`current, readyList, all`state, all`next, all`prev, idle`state
      ensures Valid() && Abs() == Switch(old(Abs()))
      ensures forall t :: t in all && t != current ==> t.state == old(t.state)
      ensures current == old(current) ==> current.state == old(current.state)
      ensures old(AllReady()) ==> AllReady()
    {
      var next := GetHighestReady();
      if next != current {
        hide RingOk, Highest, AllReady;
        Dispatch(next);
      }
    }

    /** The chosen task leaves its ring, unless it is the idle one, and takes the processor. */
    method Dispatch(next: Tcb)
      requires Valid()
      requires next == idle || (next in all && Queues()[next.priority] != [] && Queues()[next.priority][0] == next)
      modifies this`current, readyList, all`state, all`next, all`prev, next`state
      ensures Valid() && current == next && next.state == Running
      ensures Queues() == if next == idle then old(Queues()) else DropHead(old(Queues()), next.priority)
      ensures forall t :: t in all && t != next ==> t.state == old(t.state)
      ensures old(AllReady()) ==> AllReady()
    {
      hide RingOk;
      if next != idle {
        TakeHead(next);
      }
      Promote(next);
    }

    /** The chosen head leaves its ring. */
    method TakeHead(next: Tcb)
      requires Valid() && next in all && Queues()[next.priority] != [] && Queues()[next.priority][0] == next
      modifies readyList, all`state, all`next, all`prev
      ensures Valid() && Queues() == DropHead(old(Queues()), next.priority) && next !in readyList[next.priority].tasks
      ensures forall t :: t in all ==> t.state == old(t.state)
      ensures old(AllReady()) ==> AllReady()
    {
      assert Queues()[next.priority] == readyList[next.priority].tasks;
      WithoutHead(Queues()[next.priority]);
      ReadyListRemove(next);
    }

    /** task_yield */
    method TaskYield()
      requires Valid() && current != idle
      modifies this`current, readyList, all`state, all`next, all`prev, idle`state
      ensures Valid() && Abs() == Yield(old(Abs()))
      ensures old(AllReady()) ==> AllReady()
    {
      if current.state == Running {
        Requeue();
      }
      hide Switch, RingOk;
      ScheduleLocked();
    }

    /** The caller goes to the end of its ring, which is then rotated. */
    method Requeue()
      requires Valid() && current != idle && current.state == Running
      modifies readyList, all`state, all`next, all`prev
      ensures Valid() && current.state == Ready
      ensures Queues() == AddReady(old(Queues()), current, current.priority)
      ensures old(AllReady()) ==> AllReady()
    {
      assert RingOk(current.priority);
      ReadyListAdd(current);
      Rotation();
      readyList[current.priority].head := current.next;
    }

    /** The rotation in task_yield changes nothing: the caller was linked in just before the head. */
    lemma Rotation()
      requires Valid() && current in all
      requires var ts := readyList[current.priority].tasks; ts != [] && ts[|ts| - 1] == current
      ensures current.next == readyList[current.priority].head
    {
      var ts := readyList[current.priority].tasks;
      assert RingOk(current.priority);
      assert LinkedAt(ts, |ts| - 1);
    }

    /** task_sleep and task_terminate: the caller gives up the processor unless it heads the highest ring. */
    method Leave(state: TaskState)
      requires Valid() && current != idle && state in {Blocked, Terminated}
      modifies this`current, readyList, all`state, all`next, all`prev, idle`state
      ensures Valid() && Abs() == GiveUp(old(Abs()))
      ensures var h := Highest(old(Queues())); current == old(current) <==> h >= 0 && old(Queues())[h][0] == old(current)
      ensures old(current).state == state
      ensures old(AllReady()) && !old(Queued(current)) ==> AllReady()
    {
      SetState(state);
      ghost var h := Highest(Queues());
      assert h >= 0 ==> Queues()[h][0] in readyList[h].tasks && RingOk(h);
      hide RingOk, Highest, AllReady;
      ScheduleLocked();
    }

    method SetState(state: TaskState)
      requires Valid() && current != idle && state != Running && state != Suspended
      modifies current`state
      ensures Valid() && Queues() == old(Queues()) && current.state == state
      ensures old(AllReady()) && !Queued(current) ==> AllReady()
    {
      current.state := state;
      forall p | 0 <= p < MAX_PRIORITY ensures RingOk(p) {
        assert old(RingOk(p));
        var ts := readyList[p].tasks;
        forall k | 0 <= k < |ts| ensures LinkedAt(ts, k) {
          assert old(LinkedAt(ts, k));
        }
      }
    }

    /** task_create: refused for a priority out of range or a full table, otherwise a suspended task in no ring. */
    method TaskCreate(priority: nat) returns (task: Tcb?)
      requires Valid()
      modifies this`all, this`taskCount
      ensures Valid() && Queues() == old(Queues()) && (old(AllReady()) ==> AllReady())
      ensures task == null <==> priority >= 16 || old(taskCount) >= 32
      ensures task == null ==> all == old(all) && taskCount == old(taskCount)
      ensures task != null ==>
                && fresh(task) && all == old(all) + {task} && taskCount == old(taskCount) + 1
                && task.priority == priority && task.state == Suspended
    {
      if priority >= MAX_PRIORITY {
        return null;
      }
      if taskCount >= MAX_TASKS {
        return null;
      }
      task := new Tcb(priority);
      all := all + {task};
      taskCount := taskCount + 1;
      forall p | 0 <= p < MAX_PRIORITY ensures RingOk(p) {
        assert old(RingOk(p));
      }
    }

    /** scheduler_start. The idle task enters task_table if there is room; a full table is not noticed. */
    method Begin()
      requires Valid() && !schedulerRunning && current == idle
      modifies this`current, this`taskCount, this`schedulerRunning, this`idleListed
      modifies readyList, all`state, all`next, all`prev, idle`state
      ensures Valid() && schedulerRunning && Abs() == Started(old(Queues()))
      ensures taskCount == if old(taskCount) < MAX_TASKS then old(taskCount) + 1 else old(taskCount)
      ensures old(AllReady()) ==> AllReady()
    {
      hide RingOk, AllReady;
      Enlist();
      var next := GetHighestReady();
      hide Highest;
      Dispatch(next);
    }

    /** The idle task is created, READY and in no ring. */
    method Enlist()
      requires Valid() && !schedulerRunning && current == idle
      modifies this`taskCount, this`schedulerRunning, this`idleListed, idle`state
      ensures Valid() && schedulerRunning && Queues() == old(Queues()) && idle.state == Ready
      ensures taskCount == if old(taskCount) < MAX_TASKS then old(taskCount) + 1 else old(taskCount)
      ensures old(AllReady()) ==> AllReady()
    {
      if taskCount < MAX_TASKS {
        taskCount := taskCount + 1;
        idleListed := true;
      }
      idle.state := Ready;
      schedulerRunning := true;
      forall p | 0 <= p < MAX_PRIORITY ensures RingOk(p) {
        assert old(RingOk(p));
        forall k | 0 <= k < |readyList[p].tasks| ensures LinkedAt(readyList[p].tasks, k) {
          assert old(LinkedAt(readyList[p].tasks, k));
        }
      }
    }

    /** task_start, also before the scheduler runs; not by the idle task when it would have to yield. */
    method TaskStart(task: Tcb)
      requires Valid() && task in all
      requires task.state == Suspended && schedulerRunning && task.priority > current.priority ==> current != idle
      modifies this`current, readyList, all`state, all`next, all`prev, idle`state
      ensures Valid() && (old(AllReady()) ==> AllReady())
      ensures old(task.state) != Suspended ==> Abs() == old(Abs())
      ensures old(task.state) == Suspended ==>
                var queued := old(Abs()).(queues := AddReady(old(Queues()), task, task.priority));
                Abs() == if schedulerRunning && task.priority > old(current).priority then Yield(queued) else queued
    {
      if task.state == Suspended {
        assert RingOk(task.priority);
        ReadyListAdd(task);
        hide RingOk, AllReady, Switch, Highest;
        if schedulerRunning {
          if task.priority > current.priority {
            TaskYield();
          }
        }
      }
    }
  }

  lemma WithoutHead<T>(ts: seq<T>)
    requires ts != []
    ensures Without(ts, ts[0]) == ts[1..]
  {
  }
}
