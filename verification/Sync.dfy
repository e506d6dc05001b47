/** The kernel objects themselves: intrusive wait lists through the task control blocks, and the
    semaphore, mutex and event flags built on them. Each method is one critical section and is
    proved to make the corresponding step of SyncSpec or MutexSpec. */
module Sync {
  import opened Common
  import opened SyncSpec
  import opened TaskControl
  import M = MutexSpec

  function Nth(ts: seq<Tcb>, k: int): Tcb? { if 0 <= k < |ts| then ts[k] else null }

  ghost predicate LinkedAt(ts: seq<Tcb>, k: int)
    requires 0 <= k < |ts|
    reads ts`next, ts`prev
  {
    ts[k].next == Nth(ts, k + 1) && ts[k].prev == Nth(ts, k - 1)
  }

  /** A wait list, together with the tasks it has woken that have not yet run again. */
  class WaitList {
    var head: Tcb?
    ghost var tasks: seq<Tcb>
    ghost var pending: set<Tcb>

    ghost predicate Linked()
      reads this, tasks`next, tasks`prev
    {
      Distinct(tasks) && head == Nth(tasks, 0) && forall k :: 0 <= k < |tasks| ==> LinkedAt(tasks, k)
    }

    /** A pending task always finds STATUS_OK, so no wait loop returns early. */
    ghost predicate Valid()
      reads this, tasks`next, tasks`prev, pending`waitResult
    {
      Linked() && View().Sound() && forall t :: t in pending ==> t.waitResult == STATUS_OK
    }

    ghost function View(): Waiters<Tcb>
      reads this
    {
      Waiters(tasks, pending)
    }

    constructor ()
      ensures Valid() && View() == Waiters([], {})
    {
      head, tasks, pending := null, [], {};
    }

    /** wait_list_add. A task that is already listed bends the links back to itself; tasks stays what it was. */
    method Add(task: Tcb)
      requires Linked()
      modifies this`head, this`tasks, task`next, task`prev, tasks`prev
      ensures head == task && (Linked() <==> task !in old(tasks))
      ensures task !in old(tasks) ==> tasks == [task] + old(tasks)
      ensures task in old(tasks) ==> tasks == old(tasks) && task.next == old(head)
      ensures task == old(head) ==> task.next == task.prev == task
    {
      assert forall k :: 0 <= k < |tasks| ==> LinkedAt(tasks, k);
      assert tasks != [] ==> head in tasks;
      task.next := head;
      task.prev := null;
      if head != null {
        head.prev := task;
      }
      head := task;
      if task !in tasks {
        ghost var was := tasks;
        tasks := [task] + tasks;
        forall k | 0 <= k < |tasks| ensures LinkedAt(tasks, k) {
          if k > 0 { assert old(LinkedAt(was, k - 1)) && tasks[k] == was[k - 1]; }
        }
      } else {
        ghost var i :| 0 <= i < |tasks| && tasks[i] == task;
        assert Linked() ==> LinkedAt(tasks, i);
      }
    }

    /** wait_list_remove_first */
    method RemoveFirst() returns (task: Tcb?)
      requires Linked()
      modifies this`head, this`tasks, tasks`next, tasks`prev
      ensures Linked()
      ensures if old(tasks) == [] then task == null && tasks == [] else task == old(tasks)[0] && tasks == old(tasks)[1..]
    {
      task := head;
      if task != null {
        ghost var was := tasks;
        assert LinkedAt(was, 0);
        assert |was| > 1 ==> LinkedAt(was, 1);
        head := task.next;
        if head != null {
          head.prev := null;
        }
        task.next := null;
        tasks := tasks[1..];
        forall k | 0 <= k < |tasks| ensures LinkedAt(tasks, k) {
          assert old(LinkedAt(was, k + 1)) && tasks[k] == was[k + 1];
        }
      }
    }

    /** Block the caller on obj. */
    method Park(task: Tcb, obj: object)
      requires Valid()
      modifies this, task`next, task`prev, task`state, task`waitObj, tasks`prev
      ensures task.state == Blocked && task.waitObj == obj && head == task
      ensures task !in old(tasks) ==> Valid() && View() == old(View()).Park(task)
      ensures task in old(tasks) ==> !Linked() && task.next == old(head)
    {
      if task !in tasks { ParkSound(View(), task); }
      task.state := Blocked;
      task.waitObj := obj;
      Add(task);
      if task !in old(tasks) { pending := pending - {task}; }
    }

    /** Make the first waiter ready, if there is one. */
    method WakeOne()
      requires Valid()
      modifies this, tasks`next, tasks`prev, tasks`state, tasks`waitObj, tasks`waitResult
      ensures Valid() && View() == old(View()).WakeOne()
      ensures old(tasks) != [] ==> old(tasks)[0].state == Ready && old(tasks)[0].waitObj == null
    {
      WakeSound(View());
      var task := RemoveFirst();
      if task != null {
        MakeReady(task);
        pending := pending + {task};
      }
    }

    /** A task that was just taken off the list. */
    method MakeReady(task: Tcb)
      modifies task`state, task`waitObj, task`waitResult
      ensures task.state == Ready && task.waitObj == null && task.waitResult == STATUS_OK
    {
      task.waitObj := null;
      task.waitResult := STATUS_OK;
      task.state := Ready;
    }

    /** The caller goes on past its wait loop. */
    ghost method Leave(task: Tcb)
      requires Valid()
      modifies this`pending
      ensures Valid() && View() == old(View()).Leave(task)
    {
      LeaveSound(View(), task);
      pending := pending - {task};
    }
  }

  class Semaphore {
    var count: int
    const list: WaitList

    ghost predicate Valid()
      reads this, list, list.tasks, list.pending
    {
      list.Valid()
    }

    ghost function Abs(): Sem<Tcb>
      reads this, list
    {
      Sem(count, list.View())
    }

    /** sem_init */
    constructor (initial: int)
      ensures Valid() && Abs() == Sem(initial, Waiters([], {})) && fresh(list)
    {
      count := initial;
      list := new WaitList();
    }

    /** One pass of sem_wait: take a token or park. To park a task that is still parked breaks the list. */
    method WaitPass(task: Tcb) returns (taken: bool)
      requires Valid()
      modifies this, list, list.tasks, task
      ensures taken <==> old(count) > 0
      ensures Valid() <==> taken || task !in old(list.tasks)
      ensures Valid() ==> (Abs(), taken) == SemPass(old(Abs()), task)
      ensures !taken ==> count == old(count) && task.state == Blocked && task.waitObj == this && list.head == task
      ensures !Valid() ==> !list.Linked() && task.next == old(list.head)
    {
      if count <= 0 {
        list.Park(task, this);
        return false;
      }
      count := count - 1;
      list.Leave(task);
      return true;
    }

    method TryWait() returns (taken: bool)
      requires Valid()
      modifies this
      ensures Valid() && (Abs(), taken) == SemTry(old(Abs()))
    {
      if count > 0 {
        count := count - 1;
        return true;
      }
      return false;
    }

    method Post()
      requires Valid()
      modifies this, list, list.tasks
      ensures Valid() && Abs() == SemPost(old(Abs()))
    {
      count := count + 1;
      list.WakeOne();
    }
  }

  class Mutex {
    var owner: Tcb?
    var lockCount: nat
    var origPriority: nat
    const list: WaitList
    ghost const all: set<Tcb>  // every task that may use this mutex

    ghost predicate Valid()
      reads this, list, list.tasks, list.pending
    {
      && list.Valid()
      && (owner != null ==> owner in all && lockCount > 0)
      && (forall t :: t in list.tasks ==> t in all)
    }

    ghost function Priorities(): map<Tcb, nat>
      reads all`priority
    {
      map t | t in all :: t.priority
    }

    ghost function Abs(): M.Mutex<Tcb>
      reads this, all, list
    {
      M.Mutex(if owner == null then None else Some(owner), lockCount, origPriority, list.View(), Priorities())
    }

    /** mutex_init */
    constructor (ghost all: set<Tcb>)
      ensures Valid() && this.all == all && Abs() == M.Mutex(None, 0, 0, Waiters([], {}), Priorities()) && fresh(list)
    {
      this.all := all;
      owner, lockCount, origPriority := null, 0, 0;
      list := new WaitList();
    }

    /** One pass of the loop in mutex_lock: boost the owner and park, or take the mutex. */
    method LoopPass(task: Tcb) returns (locked: bool)
      requires Valid() && task in all
      modifies this, list, all
      ensures locked <==> old(owner) == null
      ensures Valid() <==> locked || task !in old(list.tasks)
      ensures Valid() ==> (Abs(), locked) == M.LoopPass(old(Abs()), task)
      ensures !Valid() ==> !list.Linked() && list.head == task && task.next == old(list.head)
    {
      if owner != null {
        if task.priority > owner.priority {
          owner.priority := task.priority;
        }
        assert Priorities() == M.Boosted(old(Abs()), task);
        list.Park(task, this);
        assert Priorities() == M.Boosted(old(Abs()), task);
        return false;
      }
      owner := task;
      lockCount := 1;
      origPriority := task.priority;
      list.Leave(task);
      return true;
    }

    method Lock(task: Tcb) returns (locked: bool)
      requires Valid() && task in all
      modifies this, list, all
      ensures Valid() <==> locked || task !in old(list.tasks)
      ensures Valid() ==> (Abs(), locked) == M.Lock(old(Abs()), task)
    {
      if owner == task {
        lockCount := lockCount + 1;
        return true;
      }
      locked := LoopPass(task);
    }

    method TryLock(task: Tcb) returns (locked: bool)
      requires Valid() && task in all
      modifies this, list
      ensures Valid() && (Abs(), locked) == M.TryLock(old(Abs()), task)
    {
      if owner == null {
        owner := task;
        lockCount := 1;
        origPriority := task.priority;
        list.Leave(task);
        return true;
      }
      if owner == task {
        lockCount := lockCount + 1;
        return true;
      }
      return false;
    }

    method Unlock(task: Tcb)
      requires Valid() && task in all
      modifies this, list, all
      ensures Valid() && Abs() == M.Unlock(old(Abs()), task)
    {
      if owner != task { return; }
      lockCount := lockCount - 1;
      if lockCount > 0 { return; }
      task.priority := origPriority;
      owner := null;
      list.WakeOne();
      assert Priorities() == old(Priorities())[task := old(origPriority)];
    }
  }

  /** The tasks behind a set of waits. */
  ghost function Tasks(ws: set<EventWait<Tcb>>): set<Tcb> { set w | w in ws :: w.task }

  ghost predicate OneEach(ws: set<EventWait<Tcb>>) {
    forall v, w :: v in ws && w in ws && v.task == w.task ==> v == w
  }

  class EventFlags {
    var flags: Word
    const list: WaitList
    ghost var parked: seq<EventWait<Tcb>>  // what each listed task is waiting for
    ghost var pending: set<EventWait<Tcb>>

    ghost predicate Valid()
      reads this, list, list.tasks, list.pending
    {
      && list.Valid() && |parked| == |list.tasks|
      && (forall k :: 0 <= k < |parked| ==> parked[k].task == list.tasks[k])
      && OneEach(pending) && list.pending == Tasks(pending)
    }

    /** A call resumes with the arguments it parked with. */
    ghost predicate Resumes(me: EventWait<Tcb>)
      reads this, list
    {
      me.task in list.pending ==> me in pending
    }

    ghost function Abs(): Event<Tcb>
      reads this
    {
      Event(flags, Waiters(parked, pending))
    }

    /** event_init */
    constructor ()
      ensures Valid() && Abs() == Event({}, Waiters([], {})) && fresh(list)
    {
      flags, parked, pending := {}, [], {};
      list := new WaitList();
    }

    /** One pass of event_wait; flagsOut is what *flags_out receives. */
    method WaitPass(task: Tcb, mask: Word, waitAll: bool, clear: bool) returns (met: bool, flagsOut: Word)
      requires Valid() && Resumes(EventWait(task, mask, waitAll, clear))
      modifies this, list, list.tasks, task
      ensures met <==> Matches(old(flags), mask, waitAll)
      ensures Valid() <==> met || task !in old(list.tasks)
      ensures Valid() ==> (Abs(), met) == EventPass(old(Abs()), EventWait(task, mask, waitAll, clear))
      ensures !Valid() ==> !list.Linked() && list.head == task && task.next == old(list.head)
      ensures flagsOut == old(flags)
    {
      ghost var me := EventWait(task, mask, waitAll, clear);
      flagsOut := flags;
      met := Matches(flags, mask, waitAll);
      if met {
        if clear { flags := flags - mask; }
        Leave(task, me);
      } else {
        Park(task, me);
      }
    }

    method Park(task: Tcb, ghost me: EventWait<Tcb>)
      requires Valid() && me.task == task && Resumes(me)
      modifies this`parked, this`pending, list, list.tasks, task
      ensures Valid() <==> task !in old(list.tasks)
      ensures Valid() ==> Abs() == Event(flags, old(Abs()).waiters.Park(me))
      ensures !Valid() ==> !list.Linked() && list.head == task && task.next == old(list.head)
    {
      list.Park(task, this);
      if task !in old(list.tasks) {
        parked, pending := [me] + parked, pending - {me};
      }
    }

    ghost method Leave(task: Tcb, me: EventWait<Tcb>)
      requires Valid() && me.task == task && Resumes(me)
      modifies this`pending, list
      ensures Valid() && Abs() == Event(flags, old(Abs()).waiters.Leave(me))
    {
      list.Leave(task);
      pending := pending - {me};
    }

    /** event_set: wake all waiters. */
    method Set(mask: Word)
      requires Valid()
      modifies this, list, list.tasks
      ensures Valid() && Abs() == EventSet(old(Abs()), mask)
    {
      ghost var all, k := list.tasks, 0;
      flags := flags + mask;
      ghost var goal := WakeAll(Waiters(parked, pending));
      while list.head != null
        invariant Valid() && k <= |all| && list.tasks == all[k..]
        invariant flags == old(flags) + mask && WakeAll(Waiters(parked, pending)) == goal
        decreases |parked|
      {
        WakeFirst();
        k := k + 1;
      }
    }

    method WakeFirst()
      requires Valid() && parked != []
      modifies this`parked, this`pending, list, list.tasks
      ensures Valid() && Abs() == Event(old(flags), old(Abs()).waiters.WakeOne())
      ensures list.tasks == old(list.tasks)[1..]
    {
      list.WakeOne();
      parked, pending := parked[1..], pending + {parked[0]};
    }

    method Clear(mask: Word)
      requires Valid()
      modifies this`flags
      ensures Valid() && Abs() == EventClear(old(Abs()), mask)
    {
      flags := flags - mask;
    }
  }
}
