/** Joint runs of the scheduler and a semaphore: which runs keep the shared links intact, and what the semaphore promises
    in them. */
module KernelRuns {
  import opened Common
  import opened KernelLinks
  import opened SchedSpec
  import opened SyncSpec

  // ----- joint runs of the scheduler and the semaphore

  /** The scheduler's queues, the semaphore, and each task's priority. */
  datatype Joint<T(==)> = Joint(s: Sched<T>, w: Sem<T>, prio: map<T, nat>)

  function Next<T(==)>(j: Joint<T>, a: Act<T>): Joint<T> {
    match a
    case Begin => j.(s := Switch(j.s))
    case Yields => j.(s := Turned(j.s))
    case GivesUp => j.(s := GiveUp(j.s))
    case Posts => j.(w := SemPost(j.w))
    case Links(t) => if t in j.prio && j.prio[t] < |j.s.queues| then j.(s := j.s.(queues := AddReady(j.s.queues, t, j.prio[t]))) else j
    case Passes =>
      if j.s.current.None? then j
      else j.(s := if j.w.count > 0 then j.s else GiveUp(j.s), w := SemPass(j.w, j.s.current.value).0)
  }

  /** Calls are made by the current task; a task that is linked in is in no ring, not running and not parked. */
  ghost predicate May<T>(j: Joint<T>, a: Act<T>) {
    match a
    case Begin => j.s.current.None?
    case Posts => true
    case Links(t) =>
      t in j.prio && j.prio[t] < |j.s.queues| && Enabled(j.s, EAdd(t, j.prio[t])) && t !in j.w.waiters.parked
    case _ => j.s.current.Some?
  }

  /** Nobody blocks while it is in its ready ring. */
  predicate Clean<T(==)>(j: Joint<T>, a: Act<T>) { a.Passes? && j.w.count <= 0 ==> !InRing(j.s) }

  /** No parked task is in a ring or holds the processor, so none can make a pass. */
  ghost predicate ParkedOut<T>(j: Joint<T>) {
    forall t :: t in j.w.waiters.parked ==> Outside(j.s, t)
  }

  ghost predicate Fits<T>(k: Kernel<T>, j: Joint<T>) {
    && Holds(k, j.s.queues, j.w.waiters.parked) && Runner(k, j.s) && k.count == j.w.count
    && k.tasks.Keys == j.prio.Keys && (forall t :: t in j.prio ==> k.tasks[t].prio == j.prio[t])
  }

  ghost predicate Rep<T>(k: Kernel<T>, j: Joint<T>) {
    Fits(k, j) && Sane(j.s) && j.w.waiters.Sound() && ParkedOut(j)
  }

  lemma SwitchFits<T>(k: Kernel<T>, j: Joint<T>, s: Sched<T>)
    requires Holds(k, s.queues, j.w.waiters.parked) && Runner(k, s) && k.count == j.w.count
    requires k.tasks.Keys == j.prio.Keys && forall t :: t in j.prio ==> k.tasks[t].prio == j.prio[t]
    ensures Schedule(k).Some? && Fits(Schedule(k).value, j.(s := Switch(s)))
  {
    Scheduled(k, s, j.w.waiters.parked);
    SchedulePrio(k);
  }

  lemma SchedulePrio<T>(k: Kernel<T>)
    requires Schedule(k).Some?
    ensures forall t :: t in k.tasks ==> t in Schedule(k).value.tasks && Schedule(k).value.tasks[t].prio == k.tasks[t].prio
  {
  }

  lemma HoldsSize<T>(k: Kernel<T>, queues: seq<seq<T>>, parked: seq<T>)
    requires Holds(k, queues, parked)
    ensures |k.ready| == |queues|
  {
  }

  lemma YieldFits<T>(k: Kernel<T>, j: Joint<T>)
    requires Rep(k, j) && j.s.current.Some?
    ensures Yielded(k).Some? && Fits(Yielded(k).value, j.(s := Turned(j.s)))
  {
    HoldsSize(k, j.s.queues, j.w.waiters.parked);
    hide Holds, Schedule, Switch, Outside, Sane, Link;
    if j.s.running {
      Requeued(k, j);
      var k1 := Link(k, j.s.current.value).value;
      assert k1.ready[j.s.prio := k1.tasks[j.s.current.value].next] == k1.ready;
      SwitchFits(k1, j, j.s.(queues := AddReady(j.s.queues, j.s.current.value, j.s.prio), running := false));
    } else {
      SwitchFits(k, j, j.s);
    }
  }

  /** A running caller goes to the end of its ring, and its next is then the ring's head. */
  lemma Requeued<T>(k: Kernel<T>, j: Joint<T>)
    requires Rep(k, j) && j.s.current.Some? && j.s.running
    ensures var t, p := j.s.current.value, j.s.prio;
            && Link(k, t).Some? && p < |Link(k, t).value.ready|
            && var k1 := Link(k, t).value;
            && Holds(k1, AddReady(j.s.queues, t, p), j.w.waiters.parked) && k1.(tasks := k.tasks, ready := k.ready) == k
            && k1.tasks.Keys == k.tasks.Keys && (forall u :: u in k.tasks ==> k1.tasks[u].prio == k.tasks[u].prio)
            && !k1.tasks[t].running && k1.tasks[t].next == k1.ready[p]
  {
    NotQueued(j);
    HoldsSize(k, j.s.queues, j.w.waiters.parked);
    Linked(k, j.s.queues, j.w.waiters.parked, j.s.current.value);
    hide Holds;
  }

  lemma NotQueued<T>(j: Joint<T>)
    requires Sane(j.s) && ParkedOut(j) && j.s.current.Some?
    ensures j.s.current.value !in j.w.waiters.parked
    ensures j.s.running || !InRing(j.s) ==> forall p :: 0 <= p < |j.s.queues| ==> j.s.current.value !in j.s.queues[p]
  {
  }

  lemma GiveUpFits<T>(k: Kernel<T>, j: Joint<T>)
    requires Rep(k, j) && j.s.current.Some?
    ensures Schedule(Stopped(k)).Some? && Fits(Schedule(Stopped(k)).value, j.(s := GiveUp(j.s)))
  {
    hide Holds, Schedule, Switch;
    Marked(k, j.s.current.value, false, j.s.queues, j.w.waiters.parked);
    SwitchFits(Stopped(k), j, j.s.(running := false));
  }

  /** wait_list_add of a caller that is in no ring. */
  lemma ParkHolds<T>(k: Kernel<T>, j: Joint<T>)
    requires Rep(k, j) && j.s.current.Some? && !InRing(j.s)
    ensures Holds(Parked(k), j.s.queues, [j.s.current.value] + j.w.waiters.parked) && Runner(Parked(k), j.s.(running := false))
  {
    var t, parked := j.s.current.value, j.w.waiters.parked;
    NotQueued(j);
    Marked(k, t, false, j.s.queues, parked);
    AddToList(Stopped(k).tasks, k.wait, parked, t);
    OneList(Stopped(k), Parked(k).tasks, Parked(k).wait, j.s.queues, parked, [t] + parked, Members(parked) + {t});
    hide Holds, ListOf, WaitAdd;
  }

  lemma ParkPrio<T>(k: Kernel<T>)
    requires k.current.Some? && k.current.value in k.tasks
    ensures Parked(k).tasks.Keys == k.tasks.Keys && Parked(k).count == k.count && !Parked(k).tasks[k.current.value].running
    ensures forall t :: t in k.tasks ==> Parked(k).tasks[t].prio == k.tasks[t].prio
  {
  }

  lemma ParkFits<T>(k: Kernel<T>, j: Joint<T>)
    requires Rep(k, j) && j.s.current.Some? && !InRing(j.s) && j.w.count <= 0
    ensures Pass(k).Some? && Fits(Pass(k).value, Next(j, Passes))
  {
    hide Holds, Parked, Schedule, Switch, Outside, Sane;
    ParkHolds(k, j);
    ParkPrio(k);
    SwitchFits(Parked(k), j.(w := SemPass(j.w, j.s.current.value).0), j.s.(running := false));
  }

  lemma TakeFits<T>(k: Kernel<T>, j: Joint<T>)
    requires Rep(k, j) && j.s.current.Some? && j.w.count > 0
    ensures Pass(k).Some? && Fits(Pass(k).value, Next(j, Passes))
  {
  }

  lemma PostFits<T>(k: Kernel<T>, j: Joint<T>)
    requires Rep(k, j)
    ensures Fits(Posted(k), Next(j, Posts))
  {
    var parked := j.w.waiters.parked;
    RemoveFromList(k.tasks, k.wait, parked);
    var r := RemoveFirst(k.tasks, k.wait);
    assert forall p, t :: 0 <= p < |j.s.queues| && t in j.s.queues[p] ==> t !in parked;
    OneList(k, r.0, r.1, j.s.queues, parked, if parked == [] then [] else parked[1..], Members(parked));
    hide Holds, ListOf;
    assert j.s.current.Some? ==> j.s.current.value !in parked by { if j.s.current.Some? { NotQueued(j); } }
  }

  lemma LinkFits<T>(k: Kernel<T>, j: Joint<T>, t: T)
    requires Rep(k, j) && May(j, Links(t))
    ensures Link(k, t).Some? && Fits(Link(k, t).value, Next(j, Links(t)))
  {
    hide Holds;
    Linked(k, j.s.queues, j.w.waiters.parked, t);
    if j.s.current.Some? { NotQueued(j); }
  }

  lemma NextSane<T>(j: Joint<T>, a: Act<T>)
    requires Sane(j.s) && j.w.waiters.Sound() && ParkedOut(j) && May(j, a) && Clean(j, a)
    ensures Sane(Next(j, a).s) && Next(j, a).w.waiters.Sound()
  {
    hide Sane, Switch, Turned, GiveUp, Outside;
    match a
    case Begin => StepSane(j.s, EBegin);
    case Yields => StepSane(j.s, EYield);
    case GivesUp => StepSane(j.s, EGiveUp);
    case Links(t) => StepSane(j.s, EAdd(t, j.prio[t]));
    case Posts => WakeSound(j.w.waiters);
    case Passes =>
      NotQueued(j);
      StepSane(j.s, EGiveUp);
      ParkSound(j.w.waiters, j.s.current.value);
      LeaveSound(j.w.waiters, j.s.current.value);
  }

  /** Whom a parked task is kept from by a clean step. */
  lemma StillOut<T>(j: Joint<T>, a: Act<T>)
    requires Sane(j.s) && j.w.waiters.Sound() && ParkedOut(j) && May(j, a) && Clean(j, a)
    ensures ParkedOut(Next(j, a))
  {
    forall t | t in Next(j, a).w.waiters.parked ensures Outside(Next(j, a).s, t) {
      StaysOut(j, a, t);
    }
  }

  lemma StaysOut<T>(j: Joint<T>, a: Act<T>, t: T)
    requires Sane(j.s) && j.w.waiters.Sound() && ParkedOut(j) && May(j, a) && Clean(j, a)
    requires t in Next(j, a).w.waiters.parked
    ensures Outside(Next(j, a).s, t)
  {
    hide Sane, Switch, Turned, GiveUp, Outside, InRing;
    if a.Passes? && j.w.count <= 0 && t == j.s.current.value {
      GivenUpOutside(j.s);
    } else {
      assert t in j.w.waiters.parked;
      match a
      case Begin => StepOutside(j.s, EBegin, t);
      case Yields => StepOutside(j.s, EYield, t);
      case GivesUp => StepOutside(j.s, EGiveUp, t);
      case Links(u) => StepOutside(j.s, EAdd(u, j.prio[u]), t);
      case Posts =>
      case Passes => StepOutside(j.s, EGiveUp, t);
    }
  }

  /** A clean step does on the pointers what it does on the queues, and follows no null pointer. */
  lemma DoKeeps<T>(k: Kernel<T>, j: Joint<T>, a: Act<T>)
    requires Rep(k, j) && May(j, a) && Clean(j, a)
    ensures Do(k, a).Some? && Rep(Do(k, a).value, Next(j, a))
  {
    hide Holds, Sane, Schedule, Yielded, Link, Posted, Stopped, Switch, Turned, GiveUp, ParkedOut, InRing;
    NextSane(j, a);
    StillOut(j, a);
    match a
    case Begin => SwitchFits(k, j, j.s);
    case Yields => YieldFits(k, j);
    case GivesUp => GiveUpFits(k, j);
    case Links(t) => LinkFits(k, j, t);
    case Posts => PostFits(k, j);
    case Passes => if j.w.count <= 0 { ParkFits(k, j); } else { TakeFits(k, j); }
  }

  ghost predicate Mays<T>(j: Joint<T>, acts: seq<Act<T>>)
    decreases |acts|
  {
    acts == [] || (May(j, acts[0]) && Mays(Next(j, acts[0]), acts[1..]))
  }

  function NextAll<T(==)>(j: Joint<T>, acts: seq<Act<T>>): Joint<T>
    decreases |acts|
  {
    if acts == [] then j else NextAll(Next(j, acts[0]), acts[1..])
  }

  predicate AllClean<T(==)>(j: Joint<T>, acts: seq<Act<T>>)
    decreases |acts|
  {
    acts == [] || (Clean(j, acts[0]) && AllClean(Next(j, acts[0]), acts[1..]))
  }

  /** The semaphore's part of the run: a caller that was woken resumes, any other calls. */
  function Calls<T(==)>(j: Joint<T>, acts: seq<Act<T>>): seq<SemEvent<T>>
    decreases |acts|
  {
    if acts == [] then []
    else Call(j, acts[0]) + Calls(Next(j, acts[0]), acts[1..])
  }

  function Call<T(==)>(j: Joint<T>, a: Act<T>): seq<SemEvent<T>> {
    if a.Posts? then [Post]
    else if a.Passes? && j.s.current.Some? then
      [if j.s.current.value in j.w.waiters.pending then Resume(j.s.current.value) else Wait(j.s.current.value)]
    else []
  }

  /** In every joint run in which nobody blocks while it is in its ready ring: no null pointer is followed, every ring
      and the wait list stay well linked, no task is in two of them, and no parked task makes a pass; so the
      semaphore's own run is one in which callers come back only after they were woken. */
  lemma {:induction false} CleanRun<T>(k: Kernel<T>, j: Joint<T>, acts: seq<Act<T>>)
    requires Rep(k, j) && Mays(j, acts) && AllClean(j, acts)
    ensures DoAll(k, acts).Some? && Rep(DoAll(k, acts).value, NextAll(j, acts))
    ensures SemRuns(j.w, Calls(j, acts)) && NextAll(j, acts).w == SemRun(j.w, Calls(j, acts))
    decreases |acts|
  {
    hide Rep, May, Clean, Next, Do, Call, SemEnabled, SemStep;
    if acts != [] {
      DoKeeps(k, j, acts[0]);
      CleanRun(Do(k, acts[0]).value, Next(j, acts[0]), acts[1..]);
      CallMade(k, j, acts[0]);
      OneCall(j.w, Call(j, acts[0]), Calls(Next(j, acts[0]), acts[1..]));
    }
  }

  lemma CallMade<T>(k: Kernel<T>, j: Joint<T>, a: Act<T>)
    requires Rep(k, j) && May(j, a)
    ensures |Call(j, a)| <= 1 && (Call(j, a) == [] ==> Next(j, a).w == j.w)
    ensures |Call(j, a)| == 1 ==> SemEnabled(j.w, Call(j, a)[0]) && Next(j, a).w == SemStep(j.w, Call(j, a)[0])
  {
    hide Holds, Sane, Switch, Turned, GiveUp;
    if a.Passes? { NotQueuedIn(k, j); }
  }

  lemma NotQueuedIn<T>(k: Kernel<T>, j: Joint<T>)
    requires Rep(k, j) && j.s.current.Some?
    ensures j.s.current.value !in j.w.waiters.parked
  {
    NotQueued(j);
  }

  lemma OneCall<T>(w: Sem<T>, call: seq<SemEvent<T>>, rest: seq<SemEvent<T>>)
    requires |call| <= 1 && (|call| == 1 ==> SemEnabled(w, call[0]))
    requires SemRuns(if call == [] then w else SemStep(w, call[0]), rest)
    ensures SemRuns(w, call + rest)
    ensures SemRun(w, call + rest) == SemRun(if call == [] then w else SemStep(w, call[0]), rest)
  {
    if call == [] { assert call + rest == rest; } else { assert (call + rest)[1..] == rest; }
  }

  // ----- from the start

  function Booted<T(==)>(prio: map<T, nat>, n: nat, count: int): Joint<T> {
    Joint(Idle(n), SemFresh(count), prio)
  }

  lemma BootRep<T>(prio: map<T, nat>, n: nat, count: int)
    requires n > 0
    ensures Rep(Boot(prio, n, count), Booted(prio, n, count))
  {
  }

  /** From sem_init and an empty scheduler, every joint run in which nobody blocks while it is in its ready ring keeps the
      pointers intact, conserves tokens and loses no wake-up. */
  lemma JointSafety<T>(prio: map<T, nat>, n: nat, count: int, acts: seq<Act<T>>)
    requires n > 0 && Mays(Booted(prio, n, count), acts) && AllClean(Booted(prio, n, count), acts)
    ensures var j := Booted(prio, n, count);
            var k, j1 := DoAll(Boot(prio, n, count), acts), NextAll(j, acts);
            && k.Some? && Rep(k.value, j1) && SemInv(j1.w)
            && k.value.count == count - SemTaken(j.w, Calls(j, acts)) && (count >= 0 ==> k.value.count >= 0)
  {
    var j := Booted(prio, n, count);
    BootRep(prio, n, count);
    CleanRun(Boot(prio, n, count), j, acts);
    hide SemTaken, SemRun, SemRuns, Calls, NextAll, DoAll, Mays, AllClean, Holds;
    SemSafety(count, Calls(j, acts));
  }

  // ----- what blocking in a ready ring does

  /** wait_list_add by the current task keeps the ready rings linked exactly when the task is in none of them. */
  lemma ParkKeepsRingsExactly<T>(k: Kernel<T>, j: Joint<T>)
    requires Rep(k, j) && j.s.current.Some?
    ensures Ringed(Parked(k).tasks, k.ready, j.s.queues) <==> !InRing(j.s)
  {
    if InRing(j.s) {
      var q := j.s.queues[j.s.prio];
      ParkedHead(k, j);
      assert RingOf(Parked(k).tasks, k.ready[j.s.prio], q) ==> RingAt(Parked(k).tasks, q, 0);
    } else {
      ParkHolds(k, j);
    }
  }

  /** A caller in its ring is its head, and is left without a prev. */
  lemma ParkedHead<T>(k: Kernel<T>, j: Joint<T>)
    requires Rep(k, j) && j.s.current.Some? && InRing(j.s)
    ensures j.s.queues[j.s.prio] != [] && j.s.queues[j.s.prio][0] == j.s.current.value && k.ready[j.s.prio] == j.s.current
    ensures Parked(k).tasks[j.s.current.value].prev == None && Parked(k).ready == k.ready && Parked(k).current == k.current
  {
    NotQueued(j);
    assert RingOf(k.tasks, k.ready[j.s.prio], j.s.queues[j.s.prio]);
    assert j.w.waiters.parked != [] ==> j.w.waiters.parked[0] in j.w.waiters.parked;
  }

  /** The next task of that priority to become ready then follows a null pointer. */
  lemma NextReadyFaults<T>(k: Kernel<T>, j: Joint<T>, y: T)
    requires Rep(k, j) && j.s.current.Some? && InRing(j.s)
    requires y in j.prio && j.prio[y] == j.s.prio && y != j.s.current.value
    ensures Link(Parked(k), y) == None
  {
    ParkedHead(k, j);
    ParkPrio(k);
  }

  /** A caller that blocks keeps the processor, and so makes its next pass while it is still parked, exactly when it
      is in its ring and nothing ready outranks it. */
  lemma KeepsProcessorExactly<T>(k: Kernel<T>, j: Joint<T>)
    requires Rep(k, j) && j.s.current.Some? && j.w.count <= 0
    ensures Pass(k).Some? && (Pass(k).value.current == j.s.current <==> InRing(j.s) && OnTop(j.s))
  {
    if !InRing(j.s) {
      hide Holds, Sane, Parked, Schedule, Yielded;
      ParkFits(k, j);
      GivesUpExactly(j.s);
    } else if OnTop(j.s) {
      KeepsIt(k, j);
    } else {
      LosesIt(k, j);
    }
  }

  lemma KeepsIt<T>(k: Kernel<T>, j: Joint<T>)
    requires Rep(k, j) && j.s.current.Some? && j.w.count <= 0 && InRing(j.s) && OnTop(j.s)
    ensures Pass(k) == Some(Parked(k)) && Parked(k).current == j.s.current
  {
    ParkedHead(k, j);
    ParkPrio(k);
    TopIs(k.tasks, k.ready, j.s.queues);
    HighestIs(j.s.queues, j.s.prio);
  }

  lemma LosesIt<T>(k: Kernel<T>, j: Joint<T>)
    requires Rep(k, j) && j.s.current.Some? && j.w.count <= 0 && InRing(j.s) && !OnTop(j.s)
    ensures Pass(k).Some? && Pass(k).value.current != j.s.current
  {
    var k1, h := Parked(k), Highest(j.s.queues);
    ParkedHead(k, j);
    ParkPrio(k);
    TopIs(k.tasks, k.ready, j.s.queues);
    OtherRing(k, j, h);
    hide Holds, Parked, RingOf, ReadyRemove, Sane, Outside;
    RemoveFromRing(k1.tasks, k1.ready, h, j.s.queues[h]);
  }

  lemma OtherRing<T>(k: Kernel<T>, j: Joint<T>, h: nat)
    requires Rep(k, j) && j.s.current.Some? && h < |j.s.queues| && j.s.queues[h] != [] && h != j.s.prio
    ensures var q, m := j.s.queues[h], Parked(k).tasks;
            RingOf(m, k.ready[h], q) && q[0] in m && m[q[0]].prio == h && q[0] != j.s.current.value
  {
    var q, parked, m := j.s.queues[h], j.w.waiters.parked, Parked(k).tasks;
    NotQueued(j);
    Marked(k, j.s.current.value, false, j.s.queues, parked);
    AddToList(Stopped(k).tasks, k.wait, parked, j.s.current.value);
    assert RingOf(Stopped(k).tasks, k.ready[h], q) && Ranked(k.tasks, q, h) && q[0] in q;
    RingFrame(Stopped(k).tasks, m, Members(parked) + {j.s.current.value}, k.ready[h], q);
    ParkPrio(k);
  }

  lemma StaysInside<T>(s: Sched<T>)
    requires Sane(s) && s.current.Some? && InRing(s)
    ensures !Outside(GiveUp(s), s.current.value)
  {
    var h := Highest(s.queues);
    if h != s.prio { assert GiveUp(s).queues[s.prio] == s.queues[s.prio]; }
  }

  /** The parked tasks stay out of the rings and off the processor exactly when the caller was in no ring. */
  lemma ParkedOutExactly<T>(j: Joint<T>)
    requires Sane(j.s) && j.w.waiters.Sound() && ParkedOut(j) && j.s.current.Some? && j.w.count <= 0
    ensures ParkedOut(Next(j, Passes)) <==> !InRing(j.s)
  {
    var t := j.s.current.value;
    if InRing(j.s) {
      assert ([t] + j.w.waiters.parked)[0] == t && t in Next(j, Passes).w.waiters.parked;
      StaysInside(j.s);
    } else {
      StillOut(j, Passes);
    }
  }

  ghost predicate AlwaysOut<T>(j: Joint<T>, acts: seq<Act<T>>)
    decreases |acts|
  {
    ParkedOut(j) && (acts == [] || AlwaysOut(Next(j, acts[0]), acts[1..]))
  }

  /** Over every run: no parked task is ever in a ring or current exactly when nobody blocks while it is in its ring. */
  lemma {:induction false} AlwaysOutExactly<T>(j: Joint<T>, acts: seq<Act<T>>)
    requires Sane(j.s) && j.w.waiters.Sound() && ParkedOut(j) && Mays(j, acts)
    ensures AlwaysOut(j, acts) <==> AllClean(j, acts)
    decreases |acts|
  {
    hide Sane, ParkedOut, May, Next, InRing;
    if acts != [] {
      if Clean(j, acts[0]) {
        NextSane(j, acts[0]);
        StillOut(j, acts[0]);
        AlwaysOutExactly(Next(j, acts[0]), acts[1..]);
      } else {
        NeedsCurrent(j, acts[0]);
        ParkedOutExactly(j);
      }
    }
  }

  lemma NeedsCurrent<T>(j: Joint<T>, a: Act<T>)
    requires May(j, a) && a.Passes?
    ensures j.s.current.Some?
  {
  }

  // ----- what becomes of a caller that blocks in no ring

  lemma {:induction false} OutsideStays<T>(j: Joint<T>, acts: seq<Act<T>>, t: T)
    requires Outside(j.s, t) && forall a :: a in acts ==> a != Links(t)
    ensures Outside(NextAll(j, acts).s, t)
    decreases |acts|
  {
    hide Outside, Switch, Turned, GiveUp;
    if acts != [] {
      assert acts[0] in acts && forall a :: a in acts[1..] ==> a in acts;
      match acts[0] {
        case Begin => StepOutside(j.s, EBegin, t);
        case Yields => StepOutside(j.s, EYield, t);
        case GivesUp => StepOutside(j.s, EGiveUp, t);
        case Passes => StepOutside(j.s, EGiveUp, t);
        case Links(u) => if u in j.prio { StepOutside(j.s, EAdd(u, j.prio[u]), t); }
        case Posts =>
      }
      OutsideStays(Next(j, acts[0]), acts[1..], t);
    }
  }

  /** It never runs again, however often the semaphore is posted, until something links it into a ready ring. The
      code links only a task that was never started or that sleeps. */
  lemma BlockedForGood<T>(j: Joint<T>, acts: seq<Act<T>>)
    requires Sane(j.s) && j.s.current.Some? && j.w.count <= 0 && !InRing(j.s)
    requires forall a :: a in acts ==> a != Links(j.s.current.value)
    ensures Outside(NextAll(Next(j, Passes), acts).s, j.s.current.value)
  {
    GivenUpOutside(j.s);
    OutsideStays(Next(j, Passes), acts, j.s.current.value);
  }
}
