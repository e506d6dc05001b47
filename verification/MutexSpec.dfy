/** The recursive mutex with priority boost, as a step system over all tasks that use it. */
module MutexSpec {
  import opened Common
  import opened SyncSpec

  datatype Mutex<T(==)> = Mutex(owner: Option<T>, count: nat, orig: nat, waiters: Waiters<T>, prio: map<T, nat>)

  // ----- the critical sections

  function Boosted<T(==)>(m: Mutex<T>, t: T): map<T, nat>
    requires m.owner.Some? && m.owner.value in m.prio && t in m.prio
  {
    var o := m.owner.value;
    if m.prio[t] > m.prio[o] then m.prio[o := m.prio[t]] else m.prio
  }

  function Acquire<T(==)>(m: Mutex<T>, t: T): Mutex<T>
    requires t in m.prio
  {
    m.(owner := Some(t), count := 1, orig := m.prio[t], waiters := m.waiters.Leave(t))
  }

  ghost predicate Known<T>(m: Mutex<T>, t: T) {
    t in m.prio && (m.owner.Some? ==> m.owner.value in m.prio)
  }

  /** One pass of the loop in mutex_lock. */
  function LoopPass<T(==)>(m: Mutex<T>, t: T): (Mutex<T>, bool)
    requires Known(m, t)
  {
    if m.owner.Some? then (m.(prio := Boosted(m, t), waiters := m.waiters.Park(t)), false)
    else (Acquire(m, t), true)
  }

  function Lock<T(==)>(m: Mutex<T>, t: T): (Mutex<T>, bool)
    requires Known(m, t)
  {
    if m.owner == Some(t) then (m.(count := m.count + 1), true) else LoopPass(m, t)
  }

  function TryLock<T(==)>(m: Mutex<T>, t: T): (Mutex<T>, bool)
    requires Known(m, t)
  {
    if m.owner.None? then (Acquire(m, t), true)
    else if m.owner == Some(t) then (m.(count := m.count + 1), true)
    else (m, false)
  }

  function Unlock<T(==)>(m: Mutex<T>, t: T): Mutex<T> {
    if m.owner != Some(t) then m
    else if m.count > 1 then m.(count := m.count - 1)
    else Mutex(None, 0, m.orig, m.waiters.WakeOne(), m.prio[t := m.orig])
  }

  // ----- runs, with what an observer of the calls would write down

  datatype Call<T> = CLock(t: T) | CResume(t: T) | CTry(t: T) | CUnlock(t: T)

  /** The observer's record: each task's priority before the run, how deeply each task has the
      mutex locked (successful locks minus unlocks it was entitled to), and, most recent first,
      the tasks that have blocked since the mutex was last taken. */
  datatype Log<T(==)> = Log(base: map<T, nat>, held: map<T, nat>, blocked: seq<T>)

  datatype State<T(==)> = State(m: Mutex<T>, log: Log<T>)

  ghost predicate Enabled<T>(s: State<T>, c: Call<T>) {
    c.t in s.m.prio && (if c.CResume? then c.t in s.m.waiters.pending else s.m.waiters.Running(c.t))
  }

  function Granted<T(==)>(l: Log<T>, t: T, first: bool): Log<T>
    requires t in l.held
  {
    Log(l.base, l.held[t := l.held[t] + 1], if first then [] else l.blocked)
  }

  function LogLock<T(==)>(l: Log<T>, t: T, ok: bool): Log<T>
    requires t in l.held
  {
    if ok then Granted(l, t, l.held[t] == 0) else l.(blocked := [t] + l.blocked)
  }

  function LogUnlock<T(==)>(l: Log<T>, t: T): Log<T>
    requires t in l.held
  {
    if l.held[t] == 0 then l else l.(held := l.held[t := l.held[t] - 1])
  }

  function Step<T(==)>(s: State<T>, c: Call<T>): State<T>
    requires Inv(s) && c.t in s.m.prio
  {
    var t := c.t;
    match c
    case CLock(_) => var r := Lock(s.m, t); State(r.0, LogLock(s.log, t, r.1))
    case CResume(_) => var r := LoopPass(s.m, t); State(r.0, LogLock(s.log, t, r.1))
    case CTry(_) => var r := TryLock(s.m, t); State(r.0, if r.1 then LogLock(s.log, t, true) else s.log)
    case CUnlock(_) => State(Unlock(s.m, t), LogUnlock(s.log, t))
  }

  function Max(a: nat, b: nat): nat { if a < b then b else a }

  /** The largest of p and the base priorities of ts. */
  function Highest<T(==)>(base: map<T, nat>, p: nat, ts: seq<T>): nat {
    if ts == [] then p
    else Max(Highest(base, p, ts[1..]), if ts[0] in base then base[ts[0]] else 0)
  }

  lemma {:induction false} HighestIsMax<T>(base: map<T, nat>, p: nat, ts: seq<T>)
    ensures p <= Highest(base, p, ts)
    ensures forall t :: t in ts && t in base ==> base[t] <= Highest(base, p, ts)
    ensures Highest(base, p, ts) == p || exists t :: t in ts && t in base && base[t] == Highest(base, p, ts)
  {
    if ts != [] {
      HighestIsMax(base, p, ts[1..]);
      assert forall t :: t in ts <==> t == ts[0] || t in ts[1..];
    }
  }

  /** At most one task holds the mutex, as deeply as its lock_count says. */
  ghost predicate Exclusive<T>(s: State<T>) {
    forall t :: t in s.log.held ==> s.log.held[t] == if s.m.owner == Some(t) then s.m.count else 0
  }

  /** The holder runs at the highest base priority among itself and the tasks that blocked on it;
      everybody else runs at its own base priority. */
  ghost predicate Priorities<T>(s: State<T>)
    requires s.m.prio.Keys == s.log.base.Keys
  {
    forall t :: t in s.m.prio ==>
      s.m.prio[t] == if s.m.owner == Some(t) then Highest(s.log.base, s.log.base[t], s.log.blocked) else s.log.base[t]
  }

  ghost predicate Inv<T>(s: State<T>) {
    var m := s.m;
    && m.prio.Keys == s.log.base.Keys == s.log.held.Keys
    && m.waiters.Sound() && (forall t :: t in m.waiters.parked ==> t in m.prio)
    && (m.owner.Some? ==>
          && m.owner.value in m.prio && m.count > 0
          && m.waiters.Running(m.owner.value) && m.orig == s.log.base[m.owner.value])
    && (m.owner.None? ==> m.count == 0 && (m.waiters.parked != [] ==> m.waiters.pending != {}))
    && Exclusive(s)
    && Priorities(s)
  }

  lemma AcquireKeeps<T>(s: State<T>, t: T)
    requires Inv(s) && t in s.m.prio && s.m.owner.None? && t !in s.m.waiters.parked
    ensures Inv(State(Acquire(s.m, t), LogLock(s.log, t, true)))
  {
    LeaveSound(s.m.waiters, t);
  }

  lemma BlockKeeps<T>(s: State<T>, t: T)
    requires Inv(s) && t in s.m.prio && s.m.owner.Some? && s.m.owner.value != t && t !in s.m.waiters.parked
    ensures Inv(State(LoopPass(s.m, t).0, LogLock(s.log, t, false)))
  {
    ParkSound(s.m.waiters, t);
    assert ([t] + s.log.blocked)[1..] == s.log.blocked;
  }

  lemma AgainKeeps<T>(s: State<T>, t: T)
    requires Inv(s) && t in s.m.prio && s.m.owner == Some(t)
    ensures Inv(State(s.m.(count := s.m.count + 1), LogLock(s.log, t, true)))
  {
  }

  lemma UnlockKeeps<T>(s: State<T>, t: T)
    requires Inv(s) && t in s.m.prio
    ensures Inv(State(Unlock(s.m, t), LogUnlock(s.log, t)))
  {
    WakeSound(s.m.waiters);
  }

  lemma StepKeeps<T>(s: State<T>, c: Call<T>)
    requires Inv(s) && Enabled(s, c)
    ensures Inv(Step(s, c)) && Step(s, c).log.base == s.log.base
  {
    var t := c.t;
    match c
    case CLock(_) =>
      if s.m.owner == Some(t) { AgainKeeps(s, t); } else if s.m.owner.Some? { BlockKeeps(s, t); } else { AcquireKeeps(s, t); }
    case CResume(_) =>
      if s.m.owner.Some? { BlockKeeps(s, t); } else { AcquireKeeps(s, t); }
    case CTry(_) =>
      if s.m.owner == Some(t) { AgainKeeps(s, t); } else if s.m.owner.None? { AcquireKeeps(s, t); }
    case CUnlock(_) => UnlockKeeps(s, t);
  }

  ghost predicate Runs<T>(s: State<T>, cs: seq<Call<T>>)
    requires Inv(s)
    decreases |cs|
  {
    cs == [] || (Enabled(s, cs[0]) && (StepKeeps(s, cs[0]); Runs(Step(s, cs[0]), cs[1..])))
  }

  ghost function Run<T>(s: State<T>, cs: seq<Call<T>>): State<T>
    requires Inv(s) && Runs(s, cs)
    decreases |cs|
  {
    if cs == [] then s else (StepKeeps(s, cs[0]); Run(Step(s, cs[0]), cs[1..]))
  }

  /** A free mutex nobody waits for. */
  ghost function Fresh<T>(prio: map<T, nat>): (s: State<T>)
    ensures Inv(s)
  {
    State(Mutex(None, 0, 0, Waiters([], {}), prio), Log(prio, map t | t in prio :: 0, []))
  }

  /** In every interleaving from a fresh mutex in which no parked caller makes a pass: mutual exclusion with lock_count
      equal to the nesting depth, exact priorities, and no lost wake-up. */
  lemma Safety<T>(prio: map<T, nat>, cs: seq<Call<T>>)
    requires Runs(Fresh(prio), cs)
    ensures Inv(Run(Fresh(prio), cs)) && Run(Fresh(prio), cs).log.base == prio
  {
    SafetyFrom(Fresh(prio), cs);
  }

  lemma {:induction false} SafetyFrom<T>(s: State<T>, cs: seq<Call<T>>)
    requires Inv(s) && Runs(s, cs)
    ensures Inv(Run(s, cs)) && Run(s, cs).log.base == s.log.base
    decreases |cs|
  {
    if cs != [] {
      StepKeeps(s, cs[0]);
      SafetyFrom(Step(s, cs[0]), cs[1..]);
    }
  }

  /** Nobody else holds the mutex. */
  ghost predicate FreeFor<T>(s: State<T>, t: T) { forall u :: u in s.log.held && u != t ==> s.log.held[u] == 0 }

  /** In every reachable state both calls succeed exactly when nobody else holds the mutex, nested or not. A refused
      mutex_trylock changes nothing; a refused mutex_lock parks the caller, and moves nobody else. */
  lemma GrantedExactly<T>(s: State<T>, t: T)
    requires Inv(s) && t in s.m.prio && s.m.waiters.Running(t)
    ensures TryLock(s.m, t).1 <==> FreeFor(s, t)
    ensures Lock(s.m, t).1 <==> FreeFor(s, t)
    ensures !TryLock(s.m, t).1 ==> TryLock(s.m, t).0 == s.m
    ensures Moved(s.m.waiters, Lock(s.m, t).0.waiters, t, !Lock(s.m, t).1) && TryLock(s.m, t).0.waiters == s.m.waiters
  {
    assert s.m.waiters.Leave(t) == s.m.waiters;
  }

  /** The same for a woken caller's next pass; it does not hold the mutex. */
  lemma ResumedExactly<T>(s: State<T>, t: T)
    requires Inv(s) && t in s.m.waiters.pending && t in s.m.prio
    ensures LoopPass(s.m, t).1 <==> FreeFor(s, t)
    ensures Moved(s.m.waiters, LoopPass(s.m, t).0.waiters, t, !LoopPass(s.m, t).1)
  {
  }

  /** The holder never runs below its own base priority or that of a task that blocked on it. */
  lemma HolderNotBelow<T>(s: State<T>, t: T)
    requires Inv(s) && s.m.owner.Some? && (t == s.m.owner.value || (t in s.log.blocked && t in s.log.base))
    ensures s.log.base[t] <= s.m.prio[s.m.owner.value]
  {
    HighestIsMax(s.log.base, s.log.base[s.m.owner.value], s.log.blocked);
  }

  /** The last unlock puts every task back to its base priority and frees the mutex. */
  lemma LastUnlockRestores<T>(s: State<T>, t: T)
    requires Inv(s) && s.m.owner == Some(t) && s.log.held[t] == 1
    ensures Unlock(s.m, t).owner.None? && Unlock(s.m, t).prio == s.log.base
  {
    assert Exclusive(s) && Priorities(s);
  }

  /** No parked task ranks above the holder. */
  ghost predicate HolderOutranks<T>(s: State<T>)
    requires Inv(s) && s.m.owner.Some?
  {
    forall w :: w in s.m.waiters.parked ==> s.m.prio[w] <= s.m.prio[s.m.owner.value]
  }

  /** In every state with a holder, however it came by the mutex: a parked task outranks the holder exactly when it
      did not block in this holder's tenure (so never boosted it) and its base priority is above the holder's. */
  lemma HolderOutranksExactly<T>(s: State<T>)
    requires Inv(s) && s.m.owner.Some?
    ensures HolderOutranks(s) <==>
              forall w :: w in s.m.waiters.parked && w !in s.log.blocked ==>
                s.log.base[w] <= s.m.prio[s.m.owner.value]
  {
    HighestIsMax(s.log.base, s.log.base[s.m.owner.value], s.log.blocked);
  }

  /** Whoever takes a free mutex, woken or barging in, holds it at its own base priority: it outranks the parked
      tasks exactly when its base priority is at least each of theirs. Nothing is inherited from earlier waiters. */
  lemma TakenBy<T>(s: State<T>, t: T)
    requires Inv(s) && s.m.owner.None? && t in s.m.prio && t !in s.m.waiters.parked
    ensures var taken := State(Acquire(s.m, t), LogLock(s.log, t, true));
            && LoopPass(s.m, t).0 == TryLock(s.m, t).0 == taken.m
            && Inv(taken) && taken.m.prio == s.log.base && taken.m.waiters.parked == s.m.waiters.parked
            && (HolderOutranks(taken) <==> forall w :: w in s.m.waiters.parked ==> s.log.base[w] <= s.log.base[t])
  {
    AcquireKeeps(s, t);
    HolderOutranksExactly(State(Acquire(s.m, t), LogLock(s.log, t, true)));
  }

  /** The last unlock frees the mutex and wakes the most recently parked task, whatever its priority; what
      TakenBy says then holds for that task and for any running one that is quicker. */
  lemma HandOver<T>(s: State<T>, t: T, y: T)
    requires Inv(s) && s.m.owner == Some(t) && s.log.held[t] == 1 && s.m.waiters.parked != []
    requires y == s.m.waiters.parked[0] || (y in s.m.prio && s.m.waiters.Running(y))
    ensures var rest := s.m.waiters.parked[1..];
            var u := State(Unlock(s.m, t), LogUnlock(s.log, t));
            && Inv(u) && u.m.owner.None? && s.m.waiters.parked[0] in u.m.waiters.pending && u.m.waiters.parked == rest
            && y in u.m.prio && TryLock(u.m, y).1 && TryLock(u.m, y).0.prio == s.log.base
            && Inv(State(Acquire(u.m, y), LogLock(u.log, y, true)))
            && (HolderOutranks(State(Acquire(u.m, y), LogLock(u.log, y, true))) <==>
                forall w :: w in rest ==> s.log.base[w] <= s.log.base[y])
  {
    hide HolderOutranks, Priorities;
    UnlockKeeps(s, t);
    LastUnlockRestores(s, t);
    TakenBy(State(Unlock(s.m, t), LogUnlock(s.log, t)), y);
  }

  ghost predicate Moves<T>(s: State<T>, c: Call<T>, s': State<T>) { Inv(s) && Enabled(s, c) && Step(s, c) == s' }

  /** cs leads through the states ss. */
  ghost predicate Leads<T>(ss: seq<State<T>>, cs: seq<Call<T>>) {
    |ss| == |cs| + 1 && forall k :: 0 <= k < |cs| ==> Moves(ss[k], cs[k], ss[k + 1])
  }

  lemma {:induction false} LeadsRuns<T>(ss: seq<State<T>>, cs: seq<Call<T>>)
    requires Leads(ss, cs) && Inv(ss[0])
    ensures Runs(ss[0], cs) && Run(ss[0], cs) == ss[|cs|] && Inv(ss[|cs|])
    decreases |cs|
  {
    hide Inv, Enabled, Step;
    if cs != [] {
      assert Moves(ss[0], cs[0], ss[1]);
      StepKeeps(ss[0], cs[0]);
      assert forall k :: 0 <= k < |cs[1..]| ==> cs[1..][k] == cs[k + 1] && ss[1..][k] == ss[k + 1];
      LeadsRuns(ss[1..], cs[1..]);
    }
  }

  /** A reachable case: task 0 holds the mutex, 9 and then 1 park; after the last unlock task 1 takes the mutex at
      priority 1 while task 9 stays parked at priority 9. */
  lemma WaiterCanOutrankHolder()
    ensures Runs(Fresh(DEMO), INVERTING)
    ensures var s := Run(Fresh(DEMO), INVERTING);
            s.m.owner == Some(1) && s.m.waiters.parked == [9] && s.m.prio[1] < s.m.prio[9]
  {
    hide Moves, Inv, Runs, Run, Fresh;
    FreshIs();
    ZeroTakes();
    NineParks();
    OneParks();
    ZeroReleases();
    OneTakes();
    LeadsRuns([S0, S1, S2, S3, S4, S5], INVERTING);
  }

  const INVERTING: seq<Call<nat>> := [CLock(0), CLock(9), CLock(1), CUnlock(0), CResume(1)]
  const DEMO: map<nat, nat> := map[0 := 0, 1 := 1, 9 := 9]
  const BOOSTED: map<nat, nat> := map[0 := 9, 1 := 1, 9 := 9]
  const HELD0: map<nat, nat> := map[0 := 1, 1 := 0, 9 := 0]
  const S0 := State(Mutex(None, 0, 0, Waiters([], {}), DEMO), Log(DEMO, map[0 := 0, 1 := 0, 9 := 0], []))
  const S1 := State(Mutex(Some(0), 1, 0, Waiters([], {}), DEMO), Log(DEMO, HELD0, []))
  const S2 := State(Mutex(Some(0), 1, 0, Waiters([9], {}), BOOSTED), Log(DEMO, HELD0, [9]))
  const S3 := State(Mutex(Some(0), 1, 0, Waiters([1, 9], {}), BOOSTED), Log(DEMO, HELD0, [1, 9]))
  const S4 := State(Mutex(None, 0, 0, Waiters([9], {1}), DEMO), Log(DEMO, map[0 := 0, 1 := 0, 9 := 0], [1, 9]))
  const S5 := State(Mutex(Some(1), 1, 1, Waiters([9], {}), DEMO), Log(DEMO, map[0 := 0, 1 := 1, 9 := 0], []))

  lemma FreshIs()
    ensures Fresh(DEMO) == S0
  {
  }

  lemma ZeroTakes()
    requires Inv(S0)
    ensures Moves(S0, CLock(0), S1) && Inv(S1)
  {
    hide Inv;
    StepKeeps(S0, CLock(0));
  }

  lemma NineParks()
    requires Inv(S1)
    ensures Moves(S1, CLock(9), S2) && Inv(S2)
  {
    hide Inv;
    StepKeeps(S1, CLock(9));
  }

  lemma OneParks()
    requires Inv(S2)
    ensures Moves(S2, CLock(1), S3) && Inv(S3)
  {
    hide Inv;
    assert [1] + [9] == [1, 9];
    StepKeeps(S2, CLock(1));
  }

  lemma ZeroReleases()
    requires Inv(S3)
    ensures Moves(S3, CUnlock(0), S4) && Inv(S4)
  {
    hide Inv;
    assert [1, 9][1..] == [9];
    StepKeeps(S3, CUnlock(0));
  }

  lemma OneTakes()
    requires Inv(S4)
    ensures Moves(S4, CResume(1), S5) && Inv(S5)
  {
    hide Inv;
    StepKeeps(S4, CResume(1));
  }
}
