/** The scheduler on per-priority queues: who runs next, and how tasks of equal priority share. */
module SchedSpec {
  import opened Common

  /** queues[p] holds the ready tasks of priority p in order; None runs when nothing is ready.
      running tells whether the current task's state is RUNNING. */
  datatype Sched<T(==)> = Sched(queues: seq<seq<T>>, current: Option<T>, prio: nat, running: bool)

  // The neighbours of item k when ts is read as a ring.

  function Succ<T>(ts: seq<T>, k: int): T
    requires 0 <= k < |ts|
  {
    if k + 1 < |ts| then ts[k + 1] else ts[0]
  }

  function Pred<T>(ts: seq<T>, k: int): T
    requires 0 <= k < |ts|
  {
    if k > 0 then ts[k - 1] else ts[|ts| - 1]
  }

  /** get_highest_ready: the highest priority with a ready task, or -1. */
  function Highest<T>(queues: seq<seq<T>>): (h: int)
    ensures -1 <= h < |queues|
    ensures h >= 0 ==> queues[h] != []
    ensures forall p :: h < p < |queues| ==> queues[p] == []
    decreases |queues|
  {
    if queues == [] then -1
    else if queues[|queues| - 1] != [] then |queues| - 1
    else Highest(queues[..|queues| - 1])
  }

  lemma HighestIs<T>(queues: seq<seq<T>>, h: nat)
    requires h < |queues| && queues[h] != [] && forall p :: h < p < |queues| ==> queues[p] == []
    ensures Highest(queues) == h
  {
  }

  function AddReady<T>(queues: seq<seq<T>>, t: T, p: nat): seq<seq<T>>
    requires p < |queues|
  {
    queues[p := queues[p] + [t]]
  }

  function Without<T(==)>(ts: seq<T>, t: T): seq<T> {
    if ts == [] then [] else if ts[0] == t then ts[1..] else [ts[0]] + Without(ts[1..], t)
  }

  /** Ring h without its head. */
  function DropHead<T>(queues: seq<seq<T>>, h: nat): (r: seq<seq<T>>)
    requires h < |queues| && queues[h] != []
    ensures |r| == |queues|
  {
    queues[h := queues[h][1..]]
  }

  /** schedule_locked */
  function Switch<T(==)>(s: Sched<T>): Sched<T> {
    var h := Highest(s.queues);
    if h < 0 then (if s.current.None? then s else s.(current := None, prio := 0, running := true))
    else
      var next := s.queues[h][0];
      if s.current == Some(next) then s
      else Sched(DropHead(s.queues, h), Some(next), h, true)
  }

  /** scheduler_start */
  function Started<T(==)>(queues: seq<seq<T>>): Sched<T> { Switch(Sched(queues, None, 0, true)) }

  /** task_yield of a task; its ring's head stays its head, as the task went in just before it. */
  function Yield<T(==)>(s: Sched<T>): Sched<T>
    requires s.prio < |s.queues| && s.current.Some?
  {
    if s.running then Switch(s.(queues := AddReady(s.queues, s.current.value, s.prio), running := false))
    else Switch(s)
  }

  /** A yield of whoever is current; the idle task does not yield. */
  function Turned<T(==)>(s: Sched<T>): Sched<T> {
    if s.current.Some? && s.prio < |s.queues| then Yield(s) else s
  }

  /** task_sleep and task_terminate. Also the yield inside a blocking call, of a caller in no ring: one in its ring has
      by then overwritten its ring links (KernelLinks.ParkKeepsRingsExactly). */
  function GiveUp<T(==)>(s: Sched<T>): Sched<T> { Switch(s.(running := false)) }

  // ----- what every run keeps

  ghost predicate Apart<T>(queues: seq<seq<T>>) {
    && (forall p :: 0 <= p < |queues| ==> Distinct(queues[p]))
    && (forall p, q, t :: 0 <= p < |queues| && 0 <= q < |queues| && t in queues[p] && t in queues[q] ==> p == q)
  }

  /** Nobody is queued twice; the current task, if it is queued at all, is not RUNNING and heads its own ring. */
  ghost predicate Sane<T>(s: Sched<T>) {
    && s.prio < |s.queues| && Apart(s.queues)
    && forall p :: 0 <= p < |s.queues| && s.current.Some? && s.current.value in s.queues[p] ==>
         p == s.prio && !s.running && s.queues[p][0] == s.current.value
  }

  datatype Event<T> = EBegin | EYield | EGiveUp | EAdd(t: T, p: nat)

  /** The scheduler starts once; a task that becomes ready was in no ring and not running. */
  ghost predicate Enabled<T>(s: Sched<T>, e: Event<T>) {
    match e
    case EBegin => s.current.None?
    case EYield => s.current.Some?
    case EGiveUp => s.current.Some?
    case EAdd(t, p) => p < |s.queues| && s.current != Some(t) && forall q :: 0 <= q < |s.queues| ==> t !in s.queues[q]
  }

  function Step<T(==)>(s: Sched<T>, e: Event<T>): Sched<T> {
    match e
    case EBegin => Switch(s)
    case EYield => Turned(s)
    case EGiveUp => GiveUp(s)
    case EAdd(t, p) => if p < |s.queues| then s.(queues := AddReady(s.queues, t, p)) else s
  }

  lemma AddApart<T>(queues: seq<seq<T>>, t: T, p: nat)
    requires Apart(queues) && p < |queues| && forall q :: 0 <= q < |queues| ==> t !in queues[q]
    ensures Apart(AddReady(queues, t, p))
  {
  }

  lemma DropApart<T>(queues: seq<seq<T>>, h: nat)
    requires Apart(queues) && h < |queues| && queues[h] != []
    ensures Apart(DropHead(queues, h))
    ensures forall p :: 0 <= p < |queues| ==> queues[h][0] !in DropHead(queues, h)[p]
  {
    forall p, t | 0 <= p < |queues| && t in DropHead(queues, h)[p] ensures t in queues[p] && t != queues[h][0] {
      if p != h { assert t in queues[p]; }
    }
  }

  lemma SwitchSane<T>(s: Sched<T>)
    requires s.prio < |s.queues| && Apart(s.queues) && (s.current.Some? ==> !s.running)
    requires forall p :: 0 <= p < |s.queues| && s.current.Some? && s.current.value in s.queues[p] ==> p == s.prio
    ensures Sane(Switch(s))
  {
    var h := Highest(s.queues);
    if h >= 0 && s.current != Some(s.queues[h][0]) { DropApart(s.queues, h); }
  }

  lemma StepSane<T>(s: Sched<T>, e: Event<T>)
    requires Sane(s) && Enabled(s, e)
    ensures Sane(Step(s, e))
  {
    hide Switch, Apart;
    match e
    case EBegin => SwitchSane(s);
    case EYield =>
      if s.running {
        AddApart(s.queues, s.current.value, s.prio);
        SwitchSane(s.(queues := AddReady(s.queues, s.current.value, s.prio), running := false));
      } else {
        SwitchSane(s);
      }
    case EGiveUp => SwitchSane(s.(running := false));
    case EAdd(t, p) => AddApart(s.queues, t, p);
  }

  ghost predicate Happens<T>(s: Sched<T>, es: seq<Event<T>>)
    decreases |es|
  {
    es == [] || (Enabled(s, es[0]) && Happens(Step(s, es[0]), es[1..]))
  }

  function Run<T(==)>(s: Sched<T>, es: seq<Event<T>>): Sched<T>
    decreases |es|
  {
    if es == [] then s else Run(Step(s, es[0]), es[1..])
  }

  /** n empty rings and nothing running. */
  function Idle<T(==)>(n: nat): Sched<T> { Sched(seq(n, _ => []), None, 0, true) }

  lemma IdleSane<T>(n: nat)
    requires n > 0
    ensures Sane(Idle<T>(n))
  {
  }

  /** scheduler_start runs the head of the highest ring that is not empty, and takes it off; if all are, the idle task. */
  lemma StartsHighest<T>(queues: seq<seq<T>>, p: nat)
    requires p < |queues| && forall q :: p < q < |queues| ==> queues[q] == []
    ensures queues[p] != [] ==> Started(queues) == Sched(queues[p := queues[p][1..]], Some(queues[p][0]), p, true)
    ensures (forall q :: 0 <= q <= p ==> queues[q] == []) ==> Started(queues) == Sched(queues, None, 0, true)
  {
    if queues[p] != [] { HighestIs(queues, p); }
  }

  /** Whatever is started, and then happens. */
  lemma FromStart<T>(n: nat, es: seq<Event<T>>)
    requires n > 0 && Happens(Idle<T>(n), es)
    ensures Sane(Run(Idle<T>(n), es))
  {
    IdleSane<T>(n);
    RunSane(Idle<T>(n), es);
  }

  lemma {:induction false} RunSane<T>(s: Sched<T>, es: seq<Event<T>>)
    requires Sane(s) && Happens(s, es)
    ensures Sane(Run(s, es))
    decreases |es|
  {
    hide Sane, Enabled, Step;
    if es != [] {
      StepSane(s, es[0]);
      RunSane(Step(s, es[0]), es[1..]);
    }
  }

  ghost predicate Outside<T>(s: Sched<T>, t: T) {
    s.current != Some(t) && forall p :: 0 <= p < |s.queues| ==> t !in s.queues[p]
  }

  /** A task in no ring is never chosen, whatever its state says, until something links it into one. Waking a
      waiter does not: it only sets the state READY. */
  lemma {:induction false} NeverChosen<T>(s: Sched<T>, es: seq<Event<T>>, t: T)
    requires Outside(s, t) && forall e :: e in es && e.EAdd? ==> e.t != t
    ensures Outside(Run(s, es), t)
    decreases |es|
  {
    if es != [] {
      StepOutside(s, es[0], t);
      NeverChosen(Step(s, es[0]), es[1..], t);
    }
  }

  lemma StepOutside<T>(s: Sched<T>, e: Event<T>, t: T)
    requires Outside(s, t) && (e.EAdd? ==> e.t != t)
    ensures Outside(Step(s, e), t)
  {
    hide Switch;
    if e.EYield? && s.current.Some? && s.prio < |s.queues| {
      SwitchOutside(if s.running then s.(queues := AddReady(s.queues, s.current.value, s.prio), running := false) else s, t);
    }
    if e.EGiveUp? { SwitchOutside(s.(running := false), t); }
    if e.EBegin? { SwitchOutside(s, t); }
  }

  lemma SwitchOutside<T>(s: Sched<T>, t: T)
    requires Outside(s, t)
    ensures Outside(Switch(s), t)
  {
    var h := Highest(s.queues);
    if h >= 0 { assert s.queues[h][0] in s.queues[h]; }
  }

  // ----- when the processor changes hands

  /** No ready task outranks the current one. */
  predicate OnTop<T(==)>(s: Sched<T>) {
    forall p :: s.prio < p < |s.queues| ==> s.queues[p] == []
  }

  predicate InRing<T(==)>(s: Sched<T>) { s.current.Some? && s.prio < |s.queues| && s.current.value in s.queues[s.prio] }

  /** In every reachable state, a caller that sleeps or terminates loses the processor exactly when it is in no ring or
      outranked. A caller that yielded alone is in its ring, and keeps the processor. */
  lemma GivesUpExactly<T>(s: Sched<T>)
    requires Sane(s) && s.current.Some?
    ensures GiveUp(s).current != s.current <==> !(InRing(s) && OnTop(s))
  {
    var h := Highest(s.queues);
    if InRing(s) && OnTop(s) { HighestIs(s.queues, s.prio); }
    if h >= 0 { assert s.queues[h][0] in s.queues[h]; }
  }

  /** A caller in no ring that gives up the processor never runs again, until something links it into a ring. */
  lemma GivenUpForGood<T>(s: Sched<T>, es: seq<Event<T>>)
    requires Sane(s) && s.current.Some? && !InRing(s) && forall e :: e in es && e.EAdd? ==> e.t != s.current.value
    ensures Outside(Run(GiveUp(s), es), s.current.value)
  {
    GivesUpExactly(s);
    GivenUpOutside(s);
    NeverChosen(GiveUp(s), es, s.current.value);
  }

  lemma GivenUpOutside<T>(s: Sched<T>)
    requires Sane(s) && s.current.Some? && !InRing(s)
    ensures Outside(GiveUp(s), s.current.value)
  {
    var h := Highest(s.queues);
    if h >= 0 { assert s.queues[h][0] in s.queues[h]; }
  }

  /** In every reachable state, a yield of a RUNNING task changes tasks exactly when one of at least its priority is
      ready, and a yield of any other exactly when it is in no ring or outranked. */
  lemma HandsOver<T>(s: Sched<T>)
    requires Sane(s) && s.current.Some?
    ensures Yield(s).current != s.current <==>
              if s.running then exists p :: s.prio <= p < |s.queues| && s.queues[p] != []
              else !(InRing(s) && OnTop(s))
  {
    if s.running {
      var added := AddReady(s.queues, s.current.value, s.prio);
      var h := Highest(added);
      if p :| s.prio <= p < |s.queues| && s.queues[p] != [] {
        assert added[p] != [] && h >= p;
        assert added[h][0] == s.queues[h][0] && s.queues[h][0] in s.queues[h];
      } else {
        HighestIs(added, s.prio);
      }
    } else {
      GivesUpExactly(s);
      assert GiveUp(s) == Switch(s);
    }
  }

  /** In every reachable state: the one step that leaves the current task in a ring when it was in none is a yield of a
      RUNNING task while nothing of at least its priority is ready. */
  lemma EntersRingExactly<T>(s: Sched<T>, e: Event<T>)
    requires Sane(s) && Enabled(s, e) && !InRing(s)
    ensures InRing(Step(s, e)) <==> e.EYield? && s.running && forall p :: s.prio <= p < |s.queues| ==> s.queues[p] == []
  {
    match e
    case EAdd(_, _) =>
    case EBegin => SwitchedOut(s);
    case EGiveUp =>
      GivesUpExactly(s);
      SwitchedOut(s.(running := false));
    case EYield =>
      HandsOver(s);
      if s.running {
        AddApart(s.queues, s.current.value, s.prio);
        SwitchedOut(s.(queues := AddReady(s.queues, s.current.value, s.prio), running := false));
        var q := AddReady(s.queues, s.current.value, s.prio)[s.prio];
        assert q[|q| - 1] == s.current.value;
      } else {
        SwitchedOut(s);
      }
  }

  /** Whoever is switched to is in no ring. */
  lemma SwitchedOut<T>(s: Sched<T>)
    requires s.prio < |s.queues| && Apart(s.queues)
    ensures Switch(s).current != s.current ==> !InRing(Switch(s))
  {
    var h := Highest(s.queues);
    if h >= 0 { DropApart(s.queues, h); }
  }

  /** task_start of a task that outranks everyone runs it at once; the caller ends up last in its ring, or stays
      where it was if it was queued already. */
  lemma StartPreempts<T>(s: Sched<T>, t: T, p: nat)
    requires s.current.Some? && s.prio < p < |s.queues| && t != s.current.value
    requires forall x :: p <= x < |s.queues| ==> s.queues[x] == []
    ensures var r := Yield(s.(queues := AddReady(s.queues, t, p)));
            r == Sched(if s.running then AddReady(s.queues, s.current.value, s.prio) else s.queues, Some(t), p, true)
  {
    var queues := if s.running then AddReady(s.queues, s.current.value, s.prio) else s.queues;
    var q := if s.running then AddReady(AddReady(s.queues, t, p), s.current.value, s.prio) else AddReady(s.queues, t, p);
    HighestIs(q, p);
    assert q[p][1..] == [] == s.queues[p];
    assert q[p := q[p][1..]] == queues;
  }

  // ----- round robin

  /** The tasks of the current priority in the order in which they should run, the current one first. */
  function Turn<T(==)>(s: Sched<T>): seq<T>
    requires s.current.Some? && s.prio < |s.queues|
  {
    if InRing(s) then s.queues[s.prio] else [s.current.value] + s.queues[s.prio]
  }

  /** The running task is in no ring, and shares the top priority with others. */
  predicate Sharing<T(==)>(s: Sched<T>) {
    && s.current.Some? && s.running && s.prio < |s.queues| && OnTop(s) && !InRing(s)
    && |Turn(s)| >= 2 && Distinct(Turn(s))
  }

  function Rotate<T>(ts: seq<T>): (r: seq<T>)
    ensures |r| == |ts|
  {
    if ts == [] then [] else ts[1..] + [ts[0]]
  }

  /** A yield among sharing tasks runs the next one and sends the caller to the end. */
  lemma YieldRotates<T>(s: Sched<T>)
    requires Sharing(s)
    ensures Sharing(Turned(s)) && Turned(s).prio == s.prio && |Turned(s).queues| == |s.queues|
    ensures Turn(Turned(s)) == Rotate(Turn(s))
    ensures forall p :: 0 <= p < |s.queues| && p != s.prio ==> Turned(s).queues[p] == s.queues[p]
  {
    var p, t, q := s.prio, s.current.value, s.queues[s.prio];
    assert Turn(s)[1..] == q && t == Turn(s)[0] != Turn(s)[1] == q[0];
    var added := AddReady(s.queues, t, p);
    HighestIs(added, p);
    var r := Sched(added[p := (q + [t])[1..]], Some(q[0]), p, true);
    assert Yield(s) == r;
    RotateDistinct(Turn(s));
    assert [q[0]] + (q + [t])[1..] == Rotate(Turn(s));
    HeadApart(q[0], (q + [t])[1..]);
  }

  lemma HeadApart<T>(t: T, rest: seq<T>)
    requires Distinct([t] + rest)
    ensures t !in rest
  {
    forall i | 0 <= i < |rest| ensures rest[i] != t {
      assert ([t] + rest)[0] == t && ([t] + rest)[i + 1] == rest[i];
    }
  }

  lemma RotateDistinct<T>(ts: seq<T>)
    requires Distinct(ts)
    ensures Distinct(Rotate(ts)) && multiset(Rotate(ts)) == multiset(ts)
  {
    if ts != [] { assert ts == [ts[0]] + ts[1..]; }
  }

  /** n yields in a row. */
  function Yields<T(==)>(s: Sched<T>, n: nat): Sched<T>
    decreases n
  {
    if n == 0 then s else Yields(Turned(s), n - 1)
  }

  /** Who runs after each of the next n yields, counting from now. */
  function Runs<T(==)>(s: Sched<T>, n: nat): seq<T>
    decreases n
  {
    if n == 0 then []
    else (if s.current.Some? then [s.current.value] else []) + Runs(Turned(s), n - 1)
  }

  /** The same tasks take turns in both states. */
  ghost predicate SameTurn<T>(s: Sched<T>, r: Sched<T>) {
    Sharing(s) && Sharing(r) && multiset(Turn(s)) == multiset(Turn(r)) && |Turn(s)| == |Turn(r)|
  }

  lemma SameTurnSteps<T>(s: Sched<T>, r: Sched<T>, q: Sched<T>)
    requires SameTurn(s, r) && SameTurn(r, q)
    ensures SameTurn(s, q)
  {
  }

  lemma {:induction false} YieldsShare<T>(s: Sched<T>, n: nat)
    requires Sharing(s)
    ensures SameTurn(s, Yields(s, n))
    decreases n
  {
    hide Turned, Sharing, Turn;
    if n > 0 {
      hide SameTurn;
      YieldKeepsTurn(s);
      YieldsShare(Turned(s), n - 1);
      SameTurnSteps(s, Turned(s), Yields(s, n));
    }
  }

  lemma YieldKeepsTurn<T>(s: Sched<T>)
    requires Sharing(s)
    ensures Sharing(Turned(s)) && SameTurn(s, Turned(s))
  {
    hide Turned, Turn, Rotate;
    YieldRotates(s);
    RotateDistinct(Turn(s));
  }

  lemma TurnKnown<T>(s: Sched<T>)
    requires Sharing(s)
    ensures s.current.Some? && s.prio < |s.queues| && Distinct(Turn(s)) && Turn(s) != [] && Turn(s)[0] == s.current.value
  {
  }

  lemma Joined<T>(left: seq<T>, done: seq<T>)
    requires left != []
    ensures Rotate(left + done) == left[1..] + (done + [left[0]])
    ensures (done + [left[0]]) + left[1..] == done + left && [left[0]] + left[1..] == left
    ensures (left + done)[0] == left[0]
  {
  }

  lemma {:induction false} RunsAre<T>(s: Sched<T>, n: nat, done: seq<T>, left: seq<T>)
    requires Sharing(s) && Turn(s) == left + done && n == |left|
    ensures Runs(s, n) == left && Sharing(Yields(s, n)) && Turn(Yields(s, n)) == done + left
    decreases n
  {
    if n == 0 {
      assert done + left == left + done;
    } else {
      hide Turned, Sharing, Turn, Rotate;
      YieldRotates(s);
      TurnKnown(s);
      Joined(left, done);
      RunsAre(Turned(s), n - 1, done + [left[0]], left[1..]);
    }
  }

  /** From any moment on, sharing tasks each run once in the next |Turn(s)| turns, and then again in that order. */
  lemma RoundRobin<T>(s: Sched<T>, n: nat)
    requires Sharing(s)
    ensures var k, m := |Turn(s)|, Yields(s, n);
            && multiset(Runs(m, k)) == multiset(Turn(s))
            && Sharing(m) && Sharing(Yields(m, k)) && Turn(Yields(m, k)) == Turn(m)
  {
    hide Sharing, Turn;
    TurnKnown(s);
    var m := Yields(s, n);
    YieldsShare(s, n);
    TurnKnown(m);
    assert Turn(m) + [] == Turn(m) && [] + Turn(m) == Turn(m);
    RunsAre(m, |Turn(m)|, [], Turn(m));
  }

  /** Yielding alone at the top leaves the caller in its own ring, no longer marked RUNNING. */
  lemma AloneStaysQueued<T>(s: Sched<T>)
    requires s.current.Some? && s.running && s.prio < |s.queues| && OnTop(s) && s.queues[s.prio] == []
    ensures Yield(s) == s.(queues := s.queues[s.prio := [s.current.value]], running := false)
  {
    HighestIs(AddReady(s.queues, s.current.value, s.prio), s.prio);
    assert [] + [s.current.value] == [s.current.value];
  }

  /** A caller in its ring, on top, is still current after any number of yields, and nothing else changes. */
  lemma {:induction false} RingKeeps<T>(s: Sched<T>, n: nat)
    requires Sane(s) && InRing(s) && OnTop(s)
    ensures Yields(s, n) == s && Runs(s, n) == seq(n, _ => s.current.value)
    decreases n
  {
    if n > 0 {
      HighestIs(s.queues, s.prio);
      assert Turned(s) == s;
      RingKeeps(s, n - 1);
      assert [s.current.value] + seq(n - 1, _ => s.current.value) == seq(n, _ => s.current.value);
    }
  }

  /** Two or more tasks, the current one among them, are ready or running at the top priority. */
  ghost predicate Peers<T>(s: Sched<T>) {
    Sane(s) && s.current.Some? && OnTop(s) && (s.running || InRing(s)) && |Turn(s)| >= 2
  }

  /** Tasks of equal top priority take turns - from any moment on each runs once in every |Turn(s)| turns - exactly
      when the current one is in no ring. */
  lemma RoundRobinExactly<T>(s: Sched<T>)
    requires Peers(s)
    ensures (forall n: nat :: multiset(Runs(Yields(s, n), |Turn(s)|)) == multiset(Turn(s))) <==> !InRing(s)
  {
    var k := |Turn(s)|;
    if InRing(s) {
      RingKeeps(s, 0);
      RingKeeps(s, k);
      var other := s.queues[s.prio][1];
      assert other != s.current.value && other in multiset(Turn(s));
      assert Runs(Yields(s, 0), k) == seq(k, _ => s.current.value);
      assert other !in multiset(seq(k, _ => s.current.value));
    } else {
      assert Distinct(Turn(s));
      forall n: nat ensures multiset(Runs(Yields(s, n), k)) == multiset(Turn(s)) { RoundRobin(s, n); }
    }
  }

  /** So fairness is lost once a task has yielded alone: a task of its priority that becomes ready afterwards is
      never run by yields, however many. */
  lemma {:induction false} AloneThenUnfair<T>(s: Sched<T>, other: T, n: nat)
    requires Sane(s) && s.current.Some? && s.running && OnTop(s) && s.queues[s.prio] == []
    requires Enabled(Yield(s), EAdd(other, s.prio))
    ensures var late := Step(Yield(s), EAdd(other, s.prio));
            Peers(late) && InRing(late) && other in Turn(late) && Yields(late, n) == late && late.current == s.current
  {
    AloneStaysQueued(s);
    StepSane(s, EYield);
    var late := Step(Yield(s), EAdd(other, s.prio));
    StepSane(Yield(s), EAdd(other, s.prio));
    assert late.queues[s.prio] == [s.current.value, other];
    RingKeeps(late, n);
  }

  // ----- a task whose priority field no longer names its ring

  /** ready_list[] beside the rings as they are linked. */
  datatype ReadyList<T(==)> = ReadyList(heads: seq<Option<T>>, queues: seq<seq<T>>)

  predicate Agrees<T(==)>(r: ReadyList<T>) {
    |r.heads| == |r.queues| &&
    forall p :: 0 <= p < |r.queues| ==> r.heads[p] == if r.queues[p] == [] then None else Some(r.queues[p][0])
  }

  /** The task linked after t in the ring q. */
  function Following<T(==)>(q: seq<T>, t: T, first: T): T
    requires t in q
  {
    if q[0] != t then Following(q[1..], t, first) else if |q| > 1 then q[1] else first
  }

  /** ready_list_remove of a task that is linked in ring p while its priority field says f. */
  function RemoveAs<T(==)>(r: ReadyList<T>, p: nat, f: nat, t: T): ReadyList<T>
    requires |r.heads| == |r.queues| && p < |r.queues| && f < |r.queues| && t in r.queues[p]
  {
    var q := r.queues[p];
    if |q| == 1 then ReadyList(r.heads[f := None], r.queues[p := []])
    else ReadyList(if r.heads[f] == Some(t) then r.heads[f := Some(Following(q, t, q[0]))] else r.heads,
               r.queues[p := Without(q, t)])
  }

  /** Removal keeps ready_list[] and the rings in agreement exactly when the priority field names the task's
      ring or the task does not head it. As the scheduler removes heads only, raising the priority of a task
      that is ready, as a contended mutex does, always breaks the agreement when that task is next scheduled. */
  lemma RemovalNeedsPriority<T>(r: ReadyList<T>, p: nat, f: nat, t: T)
    requires Agrees(r) && p < |r.queues| && f < |r.queues| && t in r.queues[p] && Distinct(r.queues[p])
    requires forall x :: 0 <= x < |r.queues| && x != p ==> t !in r.queues[x]
    ensures Agrees(RemoveAs(r, p, f, t)) <==> f == p || t != r.queues[p][0]
  {
    var q, r' := r.queues[p], RemoveAs(r, p, f, t);
    assert r.heads[f] == Some(t) <==> f == p && t == q[0];
    assert r'.heads[p] == r.heads[p] || f == p;
    if |q| > 1 { assert q[0] != q[1]; }
  }
}
