/** Runs of both timer implementations: the same events make them fire the same timers. */
module TimerRuns {
  import opened Arith
  import opened TimerSpec

  datatype Event<T> = Arm(id: T, delay: nat, periodic: bool) | Disarm(id: T) | Tick

  // Delays are at least 1: the driver refuses 0, and with a periodic timer of period 0 the kernel's handler
  // does not return (TimerSpec.TickEndsExactly).
  predicate Proper<T>(e: Event<T>) { e.Arm? ==> e.delay >= 1 }

  predicate AllProper<T>(es: seq<Event<T>>) { forall k :: 0 <= k < |es| ==> Proper(es[k]) }

  function Later<T>(now: nat, e: Event<T>): nat { if e.Tick? then now + 1 else now }

  // ----- one event: the kernel's list, the driver's list, and the set a caller reasons with

  function KernelStep<T(==)>(l: seq<Rec<T>>, now: nat, e: Event<T>): (seq<T>, seq<Rec<T>>)
    requires Proper(e)
  {
    match e
    case Arm(id, delay, periodic) => ([], Start(l, Armed(id, now, delay, periodic)))
    case Disarm(id) => ([], Remove(l, id))
    case Tick => SortedTick(l, now + 1)
  }

  function DriverStep<T(==)>(l: seq<Rec<T>>, now: nat, e: Event<T>): (seq<T>, seq<Rec<T>>)
    requires Proper(e)
  {
    match e
    case Arm(id, delay, periodic) => ([], Start(l, Armed(id, now, delay, periodic)))
    case Disarm(id) => ([], Remove(l, id))
    case Tick => ScanTick(l, now + 1)
  }

  ghost function SetStep<T>(s: set<Rec<T>>, now: nat, e: Event<T>): (set<T>, set<Rec<T>>)
    requires Proper(e)
  {
    match e
    case Arm(id, delay, periodic) => ({}, Others(s, id) + {Armed(id, now, delay, periodic)})
    case Disarm(id) => ({}, Others(s, id))
    case Tick => (Expired(s, now + 1), TickSet(s, now + 1))
  }

  // ----- runs: what fires at each event

  ghost function KernelRun<T>(l: seq<Rec<T>>, now: nat, es: seq<Event<T>>): (seq<set<T>>, seq<Rec<T>>)
    requires AllProper(es)
    decreases |es|
  {
    if es == [] then ([], l)
    else
      var r := KernelStep(l, now, es[0]);
      var rest := KernelRun(r.1, Later(now, es[0]), es[1..]);
      ([Elements(r.0)] + rest.0, rest.1)
  }

  ghost function DriverRun<T>(l: seq<Rec<T>>, now: nat, es: seq<Event<T>>): (seq<set<T>>, seq<Rec<T>>)
    requires AllProper(es)
    decreases |es|
  {
    if es == [] then ([], l)
    else
      var r := DriverStep(l, now, es[0]);
      var rest := DriverRun(r.1, Later(now, es[0]), es[1..]);
      ([Elements(r.0)] + rest.0, rest.1)
  }

  ghost function SetRun<T>(s: set<Rec<T>>, now: nat, es: seq<Event<T>>): (seq<set<T>>, set<Rec<T>>)
    requires AllProper(es)
    decreases |es|
  {
    if es == [] then ([], s)
    else
      var r := SetStep(s, now, es[0]);
      var rest := SetRun(r.1, Later(now, es[0]), es[1..]);
      ([r.0] + rest.0, rest.1)
  }

  lemma KernelStepRefines<T>(l: seq<Rec<T>>, now: nat, e: Event<T>)
    requires Proper(e)
    requires Sorted(l) && DistinctIds(l)
    ensures var r := KernelStep(l, now, e);
            && Sorted(r.1) && DistinctIds(r.1)
            && (Elements(r.0), Pending(r.1)) == SetStep(Pending(l), now, e)
  {
    match e
    case Arm(id, delay, periodic) =>
      StartFacts(l, Armed(id, now, delay, periodic));
      assert Elements<T>([]) == {};
    case Disarm(id) =>
      RemoveFacts(l, id);
      assert Elements<T>([]) == {};
    case Tick => SortedTickFacts(l, now + 1);
  }

  lemma DriverStepRefines<T>(l: seq<Rec<T>>, now: nat, e: Event<T>)
    requires Proper(e)
    requires DistinctIds(l)
    ensures var r := DriverStep(l, now, e);
            DistinctIds(r.1) && (Elements(r.0), Pending(r.1)) == SetStep(Pending(l), now, e)
  {
    match e
    case Arm(id, delay, periodic) =>
      StartFacts(l, Armed(id, now, delay, periodic));
      assert Elements<T>([]) == {};
    case Disarm(id) =>
      RemoveFacts(l, id);
      assert Elements<T>([]) == {};
    case Tick => ScanTickFacts(l, now + 1);
  }

  lemma {:induction false} KernelRefines<T>(l: seq<Rec<T>>, now: nat, es: seq<Event<T>>)
    requires AllProper(es)
    requires Sorted(l) && DistinctIds(l)
    ensures var r := KernelRun(l, now, es);
            Sorted(r.1) && DistinctIds(r.1) && (r.0, Pending(r.1)) == SetRun(Pending(l), now, es)
    decreases |es|
  {
    if es != [] {
      KernelStepRefines(l, now, es[0]);
      KernelRefines(KernelStep(l, now, es[0]).1, Later(now, es[0]), es[1..]);
    }
  }

  lemma {:induction false} DriverRefines<T>(l: seq<Rec<T>>, now: nat, es: seq<Event<T>>)
    requires AllProper(es)
    requires DistinctIds(l)
    ensures var r := DriverRun(l, now, es);
            DistinctIds(r.1) && (r.0, Pending(r.1)) == SetRun(Pending(l), now, es)
    decreases |es|
  {
    if es != [] {
      DriverStepRefines(l, now, es[0]);
      DriverRefines(DriverStep(l, now, es[0]).1, Later(now, es[0]), es[1..]);
    }
  }

  /** The two implementations are bisimilar: from equal pending sets, the same events fire the same
      timers at every step and leave the same pending timers with the same expiry. */
  lemma Bisimilar<T>(kernel: seq<Rec<T>>, driver: seq<Rec<T>>, now: nat, es: seq<Event<T>>)
    requires AllProper(es)
    requires Sorted(kernel) && DistinctIds(kernel) && DistinctIds(driver) && Pending(kernel) == Pending(driver)
    ensures KernelRun(kernel, now, es).0 == DriverRun(driver, now, es).0
    ensures Pending(KernelRun(kernel, now, es).1) == Pending(DriverRun(driver, now, es).1)
    ensures Sorted(KernelRun(kernel, now, es).1)
  {
    KernelRefines(kernel, now, es);
    DriverRefines(driver, now, es);
  }

  /** Every list of the driver's run is sorted. */
  ghost predicate AlwaysSorted<T>(l: seq<Rec<T>>, now: nat, es: seq<Event<T>>)
    requires AllProper(es)
    decreases |es|
  {
    Sorted(l) && (es == [] || AlwaysSorted(DriverStep(l, now, es[0]).1, Later(now, es[0]), es[1..]))
  }

  /** Every tick of the driver's run meets a list that stays in order. */
  ghost predicate AlwaysStays<T>(l: seq<Rec<T>>, now: nat, es: seq<Event<T>>)
    requires AllProper(es)
    decreases |es|
  {
    es == [] || ((es[0].Tick? ==> Stays(l, now + 1))
                 && AlwaysStays(DriverStep(l, now, es[0]).1, Later(now, es[0]), es[1..]))
  }

  /** The driver's list is sorted throughout a run exactly when every tick renews in order. */
  lemma {:induction false} DriverSortedExactly<T>(l: seq<Rec<T>>, now: nat, es: seq<Event<T>>)
    requires AllProper(es) && Sorted(l) && DistinctIds(l)
    ensures AlwaysSorted(l, now, es) <==> AlwaysStays(l, now, es)
    decreases |es|
  {
    if es != [] {
      var l1, now1 := DriverStep(l, now, es[0]).1, Later(now, es[0]);
      DriverStepRefines(l, now, es[0]);
      match es[0] {
        case Arm(id, delay, periodic) => StartFacts(l, Armed(id, now, delay, periodic));
        case Disarm(id) => RemoveFacts(l, id);
        case Tick => ScanSortedExactly(l, now + 1);
      }
      if Sorted(l1) { DriverSortedExactly(l1, now1, es[1..]); }
    }
  }

  /** It is not always: a period-3 timer started at tick 0 and a one-shot started at tick 2 with delay 2
      are out of order after tick 3, which renews the first to tick 6 ahead of the second at tick 4. */
  lemma ScanUnsorts()
    ensures AllProper(UNSORTING) && DriverRun([], 0, UNSORTING).1 == [Rec(0, 6, 3), Rec(1, 4, 0)]
    ensures !Sorted(DriverRun([], 0, UNSORTING).1)
  {
    var es := UNSORTING;
    var l1, l2 := [Rec(0, 3, 3)], [Rec(0, 3, 3), Rec(1, 4, 0)];
    UnsortingSteps();
    assert es[1..][1..] == es[2..] && es[2..][1..] == es[3..] && es[3..][1..] == es[4..] && es[4..][1..] == [];
    assert DriverRun(l2, 2, es[4..]).1 == [Rec(0, 6, 3), Rec(1, 4, 0)];
    assert DriverRun(l1, 2, es[3..]).1 == DriverRun(l2, 2, es[4..]).1;
    assert DriverRun(l1, 1, es[2..]).1 == DriverRun(l1, 2, es[3..]).1;
    assert DriverRun(l1, 0, es[1..]).1 == DriverRun(l1, 1, es[2..]).1;
    assert [Rec(0, 6, 3), Rec(1, 4, 0)][1..] == [Rec(1, 4, 0)];
  }

  const UNSORTING: seq<Event<nat>> := [Arm(0, 3, true), Tick, Tick, Arm(1, 2, false), Tick]

  lemma UnsortingSteps()
    ensures DriverStep([], 0, Event.Arm(0, 3, true)).1 == [Rec(0, 3, 3)]
    ensures DriverStep([Rec(0, 3, 3)], 0, Tick).1 == [Rec(0, 3, 3)] == DriverStep([Rec(0, 3, 3)], 1, Tick).1
    ensures DriverStep([Rec(0, 3, 3)], 2, Event.Arm(1, 2, false)).1 == [Rec(0, 3, 3), Rec(1, 4, 0)]
    ensures DriverStep([Rec(0, 3, 3), Rec(1, 4, 0)], 2, Tick).1 == [Rec(0, 6, 3), Rec(1, 4, 0)]
  {
    var a, b := Rec(0, 3, 3), Rec(1, 4, 0);
    assert [a][1..] == [] && [b][1..] == [] && [a, b][1..] == [b];
    assert Insert([], a) == [a] + [] == [a];
    assert Insert([], b) == [b] && Insert([a], b) == [a, b];
    assert Remove([a], 1) == [a];
    assert ScanTick([a], 1).1 == [a] && ScanTick([a], 2).1 == [a];
    assert ScanTick([b], 3).1 == [b];
    assert ScanTick([a, b], 3).1 == [Rec(0, 6, 3)] + [b];
  }

  // ----- periodic timers do not drift

  /** First tick after now at which a period-p timer started at tick t is due. */
  function NextDue(t: nat, p: nat, now: nat): nat
    requires p > 0 && t <= now
  {
    t + p * ((now - t) / p + 1)
  }

  lemma NextDueStep(t: nat, p: nat, now: nat)
    requires p > 0 && t <= now
    ensures NextDue(t, p, now) > now
    ensures NextDue(t, p, now) <= now + 1 <==> (now + 1 - t) % p == 0
    ensures NextDue(t, p, now + 1) == if (now + 1 - t) % p == 0 then now + 1 + p else NextDue(t, p, now)
  {
    var q, r := (now - t) / p, (now - t) % p;
    assert now - t == p * q + r && p * (q + 1) == p * q + p;
    if r + 1 == p {
      ModIs(now + 1 - t, p, q + 1, 0);
      assert p * (q + 2) == p * (q + 1) + p;
    } else {
      ModIs(now + 1 - t, p, q, r + 1);
    }
  }

  /** Times of the events of a run. */
  function Clock<T>(now: nat, es: seq<Event<T>>, k: nat): nat
    requires k <= |es|
    decreases |es|
  {
    if k == 0 then now else Clock(Later(now, es[0]), es[1..], k - 1)
  }

  predicate Untouched<T(==)>(id: T, e: Event<T>) { e.Tick? || e.id != id }

  /** A timer started at tick t with period p and left alone fires exactly at the ticks t + p,
      t + 2p, ..., whatever happens to other timers in between. */
  lemma {:induction false} NoDrift<T>(s: set<Rec<T>>, now: nat, es: seq<Event<T>>, id: T, t: nat, p: nat)
    requires AllProper(es)
    requires p > 0 && t <= now && Rec(id, NextDue(t, p, now), p) in s
    requires forall x :: x in s && x.id == id ==> x == Rec(id, NextDue(t, p, now), p)
    requires forall k :: 0 <= k < |es| ==> Untouched(id, es[k])
    ensures |SetRun(s, now, es).0| == |es|
    ensures forall k :: 0 <= k < |es| ==>
              (id in SetRun(s, now, es).0[k] <==> es[k].Tick? && (Clock(now, es, k + 1) - t) % p == 0)
    decreases |es|
  {
    if es != [] {
      var e, now' := es[0], Later(now, es[0]);
      var r := SetStep(s, now, e);
      DriftStep(s, now, e, id, t, p);
      NoDrift(r.1, now', es[1..], id, t, p);
      var rest := SetRun(r.1, now', es[1..]).0;
      forall k | 0 <= k < |es|
        ensures id in SetRun(s, now, es).0[k] <==> es[k].Tick? && (Clock(now, es, k + 1) - t) % p == 0
      {
        if k > 0 {
          assert SetRun(s, now, es).0[k] == rest[k - 1] && es[1..][k - 1] == es[k];
          assert Clock(now, es, k + 1) == Clock(now', es[1..], k);
        } else {
          assert Clock(now, es, 1) == Clock(now', es[1..], 0) == now';
        }
      }
    }
  }

  lemma DriftStep<T>(s: set<Rec<T>>, now: nat, e: Event<T>, id: T, t: nat, p: nat)
    requires Proper(e)
    requires p > 0 && t <= now && Rec(id, NextDue(t, p, now), p) in s
    requires forall x :: x in s && x.id == id ==> x == Rec(id, NextDue(t, p, now), p)
    requires Untouched(id, e)
    ensures var r, now' := SetStep(s, now, e), Later(now, e);
            && Rec(id, NextDue(t, p, now'), p) in r.1
            && (forall x :: x in r.1 && x.id == id ==> x == Rec(id, NextDue(t, p, now'), p))
            && (id in r.0 <==> e.Tick? && (now' - t) % p == 0)
  {
    NextDueStep(t, p, now);
    var me := Rec(id, NextDue(t, p, now), p);
    if e.Tick? {
      assert Renewed(me, now + 1) in TickSet(s, now + 1);
      if me.expire <= now + 1 { assert id in Expired(s, now + 1); }
    }
  }

  /** Arming a periodic timer puts it on that schedule. */
  lemma ArmedOnSchedule<T>(s: set<Rec<T>>, now: nat, id: T, p: nat)
    requires p > 0
    ensures var s' := SetStep(s, now, Arm(id, p, true)).1;
            Rec(id, NextDue(now, p, now), p) in s' &&
            forall x :: x in s' && x.id == id ==> x == Rec(id, NextDue(now, p, now), p)
  {
    assert NextDue(now, p, now) == now + p;
  }
}
