/** When a timer fires, told by the starts, stops and ticks before. */
module TimerHistory {
  import opened Arith
  import opened TimerSpec
  import opened TimerRuns

  /** The start a timer is pending under: its delay, whether it is periodic, and the ticks since. */
  datatype Plan = None | Plan(delay: nat, periodic: bool, ticks: nat)

  /** The last event that names the timer decides. */
  function PlanOf<T(==)>(es: seq<Event<T>>, id: T): Plan {
    if es == [] then None else NextPlan(PlanOf(es[..|es| - 1], id), es[|es| - 1], id)
  }

  function NextPlan<T(==)>(p: Plan, e: Event<T>, id: T): Plan {
    match e
    case Arm(i, delay, periodic) => if i == id then Plan(delay, periodic, 0) else p
    case Disarm(i) => if i == id then None else p
    case Tick => if p.Plan? then p.(ticks := p.ticks + 1) else p
  }

  /** A one-shot timer fires when its delay is over, a periodic one at every multiple of it. */
  predicate Falls(p: Plan) {
    p.Plan? && p.delay > 0 && p.ticks > 0 && (if p.periodic then p.ticks % p.delay == 0 else p.ticks == p.delay)
  }

  function Ticks<T>(es: seq<Event<T>>): nat {
    if es == [] then 0 else Ticks(es[..|es| - 1]) + (if es[|es| - 1].Tick? then 1 else 0)
  }

  // ----- the pending set after a run

  ghost function After<T>(now: nat, es: seq<Event<T>>): set<Rec<T>>
    requires AllProper(es)
  {
    if es == [] then {} else SetStep(After(now, es[..|es| - 1]), now + Ticks(es[..|es| - 1]), es[|es| - 1]).1
  }

  /** What is pending under id after a run that ends at time now. */
  ghost predicate Agrees<T>(s: set<Rec<T>>, now: nat, id: T, p: Plan) {
    match p
    case None => forall r :: r in s ==> r.id != id
    case Plan(d, periodic, m) =>
      && d > 0 && m <= now
      && if periodic then OnlyAs(s, Rec(id, NextDue(now - m, d, now), d))
         else if m < d then OnlyAs(s, Rec(id, now - m + d, 0))
         else forall r :: r in s ==> r.id != id
  }

  ghost predicate OnlyAs<T>(s: set<Rec<T>>, r: Rec<T>) { r in s && forall x :: x in s && x.id == r.id ==> x == r }

  lemma TickAgrees<T>(s: set<Rec<T>>, now: nat, id: T, p: Plan)
    requires Agrees(s, now, id, p)
    ensures Agrees(TickSet(s, now + 1), now + 1, id, if p.Plan? then p.(ticks := p.ticks + 1) else p)
    ensures id in Expired(s, now + 1) <==> p.Plan? && Falls(p.(ticks := p.ticks + 1))
  {
    if p.Plan? && p.periodic {
      var r := Rec(id, NextDue(now - p.ticks, p.delay, now), p.delay);
      NextDueStep(now - p.ticks, p.delay, now);
      assert Renewed(r, now + 1) in TickSet(s, now + 1);
      assert r.expire <= now + 1 ==> id in Expired(s, now + 1);
    } else if p.Plan? && p.ticks < p.delay {
      var r := Rec(id, now - p.ticks + p.delay, 0);
      assert r.expire > now + 1 ==> Renewed(r, now + 1) in TickSet(s, now + 1);
      assert r.expire <= now + 1 ==> id in Expired(s, now + 1);
    }
  }

  lemma {:induction false} AfterAgrees<T>(now: nat, es: seq<Event<T>>, id: T)
    requires AllProper(es)
    ensures Agrees(After(now, es), now + Ticks(es), id, PlanOf(es, id))
  {
    if es != [] {
      var before, e := es[..|es| - 1], es[|es| - 1];
      AfterAgrees(now, before, id);
      StepAgrees(After(now, before), now + Ticks(before), e, id, PlanOf(before, id));
      hide Agrees, SetStep, NextPlan;
    }
  }

  lemma StepAgrees<T>(s: set<Rec<T>>, now: nat, e: Event<T>, id: T, p: Plan)
    requires Proper(e) && Agrees(s, now, id, p)
    ensures Agrees(SetStep(s, now, e).1, Later(now, e), id, NextPlan(p, e, id))
  {
    hide Agrees;
    if e.Tick? { TickAgrees(s, now, id, p); } else if e.id == id { NamedAgrees(s, now, e); } else { OtherAgrees(s, now, e, id, p); }
  }

  lemma NamedAgrees<T>(s: set<Rec<T>>, now: nat, e: Event<T>)
    requires !e.Tick? && Proper(e)
    ensures Agrees(SetStep(s, now, e).1, now, e.id, if e.Arm? then Plan(e.delay, e.periodic, 0) else None)
  {
    if e.Arm? { ModIs(0, e.delay, 0, 0); }
  }

  lemma OtherAgrees<T>(s: set<Rec<T>>, now: nat, e: Event<T>, id: T, p: Plan)
    requires !e.Tick? && e.id != id && Proper(e) && Agrees(s, now, id, p)
    ensures Agrees(SetStep(s, now, e).1, now, id, p)
  {
    hide NextDue;
    assert forall r: Rec<T> :: r.id == id ==> (r in SetStep(s, now, e).1 <==> r in s);
  }

  // ----- and the runs of both implementations

  lemma {:induction false} SetRunIs<T>(s: set<Rec<T>>, now: nat, es: seq<Event<T>>, e: Event<T>)
    requires AllProper(es) && Proper(e) && AllProper(es + [e])
    ensures SetRun(s, now, es + [e]).0 == SetRun(s, now, es).0 + [SetStep(SetRun(s, now, es).1, now + Ticks(es), e).0]
    ensures SetRun(s, now, es + [e]).1 == SetStep(SetRun(s, now, es).1, now + Ticks(es), e).1
    decreases |es|
  {
    hide SetStep;
    if es == [] {
      assert [] + [e] == [e] && [e][1..] == [];
    } else {
      var t := SetStep(s, now, es[0]).1;
      assert (es + [e])[1..] == es[1..] + [e];
      SetRunIs(t, Later(now, es[0]), es[1..], e);
      TicksFirst(es);
    }
  }

  lemma {:induction false} TicksFirst<T>(es: seq<Event<T>>)
    requires es != []
    ensures Ticks(es) == (if es[0].Tick? then 1 else 0) + Ticks(es[1..])
  {
    if |es| > 1 {
      TicksFirst(es[..|es| - 1]);
      assert es[..|es| - 1][1..] == es[1..][..|es| - 2];
    }
  }

  lemma {:induction false} SetRunAfter<T>(now: nat, es: seq<Event<T>>)
    requires AllProper(es)
    ensures SetRun({}, now, es).1 == After(now, es) && |SetRun({}, now, es).0| == |es|
    decreases |es|
  {
    if es != [] {
      var before := es[..|es| - 1];
      assert es == before + [es[|es| - 1]];
      SetRunAfter(now, before);
      SetRunIs({}, now, before, es[|es| - 1]);
    }
  }

  /** Both implementations, started empty: an event makes a timer fire exactly when it is a tick and the timer's last start,
      if it was not stopped since, says so: after its delay for a one-shot timer, at every multiple of it for a periodic one. */
  lemma FiresExactly<T>(now: nat, es: seq<Event<T>>, e: Event<T>, id: T)
    requires AllProper(es) && Proper(e) && AllProper(es + [e])
    ensures var kernel, driver := KernelRun([], now, es + [e]).0, DriverRun([], now, es + [e]).0;
            && |kernel| == |driver| == |es| + 1 && kernel == driver
            && (id in kernel[|es|] <==> e.Tick? && Falls(PlanOf(es + [e], id)))
  {
    hide Falls, PlanOf, KernelRun, DriverRun, SetRun;
    KernelRefines([], now, es + [e]);
    DriverRefines([], now, es + [e]);
    assert Pending<T>([]) == {};
    SetFires(now, es, e, id);
  }

  lemma SetFires<T>(now: nat, es: seq<Event<T>>, e: Event<T>, id: T)
    requires AllProper(es) && Proper(e) && AllProper(es + [e])
    ensures var fired := SetRun({}, now, es + [e]).0;
            |fired| == |es| + 1 && (id in fired[|es|] <==> e.Tick? && Falls(PlanOf(es + [e], id)))
  {
    SetRunAfter(now, es);
    SetRunIs({}, now, es, e);
    AfterAgrees(now, es, id);
    assert (es + [e])[..|es|] == es;
    hide Agrees, TickSet, Expired, After, Falls, SetRun;
    if e.Tick? { TickAgrees(After(now, es), now + Ticks(es), id, PlanOf(es, id)); }
  }
}
