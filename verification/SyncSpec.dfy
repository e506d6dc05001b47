/** Blocking primitives as step systems. Each critical section is one atomic step. A task is
    running, parked in a wait list, or pending: woken by another task but not yet back in its
    own critical section. Wait lists are last-in first-out. A parked caller makes no pass here; when
    the scheduler lets one, and what follows, is the subject of KernelRuns and KernelCases. */
module SyncSpec {
  import opened Common

  /** Who is parked and who is pending; nobody is both, or parked twice. */
  datatype Waiters<T(==)> = Waiters(parked: seq<T>, pending: set<T>) {
    ghost predicate Sound() {
      Distinct(parked) && forall t :: t in parked ==> t !in pending
    }

    /** t may enter a critical section: it is running. */
    predicate Running(t: T) { t !in parked && t !in pending }

    function Park(t: T): Waiters<T> { Waiters([t] + parked, pending - {t}) }

    function WakeOne(): Waiters<T> {
      if parked == [] then this else Waiters(parked[1..], pending + {parked[0]})
    }

    function Leave(t: T): Waiters<T> { this.(pending := pending - {t}) }
  }

  /** After t's pass: t is parked exactly if it was refused, and in no case pending; everybody else is as before. */
  ghost predicate Moved<T>(w: Waiters<T>, w': Waiters<T>, t: T, refused: bool) {
    && (t in w'.parked <==> refused) && w'.pending == w.pending - {t}
    && forall u :: u in w.parked + w'.parked && u != t ==> u in w.parked && u in w'.parked
  }

  lemma ParkSound<T>(w: Waiters<T>, t: T)
    requires w.Sound() && t !in w.parked
    ensures w.Park(t).Sound()
  {
  }

  lemma WakeSound<T>(w: Waiters<T>)
    requires w.Sound()
    ensures w.WakeOne().Sound()
    ensures |w.WakeOne().pending| == |w.pending| + (if w.parked == [] then 0 else 1)
  {
    if w.parked != [] {
      assert w.parked[0] in w.parked;
      assert forall t :: t in w.parked[1..] ==> t in w.parked && t != w.parked[0];
    }
  }

  lemma LeaveSound<T>(w: Waiters<T>, t: T)
    requires w.Sound()
    ensures w.Leave(t).Sound()
    ensures |w.Leave(t).pending| == |w.pending| - (if t in w.pending then 1 else 0)
  {
    assert t in w.pending ==> w.pending == (w.pending - {t}) + {t};
    assert t !in w.pending ==> w.pending - {t} == w.pending;
  }

  // ===== Semaphore

  datatype Sem<T(==)> = Sem(count: int, waiters: Waiters<T>)

  datatype SemEvent<T> = Wait(t: T) | Resume(t: T) | TryWait | Post

  /** One pass of the loop in sem_wait, first or after a wake-up. */
  function SemPass<T(==)>(s: Sem<T>, t: T): (r: (Sem<T>, bool)) {
    if s.count <= 0 then (Sem(s.count, s.waiters.Park(t)), false)
    else (Sem(s.count - 1, s.waiters.Leave(t)), true)
  }

  function SemPost<T(==)>(s: Sem<T>): Sem<T> { Sem(s.count + 1, s.waiters.WakeOne()) }

  function SemTry<T(==)>(s: Sem<T>): (Sem<T>, bool) {
    if s.count > 0 then (s.(count := s.count - 1), true) else (s, false)
  }

  predicate SemEnabled<T(==)>(s: Sem<T>, e: SemEvent<T>) {
    match e
    case Wait(t) => s.waiters.Running(t)
    case Resume(t) => t in s.waiters.pending
    case TryWait => true
    case Post => true
  }

  function SemStep<T(==)>(s: Sem<T>, e: SemEvent<T>): Sem<T> {
    match e
    case Wait(t) => SemPass(s, t).0
    case Resume(t) => SemPass(s, t).0
    case TryWait => SemTry(s).0
    case Post => SemPost(s)
  }

  /** Tokens taken by a step, read off the call's result. */
  function SemTakes<T(==)>(s: Sem<T>, e: SemEvent<T>): int {
    match e
    case Wait(t) => if SemPass(s, t).1 then 1 else 0
    case Resume(t) => if SemPass(s, t).1 then 1 else 0
    case TryWait => if SemTry(s).1 then 1 else 0
    case Post => -1
  }

  ghost predicate SemInv<T>(s: Sem<T>) {
    s.waiters.Sound() && (s.waiters.parked != [] ==> s.count <= |s.waiters.pending|)
  }

  ghost predicate SemRuns<T>(s: Sem<T>, es: seq<SemEvent<T>>)
    decreases |es|
  {
    es == [] || (SemEnabled(s, es[0]) && SemRuns(SemStep(s, es[0]), es[1..]))
  }

  function SemRun<T(==)>(s: Sem<T>, es: seq<SemEvent<T>>): Sem<T>
    decreases |es|
  {
    if es == [] then s else SemRun(SemStep(s, es[0]), es[1..])
  }

  function SemTaken<T(==)>(s: Sem<T>, es: seq<SemEvent<T>>): int
    decreases |es|
  {
    if es == [] then 0 else SemTakes(s, es[0]) + SemTaken(SemStep(s, es[0]), es[1..])
  }

  lemma SemStepKeeps<T>(s: Sem<T>, e: SemEvent<T>)
    requires SemInv(s) && SemEnabled(s, e)
    ensures SemInv(SemStep(s, e))
    ensures SemStep(s, e).count == s.count - SemTakes(s, e)
    ensures s.count >= 0 ==> SemStep(s, e).count >= 0
  {
    match e
    case Wait(t) =>
      LeaveSound(s.waiters, t);
      ParkSound(s.waiters, t);
    case Resume(t) =>
      LeaveSound(s.waiters, t);
      ParkSound(s.waiters, t);
    case TryWait =>
    case Post =>
      WakeSound(s.waiters);
  }

  lemma {:induction false} SemRunKeeps<T>(s: Sem<T>, es: seq<SemEvent<T>>)
    requires SemInv(s) && SemRuns(s, es)
    ensures SemInv(SemRun(s, es))
    ensures SemRun(s, es).count == s.count - SemTaken(s, es)
    ensures s.count >= 0 ==> SemRun(s, es).count >= 0
    decreases |es|
  {
    if es != [] {
      SemStepKeeps(s, es[0]);
      SemRunKeeps(SemStep(s, es[0]), es[1..]);
    }
  }

  /** sem_init */
  function SemFresh<T(==)>(initial: int): Sem<T> { Sem(initial, Waiters([], {})) }

  /** From sem_init, in every interleaving in which no parked caller makes a pass: tokens are conserved and never
      overdrawn, and while somebody is parked every available token has a woken task that has still to take it. */
  lemma SemSafety<T>(initial: int, es: seq<SemEvent<T>>)
    requires SemRuns(SemFresh<T>(initial), es)
    ensures var s := SemRun(SemFresh<T>(initial), es);
            && SemInv(s) && s.count == initial - SemTaken(SemFresh<T>(initial), es)
            && (initial >= 0 ==> s.count >= 0)
  {
    SemRunKeeps(SemFresh<T>(initial), es);
  }

  // ===== Event flags

  /** A 32-bit word as the positions of its one bits: & is intersection, | is union, & ~ is difference. */
  type Word = set<nat>

  datatype EventWait<T> = EventWait(task: T, mask: Word, all: bool, clear: bool)

  datatype Event<T(==)> = Event(flags: Word, waiters: Waiters<EventWait<T>>)

  predicate Matches(flags: Word, mask: Word, all: bool) {
    if all then flags * mask == mask else flags * mask != {}
  }

  predicate Met<T>(flags: Word, w: EventWait<T>) { Matches(flags, w.mask, w.all) }

  /** One pass of the loop in event_wait. */
  function EventPass<T(==)>(e: Event<T>, w: EventWait<T>): (Event<T>, bool) {
    if Met(e.flags, w) then
      (Event(if w.clear then e.flags - w.mask else e.flags, e.waiters.Leave(w)), true)
    else (Event(e.flags, e.waiters.Park(w)), false)
  }

  function WakeAll<T(==)>(w: Waiters<T>): Waiters<T>
    decreases |w.parked|
  {
    if w.parked == [] then w else WakeAll(w.WakeOne())
  }

  function EventSet<T(==)>(e: Event<T>, mask: Word): Event<T> {
    Event(e.flags + mask, WakeAll(e.waiters))
  }

  function EventClear<T(==)>(e: Event<T>, mask: Word): Event<T> { e.(flags := e.flags - mask) }

  datatype EventStep<T> = EWait(w: EventWait<T>) | EResume(w: EventWait<T>) | ESet(mask: Word) | EClear(mask: Word)

  predicate EventEnabled<T(==)>(e: Event<T>, st: EventStep<T>) {
    match st
    case EWait(w) => e.waiters.Running(w)
    case EResume(w) => w in e.waiters.pending
    case ESet(_) => true
    case EClear(_) => true
  }

  function EventNext<T(==)>(e: Event<T>, st: EventStep<T>): Event<T> {
    match st
    case EWait(w) => EventPass(e, w).0
    case EResume(w) => EventPass(e, w).0
    case ESet(mask) => EventSet(e, mask)
    case EClear(mask) => EventClear(e, mask)
  }

  /** Nobody is parked on a condition that holds. */
  ghost predicate EventInv<T>(e: Event<T>) {
    e.waiters.Sound() && NoneMet(e.flags, e.waiters.parked)
  }

  ghost predicate NoneMet<T>(flags: Word, ws: seq<EventWait<T>>) {
    forall i :: 0 <= i < |ws| ==> !Met(flags, ws[i])
  }

  ghost predicate EventRuns<T>(e: Event<T>, es: seq<EventStep<T>>)
    decreases |es|
  {
    es == [] || (EventEnabled(e, es[0]) && EventRuns(EventNext(e, es[0]), es[1..]))
  }

  function EventRun<T(==)>(e: Event<T>, es: seq<EventStep<T>>): Event<T>
    decreases |es|
  {
    if es == [] then e else EventRun(EventNext(e, es[0]), es[1..])
  }

  /** Clearing flags cannot make a false condition true. */
  lemma ClearKeepsFalse<T>(flags: Word, mask: Word, w: EventWait<T>)
    requires !Met(flags, w)
    ensures !Met(flags - mask, w)
  {
    assert (flags - mask) * w.mask <= flags * w.mask;
  }

  lemma ClearKeepsNoneMet<T>(flags: Word, mask: Word, ws: seq<EventWait<T>>)
    requires NoneMet(flags, ws)
    ensures NoneMet(flags - mask, ws)
  {
    forall i | 0 <= i < |ws| ensures !Met(flags - mask, ws[i]) { ClearKeepsFalse(flags, mask, ws[i]); }
  }

  lemma FirstAndRest<T>(ts: seq<T>)
    requires ts != []
    ensures (set t | t in ts) == {ts[0]} + (set t | t in ts[1..])
  {
  }

  lemma {:induction false} WakeAllEmpties<T>(w: Waiters<T>)
    requires w.Sound()
    ensures WakeAll(w).parked == [] && WakeAll(w).Sound()
    ensures WakeAll(w).pending == w.pending + (set t | t in w.parked)
    decreases |w.parked|
  {
    if w.parked != [] {
      WakeSound(w);
      WakeAllEmpties(w.WakeOne());
      FirstAndRest(w.parked);
    }
  }

  lemma EventStepKeeps<T>(e: Event<T>, st: EventStep<T>)
    requires EventInv(e) && EventEnabled(e, st)
    ensures EventInv(EventNext(e, st))
  {
    match st
    case EWait(w) => EventPassKeeps(e, w);
    case EResume(w) => EventPassKeeps(e, w);
    case ESet(mask) => WakeAllEmpties(e.waiters);
    case EClear(mask) => ClearKeepsNoneMet(e.flags, mask, e.waiters.parked);
  }

  lemma EventPassKeeps<T>(e: Event<T>, w: EventWait<T>)
    requires EventInv(e) && w !in e.waiters.parked
    ensures EventInv(EventPass(e, w).0)
  {
    LeaveSound(e.waiters, w);
    ParkSound(e.waiters, w);
    ClearKeepsNoneMet(e.flags, w.mask, e.waiters.parked);
  }

  lemma {:induction false} EventRunKeeps<T>(e: Event<T>, es: seq<EventStep<T>>)
    requires EventInv(e) && EventRuns(e, es)
    ensures EventInv(EventRun(e, es))
    decreases |es|
  {
    if es != [] {
      EventStepKeeps(e, es[0]);
      EventRunKeeps(EventNext(e, es[0]), es[1..]);
    }
  }

  /** event_init */
  function EventFresh<T(==)>(): Event<T> { Event({}, Waiters([], {})) }

  /** From event_init, in every interleaving in which no parked caller makes a pass, every parked waiter's condition is
      false. */
  lemma EventSafety<T>(es: seq<EventStep<T>>)
    requires EventRuns(EventFresh<T>(), es)
    ensures EventInv(EventRun(EventFresh<T>(), es))
  {
    EventRunKeeps(EventFresh<T>(), es);
  }
}
