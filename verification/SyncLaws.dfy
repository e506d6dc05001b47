/** What callers of the semaphore and the event flags get, told by the calls made before. */
module SyncLaws {
  import opened Common
  import opened SyncSpec

  // ----- semaphore

  /** Whether a call comes back with a token. */
  predicate Got<T(==)>(s: Sem<T>, e: SemEvent<T>) {
    match e
    case Wait(t) => SemPass(s, t).1
    case Resume(t) => SemPass(s, t).1
    case TryWait => SemTry(s).1
    case Post => false
  }

  /** Posts so far less tokens handed out so far. */
  function Balance<T(==)>(s: Sem<T>, es: seq<SemEvent<T>>): int
    decreases |es|
  {
    if es == [] then 0
    else (if es[0].Post? then 1 else if Got(s, es[0]) then -1 else 0) + Balance(SemStep(s, es[0]), es[1..])
  }

  lemma {:induction false} CountIsBalance<T>(s: Sem<T>, es: seq<SemEvent<T>>)
    ensures SemRun(s, es).count == s.count + Balance(s, es)
    decreases |es|
  {
    if es != [] { CountIsBalance(SemStep(s, es[0]), es[1..]); }
  }

  /** From sem_init on, a call gets a token, waiting or not, exactly when more tokens were there and posted than handed out. */
  lemma GotExactly<T>(initial: int, es: seq<SemEvent<T>>, e: SemEvent<T>)
    requires !e.Post?
    ensures Got(SemRun(SemFresh(initial), es), e) <==> initial + Balance(SemFresh(initial), es) > 0
  {
    CountIsBalance(SemFresh(initial), es);
  }

  /** A caller that sem_wait refuses is parked, one that got a token is not, and nobody else moves. sem_trywait moves
      nobody. A post wakes one task, if one is parked, and nobody else moves. */
  lemma WhoMoves<T>(s: Sem<T>, e: SemEvent<T>)
    requires s.waiters.Sound() && SemEnabled(s, e)
    ensures var w, w' := s.waiters, SemStep(s, e).waiters;
            match e {
              case TryWait => w' == w
              case Post => |w'.parked| == (if w.parked == [] then 0 else |w.parked| - 1)
                           && forall u :: u in w'.parked || u in w'.pending <==> u in w.parked || u in w.pending
              case _ => Moved(w, w', e.t, !Got(s, e))
            }
  {
    if s.waiters.parked != [] { assert s.waiters.parked == [s.waiters.parked[0]] + s.waiters.parked[1..]; }
  }

  /** The post after a refused pass wakes that very caller and leaves those parked before it as they were. */
  lemma LastInFirstOut<T>(s: Sem<T>, t: T)
    requires !SemPass(s, t).1
    ensures SemPost(SemPass(s, t).0).waiters == Waiters(s.waiters.parked, s.waiters.pending + {t})
  {
    assert ([t] + s.waiters.parked)[1..] == s.waiters.parked;
    assert (s.waiters.pending - {t}) + {t} == s.waiters.pending + {t};
  }

  // ----- event flags

  /** The wait a pass is made for. */
  predicate Waits<T>(st: EventStep<T>) { st.EWait? || st.EResume? }

  /** Step j of a run takes flag f: it clears it, or is a clearing wait on it that succeeds. */
  ghost predicate Takes<T>(es: seq<EventStep<T>>, j: nat, f: nat)
    requires j < |es|
  {
    match es[j]
    case ESet(_) => false
    case EClear(mask) => f in mask
    case EWait(w) => w.clear && f in w.mask && EventPass(EventRun(EventFresh(), es[..j]), w).1
    case EResume(w) => w.clear && f in w.mask && EventPass(EventRun(EventFresh(), es[..j]), w).1
  }

  ghost predicate Sets<T>(st: EventStep<T>, f: nat) { st.ESet? && f in st.mask }

  /** Some step sets f and none after it takes it. */
  ghost predicate Stands<T>(es: seq<EventStep<T>>, f: nat) {
    exists i :: 0 <= i < |es| && Sets(es[i], f) && Untaken(es, i, f)
  }

  ghost predicate Untaken<T>(es: seq<EventStep<T>>, i: int, f: nat) {
    forall j :: i < j && 0 <= j < |es| ==> !Takes(es, j, f)
  }

  lemma {:induction false} EventRunSnoc<T>(e: Event<T>, es: seq<EventStep<T>>, st: EventStep<T>)
    ensures EventRun(e, es + [st]) == EventNext(EventRun(e, es), st)
    decreases |es|
  {
    hide EventNext;
    if es == [] {
      assert [] + [st] == [st] && [st][1..] == [];
    } else {
      assert (es + [st])[1..] == es[1..] + [st];
      EventRunSnoc(EventNext(e, es[0]), es[1..], st);
    }
  }

  /** One more step changes what stands just by what it sets and takes. */
  lemma StandsSnoc<T>(es: seq<EventStep<T>>, st: EventStep<T>, f: nat)
    ensures Stands(es + [st], f) <==> Sets(st, f) || (Stands(es, f) && !Takes(es + [st], |es|, f))
  {
    var all := es + [st];
    forall j: nat | j < |es| ensures Takes(all, j, f) <==> Takes(es, j, f) { assert all[..j] == es[..j]; }
    hide Takes;
    if Sets(st, f) {
      assert Sets(all[|es|], f) && Untaken(all, |es|, f);
    }
    if Stands(es, f) && !Takes(all, |es|, f) {
      var i :| 0 <= i < |es| && Sets(es[i], f) && Untaken(es, i, f);
      assert Sets(all[i], f) && Untaken(all, i, f);
    }
    if Stands(all, f) && !Sets(st, f) {
      var i :| 0 <= i < |all| && Sets(all[i], f) && Untaken(all, i, f);
      assert i < |es| && Sets(es[i], f);
      assert Untaken(es, i, f) by {
        forall j | i < j && 0 <= j < |es| ensures !Takes(es, j, f) { assert !Takes(all, j, f); }
      }
    }
  }

  /** From event_init on, a flag is set exactly when some event_set of it has no later event_clear of it and no later
      successful clearing wait on it. */
  lemma {:induction false} FlagsExactly<T>(es: seq<EventStep<T>>, f: nat)
    ensures f in EventRun(EventFresh(), es).flags <==> Stands(es, f)
    decreases |es|
  {
    if es != [] {
      var n := |es| - 1;
      assert es == es[..n] + [es[n]] && es[..n] == (es[..n] + [es[n]])[..n];
      FlagsExactly(es[..n], f);
      EventRunSnoc(EventFresh(), es[..n], es[n]);
      StandsSnoc(es[..n], es[n], f);
      hide Stands, EventRun;
    }
  }

  /** A wait succeeds exactly when all of its flags, or for an any-wait at least one of them, stand. */
  lemma MetExactly<T>(es: seq<EventStep<T>>, w: EventWait<T>)
    ensures EventPass(EventRun(EventFresh(), es), w).1 <==>
              if w.all then forall f :: f in w.mask ==> Stands(es, f) else exists f :: f in w.mask && Stands(es, f)
  {
    var flags := EventRun(EventFresh<T>(), es).flags;
    forall f: nat ensures f in flags <==> Stands(es, f) { FlagsExactly(es, f); }
    hide Stands, EventRun;
    assert flags * w.mask == w.mask <==> forall f :: f in w.mask ==> f in flags;
    assert flags * w.mask != {} <==> exists f :: f in w.mask && f in flags by {
      if f :| f in w.mask && f in flags { assert f in flags * w.mask; }
      if flags * w.mask != {} { var f :| f in flags * w.mask; }
    }
  }

  /** After an event_set whose mask meets a wait, its next pass succeeds if nothing took those flags in between. */
  lemma SetServes<T>(es: seq<EventStep<T>>, mask: Word, later: seq<EventStep<T>>, w: EventWait<T>)
    requires Matches(mask, w.mask, w.all)
    requires var run := es + [ESet(mask)] + later;
             forall f :: f in w.mask && f in mask ==> Untaken(run, |es|, f)
    ensures EventPass(EventRun(EventFresh(), es + [ESet(mask)] + later), w).1
  {
    var run := es + [ESet(mask)] + later;
    MetExactly(run, w);
    forall f | f in w.mask && f in mask ensures Stands(run, f) {
      assert Sets(run[|es|], f) && Untaken(run, |es|, f);
    }
    hide Stands, EventRun, Untaken;
    if w.all {
      assert forall f :: f in w.mask ==> f in mask * w.mask;
    } else {
      var f :| f in mask * w.mask;
      assert Stands(run, f);
    }
  }

  /** A refused wait is parked and takes nothing; one that succeeds is neither parked nor pending; nobody else moves. */
  lemma WaitMoves<T>(e: Event<T>, w: EventWait<T>)
    requires e.waiters.Sound() && w !in e.waiters.parked
    ensures var r := EventPass(e, w); var ws, ws' := e.waiters, r.0.waiters;
            Moved(ws, ws', w, !r.1) && (!r.1 ==> r.0.flags == e.flags)
  {
  }

  /** event_set wakes every parked wait and no other. */
  lemma SetWakes<T>(e: Event<T>, mask: Word)
    requires e.waiters.Sound()
    ensures var w := EventSet(e, mask).waiters;
            w.parked == [] && forall u :: u in w.pending <==> u in e.waiters.pending || u in e.waiters.parked
  {
    WakeAllEmpties(e.waiters);
  }
}
