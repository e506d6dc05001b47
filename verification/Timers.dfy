/** The two timer services with their timer objects, singly linked and overwritten in place. The link fields are kept
    as a map from timers; a pointer to a list pointer is the timer that holds it, or null for the list head. */
module Timers {
  import opened Common
  import opened TimerSpec

  class Timer {
    var expire: nat
    var period: nat
    var periodic: bool
    var active: bool

    /** timer_init */
    constructor ()
      ensures !active && !periodic
    {
      expire, period, periodic, active := 0, 0, false, false;
    }

    /** Setup part of timer_start */
    method Setup(now: nat, delay: nat, periodic: bool)
      modifies this
      ensures active && RecOf(this) == Armed(this, now, delay, periodic)
    {
      expire := now + delay;
      period := if periodic then delay else 0;
      this.periodic := periodic;
      active := true;
    }
  }

  ghost function RecOf(t: Timer): Rec<Timer>
    reads t
  {
    Rec(t, t.expire, if t.periodic then t.period else 0)
  }

  /** Without item i. */
  function Less<T>(s: seq<T>, i: nat): (r: seq<T>)
    requires i < |s|
    ensures |r| == |s| - 1
  {
    s[..i] + s[i + 1..]
  }

  /** With x in front of item i. */
  function More<T>(s: seq<T>, i: nat, x: T): (r: seq<T>)
    requires i <= |s|
    ensures |r| == |s| + 1
  {
    s[..i] + [x] + s[i..]
  }

  lemma {:induction false} InsertAt<T>(l: seq<Rec<T>>, r: Rec<T>, i: nat)
    requires i <= |l| && forall k :: 0 <= k < i ==> l[k].expire <= r.expire
    requires i == |l| || l[i].expire > r.expire
    ensures Insert(l, r) == More(l, i, r)
  {
    if i > 0 {
      InsertAt(l[1..], r, i - 1);
      assert More(l, i, r) == [l[0]] + More(l[1..], i - 1, r);
    }
  }

  lemma LessNext<T>(s: seq<T>, i: nat)
    requires 0 < i < |s|
    ensures Less(s, i) == [s[0]] + Less(s[1..], i - 1)
  {
  }

  lemma {:induction false} RemoveAt<T>(l: seq<Rec<T>>, id: T, i: nat)
    requires i <= |l| && forall k :: 0 <= k < i ==> l[k].id != id
    requires i == |l| || l[i].id == id
    ensures Remove(l, id) == if i == |l| then l else Less(l, i)
  {
    if i > 0 {
      hide Less;
      RemoveAt(l[1..], id, i - 1);
      if i < |l| { LessNext(l, i); }
    }
  }

  lemma AbsentId(recs: seq<Rec<Timer>>, list: seq<Timer>, t: Timer)
    requires |recs| == |list| && t !in list && forall i :: 0 <= i < |list| ==> recs[i].id == list[i]
    ensures forall x :: x in recs ==> x.id != t
  {
  }

  lemma GoneId(recs: seq<Rec<Timer>>, list: seq<Timer>, t: Timer)
    requires |recs| == |list| && forall i :: 0 <= i < |list| ==> recs[i].id == list[i]
    requires forall x :: x in Pending(recs) ==> x.id != t
    ensures t !in list
  {
    forall k | 0 <= k < |list| ensures list[k] != t { assert recs[k] in Pending(recs); }
  }

  ghost predicate Listed(recs: seq<Rec<Timer>>, list: seq<Timer>)
    reads list
  {
    |recs| == |list| && forall i :: 0 <= i < |list| ==>
      list[i].active && recs[i] == Rec(list[i], list[i].expire, if list[i].periodic then list[i].period else 0)
  }

  lemma ListedInsert(recs: seq<Rec<Timer>>, list: seq<Timer>, t: Timer, i: nat)
    requires Listed(recs, list) && t.active && i <= |list|
    ensures Listed(More(recs, i, RecOf(t)), More(list, i, t))
  {
  }

  lemma ListedRemove(recs: seq<Rec<Timer>>, list: seq<Timer>, i: nat)
    requires Listed(recs, list) && i < |list|
    ensures Listed(Less(recs, i), Less(list, i))
  {
  }

  function Nth(list: seq<Timer>, k: int): Timer? { if 0 <= k < |list| then list[k] else null }

  /** The pointers from head on run through list. */
  ghost predicate Chained(head: Timer?, next: map<Timer, Timer?>, list: seq<Timer>) {
    head == Nth(list, 0) && forall k :: 0 <= k < |list| ==> list[k] in next && next[list[k]] == Nth(list, k + 1)
  }

  lemma ListedIds(recs: seq<Rec<Timer>>, list: seq<Timer>)
    requires Listed(recs, list)
    ensures |recs| == |list|
    ensures forall i :: 0 <= i < |list| ==> list[i].active && recs[i].id == list[i] && recs[i].expire == list[i].expire
  {
  }

  lemma ListDistinct(recs: seq<Rec<Timer>>, list: seq<Timer>)
    requires DistinctIds(recs) && |recs| == |list| && forall i :: 0 <= i < |list| ==> recs[i].id == list[i]
    ensures Distinct(list)
  {
    forall i, j | 0 <= i < j < |list| ensures list[i] != list[j] { DistinctAt(recs, i); }
  }

  lemma CutChained(head: Timer?, next: map<Timer, Timer?>, list: seq<Timer>, i: nat)
    requires Chained(head, next, list) && Distinct(list) && i < |list|
    ensures i == 0 ==> Chained(next[list[0]], next, list[1..])
    ensures i > 0 ==> Chained(head, next[list[i - 1] := next[list[i]]], Less(list, i))
  {
  }

  lemma PutChained(head: Timer?, next: map<Timer, Timer?>, list: seq<Timer>, t: Timer, i: nat)
    requires Chained(head, next, list) && Distinct(list) && t !in list && i <= |list|
    ensures i == 0 ==> Chained(t, next[t := head], [t] + list)
    ensures i > 0 ==> list[i - 1] in next
    ensures i > 0 ==> Chained(head, next[t := next[list[i - 1]]][list[i - 1] := t], More(list, i, t))
  {
  }

  lemma LinkFacts(recs: seq<Rec<Timer>>, list: seq<Timer>, t: Timer, i: nat)
    requires DistinctIds(recs) && Listed(recs, list) && t !in list && i <= |list|
    requires (forall k :: 0 <= k < i ==> list[k].expire <= t.expire) && (i < |list| ==> list[i].expire > t.expire)
    ensures |recs| == |list| && Insert(recs, RecOf(t)) == More(recs, i, RecOf(t))
    ensures DistinctIds(Insert(recs, RecOf(t)))
  {
    ListedIds(recs, list);
    hide Listed;
    InsertAt(recs, RecOf(t), i);
    AbsentId(recs, list, t);
    InsertDistinct(recs, RecOf(t));
  }

  /** What both services share: the pending list and the operations that relink it. */
  class Service {
    var now: nat
    var head: Timer?               // timer_list
    var next: map<Timer, Timer?>   // the timers' link fields
    ghost var list: seq<Timer>
    ghost var recs: seq<Rec<Timer>>

    /** recs is the list's contents; exactly the listed timers are pending, and each is active. */
    ghost predicate Valid()
      reads this, list
    {
      DistinctIds(recs) && Listed(recs, list) && Chained(head, next, list)
    }

    /** Entry i, its record, and the links around it. */
    lemma EntryFacts(i: nat)
      requires Valid() && i < |list|
      ensures |recs| == |list| && list[i].active && Within(list, list)
      ensures recs[i] == Rec(list[i], list[i].expire, if list[i].periodic then list[i].period else 0)
      ensures list[i] == Nth(list, i + 1 - 1) && list[i] in next && next[list[i]] == Nth(list, i + 1)
    {
    }

    constructor ()
      ensures Valid() && recs == [] && now == 0
    {
      now, head, next, list, recs := 0, null, map[], [], [];
    }

    /** *pp = timer->next, where pp is the list pointer in front of entry i. */
    method Cut(prev: Timer?, t: Timer, ghost i: nat)
      requires Chained(head, next, list) && Distinct(list) && i < |list| && t == list[i] && prev == Nth(list, i - 1)
      modifies this`head, this`next, this`list
      ensures Chained(head, next, list) && list == Less(old(list), i)
      ensures prev == Nth(list, i - 1) && t in next && next[t] == Nth(list, i)
    {
      CutChained(head, next, list, i);
      assert i == 0 ==> Less(list, 0) == list[1..];
      if prev == null {
        head := next[t];
      } else {
        next := next[prev := next[t]];
      }
      list := Less(list, i);
    }

    /** timer->next = *pp; *pp = timer. */
    method Put(prev: Timer?, t: Timer, ghost i: nat)
      requires Chained(head, next, list) && Distinct(list) && t !in list && i <= |list| && prev == Nth(list, i - 1)
      modifies this`head, this`next, this`list
      ensures Chained(head, next, list) && list == More(old(list), i, t)
    {
      hide Chained, Distinct;
      PutChained(head, next, list, t, i);
      assert i == 0 ==> More(list, 0, t) == [t] + list;
      if prev == null {
        next := next[t := head];
        head := t;
      } else {
        next := next[t := next[prev]];
        next := next[prev := t];
      }
      list := More(list, i, t);
    }

    /** The list pointer in front of t, or in front of the end. */
    method Seek(t: Timer) returns (prev: Timer?, cur: Timer?, ghost i: nat)
      requires Chained(head, next, list)
      ensures i <= |list| && prev == Nth(list, i - 1) && cur == Nth(list, i)
      ensures (cur == null || cur == t) && forall k :: 0 <= k < i ==> list[k] != t
    {
      prev, cur, i := null, head, 0;
      while cur != null && cur != t
        invariant i <= |list| && prev == Nth(list, i - 1) && cur == Nth(list, i)
        invariant forall k :: 0 <= k < i ==> list[k] != t
        decreases |list| - i
      {
        prev, cur, i := cur, next[cur], i + 1;
      }
    }

    /** The list pointer in front of the first timer that expires later than t. */
    method SeekPlace(t: Timer) returns (prev: Timer?, cur: Timer?, ghost i: nat)
      requires Chained(head, next, list)
      ensures i <= |list| && prev == Nth(list, i - 1) && cur == Nth(list, i)
      ensures (cur == null || cur.expire > t.expire) && forall k :: 0 <= k < i ==> list[k].expire <= t.expire
    {
      prev, cur, i := null, head, 0;
      while cur != null && cur.expire <= t.expire
        invariant i <= |list| && prev == Nth(list, i - 1) && cur == Nth(list, i)
        invariant forall k :: 0 <= k < i ==> list[k].expire <= t.expire
        decreases |list| - i
      {
        prev, cur, i := cur, next[cur], i + 1;
      }
    }

    /** Entry i leaves the list. */
    method Drop(prev: Timer?, t: Timer, ghost i: nat)
      requires Valid() && i < |list| && t == list[i] && prev == Nth(list, i - 1)
      modifies this`head, this`next, this`list, this`recs
      ensures Valid() && recs == Less(old(recs), i) && t !in list
      ensures Within(list, old(list)) && |list| == |recs| == |old(list)| - 1
      ensures prev == Nth(list, i - 1) && t in next && next[t] == Nth(list, i)
    {
      ListedIds(recs, list);
      hide Chained, DistinctIds, Listed, Nth, Less, Distinct, Within;
      ghost var l, ts := recs, list;
      ListDistinct(l, ts);
      DistinctDropped(l, i);
      LessFacts(ts, i);
      Cut(prev, t, i);
      recs := Less(l, i);
      ListedRemove(l, ts, i);
    }

    method Unlink(t: Timer)
      requires Valid()
      modifies this`head, this`next, this`list, this`recs
      ensures Valid() && recs == Remove(old(recs), t) && t !in list
    {
      ListedIds(recs, list);
      hide Chained, DistinctIds, Listed;
      var prev, cur, i := Seek(t);
      RemoveAt(recs, t, i);
      if cur != null { Drop(prev, cur, i); }
    }

    /** Insert sorted by expiration. */
    method Link(t: Timer)
      requires Valid() && t !in list && t.active
      modifies this`head, this`next, this`list, this`recs
      ensures Valid() && recs == Insert(old(recs), RecOf(t))
      ensures forall x :: x in list ==> x in old(list) || x == t
    {
      var prev, cur, i := SeekPlace(t);
      Place(prev, t, i);
    }

    /** t enters the list in front of entry i, the first that expires later. */
    method Place(prev: Timer?, t: Timer, ghost i: nat)
      requires Valid() && t !in list && t.active && i <= |list| && prev == Nth(list, i - 1)
      requires (forall k :: 0 <= k < i ==> list[k].expire <= t.expire) && (i < |list| ==> list[i].expire > t.expire)
      modifies this`head, this`next, this`list, this`recs
      ensures Valid() && recs == Insert(old(recs), RecOf(t)) && list == More(old(list), i, t)
    {
      ListedIds(recs, list);
      hide Chained, DistinctIds, Listed, Distinct, Nth, RecOf, More, Insert;
      ghost var l, ts := recs, list;
      ListDistinct(l, ts);
      LinkFacts(l, ts, t, i);
      Put(prev, t, i);
      recs := Insert(l, RecOf(t));
      ListedInsert(l, ts, t, i);
    }

    /** timer_start of the kernel, which accepts any delay. */
    method Rearm(t: Timer, delay: nat, periodic: bool)
      requires Valid()
      modifies this`head, this`next, this`list, this`recs, t
      ensures Valid() && recs == Start(old(recs), Armed(t, now, delay, periodic))
    {
      Unlink(t);
      t.Setup(now, delay, periodic);
      Link(t);
    }

    /** timer_stop */
    method Stop(t: Timer)
      requires Valid()
      modifies this`head, this`next, this`list, this`recs, t
      ensures Valid() && recs == Remove(old(recs), t) && !t.active
    {
      Unlink(t);
      t.active := false;
    }

    /** No due periodic timer has period 0: exactly then the kernel's handler returns (TimerSpec.TickEndsExactly). */
    ghost predicate Settles()
      reads this, list
    {
      forall t :: t in list && t.expire <= now && t.periodic ==> t.period > 0
    }

    /** timer_tick_handler of the kernel (callbacks are taken not to start or stop timers). */
    method KernelTick() returns (fired: seq<Timer>)
      requires Valid() && Settles()
      modifies this, list
      ensures Valid() && now == old(now) && (fired, recs) == SortedTick(old(recs), now)
    {
      ghost var all, was := SortedTick(recs, now), list;
      fired := [];
      assert Ticking(all, was, fired);
      hide Valid, Ticking, SortedTick, Due;
      while head != null && head.expire <= now
        invariant Ticking(all, was, fired) && Settles() && now == old(now)
        decreases Due(recs, now)
      {
        AtHead(all, was, fired);
        var timer := head;
        KernelRound(all, was, fired, timer);
        fired := fired + [timer];
      }
      NoneDue(all, was, fired);
    }

    /** What holds while the tick runs: all is the outcome, was the list at the start. */
    ghost predicate Ticking(all: (seq<Timer>, seq<Rec<Timer>>), was: seq<Timer>, fired: seq<Timer>)
      reads this, list
    {
      Valid() && Within(list, was) && Remains(all, fired, [], SortedTick(recs, now))
    }

    lemma AtHead(all: (seq<Timer>, seq<Rec<Timer>>), was: seq<Timer>, fired: seq<Timer>)
      requires Ticking(all, was, fired) && head != null
      ensures list != [] && head == list[0] && head in was
    {
    }

    lemma NoneDue(all: (seq<Timer>, seq<Rec<Timer>>), was: seq<Timer>, fired: seq<Timer>)
      requires Ticking(all, was, fired) && (head != null ==> head.expire > now)
      ensures Valid() && all == (fired, recs)
    {
      assert recs == [] || recs[0].expire > now;
      RemainsNone(all, fired, [], SortedTick(recs, now));
    }

    method KernelRound(ghost all: (seq<Timer>, seq<Rec<Timer>>), ghost was: seq<Timer>, fired: seq<Timer>, timer: Timer)
      requires Ticking(all, was, fired) && Settles() && list != [] && timer == list[0] && timer.expire <= now
      modifies this`head, this`next, this`list, this`recs, timer`expire
      ensures Settles() && Ticking(all, was, fired + [timer]) && Due(recs, now) < Due(old(recs), now)
    {
      ghost var before, held := recs, list;
      KernelServe(timer);
      hide Valid, Within, Remains, HeadServed, SortedTick, Due;
      WithinBoth(list, held, was);
      TickRest(all, fired, before, recs, timer, now);
    }

    /** One round: take the head off, fire it, put it back if it is periodic. */
    method KernelServe(timer: Timer)
      requires Valid() && list != [] && timer == list[0] && timer.expire <= now && (timer.periodic ==> timer.period > 0)
      modifies this`head, this`next, this`list, this`recs, timer`expire
      ensures Valid() && old(recs) != [] && timer == old(recs)[0].id && old(recs)[0].expire <= now
      ensures HeadServed(old(recs), recs, now)
      ensures Within(list, old(list))
      ensures Due(recs, now) < Due(old(recs), now)
    {
      HeadTimer(head, next, recs, list);
      hide Chained, DistinctIds, Listed, Insert, Due, Nth, Remove, RecOf;
      ghost var r, rest := recs[0], recs[1..];
      HeadFacts(recs, r, rest, now);
      DropHead(timer);
      assert recs == rest;
      if timer.periodic && timer.active {
        assert Renewed(r, now) == Rec(timer, now + timer.period, timer.period);
        Requeue(timer, Renewed(r, now));
      }
    }

    /** The head leaves the list. */
    method DropHead(timer: Timer)
      requires Valid() && list != [] && timer == list[0]
      modifies this`head, this`next, this`list, this`recs
      ensures Valid() && recs == old(recs)[1..] && timer !in list && Within(list, old(list))
    {
      Drop(null, timer, 0);
      assert Less(old(recs), 0) == old(recs)[1..];
    }

    /** A periodic timer off the list goes back, due one period from now. */
    method Requeue(timer: Timer, ghost r: Rec<Timer>)
      requires Valid() && timer !in list && timer.active && timer.periodic
      requires r == Rec(timer, now + timer.period, timer.period)
      modifies this`head, this`next, this`list, this`recs, timer`expire
      ensures Valid() && recs == Insert(old(recs), r)
      ensures forall x :: x in list ==> x in old(list) || x == timer
    {
      timer.expire := now + timer.period;
      Link(timer);
    }

    /** timer_start of the driver; the kernel's, which does not check the delay, is Rearm. */
    method DriverStart(t: Timer, delay: nat, periodic: bool) returns (ok: bool)
      requires Valid()
      modifies this`head, this`next, this`list, this`recs, t
      ensures Valid() && ok == (delay != 0)
      ensures recs == if ok then Start(old(recs), Armed(t, now, delay, periodic)) else old(recs)
    {
      if delay == 0 { return false; }
      Rearm(t, delay, periodic);
      return true;
    }

    /** timer_tick_handler of the driver */
    method DriverTick() returns (fired: seq<Timer>)
      requires Valid()
      modifies this, list
      ensures Valid() && now == old(now) + 1 && (fired, recs) == ScanTick(old(recs), now)
    {
      now := now + 1;
      fired := ProcessSwTimers();
    }

    /** process_sw_timers (callbacks are taken not to start or stop timers) */
    method ProcessSwTimers() returns (fired: seq<Timer>)
      requires Valid()
      modifies this`head, this`next, this`list, this`recs, list
      ensures Valid() && (fired, recs) == ScanTick(old(recs), now)
    {
      ghost var all, was, i := ScanTick(recs, now), list, 0;
      var prev: Timer?, cur := null, head;
      fired := [];
      ScanStarts(recs, now);
      assert Scanning(all, was, fired, prev, cur, i);
      hide Valid, Scanning, ScanTick;
      while cur != null
        invariant Scanning(all, was, fired, prev, cur, i)
        decreases |list| - i
      {
        AtEntry(all, was, fired, prev, cur, i);
        fired, prev, cur, i := ScanRound(all, was, fired, prev, cur, i);
      }
      AtEnd(all, was, fired, prev, i);
    }

    /** What holds while the scan is at entry i: all is the outcome, was the list at the start. */
    ghost predicate Scanning(all: (seq<Timer>, seq<Rec<Timer>>), was: seq<Timer>, fired: seq<Timer>, prev: Timer?, cur: Timer?, i: nat)
      reads this, list
    {
      && Valid() && i <= |list| == |recs| && Within(list, was) && prev == Nth(list, i - 1) && cur == Nth(list, i)
      && Remains(all, fired, recs[..i], ScanTick(recs[i..], now))
    }

    lemma AtEntry(all: (seq<Timer>, seq<Rec<Timer>>), was: seq<Timer>, fired: seq<Timer>, prev: Timer?, cur: Timer, i: nat)
      requires Scanning(all, was, fired, prev, cur, i)
      ensures cur in was && i < |list|
    {
    }

    lemma AtEnd(all: (seq<Timer>, seq<Rec<Timer>>), was: seq<Timer>, fired: seq<Timer>, prev: Timer?, i: nat)
      requires Scanning(all, was, fired, prev, null, i)
      ensures Valid() && all == (fired, recs)
    {
      ScanEnds(all, fired, recs, i, now);
    }

    method ScanRound(ghost all: (seq<Timer>, seq<Rec<Timer>>), ghost was: seq<Timer>, fired: seq<Timer>, prev: Timer?, cur: Timer, ghost i: nat)
      returns (fired': seq<Timer>, prev': Timer?, cur': Timer?, ghost i': nat)
      requires Scanning(all, was, fired, prev, cur, i)
      modifies this`head, this`next, this`list, this`recs, cur
      ensures Scanning(all, was, fired', prev', cur', i') && |list| - i' < |old(list)| - i
    {
      AtEntry(all, was, fired, prev, cur, i);
      ghost var before, held := recs, list;
      var due;
      due, prev', cur', i' := DriverServe(prev, cur, i);
      hide Valid, Within, Remains, ServedAt, ScanTick, Nth;
      WithinBoth(list, held, was);
      ScanRest(all, fired, before, recs, i, i', now, cur, due);
      fired' := if due then fired + [cur] else fired;
    }

    /** Entry i stays where it is, due one period from now. */
    method Renew(timer: Timer, ghost i: nat)
      requires Valid() && i < |list| && timer == list[i] && timer.expire <= now && timer.periodic && timer.period > 0
      modifies this`recs, timer
      ensures Valid() && |recs| == |old(recs)| && ServedAt(old(recs), recs, i, i + 1, now)
    {
      hide DistinctIds, Chained, Nth;
      RenewFacts(recs, list, i, now);
      timer.expire := now + timer.period;
      recs := recs[i := Renewed(recs[i], now)];
    }

    /** Entry i leaves the list for good. */
    method Retire(prev: Timer?, timer: Timer, ghost i: nat)
      requires Valid() && i < |list| && timer == list[i] && prev == Nth(list, i - 1)
      requires timer.expire <= now && !(timer.periodic && timer.period > 0)
      modifies this`head, this`next, this`list, this`recs, timer`active
      ensures Valid() && ServedAt(old(recs), recs, i, i, now) && Within(list, old(list))
      ensures |list| == |recs| == |old(list)| - 1 && prev == Nth(list, i - 1) && timer in next && next[timer] == Nth(list, i)
    {
      EntryFacts(i);
      ghost var l := recs;
      hide Within, Nth, ServedAt, Less;
      Drop(prev, timer, i);
      timer.active := false;
      Retiring(l, recs, i, now);
    }

    /** One entry of the scan: renewed in place, removed, or passed by. */
    method DriverServe(prev: Timer?, timer: Timer, ghost i: nat) returns (due: bool, prev': Timer?, cur': Timer?, ghost i': nat)
      requires Valid() && i < |list| && timer == list[i] && prev == Nth(list, i - 1)
      modifies this`head, this`next, this`list, this`recs, timer
      ensures Valid() && old(recs)[i].id == timer && due == (old(recs)[i].expire <= now) && ServedAt(old(recs), recs, i, i', now)
      ensures Within(list, old(list))
      ensures i <= i' <= |list| == |recs| && |list| - i' < |old(list)| - i
      ensures prev' == Nth(list, i' - 1) && cur' == Nth(list, i')
    {
      EntryFacts(i);
      hide Valid, Within, Nth, ServedAt;
      if timer.active && timer.expire <= now {
        if timer.periodic && timer.period > 0 {
          Renew(timer, i);
          return true, timer, next[timer], i + 1;
        }
        Retire(prev, timer, i);
        return true, prev, next[timer], i;
      }
      Passed(recs, i, now);
      return false, timer, next[timer], i + 1;
    }
  }

  ghost predicate Within(list: seq<Timer>, before: seq<Timer>) { forall t :: t in list ==> t in before }

  lemma WithinBoth(a: seq<Timer>, b: seq<Timer>, c: seq<Timer>)
    requires Within(a, b) && Within(b, c)
    ensures Within(a, c)
  {
  }

  lemma LessFacts(list: seq<Timer>, i: nat)
    requires Distinct(list) && i < |list|
    ensures Within(Less(list, i), list) && list[i] !in Less(list, i)
  {
  }

  lemma Passed(l: seq<Rec<Timer>>, i: nat, now: nat)
    requires i < |l| && l[i].expire > now
    ensures ServedAt(l, l, i, i + 1, now)
  {
  }

  lemma Retiring(l: seq<Rec<Timer>>, l': seq<Rec<Timer>>, i: nat, now: nat)
    requires i < |l| && l[i].expire <= now && l[i].period == 0 && l' == Less(l, i)
    ensures ServedAt(l, l', i, i, now) && |l'| == |l| - 1
  {
  }

  lemma RenewFacts(recs: seq<Rec<Timer>>, list: seq<Timer>, i: nat, now: nat)
    requires DistinctIds(recs) && Listed(recs, list) && i < |list|
    ensures DistinctIds(recs[i := Renewed(recs[i], now)]) && forall k :: 0 <= k < |list| && k != i ==> list[k] != list[i]
  {
    DistinctAt(recs, i);
    DistinctRenewed(recs, i, now);
  }

  lemma HeadTimer(head: Timer?, next: map<Timer, Timer?>, recs: seq<Rec<Timer>>, list: seq<Timer>)
    requires Chained(head, next, list) && Listed(recs, list) && list != []
    ensures null == Nth(list, 0 - 1) && |recs| == |list|
    ensures recs[0] == Rec(list[0], list[0].expire, if list[0].periodic then list[0].period else 0) && list[0].active
  {
  }

  lemma HeadFacts(l: seq<Rec<Timer>>, r: Rec<Timer>, rest: seq<Rec<Timer>>, now: nat)
    requires l != [] && r == l[0] && rest == l[1..] && r.expire <= now
    ensures Due(rest, now) < Due(l, now)
    ensures r.period > 0 ==> Due(Insert(rest, Renewed(r, now)), now) < Due(l, now)
  {
    InsertDue(rest, Renewed(r, now), now);
  }

  /** What serving entry i leaves, and the entry that is next. */
  ghost predicate ServedAt(l: seq<Rec<Timer>>, l': seq<Rec<Timer>>, i: nat, i': nat, now: nat)
    requires i < |l|
  {
    if l[i].expire > now then l' == l && i' == i + 1
    else if l[i].period > 0 then l' == l[i := Renewed(l[i], now)] && i' == i + 1
    else l' == Less(l, i) && i' == i
  }

  /** A tick whose result is all has fired so far and put done behind it; rest is still to come. */
  ghost predicate Remains(all: (seq<Timer>, seq<Rec<Timer>>), fired: seq<Timer>, done: seq<Rec<Timer>>, rest: (seq<Timer>, seq<Rec<Timer>>)) {
    all.0 == fired + rest.0 && all.1 == done + rest.1
  }

  lemma RemainsNone(all: (seq<Timer>, seq<Rec<Timer>>), fired: seq<Timer>, done: seq<Rec<Timer>>, rest: (seq<Timer>, seq<Rec<Timer>>))
    requires Remains(all, fired, done, rest) && rest.0 == []
    ensures all == (fired, done + rest.1)
    ensures rest.1 == [] ==> all == (fired, done)
    ensures done == [] ==> all == (fired, rest.1)
  {
    assert fired + [] == fired && (rest.1 == [] ==> done + rest.1 == done) && (done == [] ==> done + rest.1 == rest.1);
  }

  /** What serving the head leaves. */
  ghost predicate HeadServed(l: seq<Rec<Timer>>, l': seq<Rec<Timer>>, now: nat)
    requires l != []
  {
    l' == if l[0].period > 0 then Insert(l[1..], Renewed(l[0], now)) else l[1..]
  }

  /** The kernel's tick after the head is served. */
  lemma TickRest(all: (seq<Timer>, seq<Rec<Timer>>), fired: seq<Timer>, l: seq<Rec<Timer>>, l': seq<Rec<Timer>>, timer: Timer, now: nat)
    requires l != [] && HeadServed(l, l', now) && Remains(all, fired, [], SortedTick(l, now))
    requires timer == l[0].id && l[0].expire <= now
    ensures Remains(all, fired + [timer], [], SortedTick(l', now))
  {
    TickUnfolds(l, l', now);
    hide SortedTick, HeadServed;
    assert fired + ([timer] + SortedTick(l', now).0) == fired + [timer] + SortedTick(l', now).0;
  }

  lemma TickUnfolds(l: seq<Rec<Timer>>, l': seq<Rec<Timer>>, now: nat)
    requires l != [] && HeadServed(l, l', now) && l[0].expire <= now
    ensures SortedTick(l, now) == ([l[0].id] + SortedTick(l', now).0, SortedTick(l', now).1)
  {
    hide Insert, Renewed, Due;
    InsertDue(l[1..], Renewed(l[0], now), now);
  }

  lemma ScanEnds(all: (seq<Timer>, seq<Rec<Timer>>), fired: seq<Timer>, l: seq<Rec<Timer>>, i: nat, now: nat)
    requires i == |l| && Remains(all, fired, l[..i], ScanTick(l[i..], now))
    ensures all == (fired, l)
  {
    assert l[..i] == l && l[i..] == [];
    RemainsNone(all, fired, l, ScanTick([], now));
  }

  lemma ScanStarts(l: seq<Rec<Timer>>, now: nat)
    ensures Remains(ScanTick(l, now), [], l[..0], ScanTick(l[0..], now))
  {
    assert l[0..] == l;
  }

  /** The scan after entry i is served. */
  lemma ScanRest(all: (seq<Timer>, seq<Rec<Timer>>), fired: seq<Timer>, l: seq<Rec<Timer>>, l': seq<Rec<Timer>>, i: nat, i': nat,
                 now: nat, timer: Timer, due: bool)
    requires i < |l| && ServedAt(l, l', i, i', now) && Remains(all, fired, l[..i], ScanTick(l[i..], now))
    requires timer == l[i].id && due == (l[i].expire <= now)
    ensures i' <= |l'| && Remains(all, if due then fired + [timer] else fired, l'[..i'], ScanTick(l'[i'..], now))
  {
    assert l[i..][0] == l[i] && l[i..][1..] == l[i + 1..] == l'[i'..];
    assert l'[..i'] == l[..i] + l'[i..i'];
  }

  /** Entries with one id are one entry. */
  lemma {:induction false} DistinctAt(l: seq<Rec<Timer>>, i: nat)
    requires DistinctIds(l) && i < |l|
    ensures forall k :: 0 <= k < |l| && k != i ==> l[k].id != l[i].id
  {
    assert forall k :: 0 < k < |l| ==> l[k] == l[1..][k - 1] && l[k] in l[1..];
    if i > 0 { DistinctAt(l[1..], i - 1); }
  }

  lemma {:induction false} DistinctRenewed(l: seq<Rec<Timer>>, i: nat, now: nat)
    requires DistinctIds(l) && i < |l|
    ensures DistinctIds(l[i := Renewed(l[i], now)])
  {
    var t, a := l[1..], l[i := Renewed(l[i], now)];
    if i == 0 {
      assert a[1..] == t;
    } else {
      DistinctRenewed(t, i - 1, now);
      assert a[1..] == t[i - 1 := Renewed(t[i - 1], now)];
      forall x | x in a[1..] ensures x.id != a[0].id { assert x in t || x == Renewed(t[i - 1], now); }
    }
  }

  lemma {:induction false} DistinctDropped(l: seq<Rec<Timer>>, i: nat)
    requires DistinctIds(l) && i < |l|
    ensures DistinctIds(Less(l, i))
  {
    var t, b := l[1..], Less(l, i);
    if i == 0 {
      assert b == t;
    } else {
      DistinctDropped(t, i - 1);
      assert b[1..] == Less(t, i - 1);
      forall x | x in b[1..] ensures x.id != b[0].id { assert x in t; }
    }
  }
}
