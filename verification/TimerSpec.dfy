/** The two software-timer implementations as functions on lists of pending timers: the kernel's
    sorted list with early exit, and the timer driver's full scan. */
module TimerSpec {
  import opened Common

  /** A pending timer; period 0 means one-shot. */
  datatype Rec<T(==)> = Rec(id: T, expire: nat, period: nat)

  /** The entry goes behind the leading entries that expire no later. */
  function Insert<T(==)>(l: seq<Rec<T>>, r: Rec<T>): seq<Rec<T>> {
    if l == [] || l[0].expire > r.expire then [r] + l
    else [l[0]] + Insert(l[1..], r)
  }

  function Remove<T(==)>(l: seq<Rec<T>>, id: T): seq<Rec<T>> {
    if l == [] then []
    else if l[0].id == id then l[1..]
    else [l[0]] + Remove(l[1..], id)
  }

  function Armed<T(==)>(id: T, now: nat, delay: nat, periodic: bool): Rec<T> {
    Rec(id, now + delay, if periodic then delay else 0)
  }

  /** timer_start of either implementation */
  function Start<T(==)>(l: seq<Rec<T>>, r: Rec<T>): seq<Rec<T>> { Insert(Remove(l, r.id), r) }

  function Renewed<T(==)>(r: Rec<T>, now: nat): Rec<T> {
    if r.expire <= now then r.(expire := now + r.period) else r
  }

  function Due<T(==)>(l: seq<Rec<T>>, now: nat): nat {
    if l == [] then 0 else (if l[0].expire <= now then 1 else 0) + Due(l[1..], now)
  }

  lemma {:induction false} InsertDue<T>(l: seq<Rec<T>>, r: Rec<T>, now: nat)
    ensures Due(Insert(l, r), now) == Due(l, now) + (if r.expire <= now then 1 else 0)
  {
    if l == [] || l[0].expire > r.expire {
      assert ([r] + l)[1..] == l;
    } else {
      InsertDue(l[1..], r, now);
      assert Insert(l, r)[1..] == Insert(l[1..], r);
    }
  }

  /** timer_tick_handler of the kernel: serve the head while it is due, reinserting periodic timers. It ends because every
      round leaves one timer fewer that is due; a periodic timer of period 0 is left to TickEndsExactly. */
  function SortedTick<T(==)>(l: seq<Rec<T>>, now: nat): (seq<T>, seq<Rec<T>>)
    decreases Due(l, now)
  {
    if l == [] || l[0].expire > now then ([], l)
    else
      var r := l[0];
      InsertDue(l[1..], Renewed(r, now), now);
      var l1 := if r.period > 0 then Insert(l[1..], Renewed(r, now)) else l[1..];
      var rest := SortedTick(l1, now);
      ([r.id] + rest.0, rest.1)
  }

  /** process_sw_timers: one pass over the whole list, renewing in place. */
  function ScanTick<T(==)>(l: seq<Rec<T>>, now: nat): (seq<T>, seq<Rec<T>>) {
    if l == [] then ([], [])
    else
      var rest := ScanTick(l[1..], now);
      if l[0].expire > now then (rest.0, [l[0]] + rest.1)
      else ([l[0].id] + rest.0, (if l[0].period > 0 then [Renewed(l[0], now)] else []) + rest.1)
  }

  // ----- the set of pending timers, which is all a caller can observe

  ghost function Pending<T>(l: seq<Rec<T>>): set<Rec<T>> { set r | r in l }

  ghost predicate DistinctIds<T>(l: seq<Rec<T>>) {
    l == [] || ((forall r :: r in l[1..] ==> r.id != l[0].id) && DistinctIds(l[1..]))
  }

  ghost predicate Sorted<T>(l: seq<Rec<T>>) {
    l == [] || ((forall r :: r in l[1..] ==> l[0].expire <= r.expire) && Sorted(l[1..]))
  }

  ghost function TickSet<T>(s: set<Rec<T>>, now: nat): set<Rec<T>> {
    set r | r in s && (r.expire > now || r.period > 0) :: Renewed(r, now)
  }

  ghost function Expired<T>(s: set<Rec<T>>, now: nat): set<T> {
    set r | r in s && r.expire <= now :: r.id
  }

  ghost function Elements<T>(s: seq<T>): set<T> { set x | x in s }

  lemma {:induction false} InsertPending<T>(l: seq<Rec<T>>, r: Rec<T>)
    ensures Pending(Insert(l, r)) == Pending(l) + {r}
  {
    if l == [] || l[0].expire > r.expire {
      assert Insert(l, r) == [r] + l;
    } else {
      InsertPending(l[1..], r);
      ConsPending(l[0], Insert(l[1..], r));
      ConsPending(l[0], l[1..]);
      assert l == [l[0]] + l[1..];
    }
  }

  lemma ConsPending<T>(x: Rec<T>, t: seq<Rec<T>>)
    ensures Pending([x] + t) == {x} + Pending(t)
  {
  }

  lemma {:induction false} InsertSorted<T>(l: seq<Rec<T>>, r: Rec<T>)
    requires Sorted(l)
    ensures Sorted(Insert(l, r))
  {
    if l == [] || l[0].expire > r.expire {
      assert ([r] + l)[1..] == l;
    } else {
      var t := Insert(l[1..], r);
      InsertSorted(l[1..], r);
      InsertPending(l[1..], r);
      assert Insert(l, r)[1..] == t;
      forall x | x in t ensures l[0].expire <= x.expire { assert x in Pending(t); }
    }
  }

  lemma {:induction false} InsertDistinct<T>(l: seq<Rec<T>>, r: Rec<T>)
    requires DistinctIds(l) && forall x :: x in l ==> x.id != r.id
    ensures DistinctIds(Insert(l, r))
  {
    if l == [] || l[0].expire > r.expire {
      assert ([r] + l)[1..] == l;
    } else {
      var t := Insert(l[1..], r);
      InsertDistinct(l[1..], r);
      InsertPending(l[1..], r);
      assert Insert(l, r)[1..] == t;
      forall x | x in t ensures x.id != l[0].id { assert x in Pending(t); }
    }
  }

  ghost function Others<T>(s: set<Rec<T>>, id: T): set<Rec<T>> { set r | r in s && r.id != id }

  lemma {:induction false} RemoveMember<T>(l: seq<Rec<T>>, id: T, x: Rec<T>)
    requires DistinctIds(l)
    ensures x in Remove(l, id) <==> x in l && x.id != id
  {
    if l != [] {
      assert l == [l[0]] + l[1..];
      if l[0].id != id { RemoveMember(l[1..], id, x); }
    }
  }

  lemma {:induction false} RemoveFacts<T>(l: seq<Rec<T>>, id: T)
    requires DistinctIds(l)
    ensures Pending(Remove(l, id)) == Others(Pending(l), id)
    ensures DistinctIds(Remove(l, id))
    ensures Sorted(l) ==> Sorted(Remove(l, id))
  {
    forall x: Rec<T> | x in l || x in Remove(l, id) ensures x in Remove(l, id) <==> x in l && x.id != id { RemoveMember(l, id, x); }
    if l != [] && l[0].id != id {
      RemoveFacts(l[1..], id);
      var t := Remove(l[1..], id);
      assert Remove(l, id)[1..] == t;
      forall x | x in t ensures x in l[1..] { assert x in Pending(t); }
    }
  }

  /** Starting a timer replaces whatever was pending under its name; both lists do it alike. */
  lemma StartFacts<T>(l: seq<Rec<T>>, r: Rec<T>)
    requires DistinctIds(l)
    ensures Pending(Start(l, r)) == Others(Pending(l), r.id) + {r}
    ensures DistinctIds(Start(l, r))
    ensures Sorted(l) ==> Sorted(Start(l, r))
  {
    var m := Remove(l, r.id);
    RemoveFacts(l, r.id);
    InsertPending(m, r);
    forall x | x in m ensures x.id != r.id { assert x in Pending(m); }
    InsertDistinct(m, r);
    if Sorted(l) { InsertSorted(m, r); }
  }

  // ----- one tick

  ghost predicate AllLater<T>(l: seq<Rec<T>>, now: nat) { forall r :: r in l ==> r.expire > now }

  /** A sorted list whose head is not due has nothing due. */
  lemma HeadLater<T>(l: seq<Rec<T>>, now: nat)
    requires Sorted(l) && (l == [] || l[0].expire > now)
    ensures AllLater(l, now)
    ensures TickSet(Pending(l), now) == Pending(l) && Expired(Pending(l), now) == {}
  {
    assert AllLater(l, now) by {
      if l != [] { assert l == [l[0]] + l[1..]; }
    }
  }

  /** Serving the head first and the rest afterwards is serving the whole set. */
  lemma TickSplit<T>(r: Rec<T>, s: set<Rec<T>>, now: nat)
    ensures TickSet(s + {r}, now) == TickSet(s, now) + (if r.expire > now || r.period > 0 then {Renewed(r, now)} else {})
    ensures Expired(s + {r}, now) == Expired(s, now) + (if r.expire <= now then {r.id} else {})
  {
  }

  /** What one tick must do to the pending set, whoever does it. */
  ghost predicate Ticks<T>(l: seq<Rec<T>>, now: nat, r: (seq<T>, seq<Rec<T>>)) {
    && Pending(r.1) == TickSet(Pending(l), now)
    && Elements(r.0) == Expired(Pending(l), now) && Distinct(r.0)
    && DistinctIds(r.1) && AllLater(r.1, now)
  }

  lemma FiredCons<T>(id: T, f: seq<T>)
    ensures Elements([id] + f) == {id} + Elements(f)
    ensures Distinct(f) && id !in Elements(f) ==> Distinct([id] + f)
  {
    if Distinct(f) && id !in Elements(f) {
      forall i, j | 0 <= i < j < |[id] + f| ensures ([id] + f)[i] != ([id] + f)[j] {
        assert ([id] + f)[j] == f[j - 1] && f[j - 1] in Elements(f);
      }
    }
  }

  /** Firing r and then dealing with the others (and with r's renewal) deals with the whole set. */
  lemma ServeFirst<T>(r: Rec<T>, s: set<Rec<T>>, s1: set<Rec<T>>, now: nat)
    requires r.expire <= now && s1 == s + (if r.period > 0 then {Renewed(r, now)} else {})
    ensures TickSet(s1, now) == TickSet(s + {r}, now)
    ensures {r.id} + Expired(s1, now) == Expired(s + {r}, now)
    ensures (forall x :: x in s ==> x.id != r.id) ==> r.id !in Expired(s1, now)
  {
    TickSplit(r, s, now);
    if r.period > 0 { TickSplit(Renewed(r, now), s, now); }
  }

  lemma Serve<T>(l: seq<Rec<T>>, l1: seq<Rec<T>>, now: nat, rest: (seq<T>, seq<Rec<T>>))
    requires l != [] && DistinctIds(l) && l[0].expire <= now
    requires Pending(l1) == Pending(l[1..]) + (if l[0].period > 0 then {Renewed(l[0], now)} else {})
    requires Ticks(l1, now, rest)
    ensures Ticks(l, now, ([l[0].id] + rest.0, rest.1))
  {
    var r := l[0];
    assert l == [r] + l[1..];
    ConsPending(r, l[1..]);
    ServeFirst(r, Pending(l[1..]), Pending(l1), now);
    FiredCons(r.id, rest.0);
  }

  /** The kernel's handler: each due timer fires once, periodic ones move to now + period, and the
      list ends up sorted, duplicate-free and without expired entries. */
  lemma {:induction false} SortedTickFacts<T>(l: seq<Rec<T>>, now: nat)
    requires Sorted(l) && DistinctIds(l)
    ensures Ticks(l, now, SortedTick(l, now)) && Sorted(SortedTick(l, now).1)
    decreases Due(l, now)
  {
    if l == [] || l[0].expire > now {
      HeadLater(l, now);
    } else {
      var r, rest := l[0], l[1..];
      var l1 := if r.period > 0 then Insert(rest, Renewed(r, now)) else rest;
      InsertDue(rest, Renewed(r, now), now);
      InsertPending(rest, Renewed(r, now));
      InsertSorted(rest, Renewed(r, now));
      InsertDistinct(rest, Renewed(r, now));
      SortedTickFacts(l1, now);
      Serve(l, l1, now, SortedTick(l1, now));
    }
  }

  /** The driver's scan, on any list with distinct timers, sorted or not. */
  lemma {:induction false} ScanTickFacts<T>(l: seq<Rec<T>>, now: nat)
    requires DistinctIds(l)
    ensures Ticks(l, now, ScanTick(l, now))
  {
    if l != [] {
      ScanTickFacts(l[1..], now);
      if l[0].expire > now { PassBy(l, now, ScanTick(l[1..], now)); } else { FireInPlace(l, now, ScanTick(l[1..], now)); }
    }
  }

  lemma PassBy<T>(l: seq<Rec<T>>, now: nat, rest: (seq<T>, seq<Rec<T>>))
    requires l != [] && DistinctIds(l) && l[0].expire > now && Ticks(l[1..], now, rest)
    ensures Ticks(l, now, (rest.0, [l[0]] + rest.1))
  {
    var r := l[0];
    assert l == [r] + l[1..];
    ConsPending(r, l[1..]);
    ConsPending(r, rest.1);
    TickSplit(r, Pending(l[1..]), now);
    ScanKeepsDistinct(r, l[1..], rest.1, now);
  }

  lemma FireInPlace<T>(l: seq<Rec<T>>, now: nat, rest: (seq<T>, seq<Rec<T>>))
    requires l != [] && DistinctIds(l) && l[0].expire <= now && Ticks(l[1..], now, rest)
    ensures Ticks(l, now, ([l[0].id] + rest.0, (if l[0].period > 0 then [Renewed(l[0], now)] else []) + rest.1))
  {
    var r, l' := l[0], (if l[0].period > 0 then [Renewed(l[0], now)] else []) + rest.1;
    assert l == [r] + l[1..];
    ConsPending(r, l[1..]);
    TickSplit(r, Pending(l[1..]), now);
    FiredCons(r.id, rest.0);
    if r.period > 0 {
      ConsPending(Renewed(r, now), rest.1);
      ScanKeepsDistinct(r, l[1..], rest.1, now);
    } else {
      assert l' == rest.1;
    }
  }

  lemma ScanKeepsDistinct<T>(r: Rec<T>, l: seq<Rec<T>>, l': seq<Rec<T>>, now: nat)
    requires DistinctIds([r] + l) && DistinctIds(l') && Pending(l') == TickSet(Pending(l), now)
    ensures DistinctIds([Renewed(r, now)] + l')
  {
    assert ([r] + l)[1..] == l && ([Renewed(r, now)] + l')[1..] == l';
    forall y | y in l' ensures y.id != r.id {
      assert y in Pending(l');
      var x :| x in Pending(l) && Renewed(x, now) == y;
      assert x in l;
    }
  }

  // ----- in which order the due timers fire

  /** The due timers of a list, in its order. */
  function DueIds<T(==)>(l: seq<Rec<T>>, now: nat): seq<T> {
    if l == [] then [] else (if l[0].expire <= now then [l[0].id] else []) + DueIds(l[1..], now)
  }

  lemma {:induction false} InsertLater<T>(l: seq<Rec<T>>, r: Rec<T>, now: nat)
    requires r.expire > now
    ensures DueIds(Insert(l, r), now) == DueIds(l, now)
  {
    if l == [] || l[0].expire > r.expire {
      assert ([r] + l)[1..] == l;
    } else {
      InsertLater(l[1..], r, now);
      assert Insert(l, r)[1..] == Insert(l[1..], r);
    }
  }

  lemma {:induction false} NoneAreDue<T>(l: seq<Rec<T>>, now: nat)
    requires AllLater(l, now)
    ensures DueIds(l, now) == []
  {
    if l != [] { NoneAreDue(l[1..], now); }
  }

  /** Both handlers fire the due timers in the order in which the list holds them, the kernel's therefore by expiry. */
  lemma FiredInOrder<T>(l: seq<Rec<T>>, now: nat)
    ensures ScanTick(l, now).0 == DueIds(l, now)
    ensures Sorted(l) ==> SortedTick(l, now).0 == DueIds(l, now)
  {
    ScanInOrder(l, now);
    if Sorted(l) { SortedInOrder(l, now); }
  }

  lemma {:induction false} ScanInOrder<T>(l: seq<Rec<T>>, now: nat)
    ensures ScanTick(l, now).0 == DueIds(l, now)
  {
    if l != [] { ScanInOrder(l[1..], now); }
  }

  lemma {:induction false} SortedInOrder<T>(l: seq<Rec<T>>, now: nat)
    requires Sorted(l)
    ensures SortedTick(l, now).0 == DueIds(l, now)
    decreases Due(l, now)
  {
    if l == [] || l[0].expire > now {
      HeadLater(l, now);
      NoneAreDue(l, now);
    } else {
      var r, rest := l[0], l[1..];
      InsertDue(rest, Renewed(r, now), now);
      if r.period > 0 {
        InsertSorted(rest, Renewed(r, now));
        InsertLater(rest, Renewed(r, now), now);
        SortedInOrder(Insert(rest, Renewed(r, now)), now);
      } else {
        SortedInOrder(rest, now);
      }
    }
  }

  // ----- when the scan keeps a sorted list sorted

  predicate Survives<T(==)>(r: Rec<T>, now: nat) { r.expire > now || r.period > 0 }

  /** Every due periodic entry is renewed to no later than what any surviving entry behind it will say. */
  ghost predicate Stays<T>(l: seq<Rec<T>>, now: nat) {
    l == [] ||
    ((l[0].expire <= now && l[0].period > 0 ==>
        forall r :: r in l[1..] && Survives(r, now) ==> now + l[0].period <= Renewed(r, now).expire)
     && Stays(l[1..], now))
  }

  /** What the scan leaves of a list are the surviving entries, renewed. */
  lemma ScanLeaves<T>(l: seq<Rec<T>>, now: nat, bound: nat)
    requires DistinctIds(l)
    ensures (forall y :: y in ScanTick(l, now).1 ==> bound <= y.expire)
            <==> (forall x :: x in l && Survives(x, now) ==> bound <= Renewed(x, now).expire)
  {
    ScanTickFacts(l, now);
    var out := ScanTick(l, now).1;
    forall x | x in l && Survives(x, now) ensures Renewed(x, now) in out {
      assert x in Pending(l);
      assert Renewed(x, now) in Pending(out);
    }
    forall y | y in out ensures exists x :: x in l && Survives(x, now) && Renewed(x, now) == y {
      assert y in Pending(out);
      var x :| x in Pending(l) && (x.expire > now || x.period > 0) && Renewed(x, now) == y;
      assert x in l && Survives(x, now);
    }
  }

  /** One tick of the driver leaves a sorted list sorted exactly when Stays holds before it. */
  lemma {:induction false} ScanSortedExactly<T>(l: seq<Rec<T>>, now: nat)
    requires Sorted(l) && DistinctIds(l)
    ensures Sorted(ScanTick(l, now).1) <==> Stays(l, now)
  {
    if l != [] {
      var r, rest := l[0], ScanTick(l[1..], now).1;
      ScanSortedExactly(l[1..], now);
      if r.expire > now {
        ScanLeaves(l[1..], now, r.expire);
        assert ([r] + rest)[1..] == rest;
      } else if r.period > 0 {
        ScanLeaves(l[1..], now, now + r.period);
        assert ([Renewed(r, now)] + rest)[1..] == rest;
      } else {
        assert [] + rest == rest;
      }
    }
  }

  // ----- the kernel's loop round by round, with the test it makes: periodic, whatever the period

  /** A timer and its periodic flag. */
  type Flagged<T(==)> = Rec<(T, bool)>

  function Round<T(==)>(l: seq<Flagged<T>>, now: nat): seq<Flagged<T>> {
    if Over(l, now) then l
    else if l[0].id.1 then Insert(l[1..], Renewed(l[0], now))
    else l[1..]
  }

  predicate Over<T(==)>(l: seq<Flagged<T>>, now: nat) { l == [] || l[0].expire > now }

  function Rounds<T(==)>(l: seq<Flagged<T>>, now: nat, n: nat): seq<Flagged<T>>
    decreases n
  {
    if n == 0 then l else Rounds(Round(l, now), now, n - 1)
  }

  ghost predicate Ends<T>(l: seq<Flagged<T>>, now: nat) { exists n: nat :: Over(Rounds(l, now, n), now) }

  predicate Spins<T(==)>(r: Flagged<T>, now: nat) { r.expire <= now && r.id.1 && r.period == 0 }

  /** What the flags and periods mean to a caller. */
  function Plain<T(==)>(r: Flagged<T>): Rec<T> { Rec(r.id.0, r.expire, if r.id.1 then r.period else 0) }

  function AllPlain<T(==)>(l: seq<Flagged<T>>): (p: seq<Rec<T>>)
    ensures |p| == |l|
  {
    if l == [] then [] else [Plain(l[0])] + AllPlain(l[1..])
  }

  lemma {:induction false} InsertPlain<T>(l: seq<Flagged<T>>, r: Flagged<T>)
    ensures AllPlain(Insert(l, r)) == Insert(AllPlain(l), Plain(r))
  {
    if l == [] || l[0].expire > r.expire {
      assert ([r] + l)[1..] == l;
    } else {
      InsertPlain(l[1..], r);
      assert Insert(l, r)[1..] == Insert(l[1..], r) && AllPlain(l)[1..] == AllPlain(l[1..]);
    }
  }

  lemma {:induction false} DuePlain<T>(l: seq<Flagged<T>>, now: nat)
    ensures Due(AllPlain(l), now) == Due(l, now)
  {
    if l != [] { DuePlain(l[1..], now); }
  }

  lemma RoundSorted<T>(l: seq<Flagged<T>>, now: nat)
    requires Sorted(l) && !Over(l, now)
    ensures Sorted(Round(l, now))
    ensures Pending(Round(l, now)) == Pending(l[1..]) + (if l[0].id.1 then {Renewed(l[0], now)} else {})
  {
    InsertSorted(l[1..], Renewed(l[0], now));
    InsertPending(l[1..], Renewed(l[0], now));
  }

  lemma RoundDue<T>(l: seq<Flagged<T>>, now: nat)
    requires !Over(l, now) && !Spins(l[0], now)
    ensures Due(Round(l, now), now) == Due(l, now) - 1
  {
    InsertDue(l[1..], Renewed(l[0], now), now);
  }

  /** Without a due periodic timer of period 0 the loop ends, and it does what SortedTick says. */
  lemma {:induction false} RoundsServe<T>(l: seq<Flagged<T>>, now: nat)
    requires Sorted(l) && forall r :: r in l ==> !Spins(r, now)
    ensures Over(Rounds(l, now, Due(l, now)), now)
    ensures AllPlain(Rounds(l, now, Due(l, now))) == SortedTick(AllPlain(l), now).1
    decreases Due(l, now)
  {
    if Over(l, now) {
      NoneDue(l, now);
    } else {
      RoundSorted(l, now);
      RoundDue(l, now);
      NoNewSpinner(l, now);
      RoundPlain(l, now);
      hide Round, Spins, AllPlain, SortedTick, Over, Sorted;
      RoundsServe(Round(l, now), now);
    }
  }

  lemma NoNewSpinner<T>(l: seq<Flagged<T>>, now: nat)
    requires Sorted(l) && !Over(l, now) && forall r :: r in l ==> !Spins(r, now)
    ensures forall r :: r in Round(l, now) ==> !Spins(r, now)
  {
    RoundSorted(l, now);
    hide Round, Sorted;
    assert l[0] in l && !Spins(l[0], now);
    assert l[0].id.1 ==> !Spins(Renewed(l[0], now), now);
    forall r | r in Round(l, now) ensures !Spins(r, now) {
      assert r in Pending(Round(l, now));
      if r in Pending(l[1..]) { assert r in l; }
    }
  }

  lemma RoundPlain<T>(l: seq<Flagged<T>>, now: nat)
    requires !Over(l, now) && !Spins(l[0], now)
    ensures SortedTick(AllPlain(l), now).1 == SortedTick(AllPlain(Round(l, now)), now).1
  {
    var p, r := AllPlain(l), l[0];
    assert p[0] == Plain(r) && p[1..] == AllPlain(l[1..]);
    InsertPlain(l[1..], Renewed(r, now));
    TickServes(p, AllPlain(Round(l, now)), now);
  }

  lemma TickServes<T>(l: seq<Rec<T>>, l1: seq<Rec<T>>, now: nat)
    requires l != [] && l[0].expire <= now
    requires l1 == if l[0].period > 0 then Insert(l[1..], Renewed(l[0], now)) else l[1..]
    ensures SortedTick(l, now).1 == SortedTick(l1, now).1
  {
  }

  lemma {:induction false} NoneDue<T>(l: seq<Flagged<T>>, now: nat)
    requires Sorted(l) && Over(l, now)
    ensures Due(l, now) == 0
  {
    if l != [] { NoneDue(l[1..], now); }
  }

  /** One that spins is still there after every round, and keeps the loop going. */
  lemma {:induction false} SpinnerStays<T>(l: seq<Flagged<T>>, now: nat, n: nat)
    requires Sorted(l) && exists r :: r in l && Spins(r, now)
    ensures !Over(Rounds(l, now, n), now)
    decreases n
  {
    var r :| r in l && Spins(r, now);
    assert l == [l[0]] + l[1..];
    if n > 0 {
      RoundSorted(l, now);
      var r1 := if r == l[0] then Renewed(r, now) else r;
      assert r1 in Pending(Round(l, now)) && Spins(r1, now);
      SpinnerStays(Round(l, now), now, n - 1);
    }
  }

  /** The handler returns exactly when no due periodic timer has period 0. */
  lemma TickEndsExactly<T>(l: seq<Flagged<T>>, now: nat)
    requires Sorted(l)
    ensures Ends(l, now) <==> forall r :: r in l ==> !Spins(r, now)
  {
    if forall r :: r in l ==> !Spins(r, now) {
      RoundsServe(l, now);
    } else {
      forall n: nat ensures !Over(Rounds(l, now, n), now) { SpinnerStays(l, now, n); }
    }
  }

  /** timer_start accepts delay 0: a periodic timer started with it keeps the next tick's handler from returning. */
  lemma ZeroPeriodSpins<T>(t: T, now: nat)
    ensures !Ends(Start([], Rec((t, true), now, 0)), now + 1)
  {
    var l: seq<Flagged<T>> := Start([], Rec((t, true), now, 0));
    assert l == [Rec((t, true), now, 0)] && l[1..] == [];
    TickEndsExactly(l, now + 1);
    assert l[0] in l && Spins(l[0], now + 1);
  }
}
