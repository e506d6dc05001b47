/** The UART driver as a step system: semaphore tokens, the two rings, and the transmit interrupt. */
module UartSpec {
  import opened Common

  const SIZE := 256

  // ----- transmit

  /** tokens and holders: the semaphore's count and the writers that have taken a token but not yet
      stored a byte; stored and wire: every byte ever put in the ring, with its writer, and every byte
      given to the hardware; active and enabled: tx_active and the transmit interrupt's mask bit. */
  datatype Tx<W(==)> = Tx(tokens: nat, holders: set<W>, ring: seq<(W, Byte)>, stored: seq<(W, Byte)>,
                          wire: seq<(W, Byte)>, lost: nat, active: bool, enabled: bool)

  function TxInit<W>(): Tx<W> { Tx(SIZE, {}, [], [], [], 0, false, false) }

  /** n bytes move from the ring to the hardware, each returning a token. */
  function Drain<W>(s: Tx<W>, n: nat): Tx<W> {
    var m := if n < |s.ring| then n else |s.ring|;
    s.(ring := s.ring[m..], wire := s.wire + s.ring[..m], tokens := s.tokens + m)
  }

  /** The writer's critical section; room is how many bytes the hardware takes meanwhile. */
  function StoreByte<W>(s: Tx<W>, w: W, b: Byte, room: nat): Tx<W> {
    var s1 := s.(holders := s.holders - {w});
    var s2 := if |s.ring| < SIZE - 1 then s1.(ring := s.ring + [(w, b)], stored := s.stored + [(w, b)])
              else s1.(lost := s.lost + 1);
    if s.active then s2 else Drain(s2, room).(active := true, enabled := true)
  }

  /** The transmit part of the interrupt handler. */
  function TxInterrupt<W>(s: Tx<W>, room: nat): Tx<W> {
    var r := Drain(s, room);
    if r.ring == [] then r.(active := false, enabled := false) else r
  }

  /** data(w) is what writer w was asked to write; its next byte is the first one not yet stored. */
  datatype TxStep<W> = Take(w: W) | Store(w: W, room: nat) | Interrupt(room: nat)

  function From<W(==)>(log: seq<(W, Byte)>, w: W): seq<Byte> {
    if log == [] then []
    else From(log[..|log| - 1], w) + (if log[|log| - 1].0 == w then [log[|log| - 1].1] else [])
  }

  predicate TxEnabled<W>(s: Tx<W>, step: TxStep<W>, data: map<W, seq<Byte>>) {
    match step
    case Take(w) => s.tokens > 0 && w !in s.holders && w in data && |From(s.stored, w)| < |data[w]|
    case Store(w, _) => w in s.holders && w in data && |From(s.stored, w)| < |data[w]|
    case Interrupt(_) => s.enabled
  }

  function TxNext<W>(s: Tx<W>, step: TxStep<W>, data: map<W, seq<Byte>>): Tx<W>
    requires TxEnabled(s, step, data)
  {
    match step
    case Take(w) => s.(tokens := s.tokens - 1, holders := s.holders + {w})
    case Store(w, room) => StoreByte(s, w, data[w][|From(s.stored, w)|], room)
    case Interrupt(room) => TxInterrupt(s, room)
  }

  /** 255 or 256 tokens are accounted for; bytes leave in the order stored; a byte waiting means the
      interrupt that will send it is on; each writer's bytes are stored in order, none twice or skipped. */
  predicate TxInv<W>(s: Tx<W>, data: map<W, seq<Byte>>) {
    && s.tokens + |s.holders| + |s.ring| + s.lost == SIZE && s.lost <= 1
    && |s.ring| <= SIZE - 1
    && s.stored == s.wire + s.ring
    && s.active == s.enabled && (s.ring != [] ==> s.enabled)
    && (forall w :: w in data ==> From(s.stored, w) <= data[w])
    && (forall w :: w in s.holders ==> w in data && |From(s.stored, w)| < |data[w]|)
  }

  lemma TxInitInv<W>(data: map<W, seq<Byte>>)
    ensures TxInv(TxInit(), data)
  {
  }

  lemma FromSnoc<W>(log: seq<(W, Byte)>, v: W, b: Byte, w: W)
    ensures From(log + [(v, b)], w) == From(log, w) + (if v == w then [b] else [])
  {
    assert (log + [(v, b)])[..|log|] == log;
  }

  lemma DrainKeeps<W>(s: Tx<W>, n: nat, data: map<W, seq<Byte>>)
    requires TxInv(s, data)
    ensures TxInv(Drain(s, n), data) && Drain(s, n).stored == s.stored
  {
    var m := if n < |s.ring| then n else |s.ring|;
    assert s.ring == s.ring[..m] + s.ring[m..];
  }

  lemma TakeKeeps<W>(s: Tx<W>, w: W, data: map<W, seq<Byte>>)
    requires TxInv(s, data) && TxEnabled(s, Take(w), data)
    ensures TxInv(TxNext(s, Take(w), data), data)
  {
  }

  /** The critical section before the hardware is looked at. */
  function Put<W>(s: Tx<W>, w: W, b: Byte): Tx<W> {
    var s1 := s.(holders := s.holders - {w});
    if |s.ring| < SIZE - 1 then s1.(ring := s.ring + [(w, b)], stored := s.stored + [(w, b)], active := true, enabled := true)
    else s1.(lost := s.lost + 1, active := true, enabled := true)
  }

  lemma PutKeeps<W>(s: Tx<W>, w: W, data: map<W, seq<Byte>>)
    requires TxInv(s, data) && TxEnabled(s, Store(w, 0), data)
    ensures TxInv(Put(s, w, data[w][|From(s.stored, w)|]), data)
  {
    var b := data[w][|From(s.stored, w)|];
    assert |s.holders - {w}| == |s.holders| - 1;
    if |s.ring| < SIZE - 1 {
      LogKeeps(s, w, data);
      hide From;
      assert s.wire + s.ring + [(w, b)] == s.wire + (s.ring + [(w, b)]);
    }
  }

  lemma LogKeeps<W>(s: Tx<W>, w: W, data: map<W, seq<Byte>>)
    requires TxInv(s, data) && w in data && |From(s.stored, w)| < |data[w]|
    ensures var log := s.stored + [(w, data[w][|From(s.stored, w)|])];
            && (forall v :: v in data ==> From(log, v) <= data[v])
            && forall v :: v in s.holders - {w} ==> From(log, v) == From(s.stored, v)
  {
    hide From;
    var b := data[w][|From(s.stored, w)|];
    forall v | v in data ensures From(s.stored + [(w, b)], v) <= data[v] {
      NextFrom(s.stored, w, b, v, data[v]);
    }
    forall v | v in s.holders - {w} ensures From(s.stored + [(w, b)], v) == From(s.stored, v) {
      NextFrom(s.stored, w, b, v, data[v]);
    }
  }

  lemma NextFrom<W>(log: seq<(W, Byte)>, w: W, b: Byte, v: W, all: seq<Byte>)
    requires From(log, v) <= all && (v == w ==> |From(log, v)| < |all| && b == all[|From(log, v)|])
    ensures From(log + [(w, b)], v) <= all && (v != w ==> From(log + [(w, b)], v) == From(log, v))
  {
    FromSnoc(log, w, b, v);
  }

  lemma StoreIsPut<W>(s: Tx<W>, w: W, b: Byte, room: nat)
    requires s.active == s.enabled
    ensures StoreByte(s, w, b, room) == if s.active then Put(s, w, b) else Drain(Put(s, w, b), room)
  {
  }

  lemma TxStepKeeps<W>(s: Tx<W>, step: TxStep<W>, data: map<W, seq<Byte>>)
    requires TxInv(s, data) && TxEnabled(s, step, data)
    ensures TxInv(TxNext(s, step, data), data)
  {
    match step
    case Take(w) => TakeKeeps(s, w, data);
    case Store(w, room) =>
      var b := data[w][|From(s.stored, w)|];
      PutKeeps(s, w, data);
      StoreIsPut(s, w, b, room);
      DrainKeeps(Put(s, w, b), room, data);
    case Interrupt(room) => DrainKeeps(s, room, data);
  }

  predicate TxRun<W>(s: Tx<W>, steps: seq<TxStep<W>>, data: map<W, seq<Byte>>)
    decreases |steps|
  {
    steps == [] || (TxEnabled(s, steps[0], data) && TxRun(TxNext(s, steps[0], data), steps[1..], data))
  }

  function TxFinal<W>(s: Tx<W>, steps: seq<TxStep<W>>, data: map<W, seq<Byte>>): Tx<W>
    requires TxRun(s, steps, data)
    decreases |steps|
  {
    if steps == [] then s else TxFinal(TxNext(s, steps[0], data), steps[1..], data)
  }

  lemma {:induction false} TxRunKeeps<W>(s: Tx<W>, steps: seq<TxStep<W>>, data: map<W, seq<Byte>>)
    requires TxInv(s, data) && TxRun(s, steps, data)
    ensures TxInv(TxFinal(s, steps, data), data)
    decreases |steps|
  {
    if steps != [] {
      hide TxInv, TxNext, TxEnabled;
      TxStepKeeps(s, steps[0], data);
      TxRunKeeps(TxNext(s, steps[0], data), steps[1..], data);
    }
  }

  /** Over every interleaving of writers and interrupts: tokens are conserved but for at most one, what
      went out is the front of what was stored, and what one writer stored is the front of its data. */
  lemma TxSafety<W>(steps: seq<TxStep<W>>, data: map<W, seq<Byte>>)
    requires TxRun(TxInit(), steps, data)
    ensures var s := TxFinal(TxInit(), steps, data);
            && s.tokens + |s.holders| + |s.ring| in {SIZE - 1, SIZE} && s.lost <= 1
            && s.wire <= s.stored && s.stored == s.wire + s.ring
            && (s.ring != [] ==> s.enabled)
            && (forall w :: w in data ==> From(s.stored, w) <= data[w])
  {
    TxInitInv(data);
    TxRunKeeps(TxInit(), steps, data);
  }

  /** A writer fails to store its byte at most once in a whole run: when it holds the last token of all
      while 255 bytes wait. */
  lemma FailsOnlyOnce<W>(s: Tx<W>, w: W, b: Byte, data: map<W, seq<Byte>>)
    requires TxInv(s, data) && w in s.holders
    ensures Put(s, w, b).lost > s.lost <==> |s.ring| == SIZE - 1
    ensures Put(s, w, b).lost > s.lost ==> s.lost == 0 && s.tokens == 0 && s.holders == {w}
  {
    if |s.ring| == SIZE - 1 {
      assert |s.holders - {w}| == |s.holders| - 1;
      assert |s.holders| == 1;
      assert s.holders - {w} == {};
    }
  }

  // ----- what is sent

  function Sum(rooms: seq<nat>): nat { if rooms == [] then 0 else rooms[0] + Sum(rooms[1..]) }

  /** Interrupts one after another, with that much room each. */
  function TxInterrupts<W>(s: Tx<W>, rooms: seq<nat>): Tx<W>
    decreases |rooms|
  {
    if rooms == [] then s else TxInterrupts(TxInterrupt(s, rooms[0]), rooms[1..])
  }

  /** r is s after the hardware had room for n bytes: it got the n oldest waiting, or all of them, each for a token; when
      all are gone the interrupt is off. */
  ghost predicate SentOf<W>(s: Tx<W>, r: Tx<W>, n: nat) {
    var m := if n < |s.ring| then n else |s.ring|;
    && r.wire == s.wire + s.ring[..m] && r.ring == s.ring[m..] && r.tokens == s.tokens + m
    && r.holders == s.holders && r.stored == s.stored && r.lost == s.lost
    && (if m == |s.ring| then !r.enabled && !r.active else r.enabled == s.enabled && r.active == s.active)
  }

  lemma SentJoin<W>(s: Tx<W>, r: Tx<W>, t: Tx<W>, m: nat, n: nat)
    requires m < |s.ring| && SentOf(s, r, m) && SentOf(r, t, n)
    ensures SentOf(s, t, m + n)
  {
    var k := if n < |r.ring| then n else |r.ring|;
    Slices(s.ring, m, k);
    Regroup(s.wire, s.ring[..m], r.ring[..k]);
  }

  lemma Slices<T>(q: seq<T>, m: nat, k: nat)
    requires m + k <= |q|
    ensures q[..m] + q[m..][..k] == q[..m + k] && q[m..][k..] == q[m + k..]
  {
  }

  lemma Regroup<T>(a: seq<T>, b: seq<T>, c: seq<T>)
    ensures a + b + c == a + (b + c)
  {
  }

  /** However the room comes, the hardware gets the oldest waiting bytes, as many as there is room for. */
  lemma {:induction false} SentExactly<W>(s: Tx<W>, rooms: seq<nat>)
    requires s.ring != []
    ensures SentOf(s, TxInterrupts(s, rooms), Sum(rooms))
    decreases |rooms|
  {
    if rooms != [] {
      var s1 := TxInterrupt(s, rooms[0]);
      assert SentOf(s, s1, rooms[0]);
      hide SentOf, TxInterrupt;
      if rooms[0] >= |s.ring| {
        AllSent(s, s1, rooms[0], Sum(rooms));
        NothingToSend(s1, rooms[1..]);
      } else {
        SomeLeft(s, s1, rooms[0]);
        SentExactly(s1, rooms[1..]);
        SentJoin(s, s1, TxInterrupts(s1, rooms[1..]), rooms[0], Sum(rooms[1..]));
      }
    }
  }

  lemma AllSent<W>(s: Tx<W>, r: Tx<W>, n: nat, n': nat)
    requires SentOf(s, r, n) && |s.ring| <= n <= n'
    ensures SentOf(s, r, n') && r.ring == [] && !r.enabled && !r.active
  {
  }

  lemma SomeLeft<W>(s: Tx<W>, r: Tx<W>, n: nat)
    requires SentOf(s, r, n) && n < |s.ring|
    ensures r.ring != []
  {
  }

  lemma {:induction false} NothingToSend<W>(s: Tx<W>, rooms: seq<nat>)
    requires s.ring == [] && !s.enabled && !s.active
    ensures TxInterrupts(s, rooms) == s
    decreases |rooms|
  {
    if rooms != [] {
      assert s.ring[..0] == [] && s.wire + [] == s.wire && s.ring[0..] == s.ring;
      NothingToSend(TxInterrupt(s, rooms[0]), rooms[1..]);
    }
  }

  /** A writer's byte goes to the end of the ring while fewer than 255 bytes wait. If the transmitter was idle, as many
      waiting bytes as the hardware has room for go out at once; if not, none do. */
  lemma StoredExactly<W>(s: Tx<W>, w: W, b: Byte, room: nat)
    requires |s.ring| < 255
    ensures var r := StoreByte(s, w, b, room);
            var waiting := s.ring + [(w, b)];
            var n := if s.active then 0 else if room < |waiting| then room else |waiting|;
            && r.stored == s.stored + [(w, b)] && r.ring == waiting[n..] && r.wire == s.wire + waiting[..n]
            && r.tokens == s.tokens + n && r.active && r.lost == s.lost
  {
  }

  // ----- receive

  datatype Rx<R(==)> = Rx(tokens: nat, holders: set<R>, ring: seq<Byte>, accepted: seq<Byte>, read: seq<Byte>)

  /** A received frame; broken says that one of the error flags is set. */
  datatype Frame = Frame(byte: Byte, broken: bool)

  function RxInit<R>(): Rx<R> { Rx(0, {}, [], [], []) }

  function Arrive<R>(s: Rx<R>, f: Frame): Rx<R> {
    if f.broken || |s.ring| >= SIZE - 1 then s
    else s.(ring := s.ring + [f.byte], accepted := s.accepted + [f.byte], tokens := s.tokens + 1)
  }

  /** The receive part of the interrupt handler, on the frames the hardware holds. */
  function RxInterrupt<R>(s: Rx<R>, frames: seq<Frame>): Rx<R>
    decreases |frames|
  {
    if frames == [] then s else RxInterrupt(Arrive(s, frames[0]), frames[1..])
  }

  function TakeByte<R>(s: Rx<R>, r: R): Rx<R> {
    var s1 := s.(holders := s.holders - {r});
    if s.ring == [] then s1 else s1.(ring := s.ring[1..], read := s.read + [s.ring[0]])
  }

  datatype RxStep<R> = Await(r: R) | Fetch(r: R) | Receive(frames: seq<Frame>)

  predicate RxEnabled<R>(s: Rx<R>, step: RxStep<R>) {
    match step
    case Await(r) => s.tokens > 0 && r !in s.holders
    case Fetch(r) => r in s.holders
    case Receive(_) => true
  }

  function RxNext<R>(s: Rx<R>, step: RxStep<R>): Rx<R>
    requires RxEnabled(s, step)
  {
    match step
    case Await(r) => s.(tokens := s.tokens - 1, holders := s.holders + {r})
    case Fetch(r) => TakeByte(s, r)
    case Receive(frames) => RxInterrupt(s, frames)
  }

  predicate RxInv<R>(s: Rx<R>) {
    && s.tokens + |s.holders| == |s.ring| <= SIZE - 1
    && s.accepted == s.read + s.ring
  }

  lemma {:induction false} RxInterruptKeeps<R>(s: Rx<R>, frames: seq<Frame>)
    requires RxInv(s)
    ensures RxInv(RxInterrupt(s, frames)) && RxInterrupt(s, frames).holders == s.holders
    decreases |frames|
  {
    if frames != [] {
      ArriveKeeps(s, frames[0]);
      RxInterruptKeeps(Arrive(s, frames[0]), frames[1..]);
    }
  }

  lemma ArriveKeeps<R>(s: Rx<R>, f: Frame)
    requires RxInv(s)
    ensures RxInv(Arrive(s, f)) && Arrive(s, f).holders == s.holders
  {
    assert s.read + s.ring + [f.byte] == s.read + (s.ring + [f.byte]);
  }

  /** A reader that got past the semaphore always finds a byte. */
  lemma ReaderFindsByte<R>(s: Rx<R>, r: R)
    requires RxInv(s) && r in s.holders
    ensures s.ring != [] && TakeByte(s, r).read == s.read + [s.ring[0]]
    ensures RxInv(TakeByte(s, r))
  {
    assert |s.holders - {r}| == |s.holders| - 1;
    assert s.ring == [s.ring[0]] + s.ring[1..];
    assert s.read + s.ring == (s.read + [s.ring[0]]) + s.ring[1..];
  }

  lemma RxStepKeeps<R>(s: Rx<R>, step: RxStep<R>)
    requires RxInv(s) && RxEnabled(s, step)
    ensures RxInv(RxNext(s, step))
  {
    match step
    case Await(r) =>
    case Fetch(r) => ReaderFindsByte(s, r);
    case Receive(frames) => RxInterruptKeeps(s, frames);
  }

  predicate RxRun<R>(s: Rx<R>, steps: seq<RxStep<R>>)
    decreases |steps|
  {
    steps == [] || (RxEnabled(s, steps[0]) && RxRun(RxNext(s, steps[0]), steps[1..]))
  }

  function RxFinal<R>(s: Rx<R>, steps: seq<RxStep<R>>): Rx<R>
    requires RxRun(s, steps)
    decreases |steps|
  {
    if steps == [] then s else RxFinal(RxNext(s, steps[0]), steps[1..])
  }

  lemma {:induction false} RxRunKeeps<R>(s: Rx<R>, steps: seq<RxStep<R>>)
    requires RxInv(s) && RxRun(s, steps)
    ensures RxInv(RxFinal(s, steps))
    decreases |steps|
  {
    if steps != [] {
      hide RxInv, RxNext, RxEnabled;
      RxStepKeeps(s, steps[0]);
      RxRunKeeps(RxNext(s, steps[0]), steps[1..]);
    }
  }

  /** Over every interleaving: a token or a reader for each waiting byte, and bytes are read in the order accepted. */
  lemma RxSafety<R>(steps: seq<RxStep<R>>)
    requires RxRun(RxInit(), steps)
    ensures var s := RxFinal(RxInit(), steps);
            && s.tokens + |s.holders| == |s.ring|
            && s.read <= s.accepted
            && (forall r :: r in s.holders ==> s.ring != [])
  {
    RxRunKeeps(RxInit(), steps);
  }

  // ----- which bytes are accepted

  /** The bytes of the undamaged frames. */
  function Good(frames: seq<Frame>): seq<Byte> {
    if frames == [] then [] else (if frames[0].broken then [] else [frames[0].byte]) + Good(frames[1..])
  }

  /** a is left of b when some of its bytes are dropped. */
  predicate Part(a: seq<Byte>, b: seq<Byte>)
    decreases |b|
  {
    if b == [] then a == []
    else (a != [] && a[0] == b[0] && Part(a[1..], b[1..])) || Part(a, b[1..])
  }

  lemma {:induction false} PartLength(a: seq<Byte>, b: seq<Byte>)
    requires Part(a, b)
    ensures |a| <= |b| && (|a| == |b| ==> a == b)
    decreases |b|
  {
    if b != [] {
      if a != [] && a[0] == b[0] && Part(a[1..], b[1..]) { PartLength(a[1..], b[1..]); } else { PartLength(a, b[1..]); }
    }
  }

  lemma {:induction false} PartConcat(a: seq<Byte>, b: seq<Byte>, c: seq<Byte>, d: seq<Byte>)
    requires Part(a, b) && Part(c, d)
    ensures Part(a + c, b + d)
    decreases |b|
  {
    if b == [] {
      assert a + c == c && b + d == d;
    } else {
      assert (b + d)[1..] == b[1..] + d;
      if a != [] && a[0] == b[0] && Part(a[1..], b[1..]) {
        PartConcat(a[1..], b[1..], c, d);
        assert (a + c)[1..] == a[1..] + c;
      } else {
        PartConcat(a, b[1..], c, d);
      }
    }
  }

  /** A damaged frame changes nothing. An undamaged one is stored and signalled, unless 255 bytes wait; then it is lost. */
  lemma ArriveExactly<R>(s: Rx<R>, f: Frame)
    ensures f.broken || |s.ring| >= 255 ==> Arrive(s, f) == s
    ensures !f.broken && |s.ring| < 255 ==>
              Arrive(s, f) == s.(ring := s.ring + [f.byte], accepted := s.accepted + [f.byte], tokens := s.tokens + 1)
  {
  }

  /** How many undamaged frames find 255 bytes waiting. */
  function Lost<R>(s: Rx<R>, frames: seq<Frame>): nat
    decreases |frames|
  {
    if frames == [] then 0
    else (if !frames[0].broken && |s.ring| >= 255 then 1 else 0) + Lost(Arrive(s, frames[0]), frames[1..])
  }

  /** What a state has accepted since s. */
  ghost predicate Gains<R>(s: Rx<R>, r: Rx<R>, good: seq<Byte>, lost: nat) {
    && s.accepted <= r.accepted
    && var more := r.accepted[|s.accepted|..];
       Part(more, good) && |more| + lost == |good|
  }

  lemma GainsJoin<R>(s: Rx<R>, r: Rx<R>, t: Rx<R>, a: seq<Byte>, b: seq<Byte>, m: nat, n: nat)
    requires Gains(s, r, a, m) && Gains(r, t, b, n)
    ensures Gains(s, t, a + b, m + n)
  {
    var x, y := r.accepted[|s.accepted|..], t.accepted[|r.accepted|..];
    assert t.accepted[|s.accepted|..] == x + y;
    PartConcat(x, a, y, b);
  }

  lemma {:induction false} InterruptGains<R>(s: Rx<R>, frames: seq<Frame>)
    ensures Gains(s, RxInterrupt(s, frames), Good(frames), Lost(s, frames))
    decreases |frames|
  {
    if frames != [] {
      var f, r := frames[0], Arrive(s, frames[0]);
      ArriveExactly(s, f);
      InterruptGains(r, frames[1..]);
      var first := if f.broken then [] else [f.byte];
      assert Gains(s, r, first, if !f.broken && |s.ring| >= 255 then 1 else 0) by {
        assert r.accepted[|s.accepted|..] == if f.broken || |s.ring| >= 255 then [] else [f.byte];
        assert [f.byte][1..] == [] && Part([], [f.byte][1..]);
      }
      GainsJoin(s, r, RxInterrupt(r, frames[1..]), first, Good(frames[1..]),
                if !f.broken && |s.ring| >= 255 then 1 else 0, Lost(r, frames[1..]));
    }
  }

  /** Every frame the hardware received in a run, and how many undamaged ones were lost. */
  function Received<R>(steps: seq<RxStep<R>>): seq<Frame> {
    if steps == [] then [] else (if steps[0].Receive? then steps[0].frames else []) + Received(steps[1..])
  }

  function LostIn<R>(s: Rx<R>, steps: seq<RxStep<R>>): nat
    requires RxRun(s, steps)
    decreases |steps|
  {
    if steps == [] then 0
    else (if steps[0].Receive? then Lost(s, steps[0].frames) else 0) + LostIn(RxNext(s, steps[0]), steps[1..])
  }

  lemma {:induction false} GoodConcat(a: seq<Frame>, b: seq<Frame>)
    ensures Good(a + b) == Good(a) + Good(b)
  {
    if a == [] {
      assert a + b == b;
    } else {
      assert (a + b)[1..] == a[1..] + b;
      GoodConcat(a[1..], b);
    }
  }

  lemma {:induction false} RunGains<R>(s: Rx<R>, steps: seq<RxStep<R>>)
    requires RxRun(s, steps)
    ensures Gains(s, RxFinal(s, steps), Good(Received(steps)), LostIn(s, steps))
    decreases |steps|
  {
    if steps != [] {
      var r, frames := RxNext(s, steps[0]), if steps[0].Receive? then steps[0].frames else [];
      var lost := if steps[0].Receive? then Lost(s, steps[0].frames) else 0;
      if steps[0].Receive? { InterruptGains(s, steps[0].frames); }
      assert Gains(s, r, Good(frames), lost);
      RunGains(r, steps[1..]);
      GoodConcat(frames, Received(steps[1..]));
      hide Gains, RxNext, RxEnabled, Good;
      GainsJoin(s, r, RxFinal(r, steps[1..]), Good(frames), Good(Received(steps[1..])), lost, LostIn(r, steps[1..]));
    }
  }

  /** Over every interleaving: the bytes accepted are those of the undamaged frames, in the order received, less the ones
      that found 255 bytes waiting; all of them exactly when none did. */
  lemma AcceptedExactly<R>(steps: seq<RxStep<R>>)
    requires RxRun(RxInit(), steps)
    ensures var accepted, good, lost := RxFinal(RxInit<R>(), steps).accepted, Good(Received(steps)), LostIn(RxInit<R>(), steps);
            Part(accepted, good) && |accepted| + lost == |good| && (accepted == good <==> lost == 0)
  {
    RunGains(RxInit(), steps);
    var accepted := RxFinal(RxInit<R>(), steps).accepted;
    assert accepted[0..] == accepted;
    PartLength(accepted, Good(Received(steps)));
  }
}
