/** One TCP connection over a network that loses, duplicates and reorders segments but never
    forges them: whatever was sent may be delivered any number of times, in any order, or never. */
module TcpSystem {
  import opened Arith
  import opened Common
  import opened TcpSpec

  /** A socket with the record an observer keeps: whether it has begun, its initial sequence
      number, whether its SYN and FIN went out, whether it has seen the peer's SYN, and the bytes
      numbered by tcp_output so far. */
  datatype End = End(sock: Sock, begun: bool, isn: nat, started: bool, finished: bool, synced: bool, sent: seq<Byte>)

  /** This side, the other side, and everything each of them has ever put on the network. */
  datatype World = World(x: End, y: End, netX: set<Segment>, netY: set<Segment>)

  function Flip(w: World): World { World(w.y, w.x, w.netY, w.netX) }

  // ----- steps of side x

  datatype Action =
    | DoListen
    | DoConnect(now: nat, ok: bool)
    | DoWrite(data: seq<Byte>, ok: bool)
    | DoClose(ok: bool)
    | DoReceive(seg: Segment, now: nat, ok1: bool, ok2: bool)

  /** A socket opens once, actively or passively; a connection carries less than 2^32 bytes each way. */
  ghost predicate Enabled(w: World, a: Action) {
    match a
    case DoListen => !w.x.begun && w.x.sock.state == Closed
    case DoConnect(now, _) => !w.x.begun && w.x.sock.state == Closed && now < SEQ
    case DoWrite(data, _) => |w.x.sent| + |data| < SEQ
    case DoClose(_) => true
    case DoReceive(seg, now, _, _) => seg in w.netY && now < SEQ
  }

  function Emitted(out: seq<Segment>): set<Segment> { set seg | seg in out }

  function Step(w: World, a: Action): World {
    var x := w.x;
    match a
    case DoListen => w.(x := x.(sock := x.sock.(state := Listen)))
    case DoConnect(now, ok) =>
      var r := Connect(x.sock, now, ok);
      w.(x := x.(sock := r.0, begun := true, isn := now, started := ok), netX := w.netX + Emitted(r.1))
    case DoWrite(data, ok) =>
      var r := Output(x.sock, data, ok);
      w.(x := x.(sock := r.0, sent := if r.1 == [] then x.sent else x.sent + data), netX := w.netX + Emitted(r.1))
    case DoClose(ok) =>
      var r := Close(x.sock, ok);
      w.(x := x.(sock := r.0, finished := x.finished || r.1 != []), netX := w.netX + Emitted(r.1))
    case DoReceive(seg, now, ok1, ok2) =>
      var r := Input(x.sock, seg, now, ok1, ok2);
      var accepts := x.sock.state == Listen && seg.syn;
      var x' := x.(sock := r.0,
                   begun := x.begun || accepts, isn := if accepts then now else x.isn,
                   started := if accepts then ok1 else x.started,
                   synced := x.synced || accepts || (x.sock.state == SynSent && r.0.state == Established));
      w.(x := x', netX := w.netX + Emitted(r.1))
  }

  // ----- invariant

  predicate Open(st: State) { st == SynReceived || st == Established }

  /** The peer's FIN is still to come. */
  predicate Counting(st: State) { Open(st) || st == FinWait1 || st == FinWait2 }

  /** What one side knows about itself. */
  ghost predicate Self(e: End) {
    && |e.sent| < SEQ && e.isn < SEQ && e.sock.sndNxt < SEQ && e.sock.rcvNxt < SEQ
    && (e.sock.state == SynSent ==> e.begun && !e.synced)
    && (e.sock.state == Listen ==> !e.begun)
    && (e.sock.state != Closed && e.sock.state != Listen && e.sock.state != SynSent ==> e.synced)
    && (!e.begun ==> !e.started && !e.finished && !e.synced && e.sent == [])
    && (!e.started ==> e.sent == [] && !e.finished)
    && (Open(e.sock.state) || e.sock.state == SynSent ==> !e.finished)
    && (e.begun ==> e.sock.sndNxt == Plus(e.isn, (if e.started then 1 else 0) + |e.sent| + (if e.finished then 1 else 0)))
    && (!e.synced ==> e.sock.pushed == [])
  }

  /** A segment on the wire from s: a SYN carries s's initial sequence number and no data; data is
      what s sent at that offset; a FIN follows the last byte s ever sends. */
  ghost predicate Genuine(s: End, seg: Segment) {
    && s.started && seg.seqNo < SEQ
    && (seg.syn ==> seg.seqNo == s.isn && seg.data == [])
    && (seg.data != [] ==>
          var o := Offset(s.isn, seg.seqNo);
          o + |seg.data| <= |s.sent| && seg.data == s.sent[o..o + |seg.data|])
    && (seg.fin ==> s.finished && seg.seqNo == Plus(s.isn, 1 + |s.sent|) && seg.data == [])
  }

  /** From s to r: the wire is genuine, an acknowledgement proves r's SYN went out, and what r has
      queued is a prefix of what s sent, counted exactly by rcv_nxt until s's FIN is taken. */
  ghost predicate Flow(s: End, r: End, net: set<Segment>) {
    && (forall seg :: seg in net ==> Genuine(s, seg))
    && (forall seg :: seg in net && seg.ack ==> r.started)
    && (s.synced ==> r.started)
    && r.sock.pushed <= s.sent
    && (r.synced ==> s.begun)
    && (Counting(r.sock.state) ==> r.sock.rcvNxt == Plus(s.isn, 1 + |r.sock.pushed|))
    && (r.synced && r.sock.state != SynReceived ==> r.started)
  }

  ghost predicate Inv(w: World) {
    Self(w.x) && Self(w.y) && Flow(w.x, w.y, w.netX) && Flow(w.y, w.x, w.netY)
  }

  lemma FlipInv(w: World)
    requires Inv(w)
    ensures Inv(Flip(w))
  {
  }

  // ----- each step of x keeps it

  lemma OpenKeeps(w: World, a: Action)
    requires Inv(w) && Enabled(w, a) && (a.DoListen? || a.DoConnect?)
    ensures Inv(Step(w, a))
  {
  }

  lemma WriteKeeps(w: World, data: seq<Byte>, ok: bool)
    requires Inv(w) && Enabled(w, DoWrite(data, ok))
    ensures Inv(Step(w, DoWrite(data, ok)))
  {
    var x := w.x;
    if x.sock.state == Established && ok {
      var x' := Step(w, DoWrite(data, ok)).x;
      PlusPlus(x.isn, 1 + |x.sent|, |data|);
      forall seg | seg in w.netX ensures Genuine(x', seg) { GenuineGrows(x, x', seg); }
      NewData(x, x', data);
      hide Genuine, Plus, Offset;
    }
  }

  lemma GenuineGrows(s: End, s': End, seg: Segment)
    requires Genuine(s, seg) && !s.finished && s'.started == s.started && s'.isn == s.isn && s.sent <= s'.sent
    ensures Genuine(s', seg)
  {
  }

  lemma NewData(s: End, s': End, data: seq<Byte>)
    requires Self(s) && s.begun && s.started && !s.finished
    requires s'.started && s'.isn == s.isn && s'.sent == s.sent + data
    ensures Genuine(s', Segment(s.sock.sndNxt, s.sock.rcvNxt, false, true, false, data))
  {
    OffsetOf(s.isn, |s.sent|);
    ModSmall(|s.sent|, SEQ);
    assert s'.sent[|s.sent|..|s.sent| + |data|] == data;
  }

  lemma CloseKeeps(w: World, ok: bool)
    requires Inv(w) && Enabled(w, DoClose(ok))
    ensures Inv(Step(w, DoClose(ok)))
  {
    var x := w.x;
    if x.sock.state == Established && ok {
      PlusPlus(x.isn, 1 + |x.sent|, 1);
      assert x.sock.sndNxt == Plus(x.isn, 1 + |x.sent|) && Plus(x.sock.sndNxt, 1) < SEQ;
      hide Offset, Plus;
      forall seg | seg in w.netX ensures Genuine(Step(w, DoClose(ok)).x, seg) { assert Genuine(x, seg); }
    }
  }

  lemma ListenKeeps(w: World, seg: Segment, now: nat, ok1: bool, ok2: bool)
    requires Inv(w) && Enabled(w, DoReceive(seg, now, ok1, ok2)) && w.x.sock.state == Listen
    ensures Inv(Step(w, DoReceive(seg, now, ok1, ok2)))
  {
    assert Genuine(w.y, seg);
    assert forall sg :: sg in w.netX ==> Genuine(w.x, sg);
  }

  lemma SynSentKeeps(w: World, seg: Segment, now: nat, ok1: bool, ok2: bool)
    requires Inv(w) && Enabled(w, DoReceive(seg, now, ok1, ok2)) && w.x.sock.state == SynSent
    ensures Inv(Step(w, DoReceive(seg, now, ok1, ok2)))
  {
    assert Genuine(w.y, seg);
    StillGenuine(w, Step(w, DoReceive(seg, now, ok1, ok2)).x);
  }

  /** Old segments stay genuine while identity and sent bytes stand. */
  lemma StillGenuine(w: World, x': End)
    requires Flow(w.x, w.y, w.netX) && x'.started == w.x.started && x'.isn == w.x.isn && x'.sent == w.x.sent
    requires x'.finished == w.x.finished
    ensures forall seg :: seg in w.netX ==> Genuine(x', seg)
  {
    forall seg | seg in w.netX ensures Genuine(x', seg) { assert Genuine(w.x, seg); }
  }

  /** The heart of the matter: data accepted because seq = rcv_nxt continues the prefix. */
  lemma AcceptedData(s: End, r: End, seg: Segment)
    requires Self(s) && Genuine(s, seg) && r.sock.pushed <= s.sent
    requires seg.data != [] && seg.seqNo == Plus(s.isn, 1 + |r.sock.pushed|)
    ensures r.sock.pushed + seg.data <= s.sent
  {
    var n := |r.sock.pushed|;
    OffsetOf(s.isn, n);
    ModSmall(n, SEQ);
    assert r.sock.pushed == s.sent[..n];
    assert s.sent[..n] + s.sent[n..n + |seg.data|] == s.sent[..n + |seg.data|];
  }

  lemma DataKeeps(w: World, seg: Segment, ok: bool)
    requires Inv(w) && seg in w.netY && w.x.sock.state == Established
    ensures var r := TakeData(w.x.sock, seg, ok);
            Inv(w.(x := w.x.(sock := r.0), netX := w.netX + Emitted(r.1)))
  {
    var r := TakeData(w.x.sock, seg, ok);
    assert Genuine(w.y, seg);
    if seg.data != [] && seg.seqNo == w.x.sock.rcvNxt {
      AcceptedData(w.y, w.x, seg);
      PlusPlus(w.y.isn, 1 + |w.x.sock.pushed|, |seg.data|);
    }
    DataTaken(w.x.sock, seg, ok);
    StillGenuine(w, w.x.(sock := r.0));
    hide TakeData, Offset, Plus;
  }

  lemma DataTaken(s: Sock, seg: Segment, ok: bool)
    requires s.sndNxt < SEQ && s.rcvNxt < SEQ
    ensures var r := TakeData(s, seg, ok);
            && r.0.sndNxt == s.sndNxt && r.0.state == s.state && r.0.rcvNxt < SEQ
            && (r.0.pushed, r.0.rcvNxt) == (if seg.data != [] && seg.seqNo == s.rcvNxt
                                            then (s.pushed + seg.data, Plus(s.rcvNxt, |seg.data|)) else (s.pushed, s.rcvNxt))
            && forall a :: a in r.1 ==> !a.syn && !a.fin && a.ack && a.data == [] && a.seqNo == s.sndNxt
  {
    ModSmall(s.sndNxt, SEQ);
  }

  lemma FinKeeps(w: World, next: State, ok: bool)
    requires Inv(w) && w.x.synced && w.x.started
    requires next == CloseWait || next == TimeWait
    ensures var r := TakeFin(w.x.sock, next, ok);
            Inv(w.(x := w.x.(sock := r.0), netX := w.netX + Emitted(r.1)))
  {
    var r := TakeFin(w.x.sock, next, ok);
    ModSmall(w.x.sock.sndNxt, SEQ);
    StillGenuine(w, w.x.(sock := r.0));
  }

  lemma EstablishedKeeps(w: World, seg: Segment, now: nat, ok1: bool, ok2: bool)
    requires Inv(w) && Enabled(w, DoReceive(seg, now, ok1, ok2)) && w.x.sock.state == Established
    ensures Inv(Step(w, DoReceive(seg, now, ok1, ok2)))
  {
    var r := TakeData(w.x.sock, seg, ok1);
    DataKeeps(w, seg, ok1);
    var w1 := w.(x := w.x.(sock := r.0), netX := w.netX + Emitted(r.1));
    if seg.fin {
      FinKeeps(w1, CloseWait, ok2);
      var f := TakeFin(r.0, CloseWait, ok2);
      assert w.netX + Emitted(r.1) + Emitted(f.1) == w.netX + Emitted(r.1 + f.1) by { EmittedConcat(r.1, f.1); }
    }
  }

  lemma EmittedConcat(a: seq<Segment>, b: seq<Segment>)
    ensures Emitted(a + b) == Emitted(a) + Emitted(b)
  {
    assert forall seg :: seg in a + b <==> seg in a || seg in b;
  }

  lemma OtherKeeps(w: World, seg: Segment, now: nat, ok1: bool, ok2: bool)
    requires Inv(w) && Enabled(w, DoReceive(seg, now, ok1, ok2))
    requires w.x.sock.state != Listen && w.x.sock.state != SynSent && w.x.sock.state != Established
    ensures Inv(Step(w, DoReceive(seg, now, ok1, ok2)))
  {
    hide Input, Offset, Plus;
    OnlyAcks(w.x.sock, seg, now, ok1, ok2);
    StillGenuine(w, Step(w, DoReceive(seg, now, ok1, ok2)).x);
  }

  /** In these states at most one empty acknowledgement is sent, and rcv_nxt moves with the FIN only. */
  lemma OnlyAcks(s: Sock, seg: Segment, now: nat, ok1: bool, ok2: bool)
    requires s.state != Listen && s.state != SynSent && s.state != Established && s.sndNxt < SEQ && s.rcvNxt < SEQ
    ensures var r := Input(s, seg, now, ok1, ok2);
            && r.0.sndNxt == s.sndNxt && r.0.pushed == s.pushed && r.0.rcvNxt < SEQ
            && r.0.state != Listen && r.0.state != SynSent
            && (r.0.state == SynReceived || r.0.state == Established ==> s.state == SynReceived)
            && (r.0.state != Closed ==> s.state != Closed)
            && (Counting(r.0.state) ==> Counting(s.state) && r.0.rcvNxt == s.rcvNxt)
            && (s.state == SynReceived && r.0.state != SynReceived ==> seg.ack)
            && (r.1 != [] ==> s.state == FinWait1 || s.state == FinWait2)
            && forall a :: a in r.1 ==> !a.syn && !a.fin && a.ack && a.data == [] && a.seqNo == s.sndNxt
  {
    ModSmall(s.sndNxt, SEQ);
  }

  lemma StepKeeps(w: World, a: Action)
    requires Inv(w) && Enabled(w, a)
    ensures Inv(Step(w, a))
  {
    match a
    case DoListen => OpenKeeps(w, a);
    case DoConnect(_, _) => OpenKeeps(w, a);
    case DoWrite(data, ok) => WriteKeeps(w, data, ok);
    case DoClose(ok) => CloseKeeps(w, ok);
    case DoReceive(seg, now, ok1, ok2) =>
      match w.x.sock.state {
        case Listen => ListenKeeps(w, seg, now, ok1, ok2);
        case SynSent => SynSentKeeps(w, seg, now, ok1, ok2);
        case Established => EstablishedKeeps(w, seg, now, ok1, ok2);
        case _ => OtherKeeps(w, seg, now, ok1, ok2);
      }
  }

  // ----- whole runs: either side moves

  datatype Move = Move(other: bool, action: Action)

  function At(w: World, m: Move): World { if m.other then Flip(w) else w }

  function Next(w: World, m: Move): World {
    if m.other then Flip(Step(Flip(w), m.action)) else Step(w, m.action)
  }

  ghost predicate Runs(w: World, ms: seq<Move>)
    decreases |ms|
  {
    ms == [] || (Enabled(At(w, ms[0]), ms[0].action) && Runs(Next(w, ms[0]), ms[1..]))
  }

  function Run(w: World, ms: seq<Move>): World
    decreases |ms|
  {
    if ms == [] then w else Run(Next(w, ms[0]), ms[1..])
  }

  const UNOPENED := End(FRESH, false, 0, false, false, false, [])

  lemma {:induction false} RunKeeps(w: World, ms: seq<Move>)
    requires Inv(w) && Runs(w, ms)
    ensures Inv(Run(w, ms))
    decreases |ms|
  {
    if ms != [] {
      FlipInv(w);
      StepKeeps(At(w, ms[0]), ms[0].action);
      FlipInv(Step(At(w, ms[0]), ms[0].action));
      RunKeeps(Next(w, ms[0]), ms[1..]);
    }
  }

  /** After any run, in both directions: the bytes queued by the receiver are a prefix of the bytes
      the sender numbered, and until the peer's FIN is taken rcv_nxt counts them exactly. */
  lemma Safety(ms: seq<Move>)
    requires Runs(World(UNOPENED, UNOPENED, {}, {}), ms)
    ensures var w := Run(World(UNOPENED, UNOPENED, {}, {}), ms);
            && w.x.sock.pushed <= w.y.sent && w.y.sock.pushed <= w.x.sent
            && (Counting(w.x.sock.state) ==> w.x.sock.rcvNxt == Plus(w.y.isn, 1 + |w.x.sock.pushed|))
            && (Counting(w.y.sock.state) ==> w.y.sock.rcvNxt == Plus(w.x.isn, 1 + |w.y.sock.pushed|))
  {
    RunKeeps(World(UNOPENED, UNOPENED, {}, {}), ms);
  }

  /** A data segment from the peer is queued exactly when the connection is established and the
      segment starts at the first byte not yet queued. */
  lemma QueuedExactly(w: World, seg: Segment, now: nat, ok1: bool, ok2: bool)
    requires Inv(w) && seg in w.netY && seg.data != []
    ensures Input(w.x.sock, seg, now, ok1, ok2).0.pushed != w.x.sock.pushed <==>
            w.x.sock.state == Established && Offset(w.y.isn, seg.seqNo) == |w.x.sock.pushed|
  {
    assert Genuine(w.y, seg);
    var n := |w.x.sock.pushed|;
    OffsetOf(w.y.isn, n);
    ModSmall(n, SEQ);
    if Offset(w.y.isn, seg.seqNo) == n { OffsetInverse(w.y.isn, seg.seqNo); }
    assert |w.x.sock.pushed + seg.data| > n;
  }

  lemma OffsetInverse(isn: nat, seqNo: nat)
    requires seqNo < SEQ
    ensures Plus(isn, 1 + Offset(isn, seqNo)) == seqNo
  {
    var m := 0x1_0000_0000;
    var x := seqNo - isn - 1;
    assert isn + 1 + x % m == seqNo + m * (-(x / m));
    ModShift(seqNo, m, -(x / m));
    ModSmall(seqNo, m);
  }

  /** The states in which a FIN of the peer's takes effect. */
  predicate TakesFin(st: State, fin: Segment) {
    st == Established || st == FinWait2 || (st == FinWait1 && fin.ack)
  }

  /** A FIN takes effect whatever its sequence number, and nothing is queued after it: the bytes queued are then all the
      peer ever sends exactly when the FIN's number is the one expected. The code does not compare them. */
  lemma FinCompletesExactly(w: World, fin: Segment, now: nat, ok1: bool, ok2: bool)
    requires Inv(w) && fin in w.netY && fin.fin && TakesFin(w.x.sock.state, fin)
    ensures var closed := Input(w.x.sock, fin, now, ok1, ok2).0;
            && closed.state == (if w.x.sock.state == Established then CloseWait else TimeWait) && w.y.finished
            && (closed.pushed == w.y.sent <==> fin.seqNo == w.x.sock.rcvNxt)
  {
    assert Genuine(w.y, fin);
    var n, m := |w.x.sock.pushed|, |w.y.sent|;
    OffsetOf(w.y.isn, n);
    OffsetOf(w.y.isn, m);
    ModSmall(n, SEQ);
    ModSmall(m, SEQ);
    assert w.x.sock.pushed == w.y.sent[..n];
  }

  /** After the FIN no segment changes the socket. */
  lemma {:induction false} NothingAfterFin(s: Sock, fin: Segment, segs: seq<Segment>, now: nat, ok1: bool, ok2: bool)
    requires fin.fin && TakesFin(s.state, fin)
    ensures var closed := Input(s, fin, now, ok1, ok2).0;
            InputAll(closed, segs, now) == closed
  {
    FinishedInert(Input(s, fin, now, ok1, ok2).0, segs, now);
  }

  /** Segments arriving one after another. */
  function InputAll(s: Sock, segs: seq<Segment>, now: nat): Sock
    decreases |segs|
  {
    if segs == [] then s else InputAll(Input(s, segs[0], now, true, true).0, segs[1..], now)
  }

  lemma {:induction false} FinishedInert(s: Sock, segs: seq<Segment>, now: nat)
    requires s.state == CloseWait || s.state == TimeWait
    ensures InputAll(s, segs, now) == s
    decreases |segs|
  {
    if segs != [] { FinishedInert(s, segs[1..], now); }
  }

  ghost predicate Moves(w: World, m: Move, w': World) { Enabled(At(w, m), m.action) && Next(w, m) == w' }

  /** ms leads through the worlds ws. */
  ghost predicate Leads(ws: seq<World>, ms: seq<Move>) {
    |ws| == |ms| + 1 && forall k :: 0 <= k < |ms| ==> Moves(ws[k], ms[k], ws[k + 1])
  }

  lemma {:induction false} LeadsRuns(ws: seq<World>, ms: seq<Move>)
    requires Leads(ws, ms)
    ensures Runs(ws[0], ms) && Run(ws[0], ms) == ws[|ms|]
    decreases |ms|
  {
    hide Enabled, Next, At;
    if ms != [] {
      assert Moves(ws[0], ms[0], ws[1]);
      assert forall k :: 0 <= k < |ms[1..]| ==> ms[1..][k] == ms[k + 1] && ws[1..][k] == ws[k + 1];
      LeadsRuns(ws[1..], ms[1..]);
    }
  }

  /** The cut is reached: the peer writes one byte and closes; the network loses the byte and delivers the FIN. */
  lemma StreamCut()
    ensures var w0 := World(UNOPENED, UNOPENED, {}, {});
            && Runs(w0, CUTTING)
            && Run(w0, CUTTING).x.sock.state == CloseWait
            && Run(w0, CUTTING).x.sock.pushed == [] && Run(w0, CUTTING).y.sent == [7]
  {
    CutOpens();
    CutShakes();
    CutCloses();
    hide Moves;
    LeadsRuns([W0, W1, W2, W3, W4, W5, W6, W7, W8], CUTTING);
  }

  const SYN := Segment(0, 0, true, false, false, [])
  const SYN_ACK := Segment(0, 1, true, true, false, [])
  const ACK := Segment(1, 1, false, true, false, [])
  const BYTE := Segment(1, 1, false, true, false, [7])
  const FIN := Segment(2, 1, false, true, true, [])
  const FIN_ACK := Segment(1, 2, false, true, false, [])

  const CUTTING: seq<Move> := [
    Move(false, DoListen), Move(true, DoConnect(0, true)),
    Move(false, DoReceive(SYN, 0, true, true)), Move(true, DoReceive(SYN_ACK, 0, true, true)),
    Move(false, DoReceive(ACK, 0, true, true)), Move(true, DoWrite([7], true)),
    Move(true, DoClose(true)), Move(false, DoReceive(FIN, 0, true, true))]

  const X1 := End(Sock(Listen, 0, 0, 0, []), false, 0, false, false, false, [])
  const X3 := End(Sock(SynReceived, 0, 1, 1, []), true, 0, true, false, true, [])
  const X5 := End(Sock(Established, 1, 1, 1, []), true, 0, true, false, true, [])
  const X8 := End(Sock(CloseWait, 1, 1, 2, []), true, 0, true, false, true, [])
  const Y2 := End(Sock(SynSent, 0, 1, 0, []), true, 0, true, false, false, [])
  const Y4 := End(Sock(Established, 1, 1, 1, []), true, 0, true, false, true, [])
  const Y6 := End(Sock(Established, 1, 2, 1, []), true, 0, true, false, true, [7])
  const Y7 := End(Sock(FinWait1, 1, 3, 1, []), true, 0, true, true, true, [7])

  const W0 := World(UNOPENED, UNOPENED, {}, {})
  const W1 := World(X1, UNOPENED, {}, {})
  const W2 := World(X1, Y2, {}, {SYN})
  const W3 := World(X3, Y2, {SYN_ACK}, {SYN})
  const W4 := World(X3, Y4, {SYN_ACK}, {SYN, ACK})
  const W5 := World(X5, Y4, {SYN_ACK}, {SYN, ACK})
  const W6 := World(X5, Y6, {SYN_ACK}, {SYN, ACK, BYTE})
  const W7 := World(X5, Y7, {SYN_ACK}, {SYN, ACK, BYTE, FIN})
  const W8 := World(X8, Y7, {SYN_ACK, FIN_ACK}, {SYN, ACK, BYTE, FIN})

  lemma Emits(seg: Segment)
    ensures Emitted([seg]) == {seg} && Emitted([]) == {}
  {
  }

  lemma CutOpens()
    ensures Moves(W0, CUTTING[0], W1) && Moves(W1, CUTTING[1], W2)
  {
    Emits(SYN);
  }

  lemma CutShakes()
    ensures Moves(W2, CUTTING[2], W3) && Moves(W3, CUTTING[3], W4) && Moves(W4, CUTTING[4], W5)
  {
    Emits(SYN_ACK);
    Emits(ACK);
  }

  lemma CutCloses()
    ensures Moves(W5, CUTTING[5], W6) && Moves(W6, CUTTING[6], W7) && Moves(W7, CUTTING[7], W8)
  {
    Emits(BYTE);
    Emits(FIN);
    Emits(FIN_ACK);
  }

  /** The bound is needed: once exactly 2^32 bytes have been queued, the guard accepts the very
      first data segment of the connection again. */
  lemma GuardWraps(s: Sock, isn: nat, seg: Segment, ok: bool)
    requires s.state == Established && |s.pushed| == SEQ && s.rcvNxt == Plus(isn, 1 + |s.pushed|)
    requires seg.data != [] && seg.seqNo == Plus(isn, 1)
    ensures TakeData(s, seg, ok).0.pushed == s.pushed + seg.data
  {
    ModShift(isn + 1, SEQ, 1);
  }

  /** snd writes chunk n times and rcv receives each segment. */
  function Transfer(snd: Sock, rcv: Sock, chunk: seq<Byte>, n: nat): (Sock, Sock)
    decreases n
  {
    if n == 0 then (snd, rcv)
    else
      var r := Output(snd, chunk, true);
      if r.1 == [] then (snd, rcv) else Transfer(r.0, Input(rcv, r.1[0], 0, true, true).0, chunk, n - 1)
  }

  lemma {:induction false} TransferCounts(snd: Sock, rcv: Sock, chunk: seq<Byte>, n: nat, isn: nat)
    requires snd.state == Established && rcv.state == Established && chunk != []
    requires snd.sndNxt == rcv.rcvNxt == Plus(isn, 1 + |rcv.pushed|)
    ensures var t := Transfer(snd, rcv, chunk, n);
            && t.1.state == Established && |t.1.pushed| == |rcv.pushed| + n * |chunk|
            && t.0.sndNxt == t.1.rcvNxt == Plus(isn, 1 + |t.1.pushed|)
    decreases n
  {
    if n > 0 {
      var r := Output(snd, chunk, true);
      var rcv1 := Input(rcv, r.1[0], 0, true, true).0;
      PlusPlus(isn, 1 + |rcv.pushed|, |chunk|);
      PlusPlus(isn, 1 + |rcv1.pushed|, 0);
      TransferCounts(r.0, rcv1, chunk, n - 1, isn);
      assert n * |chunk| == |chunk| + (n - 1) * |chunk|;
    }
  }

  /** That state is reached: two sockets that opened as in W5 exchange 2^17 segments of 2^15 bytes each, and the first
      segment, delivered a second time, is queued again. */
  lemma GuardWrapsReached(chunk: seq<Byte>)
    requires |chunk| == 0x8000
    ensures Runs(W0, CUTTING[..5]) && Run(W0, CUTTING[..5]) == W5
    ensures var t := Transfer(W5.y.sock, W5.x.sock, chunk, 0x2_0000);
            && |t.1.pushed| == SEQ
            && Input(t.1, Output(W5.y.sock, chunk, true).1[0], 0, true, true).0.pushed == t.1.pushed + chunk
  {
    CutOpens();
    CutShakes();
    assert CUTTING[..5] == [CUTTING[0], CUTTING[1], CUTTING[2], CUTTING[3], CUTTING[4]];
    LeadsRuns([W0, W1, W2, W3, W4, W5], CUTTING[..5]);
    TransferCounts(W5.y.sock, W5.x.sock, chunk, 0x2_0000, 0);
    var t := Transfer(W5.y.sock, W5.x.sock, chunk, 0x2_0000);
    var first := Output(W5.y.sock, chunk, true).1[0];
    GuardWraps(t.1, 0, first, true);
  }
}
