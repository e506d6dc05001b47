/** What the acknowledgements say, and that an undisturbed connection delivers everything. */
module TcpAcks {
  import opened Arith
  import opened Common
  import opened TcpSpec
  import opened TcpSystem

  /** Whether a segment is queued, and whether its FIN is taken. */
  predicate Queues(s: Sock, seg: Segment) { s.state == Established && seg.data != [] && seg.seqNo == s.rcvNxt }

  predicate Closes(s: Sock, seg: Segment) { seg.fin && TakesFin(s.state, seg) }

  /** tcp_input answers data it queues, and a FIN it takes, with one acknowledgement each if there is a buffer for it. The
      first one's number is the one after the last byte of the data, and a FIN's is one more than what was expected; the
      last acknowledgement always says what the socket expects next. */
  lemma RepliesExactly(s: Sock, seg: Segment, now: nat, ok1: bool, ok2: bool)
    requires s.state != Listen && s.state != SynSent && s.sndNxt < SEQ
    ensures var r := Input(s, seg, now, ok1, ok2); var t, out := r.0, r.1;
            && |out| == (if Queues(s, seg) && ok1 then 1 else 0)
                        + (if Closes(s, seg) && (if s.state == Established then ok2 else ok1) then 1 else 0)
            && (forall k :: 0 <= k < |out| ==> out[k].ack && !out[k].syn && !out[k].fin && out[k].data == [] && out[k].seqNo == s.sndNxt)
            && (out != [] && (Queues(s, seg) ==> ok1) && (Closes(s, seg) && s.state == Established ==> ok2)
                ==> out[|out| - 1].ackNo == t.rcvNxt)
            && (Queues(s, seg) && ok1 ==> out[0].ackNo == (seg.seqNo + |seg.data|) % 0x1_0000_0000)
            && (Closes(s, seg) && !Queues(s, seg) && out != [] ==> out[0].ackNo == (s.rcvNxt + 1) % 0x1_0000_0000)
            && (!Queues(s, seg) && !Closes(s, seg) ==> t.rcvNxt == s.rcvNxt && t.pushed == s.pushed)
  {
    ModSmall(s.sndNxt, SEQ);
  }

  // ----- over whole runs

  /** r has taken the peer's FIN. */
  predicate Ended(st: State) { st == CloseWait || st == TimeWait }

  predicate AcksBytes(s: End, seg: Segment, n: nat) { seg.ackNo == Plus(s.isn, 1 + n) }

  /** seg, sent by r, acknowledges the SYN and n bytes that r had queued, or also the FIN behind all it queued. */
  ghost predicate Acks(s: End, r: End, seg: Segment) {
    seg.ack ==>
      || (exists n: nat :: n <= |r.sock.pushed| && AcksBytes(s, seg, n))
      || (Ended(r.sock.state) && AcksBytes(s, seg, 1 + |r.sock.pushed|))
  }

  /** r's acknowledgements and what it expects next. */
  ghost predicate Counts(s: End, r: End, net: set<Segment>) {
    && (forall seg :: seg in net ==> Acks(s, r, seg))
    && (r.synced ==> Counting(r.sock.state) || Ended(r.sock.state))
    && (Ended(r.sock.state) ==> r.sock.rcvNxt == Plus(s.isn, 2 + |r.sock.pushed|))
    && (!r.synced ==> r.sock.state == Closed || r.sock.state == Listen || r.sock.state == SynSent)
    && (!r.synced ==> forall seg :: seg in net ==> !seg.ack)
  }

  ghost predicate AckInv(w: World) {
    Inv(w) && Counts(w.y, w.x, w.netX) && Counts(w.x, w.y, w.netY)
  }

  lemma FlipAckInv(w: World)
    requires AckInv(w)
    ensures AckInv(Flip(w))
  {
  }

  /** What a socket says now. */
  lemma SaysNow(s: End, r: End, seg: Segment)
    requires seg.ackNo == r.sock.rcvNxt
    requires Counting(r.sock.state) ==> r.sock.rcvNxt == Plus(s.isn, 1 + |r.sock.pushed|)
    requires Ended(r.sock.state) ==> r.sock.rcvNxt == Plus(s.isn, 2 + |r.sock.pushed|)
    requires Counting(r.sock.state) || Ended(r.sock.state)
    ensures Acks(s, r, seg)
  {
    if Counting(r.sock.state) { assert AcksBytes(s, seg, |r.sock.pushed|); }
  }

  lemma AcksStay(s: End, r: End, r': End, net: set<Segment>)
    requires forall seg :: seg in net ==> Acks(s, r, seg)
    requires |r.sock.pushed| <= |r'.sock.pushed|
    requires Ended(r.sock.state) ==> Ended(r'.sock.state) && r'.sock.pushed == r.sock.pushed
    ensures forall seg :: seg in net ==> Acks(s, r', seg)
  {
    forall seg | seg in net ensures Acks(s, r', seg) { assert Acks(s, r, seg); }
  }

  /** Whatever x puts on the wire with an acknowledgement says what x expects afterwards. */
  ghost predicate SpeaksNow(w: World, t: World) {
    && w.netX <= t.netX
    && forall seg :: seg in t.netX && seg !in w.netX && seg.ack ==> seg.ackNo == t.x.sock.rcvNxt && t.x.synced
  }

  lemma ReceiveSpeaks(w: World, seg: Segment, now: nat, ok1: bool, ok2: bool)
    requires AckInv(w) && Enabled(w, DoReceive(seg, now, ok1, ok2))
    ensures SpeaksNow(w, Step(w, DoReceive(seg, now, ok1, ok2)))
  {
    var s := w.x.sock;
    assert Genuine(w.y, seg);
    if s.state != Listen && s.state != SynSent {
      RepliesExactly(s, seg, now, ok1, ok2);
      hide Input;
    }
  }

  lemma StepSpeaks(w: World, a: Action)
    requires AckInv(w) && Enabled(w, a)
    ensures SpeaksNow(w, Step(w, a))
  {
    match a
    case DoReceive(seg, now, ok1, ok2) => ReceiveSpeaks(w, seg, now, ok1, ok2);
    case _ =>
  }

  /** What becomes of x's own state. */
  ghost predicate Advances(w: World, t: World) {
    && (t.x.synced ==> Counting(t.x.sock.state) || Ended(t.x.sock.state))
    && (!t.x.synced ==> t.x.sock.state == Closed || t.x.sock.state == Listen || t.x.sock.state == SynSent)
    && (w.x.synced ==> t.x.synced && t.x.isn == w.x.isn)
    && (w.x.begun ==> t.x.isn == w.x.isn)
    && |w.x.sock.pushed| <= |t.x.sock.pushed|
    && (Ended(w.x.sock.state) ==> t.x.sock == w.x.sock)
    && (Ended(t.x.sock.state) && !Ended(w.x.sock.state) ==>
          Counting(w.x.sock.state) && t.x.sock.rcvNxt == Plus(w.x.sock.rcvNxt, 1) && t.x.sock.pushed == w.x.sock.pushed)
  }

  lemma StepMoves(w: World, a: Action)
    requires AckInv(w) && Enabled(w, a)
    ensures Advances(w, Step(w, a)) && Step(w, a).y == w.y && Step(w, a).netY == w.netY
  {
    match a
    case DoReceive(seg, now, ok1, ok2) => ReceiveMoves(w, seg, now, ok1, ok2);
    case _ =>
  }

  lemma ReceiveMoves(w: World, seg: Segment, now: nat, ok1: bool, ok2: bool)
    requires AckInv(w) && Enabled(w, DoReceive(seg, now, ok1, ok2))
    ensures Advances(w, Step(w, DoReceive(seg, now, ok1, ok2)))
  {
    assert Genuine(w.y, seg);
    hide Plus, Genuine, Acks, Offset;
  }

  lemma StepCounts(w: World, a: Action)
    requires AckInv(w) && Enabled(w, a)
    ensures AckInv(Step(w, a))
  {
    var t := Step(w, a);
    StepKeeps(w, a);
    StepSpeaks(w, a);
    StepMoves(w, a);
    hide Step, Enabled, Self, Genuine, Acks, Counts, SpeaksNow, Advances;
    MineCount(w, t);
    TheirsCount(w, t);
  }

  lemma MineCount(w: World, t: World)
    requires AckInv(w) && Inv(t) && SpeaksNow(w, t) && Advances(w, t) && t.y == w.y
    ensures Counts(w.y, t.x, t.netX)
  {
    hide Self, Genuine, Acks;
    if Ended(t.x.sock.state) && !Ended(w.x.sock.state) { PlusPlus(w.y.isn, 1 + |w.x.sock.pushed|, 1); }
    AcksStay(w.y, w.x, t.x, w.netX);
    forall seg | seg in t.netX ensures Acks(w.y, t.x, seg) {
      if !seg.ack { Silent(w.y, t.x, seg); } else if seg !in w.netX { SaysNow(w.y, t.x, seg); }
    }
  }

  lemma TheirsCount(w: World, t: World)
    requires AckInv(w) && Advances(w, t)
    ensures Counts(t.x, w.y, w.netY)
  {
    hide Self, Genuine, Acks;
    forall seg | seg in w.netY ensures Acks(t.x, w.y, seg) {
      assert Acks(w.x, w.y, seg);
      SameNumber(w.x, t.x, w.y, seg);
    }
  }

  lemma Silent(s: End, r: End, seg: Segment)
    requires !seg.ack
    ensures Acks(s, r, seg)
  {
  }

  lemma SameNumber(s: End, s': End, r: End, seg: Segment)
    requires Acks(s, r, seg) && (seg.ack ==> s'.isn == s.isn)
    ensures Acks(s', r, seg)
  {
    if seg.ack {
      if n: nat :| n <= |r.sock.pushed| && AcksBytes(s, seg, n) { assert AcksBytes(s', seg, n); }
      assert AcksBytes(s, seg, 1 + |r.sock.pushed|) ==> AcksBytes(s', seg, 1 + |r.sock.pushed|);
    }
  }

  lemma {:induction false} RunCounts(w: World, ms: seq<Move>)
    requires AckInv(w) && Runs(w, ms)
    ensures AckInv(Run(w, ms))
    decreases |ms|
  {
    hide AckInv, Enabled, Step;
    if ms != [] {
      FlipAckInv(w);
      StepCounts(At(w, ms[0]), ms[0].action);
      FlipAckInv(Step(At(w, ms[0]), ms[0].action));
      RunCounts(Next(w, ms[0]), ms[1..]);
    }
  }

  /** Over every run with loss, duplication and reordering, both ways: an acknowledgement on the wire is for the SYN and some
      bytes that its sender has queued, or for all of them and the FIN; never for a byte that did not arrive. */
  lemma AckSafety(ms: seq<Move>)
    requires Runs(World(UNOPENED, UNOPENED, {}, {}), ms)
    ensures var w := Run(World(UNOPENED, UNOPENED, {}, {}), ms);
            && (forall seg :: seg in w.netX ==> Acks(w.y, w.x, seg))
            && (forall seg :: seg in w.netY ==> Acks(w.x, w.y, seg))
  {
    RunCounts(World(UNOPENED, UNOPENED, {}, {}), ms);
  }

  /** In every reachable state: data that is queued while a buffer is at hand puts an acknowledgement of every byte queued
      so far on the wire. */
  lemma QueuedIsAcked(w: World, seg: Segment, now: nat, ok2: bool)
    requires AckInv(w) && Enabled(w, DoReceive(seg, now, true, ok2)) && Queues(w.x.sock, seg)
    ensures var t := Step(w, DoReceive(seg, now, true, ok2));
            && t.x.sock.pushed == w.x.sock.pushed + seg.data
            && exists a :: a in t.netX && a.ack && AcksBytes(w.y, a, |t.x.sock.pushed|)
  {
    QueuedReply(w.x.sock, seg, now, ok2);
    PlusPlus(w.y.isn, 1 + |w.x.sock.pushed|, |seg.data|);
    var r := Input(w.x.sock, seg, now, true, ok2);
    assert w.x.sock.rcvNxt == Plus(w.y.isn, 1 + |w.x.sock.pushed|);
    hide Inv, Input, Plus, Queues;
    assert AcksBytes(w.y, r.1[0], |r.0.pushed|);
    assert r.1[0] in Step(w, DoReceive(seg, now, true, ok2)).netX;
  }

  lemma QueuedReply(s: Sock, seg: Segment, now: nat, ok2: bool)
    requires Queues(s, seg)
    ensures var r := Input(s, seg, now, true, ok2);
            r.0.pushed == s.pushed + seg.data && r.1 != [] && r.1[0].ack && r.1[0].ackNo == Plus(s.rcvNxt, |seg.data|)
  {
  }

  // ----- a connection nothing goes wrong with

  /** a's first segment of out reaches b, and b's answer, if any, reaches a. */
  function Exchange(a: Sock, out: seq<Segment>, b: Sock, now: nat): (Sock, Sock) {
    if out == [] then (a, b)
    else
      var r := Input(b, out[0], now, true, true);
      (if r.1 == [] then a else Input(a, r.1[0], now, true, true).0, r.0)
  }

  /** Both sockets are open and agree on both sequence numbers. */
  predicate Connected(a: Sock, b: Sock) {
    && a.state == Established && b.state == Established && a.sndNxt < SEQ && b.sndNxt < SEQ
    && a.sndNxt == b.rcvNxt && b.sndNxt == a.rcvNxt
  }

  /** SYN, SYN with acknowledgement, acknowledgement: i and j are the initial sequence numbers. */
  function Handshake(i: nat, j: nat): (Sock, Sock) {
    var c := Connect(FRESH, i, true);
    var s := Input(FRESH.(state := Listen), c.1[0], j, true, true);
    if s.1 == [] then (c.0, s.0)
    else
      var r := Input(c.0, s.1[0], 0, true, true);
      (r.0, if r.1 == [] then s.0 else Input(s.0, r.1[0], 0, true, true).0)
  }

  /** The SYN of either side is unacknowledged when it goes out: snd_una is its number and snd_nxt the next. The last
      acknowledgement closes a socket that waits for it. */
  lemma OpensUnacknowledged(s: Sock, seg: Segment, now: nat, ok: bool)
    requires now < SEQ
    ensures Connect(s, now, true).0.sndUna == now && Connect(s, now, true).0.sndNxt == Plus(now, 1)
    ensures s.state == Listen && seg.syn ==>
              Input(s, seg, now, true, ok).0.sndUna == now && Input(s, seg, now, true, ok).0.sndNxt == Plus(now, 1)
    ensures s.state == LastAck ==> (Input(s, seg, now, ok, ok).0.state == State.Closed <==> seg.ack)
  {
  }

  lemma HandshakeConnects(i: nat, j: nat)
    requires i < SEQ && j < SEQ
    ensures var (c, s) := Handshake(i, j);
            && Connected(c, s) && c.sndNxt == Plus(i, 1) == c.sndUna && s.sndNxt == Plus(j, 1) == s.sndUna
            && c.pushed == [] == s.pushed
  {
    ModSmall(Plus(i, 1), SEQ);
    ModSmall(Plus(j, 1), SEQ);
  }

  /** Something said by the client, or by the server. */
  datatype Turn = Turn(client: bool, data: seq<Byte>)

  function Say(c: Sock, s: Sock, turn: Turn): (Sock, Sock) {
    if turn.client then
      var o := Output(c, turn.data, true);
      Exchange(o.0, o.1, s, 0)
    else
      var o := Output(s, turn.data, true);
      var r := Exchange(o.0, o.1, c, 0);
      (r.1, r.0)
  }

  function SayAll(c: Sock, s: Sock, turns: seq<Turn>): (Sock, Sock)
    decreases |turns|
  {
    if turns == [] then (c, s)
    else
      var r := Say(c, s, turns[0]);
      SayAll(r.0, r.1, turns[1..])
  }

  /** What one side said, in order. */
  function Said(turns: seq<Turn>, client: bool): seq<Byte> {
    if turns == [] then [] else (if turns[0].client == client then turns[0].data else []) + Said(turns[1..], client)
  }

  lemma OneDelivered(a: Sock, b: Sock, data: seq<Byte>)
    requires Connected(a, b) && data != []
    ensures var o := Output(a, data, true); var (a1, b1) := Exchange(o.0, o.1, b, 0);
            Connected(a1, b1) && a1.pushed == a.pushed && b1.pushed == b.pushed + data && a1.sndUna == a1.sndNxt
  {
    ModSmall(b.sndNxt, SEQ);
  }

  lemma {:induction false} AllDelivered(c: Sock, s: Sock, turns: seq<Turn>)
    requires Connected(c, s) && forall t :: t in turns ==> t.data != []
    ensures var (c1, s1) := SayAll(c, s, turns);
            && Connected(c1, s1) && c1.pushed == c.pushed + Said(turns, false) && s1.pushed == s.pushed + Said(turns, true)
    decreases |turns|
  {
    if turns != [] {
      var t := turns[0];
      assert t in turns;
      if t.client { OneDelivered(c, s, t.data); } else { OneDelivered(s, c, t.data); }
      var r := Say(c, s, t);
      hide Connected, Say;
      AllDelivered(r.0, r.1, turns[1..]);
    }
  }

  /** From unopened sockets, whatever the initial sequence numbers: the handshake opens both sides; whatever either side says
      arrives at the other, whole and in order, however long it is; and when the client closes, its FIN is taken
      and acknowledged, with nothing left unacknowledged. */
  lemma Conversation(i: nat, j: nat, turns: seq<Turn>)
    requires i < SEQ && j < SEQ && forall t :: t in turns ==> t.data != []
    ensures var (c, s) := Handshake(i, j);
            var (c1, s1) := SayAll(c, s, turns);
            var o := Close(c1, true);
            var (c2, s2) := Exchange(o.0, o.1, s1, 0);
            && c2.state == FinWait2 && s2.state == CloseWait && c2.sndUna == c2.sndNxt == s2.rcvNxt
            && s2.pushed == Said(turns, true) && c2.pushed == Said(turns, false)
  {
    HandshakeConnects(i, j);
    var (c, s) := Handshake(i, j);
    AllDelivered(c, s, turns);
    hide Handshake, SayAll, Said;
    var (c1, s1) := SayAll(c, s, turns);
    ClosedCleanly(c1, s1);
    assert [] + Said(turns, true) == Said(turns, true) && [] + Said(turns, false) == Said(turns, false);
  }

  lemma ClosedCleanly(c: Sock, s: Sock)
    requires Connected(c, s)
    ensures var o := Close(c, true); var (c2, s2) := Exchange(o.0, o.1, s, 0);
            && c2.state == FinWait2 && s2.state == CloseWait && c2.sndUna == c2.sndNxt == s2.rcvNxt
            && c2.pushed == c.pushed && s2.pushed == s.pushed
  {
    ModSmall(s.sndNxt, SEQ);
  }
}
