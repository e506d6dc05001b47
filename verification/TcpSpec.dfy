/** TCP sequencing at one socket: sequence numbers are 32 bits wide, segments carry at most one
    SYN or FIN, and the receiver queues data only when it starts at rcv_nxt. */
module TcpSpec {
  import opened Arith
  import opened Common

  const SEQ: nat := 0x1_0000_0000

  datatype State =
    | Closed | Listen | SynSent | SynReceived | Established
    | FinWait1 | FinWait2 | CloseWait | Closing | LastAck | TimeWait

  datatype Segment = Segment(seqNo: nat, ackNo: nat, syn: bool, ack: bool, fin: bool, data: seq<Byte>)

  /** The TCP fields of a socket; pushed is every byte ever put on its receive queue. */
  datatype Sock = Sock(state: State, sndUna: nat, sndNxt: nat, rcvNxt: nat, pushed: seq<Byte>)

  function Plus(a: nat, n: nat): nat { (a + n) % 0x1_0000_0000 }

  /** tcp_send_segment: numbers the segment and advances snd_nxt, or does nothing when no buffer
      (or no header room) is available. */
  function SendSegment(s: Sock, syn: bool, ack: bool, fin: bool, data: seq<Byte>, ok: bool): (Sock, seq<Segment>) {
    if !ok then (s, [])
    else
      (s.(sndNxt := Plus(s.sndNxt, (if syn || fin then 1 else 0) + |data|)),
       [Segment(s.sndNxt, s.rcvNxt, syn, ack, fin, data)])
  }

  function SendAck(s: Sock, ok: bool): (Sock, seq<Segment>) { SendSegment(s, false, true, false, [], ok) }

  /** Data part of the ESTABLISHED case. */
  function TakeData(s: Sock, seg: Segment, ok: bool): (Sock, seq<Segment>) {
    var s1 := if seg.ack then s.(sndUna := seg.ackNo) else s;
    if seg.data != [] && seg.seqNo == s1.rcvNxt then
      SendAck(s1.(rcvNxt := Plus(s1.rcvNxt, |seg.data|), pushed := s1.pushed + seg.data), ok)
    else (s1, [])
  }

  /** The peer's FIN moves the socket to state next, whatever its sequence number. */
  function TakeFin(s: Sock, next: State, ok: bool): (Sock, seq<Segment>) {
    SendAck(s.(rcvNxt := Plus(s.rcvNxt, 1), state := next), ok)
  }

  /** tcp_input for a segment that passed the checksum and belongs to this socket. now is the tick
      count used as initial sequence number; ok1 and ok2 say whether replies can be built. */
  function Input(s: Sock, seg: Segment, now: nat, ok1: bool, ok2: bool): (Sock, seq<Segment>) {
    match s.state
    case Listen =>
      if seg.syn then
        SendSegment(s.(rcvNxt := Plus(seg.seqNo, 1), sndNxt := now, sndUna := now, state := SynReceived),
                    true, true, false, [], ok1)
      else (s, [])
    case SynSent =>
      if seg.syn && seg.ack then
        SendAck(s.(rcvNxt := Plus(seg.seqNo, 1), sndUna := seg.ackNo, state := Established), ok1)
      else (s, [])
    case SynReceived =>
      (if seg.ack then s.(sndUna := seg.ackNo, state := Established) else s, [])
    case Established =>
      var r := TakeData(s, seg, ok1);
      if seg.fin then var f := TakeFin(r.0, CloseWait, ok2); (f.0, r.1 + f.1) else r
    case FinWait1 =>
      if seg.ack then
        var s1 := s.(sndUna := seg.ackNo);
        if seg.fin then TakeFin(s1, TimeWait, ok1) else (s1.(state := FinWait2), [])
      else (s, [])
    case FinWait2 => if seg.fin then TakeFin(s, TimeWait, ok1) else (s, [])
    case LastAck => (if seg.ack then s.(state := Closed) else s, [])
    case _ => (s, [])
  }

  /** tcp_output */
  function Output(s: Sock, data: seq<Byte>, ok: bool): (Sock, seq<Segment>) {
    if s.state != Established then (s, []) else SendSegment(s, false, true, false, data, ok)
  }

  /** sock_connect up to its wait */
  function Connect(s: Sock, now: nat, ok: bool): (Sock, seq<Segment>) {
    SendSegment(s.(sndNxt := now, sndUna := now, state := SynSent), true, false, false, [], ok)
  }

  /** sock_close up to freeing the socket */
  function Close(s: Sock, ok: bool): (Sock, seq<Segment>) {
    if s.state == Established then SendSegment(s.(state := FinWait1), false, true, true, [], ok) else (s, [])
  }

  const FRESH := Sock(Closed, 0, 0, 0, [])

  /** Distance from the first data byte, modulo 2^32. */
  function Offset(isn: nat, seqNo: nat): nat { (seqNo - isn - 1) % 0x1_0000_0000 }

  lemma OffsetOf(isn: nat, n: nat)
    ensures Offset(isn, Plus(isn, 1 + n)) == n % 0x1_0000_0000
  {
    var m := 0x1_0000_0000;
    var x := isn + 1 + n;
    assert x == m * (x / m) + x % m;
    ModShift(n, m, -(x / m));
    assert m * (-(x / m)) == -(m * (x / m));
  }

  lemma PlusPlus(a: nat, x: nat, y: nat)
    ensures Plus(Plus(a, x), y) == Plus(a, x + y)
  {
    ModAdd(a + x, y, 0x1_0000_0000);
  }
}
