/** The socket object and the retransmission-timeout estimator. */
module Tcp {
  import opened Common
  import opened TcpSpec

  class Socket {
    var state: State
    var sndUna: nat
    var sndNxt: nat
    var rcvNxt: nat
    var rxQueue: seq<seq<Byte>>
    ghost var pushed: seq<Byte>

    ghost function Abs(): Sock
      reads this
    {
      Sock(state, sndUna, sndNxt, rcvNxt, pushed)
    }

    /** sock_socket */
    constructor ()
      ensures Abs() == FRESH && rxQueue == []
    {
      state, sndUna, sndNxt, rcvNxt, rxQueue, pushed := Closed, 0, 0, 0, [], [];
    }

    method SendSegment(syn: bool, ack: bool, fin: bool, data: seq<Byte>, ok: bool) returns (out: seq<Segment>)
      modifies this`sndNxt
      ensures (Abs(), out) == TcpSpec.SendSegment(old(Abs()), syn, ack, fin, data, ok)
    {
      if !ok { return []; }
      out := [Segment(sndNxt, rcvNxt, syn, ack, fin, data)];
      var carried := |data|;
      if syn || fin {
        carried := carried + 1;
      }
      sndNxt := Plus(sndNxt, carried);
    }

    /** tcp_input below the socket lookup. */
    method Input(seg: Segment, now: nat, ok1: bool, ok2: bool) returns (out: seq<Segment>)
      modifies this
      ensures (Abs(), out) == TcpSpec.Input(old(Abs()), seg, now, ok1, ok2)
      ensures rxQueue == if pushed == old(pushed) then old(rxQueue) else old(rxQueue) + [seg.data]
    {
      out := [];
      match state {
        case Listen =>
          if seg.syn {
            rcvNxt := Plus(seg.seqNo, 1);
            sndNxt := now;
            sndUna := sndNxt;
            state := SynReceived;
            out := SendSegment(true, true, false, [], ok1);
          }
        case SynSent =>
          if seg.syn && seg.ack {
            rcvNxt := Plus(seg.seqNo, 1);
            sndUna := seg.ackNo;
            state := Established;
            out := SendSegment(false, true, false, [], ok1);
          }
        case SynReceived =>
          if seg.ack {
            sndUna := seg.ackNo;
            state := Established;
          }
        case Established =>
          out := InputEstablished(seg, ok1, ok2);
        case FinWait1 =>
          if seg.ack {
            sndUna := seg.ackNo;
            if seg.fin {
              rcvNxt := Plus(rcvNxt, 1);
              state := TimeWait;
              out := SendSegment(false, true, false, [], ok1);
            } else {
              state := FinWait2;
            }
          }
        case FinWait2 =>
          if seg.fin {
            rcvNxt := Plus(rcvNxt, 1);
            state := TimeWait;
            out := SendSegment(false, true, false, [], ok1);
          }
        case LastAck =>
          if seg.ack {
            state := Closed;
          }
        case _ =>
      }
    }

    method InputEstablished(seg: Segment, ok1: bool, ok2: bool) returns (out: seq<Segment>)
      requires state == Established
      modifies this
      ensures (Abs(), out) == TcpSpec.Input(old(Abs()), seg, 0, ok1, ok2)
      ensures rxQueue == if pushed == old(pushed) then old(rxQueue) else old(rxQueue) + [seg.data]
    {
      out := [];
      if seg.ack {
        sndUna := seg.ackNo;
      }
      if seg.data != [] {
        if seg.seqNo == rcvNxt {
          rcvNxt := Plus(rcvNxt, |seg.data|);
          rxQueue := rxQueue + [seg.data];
          pushed := pushed + seg.data;
          assert |pushed| > |old(pushed)|;
          out := SendSegment(false, true, false, [], ok1);
        }
      }
      if seg.fin {
        rcvNxt := Plus(rcvNxt, 1);
        state := CloseWait;
        var more := SendSegment(false, true, false, [], ok2);
        out := out + more;
      }
    }

    /** tcp_output */
    method Output(data: seq<Byte>, ok: bool) returns (out: seq<Segment>)
      modifies this`sndNxt
      ensures (Abs(), out) == TcpSpec.Output(old(Abs()), data, ok)
    {
      if state != Established { return []; }
      out := SendSegment(false, true, false, data, ok);
    }

    /** sock_connect up to its wait */
    method Connect(now: nat, ok: bool) returns (out: seq<Segment>)
      modifies this
      ensures (Abs(), out) == TcpSpec.Connect(old(Abs()), now, ok)
    {
      sndNxt := now;
      sndUna := sndNxt;
      state := SynSent;
      out := SendSegment(true, false, false, [], ok);
    }

    /** sock_close up to freeing the socket */
    method Close(ok: bool) returns (out: seq<Segment>)
      modifies this
      ensures (Abs(), out) == TcpSpec.Close(old(Abs()), ok)
    {
      out := [];
      if state == Established {
        state := FinWait1;
        out := SendSegment(false, true, true, [], ok);
      }
    }
  }
}
