/** The bounded message queue as a step system: a FIFO, its parked and pending senders and
    receivers, and the history of messages accepted and delivered in critical-section order. */
module QueueSpec {
  import opened Common
  import opened SyncSpec

  datatype Queue<T(==), M> = Queue(
    capacity: nat, fifo: seq<M>, senders: Waiters<T>, receivers: Waiters<T>, sent: seq<M>, received: seq<M>)

  datatype Outcome = Done | WouldBlock | Parked

  /** One pass of the loop in msgq_send; wait is false when the caller's timeout is 0. */
  function Send<T(==), M>(q: Queue<T, M>, t: T, msg: M, wait: bool): (Queue<T, M>, Outcome) {
    if |q.fifo| >= q.capacity then
      if wait then (q.(senders := q.senders.Park(t)), Parked) else (q.(senders := q.senders.Leave(t)), WouldBlock)
    else
      (q.(fifo := q.fifo + [msg], sent := q.sent + [msg],
          senders := q.senders.Leave(t), receivers := q.receivers.WakeOne()), Done)
  }

  /** One pass of the loop in msgq_recv. The message read is the head of the FIFO. */
  function Receive<T(==), M>(q: Queue<T, M>, t: T, wait: bool): (Queue<T, M>, Outcome) {
    if q.fifo == [] then
      if wait then (q.(receivers := q.receivers.Park(t)), Parked) else (q.(receivers := q.receivers.Leave(t)), WouldBlock)
    else
      (q.(fifo := q.fifo[1..], received := q.received + [q.fifo[0]],
          receivers := q.receivers.Leave(t), senders := q.senders.WakeOne()), Done)
  }

  datatype Call<T, M> =
    | CSend(t: T, msg: M, wait: bool) | CResumeSend(t: T, msg: M)
    | CReceive(t: T, wait: bool) | CResumeReceive(t: T)

  /** A call starts from a running task; a task that parked comes back only after it was woken. */
  predicate Enabled<T(==), M>(q: Queue<T, M>, c: Call<T, M>) {
    match c
    case CSend(t, _, _) => q.senders.Running(t) && q.receivers.Running(t)
    case CResumeSend(t, _) => t in q.senders.pending
    case CReceive(t, _) => q.senders.Running(t) && q.receivers.Running(t)
    case CResumeReceive(t) => t in q.receivers.pending
  }

  function Step<T(==), M>(q: Queue<T, M>, c: Call<T, M>): Queue<T, M> {
    match c
    case CSend(t, msg, wait) => Send(q, t, msg, wait).0
    case CResumeSend(t, msg) => Send(q, t, msg, true).0
    case CReceive(t, wait) => Receive(q, t, wait).0
    case CResumeReceive(t) => Receive(q, t, true).0
  }

  /** Every accepted message is delivered or queued, in order; and while a receiver (sender) is
      parked, every queued message (free slot) has a woken task that has still to run and take it. */
  ghost predicate Inv<T, M>(q: Queue<T, M>) {
    && |q.fifo| <= q.capacity
    && q.sent == q.received + q.fifo
    && q.senders.Sound() && q.receivers.Sound()
    && (q.receivers.parked != [] ==> |q.fifo| <= |q.receivers.pending|)
    && (q.senders.parked != [] ==> q.capacity - |q.fifo| <= |q.senders.pending|)
  }

  lemma SendKeeps<T, M>(q: Queue<T, M>, t: T, msg: M, wait: bool)
    requires Inv(q) && t !in q.senders.parked && (wait || t !in q.senders.pending)
    ensures Inv(Send(q, t, msg, wait).0)
  {
    LeaveSound(q.senders, t);
    if |q.fifo| >= q.capacity {
      ParkSound(q.senders, t);
    } else {
      WakeSound(q.receivers);
      assert q.received + (q.fifo + [msg]) == q.sent + [msg];
    }
  }

  lemma ReceiveKeeps<T, M>(q: Queue<T, M>, t: T, wait: bool)
    requires Inv(q) && t !in q.receivers.parked && (wait || t !in q.receivers.pending)
    ensures Inv(Receive(q, t, wait).0)
  {
    LeaveSound(q.receivers, t);
    if q.fifo == [] {
      ParkSound(q.receivers, t);
    } else {
      WakeSound(q.senders);
      assert q.received + q.fifo == q.received + [q.fifo[0]] + q.fifo[1..];
    }
  }

  lemma StepKeeps<T, M>(q: Queue<T, M>, c: Call<T, M>)
    requires Inv(q) && Enabled(q, c)
    ensures Inv(Step(q, c)) && Step(q, c).capacity == q.capacity
  {
    match c
    case CSend(t, msg, wait) => SendKeeps(q, t, msg, wait);
    case CResumeSend(t, msg) => SendKeeps(q, t, msg, true);
    case CReceive(t, wait) => ReceiveKeeps(q, t, wait);
    case CResumeReceive(t) => ReceiveKeeps(q, t, true);
  }

  ghost predicate Runs<T, M>(q: Queue<T, M>, cs: seq<Call<T, M>>)
    decreases |cs|
  {
    cs == [] || (Enabled(q, cs[0]) && Runs(Step(q, cs[0]), cs[1..]))
  }

  function Run<T(==), M>(q: Queue<T, M>, cs: seq<Call<T, M>>): Queue<T, M>
    decreases |cs|
  {
    if cs == [] then q else Run(Step(q, cs[0]), cs[1..])
  }

  function Fresh<T(==), M>(capacity: nat): Queue<T, M> {
    Queue(capacity, [], Waiters([], {}), Waiters([], {}), [], [])
  }

  lemma {:induction false} RunKeeps<T, M>(q: Queue<T, M>, cs: seq<Call<T, M>>)
    requires Inv(q) && Runs(q, cs)
    ensures Inv(Run(q, cs)) && Run(q, cs).capacity == q.capacity
    decreases |cs|
  {
    if cs != [] {
      StepKeeps(q, cs[0]);
      RunKeeps(Step(q, cs[0]), cs[1..]);
    }
  }

  // ----- the calls' outcomes

  /** The messages of the sends that reported success, in order. */
  function Accepted<T(==), M>(q: Queue<T, M>, cs: seq<Call<T, M>>): seq<M>
    decreases |cs|
  {
    if cs == [] then []
    else (if Sends(q, cs[0]) then [cs[0].msg] else []) + Accepted(Step(q, cs[0]), cs[1..])
  }

  predicate Sends<T(==), M>(q: Queue<T, M>, c: Call<T, M>) {
    match c
    case CSend(t, msg, wait) => Send(q, t, msg, wait).1 == Done
    case CResumeSend(t, msg) => Send(q, t, msg, true).1 == Done
    case _ => false
  }

  /** How many receives reported success. */
  function Served<T(==), M>(q: Queue<T, M>, cs: seq<Call<T, M>>): nat
    decreases |cs|
  {
    if cs == [] then 0
    else
      (match cs[0]
       case CReceive(t, wait) => if Receive(q, t, wait).1 == Done then 1 else 0
       case CResumeReceive(t) => if Receive(q, t, true).1 == Done then 1 else 0
       case _ => 0) + Served(Step(q, cs[0]), cs[1..])
  }

  lemma {:induction false} History<T, M>(q: Queue<T, M>, cs: seq<Call<T, M>>)
    ensures Run(q, cs).sent == q.sent + Accepted(q, cs) && |Run(q, cs).received| == |q.received| + Served(q, cs)
    decreases |cs|
  {
    if cs == [] {
      assert q.sent + [] == q.sent;
    } else {
      History(Step(q, cs[0]), cs[1..]);
    }
  }

  /** With n messages delivered out of those accepted: who succeeds, what is delivered, and who is parked. */
  ghost predicate Outcomes<T, M>(q: Queue<T, M>, accepted: seq<M>, n: nat, t: T, msg: M, wait: bool) {
    var s, r := Send(q, t, msg, wait), Receive(q, t, wait);
    && n <= |accepted| && q.received == accepted[..n] && s.0.received == q.received
    && s.1 == (if |accepted| - n < q.capacity then Done else if wait then Parked else WouldBlock)
    && r.1 == (if n < |accepted| then Done else if wait then Parked else WouldBlock)
    && r.0.received == q.received + (if n < |accepted| then [accepted[n]] else [])
    && (t !in q.senders.parked ==> (t in s.0.senders.parked <==> s.1 == Parked))
    && (t !in q.receivers.parked ==> (t in r.0.receivers.parked <==> r.1 == Parked))
  }

  lemma OutcomesOf<T, M>(q: Queue<T, M>, t: T, msg: M, wait: bool)
    requires Inv(q)
    ensures Outcomes(q, q.sent, |q.received|, t, msg, wait)
  {
    if q.fifo != [] { assert q.sent[|q.received|] == q.fifo[0]; }
  }

  /** After any run from the empty queue: a send succeeds exactly while fewer than capacity messages are accepted and not
      yet delivered, and a receive exactly while one is; the k-th successful receive delivers the k-th message accepted.
      A call that cannot go on is parked if it may wait, and only then. */
  lemma OutcomesExactly<T, M>(capacity: nat, cs: seq<Call<T, M>>, t: T, msg: M, wait: bool)
    requires Runs(Fresh(capacity), cs)
    ensures var q := Run(Fresh<T, M>(capacity), cs);
            q.capacity == capacity
            && Outcomes(q, Accepted(Fresh<T, M>(capacity), cs), Served(Fresh<T, M>(capacity), cs), t, msg, wait)
  {
    hide Run, Runs, Accepted, Served, Outcomes;
    RunKeeps(Fresh<T, M>(capacity), cs);
    History(Fresh<T, M>(capacity), cs);
    OutcomesOf(Run(Fresh<T, M>(capacity), cs), t, msg, wait);
    assert [] + Accepted(Fresh<T, M>(capacity), cs) == Accepted(Fresh<T, M>(capacity), cs);
  }

  /** In every interleaving from an empty queue in which no parked caller makes a pass, the messages received are a prefix of those sent,
      short by exactly the number queued, which never exceeds the capacity; and no wake-up is lost. */
  lemma Safety<T, M>(capacity: nat, cs: seq<Call<T, M>>)
    requires Runs(Fresh(capacity), cs)
    ensures var q := Run(Fresh(capacity), cs);
            && q.received <= q.sent && |q.sent| - |q.received| == |q.fifo| <= capacity
            && (q.receivers.parked != [] && q.receivers.pending == {} ==> q.fifo == [])
            && (q.senders.parked != [] && q.senders.pending == {} ==> |q.fifo| == capacity)
  {
    RunKeeps(Fresh(capacity), cs);
  }
}
