/** One client connection: it pairs the packets of the remote side with the reads of its client, passes
    writes on, and answers every request. */
module Connection {
  import opened Memory
  import opened Framing
  import opened Requests

  const CS_CONNECTING: Word := 1
  const CS_CONNECTED: Word := 2
  const CS_DISCONNECTING: Word := 3
  const CS_DISCONNECTED: Word := 4
  const CS_NO_HANDLER: Word := 5

  const PT_CONNECT: Byte := 0x10
  const PT_CONNECTED: Byte := 0x11
  const PT_DISCONNECT: Byte := 0x12
  const PT_DISCONNECTED: Byte := 0x13
  const PT_DATA: Byte := 0x20
  const PT_NO_HANDLER: Byte := 0x31

  /** A packet allocated from the packet writer and filled in. */
  datatype Outgoing = Outgoing(ptype: Byte, connId: Word, payload: seq<Byte>)

  /** What is allocated from the packet writer, in order. Memory is always available here, so an allocation
      fails only for a frame of a length that the writer refuses. */
  class Outbox {
    var sent: seq<Outgoing>

    constructor ()
      ensures sent == []
    {
      sent := [];
    }

    /** The length of a frame is passed to the writer as a 16-bit word. */
    static function Allocates(length: nat): bool {
      var total := (HEADER_SIZE + length) % 0x1_0000;
      HEADER_SIZE <= total <= BUFFER_SIZE
    }

    method Send(ptype: Byte, connId: Word, payload: seq<Byte>) returns (ok: bool)
      modifies this
      ensures ok == Allocates(|payload|)
      ensures sent == old(sent) + if ok then [Outgoing(ptype, connId, payload)] else []
    {
      ok := Allocates(|payload|);
      if ok {
        sent := sent + [Outgoing(ptype, connId, payload)];
      }
    }
  }

  /** Where the 16-bit length wraps around, the result is too short for a header. */
  lemma AllocatesUpToBuffer(length: Word)
    ensures Outbox.Allocates(length) <==> HEADER_SIZE + length <= BUFFER_SIZE
  {
    if HEADER_SIZE + length >= 0x1_0000 {
      assert (HEADER_SIZE + length) % 0x1_0000 == HEADER_SIZE + length - 0x1_0000;
    }
  }

  ghost predicate Distinct(reqs: seq<Request>) {
    forall i, j | 0 <= i < j < |reqs| :: reqs[i] != reqs[j]
  }

  /** Every request accepted is still queued or has been replied to, with the same multiplicity. */
  ghost predicate Accounted(accepted: seq<Request>, queue: seq<Request>, replies: seq<Reply>) {
    Distinct(accepted) && multiset(accepted) == multiset(queue) + multiset(RequestsOf(replies))
  }

  lemma {:induction false} DistinctOnce(reqs: seq<Request>, r: Request)
    requires Distinct(reqs)
    ensures multiset(reqs)[r] == if r in reqs then 1 else 0
  {
    if reqs != [] {
      var n := |reqs| - 1;
      DistinctOnce(reqs[..n], r);
      assert reqs == reqs[..n] + [reqs[n]];
    }
  }

  lemma DistinctIfOnce(reqs: seq<Request>)
    requires forall r | r in reqs :: multiset(reqs)[r] == 1
    ensures Distinct(reqs)
  {
    forall i, j | 0 <= i < j < |reqs| ensures reqs[i] != reqs[j] {
      var before, x, behind := reqs[..j], reqs[j], reqs[j + 1..];
      assert reqs == before + [x] + behind;
      assert multiset(reqs) == multiset(before) + multiset([x]) + multiset(behind);
      assert multiset(reqs)[x] == 1;
      assert before[i] in multiset(before);
    }
  }

  /** An accepted request is queued or has been replied to, exactly once and never both. */
  lemma ExactlyOnce(accepted: seq<Request>, queue: seq<Request>, replies: seq<Reply>)
    requires Accounted(accepted, queue, replies)
    ensures Distinct(queue) && Distinct(RequestsOf(replies))
    ensures forall r :: r in accepted <==> r in queue || r in RequestsOf(replies)
    ensures forall r | r in queue :: r !in RequestsOf(replies)
  {
    var done := RequestsOf(replies);
    forall r ensures multiset(queue)[r] + multiset(done)[r] == if r in accepted then 1 else 0 {
      DistinctOnce(accepted, r);
    }
    forall r | r in queue ensures multiset(queue)[r] == 1 && r !in done {
      assert r in multiset(queue);
    }
    forall r | r in done ensures multiset(done)[r] == 1 {
      assert r in multiset(done);
    }
    forall r ensures r in accepted <==> r in queue || r in done {
      assert r in accepted <==> r in multiset(accepted);
      assert r in queue <==> r in multiset(queue);
      assert r in done <==> r in multiset(done);
    }
    DistinctIfOnce(queue);
    DistinctIfOnce(done);
  }

  /** What has arrived for the client has been read, was dropped when the connection was destroyed, or is
      still queued: in this order, nothing lost and nothing twice. */
  ghost predicate Conserved(arrived: seq<Packet>, replies: seq<Reply>, dropped: seq<Packet>,
                            queue: seq<Packet>) {
    Payloads(arrived) == Received(replies) + Payloads(dropped) + Payloads(queue)
  }

  /** No request has been timed out before its time. */
  ghost predicate OnTime(replies: seq<Reply>) {
    forall k | 0 <= k < |replies| && replies[k].state == RS_TIMEOUT ::
      replies[k].due.Some? && replies[k].due.value <= replies[k].at
  }

  /** The counters of the queued requests do not run ahead of the sweeps. */
  ghost predicate Ticking(queue: seq<Request>, due: map<Request, nat>, sweeps: nat)
    reads queue`timeoutTicks, queue`actual
  {
    forall r | r in queue ::
      && r.actual == 0
      && if r in due then r.timeoutTicks >= 1 && due[r] <= sweeps + r.timeoutTicks else r.timeoutTicks == 0
  }

  /** Only reads and at most one OPEN are queued, and no OPEN when the connection is established. */
  ghost predicate Queueable(queue: seq<Request>, state: Word) {
    && (forall r | r in queue :: r.rtype == RT_READ || r.rtype == RT_OPEN)
    && (forall r | r in queue :: r.length <= r.data.Length)
    && (forall i, j | 0 <= i < j < |queue| :: queue[i].rtype == RT_READ || queue[j].rtype == RT_READ)
    && (state == CS_CONNECTED ==> AllReads(queue))
  }

  /** A packet that is not about the state of the connection is queued for the client. */
  predicate IsData(p: Packet) {
    p.ptype != PT_CONNECTED && p.ptype != PT_DISCONNECTED && p.ptype != PT_NO_HANDLER
  }

  function DataOf(log: seq<Packet>): seq<Packet> {
    if log == [] then []
    else DataOf(log[..|log| - 1]) + if IsData(log[|log| - 1]) then [log[|log| - 1]] else []
  }

  /** A well-behaved peer says CONNECTED once, before it sends any data. */
  ghost predicate Orderly(log: seq<Packet>) {
    forall i, j | 0 <= i < j < |log| && log[j].ptype == PT_CONNECTED ::
      log[i].ptype != PT_CONNECTED && !IsData(log[i])
  }

  /** While the connection is not being closed, all data packets have been queued, and afterwards a prefix. */
  ghost predicate InStep(steady: bool, log: seq<Packet>, arrived: seq<Packet>, state: Word) {
    steady && Orderly(log) ==>
      arrived <= DataOf(log) && (state < CS_DISCONNECTING ==> arrived == DataOf(log))
  }

  lemma DataOfOne(log: seq<Packet>, p: Packet)
    ensures DataOf(log + [p]) == DataOf(log) + if IsData(p) then [p] else []
  {
    assert (log + [p])[..|log|] == log;
  }

  lemma {:induction false} NoData(log: seq<Packet>)
    requires forall i | 0 <= i < |log| :: !IsData(log[i])
    ensures DataOf(log) == []
  {
    if log != [] {
      NoData(log[..|log| - 1]);
    }
  }

  lemma OrderlyPrefix(log: seq<Packet>, p: Packet)
    requires Orderly(log + [p])
    ensures Orderly(log)
    ensures p.ptype == PT_CONNECTED ==> forall i | 0 <= i < |log| :: !IsData(log[i])
  {
    assert forall i | 0 <= i < |log| :: (log + [p])[i] == log[i];
    assert (log + [p])[|log|] == p;
  }

  /** How the log and the packets queued follow a packet. */
  lemma LogOne(steady: bool, log: seq<Packet>, arrived: seq<Packet>, state: Word, p: Packet)
    requires InStep(steady, log, arrived, state)
    ensures p.ptype == PT_CONNECTED ==> InStep(steady, log + [p], arrived, CS_CONNECTED)
    ensures p.ptype == PT_DISCONNECTED ==> InStep(steady, log + [p], arrived, CS_DISCONNECTED)
    ensures p.ptype == PT_NO_HANDLER ==> InStep(steady, log + [p], arrived, CS_NO_HANDLER)
    ensures IsData(p) && state < CS_DISCONNECTING ==> InStep(steady, log + [p], arrived + [p], state)
    ensures IsData(p) && state >= CS_DISCONNECTING ==> InStep(steady, log + [p], arrived, state)
  {
    DataOfOne(log, p);
    if Orderly(log + [p]) {
      OrderlyPrefix(log, p);
      if p.ptype == PT_CONNECTED {
        NoData(log);
      }
    }
    hide Orderly, DataOf;
  }

  /** On a connection opened once, with a well-behaved peer, the reads get a prefix of the data packets'
      payloads, in order and once each. */
  lemma ReadsGetPrefix(steady: bool, log: seq<Packet>, arrived: seq<Packet>, state: Word, replies: seq<Reply>,
                       dropped: seq<Packet>, queue: seq<Packet>)
    requires InStep(steady, log, arrived, state) && Conserved(arrived, replies, dropped, queue)
    requires steady && Orderly(log)
    ensures Received(replies) <= Payloads(DataOf(log))
  {
    hide Received, Orderly;
    assert Received(replies) <= Payloads(arrived);
    assert Payloads(arrived) == Payloads(DataOf(log))[..|arrived|];
  }

  ghost function Ticks(queue: seq<Request>): (r: seq<Word>)
    reads queue`timeoutTicks
    ensures |r| == |queue| && forall i | 0 <= i < |r| :: r[i] == queue[i].timeoutTicks
  {
    if queue == [] then [] else Ticks(queue[..|queue| - 1]) + [queue[|queue| - 1].timeoutTicks]
  }

  /** A queued request leaves the queue with a reply. */
  lemma AccountReply(accepted: seq<Request>, queue: seq<Request>, replies: seq<Reply>, i: nat, reply: Reply)
    requires Accounted(accepted, queue, replies) && i < |queue| && reply.request == queue[i]
    ensures Accounted(accepted, queue[..i] + queue[i + 1..], replies + [reply])
  {
    assert queue == queue[..i] + [queue[i]] + queue[i + 1..];
    assert RequestsOf(replies + [reply]) == RequestsOf(replies) + [reply.request];
  }

  /** A new request enters the queue. */
  lemma AccountQueued(accepted: seq<Request>, queue: seq<Request>, replies: seq<Reply>, r: Request)
    requires Accounted(accepted, queue, replies) && r !in accepted
    ensures Accounted(accepted + [r], queue + [r], replies) && r !in queue
  {
    assert r in queue ==> r in multiset(queue);
    assert r !in accepted ==> r !in multiset(accepted);
  }

  /** A new request is answered at once. */
  lemma AccountAnswered(accepted: seq<Request>, queue: seq<Request>, replies: seq<Reply>, reply: Reply)
    requires Accounted(accepted, queue, replies) && reply.request !in accepted
    ensures Accounted(accepted + [reply.request], queue, replies + [reply])
  {
    assert RequestsOf(replies + [reply]) == RequestsOf(replies) + [reply.request];
  }

  lemma ConserveReply(arrived: seq<Packet>, replies: seq<Reply>, dropped: seq<Packet>, queue: seq<Packet>,
                      reply: Reply)
    requires Conserved(arrived, replies, dropped, queue)
    requires reply.request.rtype != RT_READ || reply.state != RS_OK
    ensures Conserved(arrived, replies + [reply], dropped, queue)
  {
    ReceivedConcat(replies, [reply]);
    ReceivedOne(reply);
    hide Received;
  }

  lemma ConserveRead(arrived: seq<Packet>, replies: seq<Reply>, queue: seq<Packet>, reply: Reply)
    requires Conserved(arrived, replies, [], queue) && queue != []
    requires reply.request.rtype == RT_READ && reply.state == RS_OK && reply.data == queue[0].payload
    ensures Conserved(arrived, replies + [reply], [], queue[1..])
  {
    ReceivedConcat(replies, [reply]);
    ReceivedOne(reply);
    PayloadsFirst(queue);
    assert Payloads([]) == [];
    hide Received, Payloads;
    MoveOne(Received(replies), queue[0].payload, Payloads(queue[1..]));
  }

  lemma PayloadsFirst(queue: seq<Packet>)
    requires queue != []
    ensures Payloads(queue) == [queue[0].payload] + Payloads(queue[1..])
  {
  }

  lemma MoveOne<T>(a: seq<T>, x: T, b: seq<T>)
    ensures a + [] + ([x] + b) == (a + [x]) + [] + b
  {
  }

  lemma ConserveArrival(arrived: seq<Packet>, replies: seq<Reply>, queue: seq<Packet>, p: Packet)
    requires Conserved(arrived, replies, [], queue)
    ensures Conserved(arrived + [p], replies, [], queue + [p])
  {
    hide Received;
    assert Payloads(arrived + [p]) == Payloads(arrived) + [p.payload];
    assert Payloads(queue + [p]) == Payloads(queue) + [p.payload];
  }

  lemma ConserveDrop(arrived: seq<Packet>, replies: seq<Reply>, queue: seq<Packet>)
    requires Conserved(arrived, replies, [], queue)
    ensures Conserved(arrived, replies, queue, [])
  {
    hide Received;
  }

  /** The reply to the first read keeps the accounts of requests and packets. */
  lemma FirstServed(accepted: seq<Request>, queue: seq<Request>, replies: seq<Reply>, arrived: seq<Packet>,
                    packets: seq<Packet>, due: map<Request, nat>, at: nat) returns (reply: Reply)
    requires Accounted(accepted, queue, replies) && Conserved(arrived, replies, [], packets) && OnTime(replies)
    requires AllSmall(packets) && packets != [] && queue != [] && Queueable(queue, CS_CONNECTED)
    ensures |packets[0].payload| <= BUFFER_SIZE && reply == ServedOne(queue[0], packets[0], due, at)
    ensures Accounted(accepted, queue[1..], replies + [reply]) && OnTime(replies + [reply])
    ensures Conserved(arrived, replies + [reply], [], Rest(queue[0], packets))
    ensures AllSmall(Rest(queue[0], packets)) && Queueable(queue[1..], CS_CONNECTED)
    ensures queue[0] !in queue[1..]
  {
    FirstReply(queue, packets, due, at);
    hide *;
    reply := ServedOne(queue[0], packets[0], due, at);
    FirstOnce(accepted, queue, replies, reply);
    StillOnTime(replies, reply);
    ConserveServed(arrived, replies, packets, queue[0], due, at);
  }

  lemma ConserveServed(arrived: seq<Packet>, replies: seq<Reply>, packets: seq<Packet>, r: Request,
                       due: map<Request, nat>, at: nat)
    requires Conserved(arrived, replies, [], packets) && packets != [] && r.rtype == RT_READ
    requires |packets[0].payload| <= BUFFER_SIZE
    ensures Conserved(arrived, replies + [ServedOne(r, packets[0], due, at)], [], Rest(r, packets))
  {
    var reply := ServedOne(r, packets[0], due, at);
    hide Conserved;
    if reply.state == RS_OK {
      ConserveRead(arrived, replies, packets, reply);
    } else {
      ConserveReply(arrived, replies, [], packets, reply);
    }
  }

  lemma QueueDistinct(accepted: seq<Request>, queue: seq<Request>, replies: seq<Reply>)
    requires Accounted(accepted, queue, replies)
    ensures Distinct(queue)
  {
    ExactlyOnce(accepted, queue, replies);
  }

  lemma FirstOnce(accepted: seq<Request>, queue: seq<Request>, replies: seq<Reply>, reply: Reply)
    requires Accounted(accepted, queue, replies) && queue != [] && reply.request == queue[0]
    ensures queue[0] !in queue[1..] && Accounted(accepted, queue[1..], replies + [reply])
  {
    hide Accounted, RequestsOf;
    QueueDistinct(accepted, queue, replies);
    AccountReply(accepted, queue, replies, 0, reply);
    assert queue[..0] + queue[1..] == queue[1..];
  }

  lemma FirstReply(queue: seq<Request>, packets: seq<Packet>, due: map<Request, nat>, at: nat)
    requires AllSmall(packets) && packets != [] && queue != [] && Queueable(queue, CS_CONNECTED)
    ensures |packets[0].payload| <= BUFFER_SIZE && queue[0].rtype == RT_READ
    ensures AllSmall(Rest(queue[0], packets)) && Queueable(queue[1..], CS_CONNECTED)
    ensures var reply := ServedOne(queue[0], packets[0], due, at);
            && reply.request == queue[0] && reply.state != RS_TIMEOUT
            && if reply.state == RS_OK then
                 reply.data == packets[0].payload && Rest(queue[0], packets) == packets[1..]
               else Rest(queue[0], packets) == packets
  {
  }

  lemma StillOnTime(replies: seq<Reply>, reply: Reply)
    requires OnTime(replies)
    requires reply.state == RS_TIMEOUT ==> reply.due.Some? && reply.due.value <= reply.at
    ensures OnTime(replies + [reply])
  {
  }

  lemma TickingRest(queue: seq<Request>, due: map<Request, nat>, sweeps: nat)
    requires Ticking(queue, due, sweeps) && queue != []
    ensures Ticking(queue[1..], due, sweeps)
  {
  }

  lemma RestIs(r: Request, packets: seq<Packet>)
    requires packets != []
    ensures Rest(r, packets) == if r.length >= |packets[0].payload| then packets[1..]
                                else [packets[0]] + packets[1..]
  {
  }

  /** The first OPEN in the queue, if there is one. */
  function FirstOpen(queue: seq<Request>): (e: nat)
    ensures e <= |queue| && (e < |queue| ==> queue[e].rtype == RT_OPEN)
    ensures forall j | 0 <= j < e :: queue[j].rtype != RT_OPEN
  {
    if queue == [] || queue[0].rtype == RT_OPEN then 0 else 1 + FirstOpen(queue[1..])
  }

  /** A connection before a request of its client. */
  datatype Before = Before(state: Word, accepted: seq<Request>, reqQueue: seq<Request>, packetQueue: seq<Packet>,
                           replies: seq<Reply>, due: map<Request, nat>, steady: bool, written: seq<seq<Byte>>)

  class Connection {
    const id: Word
    var state: Word
    var handlerId: Word
    var packetQueue: seq<Packet>
    var reqQueue: seq<Request>

    /** The requests accepted and the replies given so far; the packets queued so far and those dropped
        when the connection was destroyed; the sweeps so far and the sweep at which requests are due. */
    ghost var accepted: seq<Request>
    ghost var replies: seq<Reply>
    ghost var arrived: seq<Packet>
    ghost var dropped: seq<Packet>
    ghost var sweeps: nat
    ghost var due: map<Request, nat>
    ghost var destroyed: bool

    /** The packets handed to this connection, and whether it has not been opened again after the first. */
    ghost var log: seq<Packet>
    ghost var steady: bool

    /** What the writes answered with OK carried. */
    ghost var written: seq<seq<Byte>>

    /** The accounts of requests and packets, when the requests queued fit state `q` and the packets queued
        fit state `s`. */
    ghost predicate Books(q: Word, s: Word)
      reads this`accepted, this`reqQueue, this`replies, this`arrived, this`dropped, this`packetQueue,
        this`steady, this`log, this`destroyed
    {
      && Accounted(accepted, reqQueue, replies) && Conserved(arrived, replies, dropped, packetQueue)
      && OnTime(replies) && Queueable(reqQueue, q) && InStep(steady, log, arrived, s)
      && AllSmall(packetQueue) && if destroyed then packetQueue == [] else dropped == []
    }

    /** The connection is consistent once its state is `s`. */
    ghost predicate ValidIn(s: Word)
      reads this`accepted, this`reqQueue, this`replies, this`arrived, this`dropped, this`packetQueue, this`due,
        this`sweeps, this`steady, this`log, this`destroyed, reqQueue`timeoutTicks, reqQueue`actual
    {
      Books(s, s) && Ticking(reqQueue, due, sweeps)
    }

    ghost predicate Valid()
      reads this`state, this`accepted, this`reqQueue, this`replies, this`arrived, this`dropped, this`packetQueue,
        this`due, this`sweeps, this`steady, this`log, this`destroyed, reqQueue`timeoutTicks, reqQueue`actual
    {
      ValidIn(state)
    }

    /** APB_CreateConnection leaves the state as the memory happens to hold it. */
    constructor (id: Word, memory: Word)
      ensures Valid() && this.id == id && state == memory && !destroyed
      ensures accepted == [] && replies == [] && arrived == [] && packetQueue == [] && reqQueue == []
      ensures log == [] && steady && written == []
    {
      this.id, state, handlerId, packetQueue, reqQueue := id, memory, 0, [], [];
      accepted, replies, arrived, dropped, sweeps, due, destroyed := [], [], [], [], 0, map[], false;
      log, steady, written := [], true, [];
    }

    /** ReplyMsg: the client gets the request back. */
    method Reply(r: Request, ghost data: seq<Byte>)
      modifies this`replies
      ensures replies == old(replies) + [Requests.Reply(r, r.state, r.actual, data, DueOf(due, r), sweeps)]
    {
      replies := replies + [Requests.Reply(r, r.state, r.actual, data, DueOf(due, r), sweeps)];
    }

    /** A request is answered with a packet. */
    method Respond(r: Request, p: Packet) returns (fits: bool)
      requires |p.payload| <= BUFFER_SIZE && r.length <= r.data.Length
      modifies this`replies, r`state, r`actual, r.data
      ensures fits == (r.length >= |p.payload|)
      ensures r.actual == |p.payload| && r.state == if fits then RS_OK else RS_BUFFER_TOO_SMALL
      ensures fits ==> r.data[..|p.payload|] == p.payload
      ensures replies == old(replies) + [ServedOne(r, p, due, sweeps)]
    {
      r.actual := |p.payload|;
      fits := r.length >= |p.payload|;
      if !fits {
        r.state := RS_BUFFER_TOO_SMALL;
        Reply(r, []);
      } else {
        PutBytes(r.data, 0, p.payload);
        r.state := RS_OK;
        Reply(r, r.data[..r.actual]);
        assert r.data[..r.actual] == p.payload;
      }
    }

    /** The packet at the head of the queue goes to the first read, or stays when that is too small. */
    method ServeFirst()
      requires Valid() && !destroyed && state == CS_CONNECTED && reqQueue != [] && packetQueue != []
      modifies this`replies, this`reqQueue, this`packetQueue, reqQueue[..1]`state, reqQueue[..1]`actual,
        reqQueue[0].data
      ensures Valid() && reqQueue == old(reqQueue)[1..]
      ensures packetQueue == Rest(old(reqQueue)[0], old(packetQueue))
      ensures |old(packetQueue)[0].payload| <= BUFFER_SIZE
      ensures var r, payload := old(reqQueue)[0], old(packetQueue)[0].payload;
              && r.actual == |payload|
              && if r.length < |payload| then r.state == RS_BUFFER_TOO_SMALL
                 else r.state == RS_OK && |payload| <= r.data.Length && r.data[..|payload|] == payload
      ensures replies == old(replies) + [ServedOne(old(reqQueue)[0], old(packetQueue)[0], due, sweeps)]
    {
      hide *;
      Parts();
      BookParts(state, state);
      FirstFits(reqQueue, packetQueue);
      var r, p := reqQueue[0], packetQueue[0];
      RestIs(r, packetQueue);
      ghost var reply := FirstServed(accepted, reqQueue, replies, arrived, packetQueue, due, sweeps);
      TickingRest(reqQueue, due, sweeps);
      reqQueue, packetQueue := reqQueue[1..], packetQueue[1..];
      var fits := Respond(r, p);
      if !fits {
        packetQueue := [p] + packetQueue;
      }
      Whole(state);
    }

    /** What pairing the requests `q` with the packets `ps` leaves, when `before` are the replies so far. */
    ghost predicate Pushed(q: seq<Request>, ps: seq<Packet>, before: seq<Requests.Reply>)
      reads this
    {
      if state != CS_CONNECTED then reqQueue == q && packetQueue == ps && replies == before
      else
        AllSmall(ps)
        && var s, n := Served(q, ps, due, sweeps), HandedOut(q, ps);
        && |s| <= |q| && reqQueue == q[|s|..] && packetQueue == ps[n..] && replies == before + s
        && (reqQueue == [] || packetQueue == [])
    }

    /** What is left of both queues after some replies leads to the same end. */
    static ghost predicate Between(q: seq<Request>, ps: seq<Packet>, before: seq<Requests.Reply>,
                                   reqs: seq<Request>, packets: seq<Packet>, replies: seq<Requests.Reply>,
                                   due: map<Request, nat>, at: nat) {
      && AllSmall(ps) && AllSmall(packets) && AllReads(reqs)
      && |reqs| <= |q| && reqs == q[|q| - |reqs|..] && |replies| == |before| + |q| - |reqs|
      && |packets| <= |ps| && packets == ps[|ps| - |packets|..]
      && replies + Served(reqs, packets, due, at) == before + Served(q, ps, due, at)
      && |ps| - |packets| + HandedOut(reqs, packets) == HandedOut(q, ps)
    }

    static lemma BetweenStart(q: seq<Request>, ps: seq<Packet>, before: seq<Requests.Reply>,
                              due: map<Request, nat>, at: nat)
      requires AllSmall(ps) && AllReads(q)
      ensures Between(q, ps, before, q, ps, before, due, at)
    {
    }

    static lemma BetweenNext(q: seq<Request>, ps: seq<Packet>, before: seq<Requests.Reply>,
                             reqs: seq<Request>, packets: seq<Packet>, replies: seq<Requests.Reply>,
                             due: map<Request, nat>, at: nat)
      requires Between(q, ps, before, reqs, packets, replies, due, at) && reqs != [] && packets != []
      ensures |packets[0].payload| <= BUFFER_SIZE
      ensures Between(q, ps, before, reqs[1..], Rest(reqs[0], packets),
                      replies + [ServedOne(reqs[0], packets[0], due, at)], due, at)
    {
      hide *;
      BetweenIs(q, ps, before, reqs, packets, replies, due, at);
      FirstFits(reqs, packets);
      ServedStep(reqs, packets, due, at);
      var first, rest := ServedOne(reqs[0], packets[0], due, at), Rest(reqs[0], packets);
      Moved(replies, first, Served(reqs[1..], rest, due, at));
      Suffix(q, reqs, 1);
      RestIs(reqs[0], packets);
      Suffix(ps, packets, |packets| - |rest|);
      BetweenIs(q, ps, before, reqs[1..], rest, replies + [first], due, at);
    }

    static lemma BetweenIs(q: seq<Request>, ps: seq<Packet>, before: seq<Requests.Reply>,
                           reqs: seq<Request>, packets: seq<Packet>, replies: seq<Requests.Reply>,
                           due: map<Request, nat>, at: nat)
      ensures Between(q, ps, before, reqs, packets, replies, due, at) <==>
              && AllSmall(ps) && AllSmall(packets) && AllReads(reqs)
              && |reqs| <= |q| && reqs == q[|q| - |reqs|..] && |replies| == |before| + |q| - |reqs|
              && |packets| <= |ps| && packets == ps[|ps| - |packets|..]
              && replies + Served(reqs, packets, due, at) == before + Served(q, ps, due, at)
              && |ps| - |packets| + HandedOut(reqs, packets) == HandedOut(q, ps)
    {
    }

    static lemma Moved<T>(a: seq<T>, x: T, b: seq<T>)
      ensures a + ([x] + b) == a + [x] + b
    {
    }

    static lemma Suffix<T>(s: seq<T>, t: seq<T>, n: nat)
      requires n <= |t| <= |s| && t == s[|s| - |t|..]
      ensures t[n..] == s[|s| - (|t| - n)..] && t[0..] == t
    {
    }

    static lemma BetweenEnd(q: seq<Request>, ps: seq<Packet>, before: seq<Requests.Reply>,
                            reqs: seq<Request>, packets: seq<Packet>, replies: seq<Requests.Reply>,
                            due: map<Request, nat>, at: nat)
      requires Between(q, ps, before, reqs, packets, replies, due, at) && (reqs == [] || packets == [])
      ensures AllSmall(ps)
      ensures var s := Served(q, ps, due, at);
              && |s| <= |q| && reqs == q[|s|..] && packets == ps[HandedOut(q, ps)..] && replies == before + s
    {
      assert Served(reqs, packets, due, at) == [] && HandedOut(reqs, packets) == 0;
      hide Served, HandedOut;
    }

    lemma PushedNow(q: seq<Request>, ps: seq<Packet>, before: seq<Requests.Reply>)
      requires Between(q, ps, before, reqQueue, packetQueue, replies, due, sweeps)
      requires state == CS_CONNECTED && (reqQueue == [] || packetQueue == [])
      ensures Pushed(q, ps, before)
    {
      BetweenEnd(q, ps, before, reqQueue, packetQueue, replies, due, sweeps);
      hide Between, Served, HandedOut;
    }

    lemma NotPushed()
      requires state != CS_CONNECTED
      ensures Pushed(reqQueue, packetQueue, replies)
    {
    }

    /** APB_PushToClient: while the connection is established, packets and reads are paired until one of
        the queues is empty. */
    method PushToClient()
      requires Valid() && !destroyed
      modifies this`replies, this`reqQueue, this`packetQueue, reqQueue`state, reqQueue`actual,
        set r | r in reqQueue :: r.data
      ensures Valid() && Pushed(old(reqQueue), old(packetQueue), old(replies))
    {
      hide *;
      if state != CS_CONNECTED {
        NotPushed();
        return;
      }
      Parts();
      BookParts(state, state);
      ghost var q, ps, before := reqQueue, packetQueue, replies;
      BetweenStart(q, ps, before, due, sweeps);
      while packetQueue != [] && reqQueue != []
        invariant Valid() && Between(q, ps, before, reqQueue, packetQueue, replies, due, sweeps)
        invariant forall r | r in reqQueue :: r in q
        decreases |reqQueue|
      {
        BetweenNext(q, ps, before, reqQueue, packetQueue, replies, due, sweeps);
        assert reqQueue[0] in q;
        ServeFirst();
      }
      PushedNow(q, ps, before);
    }

    /** ReplyMsg for a request that is not queued. */
    method Answer(r: Request)
      requires Valid() && !destroyed && r !in accepted
      requires r.state != RS_TIMEOUT && (r.rtype == RT_READ ==> r.state != RS_OK)
      modifies this`replies, this`accepted
      ensures Valid() && accepted == old(accepted) + [r]
      ensures replies == old(replies) + [ReplyNow(r, r.state, r.actual)]
    {
      hide *;
      Parts();
      BookParts(state, state);
      ghost var reply := NowIs(r, r.state, r.actual);
      AccountAnswered(accepted, reqQueue, replies, reply);
      ConserveReply(arrived, replies, dropped, packetQueue, reply);
      StillOnTime(replies, reply);
      accepted := accepted + [r];
      Reply(r, []);
      Whole(state);
    }

    /** Reads wait, and so does an OPEN. */
    method Enqueue(r: Request)
      requires Valid() && !destroyed && r !in accepted && r.length <= r.data.Length && r.actual == 0
      requires r.rtype == RT_READ || (r.rtype == RT_OPEN && state != CS_CONNECTED && AllReads(reqQueue))
      requires if r in due then r.timeoutTicks >= 1 && due[r] <= sweeps + r.timeoutTicks else r.timeoutTicks == 0
      modifies this`reqQueue, this`accepted
      ensures Valid() && accepted == old(accepted) + [r] && reqQueue == old(reqQueue) + [r]
    {
      hide Accounted, Conserved, OnTime;
      AccountQueued(accepted, reqQueue, replies, r);
      accepted, reqQueue := accepted + [r], reqQueue + [r];
    }

    lemma NowIs(r: Request, answer: Word, actual: Word) returns (reply: Requests.Reply)
      ensures reply == ReplyNow(r, answer, actual)
      ensures reply == Requests.Reply(r, answer, actual, [], DueOf(due, r), sweeps)
    {
      reply := ReplyNow(r, answer, actual);
    }

    lemma Parts()
      requires Valid()
      ensures Books(state, state) && Ticking(reqQueue, due, sweeps)
      ensures state == CS_CONNECTED ==> AllReads(reqQueue) && Queueable(reqQueue, CS_CONNECTED)
    {
    }

    lemma BookParts(q: Word, s: Word)
      requires Books(q, s)
      ensures Accounted(accepted, reqQueue, replies) && Conserved(arrived, replies, dropped, packetQueue)
      ensures OnTime(replies) && Queueable(reqQueue, q) && InStep(steady, log, arrived, s)
      ensures AllSmall(packetQueue) && if destroyed then packetQueue == [] else dropped == []
    {
    }

    lemma BooksNow(q: Word)
      requires Accounted(accepted, reqQueue, replies) && Conserved(arrived, replies, dropped, packetQueue)
      requires OnTime(replies) && Queueable(reqQueue, q) && InStep(steady, log, arrived, state)
      requires AllSmall(packetQueue) && if destroyed then packetQueue == [] else dropped == []
      ensures Books(q, state)
    {
    }

    lemma Whole(s: Word)
      requires Accounted(accepted, reqQueue, replies) && Conserved(arrived, replies, dropped, packetQueue)
      requires OnTime(replies) && Queueable(reqQueue, s) && InStep(steady, log, arrived, s)
      requires AllSmall(packetQueue) && if destroyed then packetQueue == [] else dropped == []
      requires Ticking(reqQueue, due, sweeps)
      ensures ValidIn(s) && (s == state ==> Valid())
    {
    }

    /** A request is taken over: its timeout becomes the number of sweeps to wait for. Without a timeout
        the counter stays what it was. */
    method Prepare(r: Request)
      requires Valid() && r !in accepted
      modifies r`state, r`actual, r`connId, r`timeoutTicks, this`due
      ensures Valid() && r.state == RS_OK && r.actual == 0 && r.connId == id
      ensures r.timeoutTicks == if r.timeout > 0 then r.timeout else old(r.timeoutTicks)
      ensures due == old(due) - {r} + if r.timeoutTicks > 0 then map[r := sweeps + r.timeoutTicks] else map[]
    {
      hide *;
      Parts();
      BookParts(state, state);
      NotQueued(r);
      OthersDue(reqQueue, due, sweeps, r);
      r.state := RS_OK;
      r.actual := 0;
      r.connId := id;
      if r.timeout > 0 {
        r.timeoutTicks := r.timeout;
      }
      due := due - {r} + if r.timeoutTicks > 0 then map[r := sweeps + r.timeoutTicks] else map[];
      Whole(state);
    }

    /** When another request is due is of no concern to those in the queue. */
    static lemma OthersDue(queue: seq<Request>, due: map<Request, nat>, sweeps: nat, r: Request)
      requires Ticking(queue, due, sweeps) && r !in queue
      ensures Ticking(queue, due - {r}, sweeps)
      ensures forall n: nat :: Ticking(queue, due - {r} + map[r := n], sweeps)
    {
    }

    lemma NotQueued(r: Request)
      requires Valid() && r !in accepted
      ensures r !in reqQueue
    {
      ExactlyOnce(accepted, reqQueue, replies);
    }

    /** APB_CnnConnect */
    method Connect(out: Outbox)
      modifies out, this`state
      ensures state == CS_CONNECTING
      ensures out.sent == old(out.sent) + [Outgoing(PT_CONNECT, id, WordBytes(handlerId))]
    {
      var ok := out.Send(PT_CONNECT, id, WordBytes(handlerId));
      if !ok {
        return;
      }
      state := CS_CONNECTING;
    }

    /** APB_CnnDisconnect */
    method Disconnect(out: Outbox)
      requires Valid()
      modifies out, this`state
      ensures Valid() && state == CS_DISCONNECTING
      ensures out.sent == old(out.sent) + [Outgoing(PT_DISCONNECT, id, [])]
    {
      var ok := out.Send(PT_DISCONNECT, id, []);
      if !ok {
        return;
      }
      state := CS_DISCONNECTING;
    }

    /** A request to open the connection waits for the answer of the remote side. */
    method Open(r: Request, out: Outbox)
      requires Valid() && !destroyed && r !in accepted && r.rtype == RT_OPEN && AllReads(reqQueue)
      requires r.actual == 0 && r.length <= r.data.Length
      requires if r in due then r.timeoutTicks >= 1 && due[r] <= sweeps + r.timeoutTicks else r.timeoutTicks == 0
      modifies this`handlerId, this`reqQueue, this`accepted, this`state, this`steady, out
      ensures Valid() && accepted == old(accepted) + [r] && steady == (old(steady) && log == [])
      ensures OpenHandled(r, old(reqQueue), old(out.sent), out)
    {
      hide *;
      EnqueueOpen(r);
      handlerId := r.handlerId;
      Connect(out);
      ValidNow(CS_CONNECTING);
      OpenIs(r, old(reqQueue), old(out.sent), out);
    }

    /** The OPEN enters the queue before the state changes. */
    method EnqueueOpen(r: Request)
      requires Valid() && !destroyed && r !in accepted && r.rtype == RT_OPEN && AllReads(reqQueue)
      requires r.actual == 0 && r.length <= r.data.Length
      requires if r in due then r.timeoutTicks >= 1 && due[r] <= sweeps + r.timeoutTicks else r.timeoutTicks == 0
      modifies this`reqQueue, this`accepted, this`steady
      ensures ValidIn(CS_CONNECTING) && accepted == old(accepted) + [r] && reqQueue == old(reqQueue) + [r]
      ensures steady == (old(steady) && log == [])
    {
      hide *;
      Parts();
      BookParts(state, state);
      AccountQueued(accepted, reqQueue, replies, r);
      OpenQueued(reqQueue, state, due, sweeps, r);
      OpenInStep(steady, log, arrived, state);
      accepted, reqQueue, steady := accepted + [r], reqQueue + [r], steady && log == [];
      Whole(CS_CONNECTING);
    }

    lemma ValidNow(s: Word)
      requires ValidIn(s) && state == s
      ensures Valid()
    {
    }

    lemma OpenIs(r: Request, q: seq<Request>, sent: seq<Outgoing>, out: Outbox)
      requires reqQueue == q + [r] && state == CS_CONNECTING && handlerId == r.handlerId
      requires out.sent == sent + [Outgoing(PT_CONNECT, id, WordBytes(r.handlerId))]
      ensures OpenHandled(r, q, sent, out)
    {
    }

    static lemma OpenQueued(queue: seq<Request>, state: Word, due: map<Request, nat>, sweeps: nat, r: Request)
      requires Queueable(queue, state) && Ticking(queue, due, sweeps) && AllReads(queue)
      requires r.rtype == RT_OPEN && r.length <= r.data.Length && r.actual == 0
      requires if r in due then r.timeoutTicks >= 1 && due[r] <= sweeps + r.timeoutTicks else r.timeoutTicks == 0
      ensures Queueable(queue + [r], CS_CONNECTING) && Ticking(queue + [r], due, sweeps)
    {
    }

    static lemma OpenInStep(steady: bool, log: seq<Packet>, arrived: seq<Packet>, state: Word)
      requires InStep(steady, log, arrived, state)
      ensures InStep(steady && log == [], log, arrived, CS_CONNECTING)
    {
      if log == [] {
        assert Orderly(log) && DataOf(log) == [];
      }
    }

    /** APB_PushToRemote: what the client writes becomes one packet, or fails when it is too long. */
    method PushToRemote(r: Request, out: Outbox)
      requires r.length <= r.data.Length
      modifies out, r`state, r`actual
      ensures HEADER_SIZE + r.length <= BUFFER_SIZE ==>
                && r.state == RS_OK && r.actual == r.length
                && out.sent == old(out.sent) + [Outgoing(PT_DATA, id, r.data[..r.length])]
      ensures HEADER_SIZE + r.length > BUFFER_SIZE ==>
                r.state == RS_FAILED && r.actual == old(r.actual) && out.sent == old(out.sent)
    {
      AllocatesUpToBuffer(r.length);
      hide Outbox.Allocates;
      var ok := out.Send(PT_DATA, id, r.data[..r.length]);
      if !ok {
        r.state := RS_FAILED;
      } else {
        r.state := RS_OK;
        r.actual := r.length;
      }
    }

    /** The sweep has passed the first `i` requests, none of which had one tick left. */
    static ghost predicate SweptTo(q: seq<Request>, ticks: seq<Word>, i: nat)
      reads q`timeoutTicks
    {
      && |ticks| == |q| && i <= |q|
      && (forall j | 0 <= j < |q| :: q[j].timeoutTicks == if j < i then Less(ticks[j]) else ticks[j])
      && (forall j | 0 <= j < i :: ticks[j] != 1)
    }

    /** The counters `ticks` do not run ahead of the sweeps. */
    static ghost predicate InTime(q: seq<Request>, ticks: seq<Word>, due: map<Request, nat>, sweeps: nat) {
      |ticks| == |q| && forall j | 0 <= j < |q| ::
        if q[j] in due then ticks[j] >= 1 && due[q[j]] <= sweeps + ticks[j] else ticks[j] == 0
    }

    static ghost predicate Idle(q: seq<Request>)
      reads q`actual
    {
      forall r | r in q :: r.actual == 0
    }

    static lemma SweepStarts(q: seq<Request>, due: map<Request, nat>, sweeps: nat)
      requires Ticking(q, due, sweeps)
      ensures InTime(q, Ticks(q), due, sweeps) && Idle(q) && SweptTo(q, Ticks(q), 0)
    {
      hide Ticks;
    }

    static lemma SweepKeepsTicking(q: seq<Request>, ticks: seq<Word>, due: map<Request, nat>, sweeps: nat, i: nat)
      requires InTime(q, ticks, due, sweeps) && Idle(q) && SweptTo(q, ticks, i)
      ensures Ticking(q, due, sweeps + 1)
    {
      forall r | r in q
        ensures r.actual == 0
                && if r in due then r.timeoutTicks >= 1 && due[r] <= sweeps + 1 + r.timeoutTicks
                   else r.timeoutTicks == 0
      {
        var j: nat :| j < |q| && q[j] == r;
      }
    }

    static method CountDown(ghost q: seq<Request>, ghost ticks: seq<Word>, ghost i: nat, r: Request)
      requires SweptTo(q, ticks, i) && i < |q| && r == q[i] && r.timeoutTicks != 1 && Distinct(q)
      modifies r`timeoutTicks
      ensures SweptTo(q, ticks, i + 1)
    {
      if r.timeoutTicks > 1 {
        r.timeoutTicks := r.timeoutTicks - 1;
      }
      assert forall j | 0 <= j < |q| && j != i :: q[j] != r;
    }

    /** The counters of the queue `q` after the sweep that ended at `i`. */
    static lemma SweepDone(q: seq<Request>, ticks: seq<Word>, i: nat)
      requires SweptTo(q, ticks, i) && (i < |q| ==> ticks[i] == 1)
      ensures i == FirstExpired(ticks)
      ensures Ticks(if i < |q| then q[..i] + q[i + 1..] else q) == Swept(ticks)
    {
      hide Ticks, Swept;
    }

    /** Request `i` is answered, with nothing read, and leaves the queue, whose requests fit state `q`. */
    method AnswerAt(i: nat, answer: Word, ghost q: Word)
      requires Books(q, state) && Ticking(reqQueue, due, sweeps) && i < |reqQueue|
      requires Queueable(reqQueue[..i] + reqQueue[i + 1..], state)
      requires answer == RS_TIMEOUT ==> reqQueue[i] in due && due[reqQueue[i]] <= sweeps
      requires answer == RS_OK ==> reqQueue[i].rtype != RT_READ
      modifies this`reqQueue, this`replies, reqQueue[i..i + 1]`state
      ensures Valid() && reqQueue == old(reqQueue[..i] + reqQueue[i + 1..])
      ensures replies == old(replies) + [ReplyNow(old(reqQueue)[i], answer, 0)]
    {
      hide *;
      BookParts(q, state);
      var r := reqQueue[i];
      ghost var reply := NowIs(r, answer, 0);
      if r in due {
        DueIs(r);
      }
      AccountReply(accepted, reqQueue, replies, i, reply);
      ConserveReply(arrived, replies, dropped, packetQueue, reply);
      StillOnTime(replies, reply);
      OneLess(reqQueue, i, due, sweeps);
      r.state := answer;
      reqQueue := reqQueue[..i] + reqQueue[i + 1..];
      Reply(r, []);
      Whole(state);
    }

    lemma DueIs(r: Request)
      requires r in due
      ensures DueOf(due, r) == Some(due[r])
    {
    }

    static lemma OneLess(queue: seq<Request>, i: nat, due: map<Request, nat>, sweeps: nat)
      requires Ticking(queue, due, sweeps) && i < |queue|
      ensures queue[i].actual == 0 && Ticking(queue[..i] + queue[i + 1..], due, sweeps)
    {
    }

    static lemma StillQueueable(queue: seq<Request>, i: nat, state: Word)
      requires Queueable(queue, state) && i < |queue|
      ensures Queueable(queue[..i] + queue[i + 1..], state)
    {
      var rest := queue[..i] + queue[i + 1..];
      assert forall j | 0 <= j < |rest| :: rest[j] == queue[if j < i then j else j + 1];
    }

    /** What a sweep keeps while it goes through the queue `q`, whose counters were `ticks`. */
    ghost predicate Sweeping(q: seq<Request>, ticks: seq<Word>)
      reads this, q`actual
    {
      && reqQueue == q && Books(state, state) && Distinct(q)
      && sweeps > 0 && InTime(q, ticks, due, sweeps - 1) && Idle(q)
    }

    lemma SweepReady()
      requires Valid()
      ensures Books(state, state) && Distinct(reqQueue)
      ensures InTime(reqQueue, Ticks(reqQueue), due, sweeps) && Idle(reqQueue)
      ensures SweptTo(reqQueue, Ticks(reqQueue), 0)
    {
      ExactlyOnce(accepted, reqQueue, replies);
      SweepStarts(reqQueue, due, sweeps);
    }

    /** The sweep ends with request `i`, which has one tick left. */
    method SweepEndsAt(i: nat, ghost ticks: seq<Word>)
      requires Sweeping(reqQueue, ticks) && SweptTo(reqQueue, ticks, i)
      requires i < |reqQueue| && reqQueue[i].timeoutTicks == 1
      modifies this`reqQueue, this`replies, reqQueue[i..i + 1]`state
      ensures Valid() && Ticks(reqQueue) == Swept(ticks)
      ensures Expired(FirstExpired(ticks), old(reqQueue), old(replies))
    {
      hide *;
      SweepParts(ticks);
      SweepKeepsTicking(reqQueue, ticks, due, sweeps - 1, i);
      LastTick(reqQueue, ticks, due, sweeps - 1, i);
      SweepDone(reqQueue, ticks, i);
      Codes();
      StillFits(i);
      AnswerAt(i, RS_TIMEOUT, state);
      ExpiredNow(i, old(reqQueue), old(replies));
    }

    lemma StillFits(i: nat)
      requires Books(state, state) && i < |reqQueue|
      ensures Queueable(reqQueue[..i] + reqQueue[i + 1..], state)
    {
      StillQueueable(reqQueue, i, state);
    }

    lemma SweepParts(ticks: seq<Word>)
      requires Sweeping(reqQueue, ticks)
      ensures Books(state, state) && Distinct(reqQueue)
      ensures sweeps > 0 && InTime(reqQueue, ticks, due, sweeps - 1) && Idle(reqQueue)
      ensures Ticking(reqQueue, due, sweeps) ==> Valid()
    {
    }

    /** The sweep has passed all requests. */
    lemma SweepEnds(ticks: seq<Word>)
      requires Sweeping(reqQueue, ticks) && SweptTo(reqQueue, ticks, |reqQueue|)
      ensures Valid() && Ticks(reqQueue) == Swept(ticks)
      ensures Expired(FirstExpired(ticks), reqQueue, replies)
    {
      hide *;
      SweepParts(ticks);
      SweepKeepsTicking(reqQueue, ticks, due, sweeps - 1, |reqQueue|);
      SweepDone(reqQueue, ticks, |reqQueue|);
      NoneExpired(reqQueue, replies);
    }

    /** APB_CnnCheckRequestTimeouts: one sweep over the queued requests. */
    method CheckRequestTimeouts()
      requires Valid() && !destroyed
      modifies this`reqQueue, this`replies, this`sweeps, reqQueue`timeoutTicks, reqQueue`state
      ensures Valid() && sweeps == old(sweeps) + 1
      ensures Ticks(reqQueue) == Swept(old(Ticks(reqQueue)))
      ensures Expired(FirstExpired(old(Ticks(reqQueue))), old(reqQueue), old(replies))
    {
      hide *;
      SweepReady();
      ghost var q, ticks := reqQueue, Ticks(reqQueue);
      sweeps := sweeps + 1;
      SweepingNow(ticks);
      for i := 0 to |reqQueue|
        invariant Sweeping(q, ticks) && SweptTo(q, ticks, i)
        invariant reqQueue == q && replies == old(replies) && sweeps == old(sweeps) + 1
      {
        if reqQueue[i].timeoutTicks == 1 {
          SweepEndsAt(i, ticks);
          return;
        }
        SweepParts(ticks);
        CountDown(q, ticks, i, reqQueue[i]);
      }
      SweepEnds(ticks);
    }

    lemma SweepingNow(ticks: seq<Word>)
      requires Books(state, state) && Distinct(reqQueue)
      requires sweeps > 0 && InTime(reqQueue, ticks, due, sweeps - 1) && Idle(reqQueue)
      ensures Sweeping(reqQueue, ticks)
    {
    }

    /** What a sweep does to the queue `q` when request `e` is the first to expire. */
    ghost predicate Expired(e: nat, q: seq<Request>, before: seq<Requests.Reply>)
      reads this
    {
      if e < |q| then
        reqQueue == q[..e] + q[e + 1..] && replies == before + [ReplyNow(q[e], RS_TIMEOUT, 0)]
      else reqQueue == q && replies == before
    }

    lemma ExpiredNow(e: nat, q: seq<Request>, before: seq<Requests.Reply>)
      requires e < |q| && reqQueue == q[..e] + q[e + 1..]
      requires replies == before + [ReplyNow(q[e], RS_TIMEOUT, 0)]
      ensures Expired(e, q, before)
    {
    }

    lemma NoneExpired(q: seq<Request>, before: seq<Requests.Reply>)
      requires reqQueue == q && replies == before
      ensures Expired(|q|, q, before)
    {
    }

    static lemma LastTick(q: seq<Request>, ticks: seq<Word>, due: map<Request, nat>, sweeps: nat, i: nat)
      requires InTime(q, ticks, due, sweeps) && SweptTo(q, ticks, i) && i < |q| && q[i].timeoutTicks == 1
      ensures q[i] in due && due[q[i]] <= sweeps + 1 && ticks[i] == 1
    {
    }

    /** A read that is not to be answered at once. */
    predicate Waits()
      reads this`state
    {
      state != CS_DISCONNECTING && state != CS_DISCONNECTED && state != CS_NO_HANDLER
    }

    /** How a read or write is refused. */
    function Refusal(): (r: Word)
      reads this`state
    {
      if state == CS_NO_HANDLER then RS_NO_HANDLER else RS_NOT_CONNECTED
    }

    method Read(r: Request)
      requires Valid() && !destroyed && r !in accepted && r.length <= r.data.Length && r.actual == 0
      requires if r in due then r.timeoutTicks >= 1 && due[r] <= sweeps + r.timeoutTicks else r.timeoutTicks == 0
      requires r.rtype == RT_READ
      modifies this`reqQueue, this`packetQueue, this`accepted, this`replies, reqQueue`state, reqQueue`actual,
        (set q | q in reqQueue :: q.data), r`state, r`actual, r.data
      ensures Valid() && accepted == old(accepted) + [r]
      ensures ReadHandled(r, old(reqQueue), old(packetQueue), old(replies))
    {
      Codes();
      hide *;
      NotQueued(r);
      WaitsIs();
      if state == CS_DISCONNECTING || state == CS_DISCONNECTED {
        r.state := RS_NOT_CONNECTED;
        Answer(r);
      } else if state == CS_NO_HANDLER {
        r.state := RS_NO_HANDLER;
        Answer(r);
      } else {
        Enqueue(r);
        PushToClient();
      }
      ReadIs(r, old(reqQueue), old(packetQueue), old(replies));
    }

    lemma ReadIs(r: Request, q: seq<Request>, ps: seq<Packet>, before: seq<Requests.Reply>)
      requires if Waits() then Pushed(q + [r], ps, before)
               else reqQueue == q && packetQueue == ps && replies == before + [ReplyNow(r, Refusal(), 0)]
      ensures ReadHandled(r, q, ps, before)
    {
    }

    lemma WriteIs(r: Request, data: seq<Byte>, before: seq<Requests.Reply>, sent: seq<Outgoing>, out: Outbox)
      requires if Waits() && HEADER_SIZE + r.length <= BUFFER_SIZE then
                 && replies == before + [ReplyNow(r, RS_OK, r.length)]
                 && out.sent == sent + [Outgoing(PT_DATA, id, data)]
               else
                 && replies == before + [ReplyNow(r, if Waits() then RS_FAILED else Refusal(), 0)]
                 && out.sent == sent
      ensures WriteHandled(r, data, before, sent, out)
    {
    }

    method Write(r: Request, out: Outbox)
      requires Valid() && !destroyed && r !in accepted && r.length <= r.data.Length && r.actual == 0
      requires r.rtype == RT_WRITE
      modifies this`accepted, this`replies, r`state, r`actual, out
      ensures Valid() && accepted == old(accepted) + [r]
      ensures WriteHandled(r, r.data[..r.length], old(replies), old(out.sent), out)
    {
      Codes();
      hide *;
      NotQueued(r);
      WaitsIs();
      if state == CS_DISCONNECTING || state == CS_DISCONNECTED {
        r.state := RS_NOT_CONNECTED;
      } else if state == CS_NO_HANDLER {
        r.state := RS_NO_HANDLER;
      } else {
        r.state := RS_OK;
        PushToRemote(r, out);
      }
      Answer(r);
      WriteIs(r, r.data[..r.length], old(replies), old(out.sent), out);
    }

    static lemma Codes()
      ensures RS_OK != RS_TIMEOUT && RS_FAILED != RS_TIMEOUT && RS_NOT_CONNECTED != RS_TIMEOUT
      ensures RS_NO_HANDLER != RS_TIMEOUT && RS_NOT_CONNECTED != RS_OK && RS_NO_HANDLER != RS_OK
      ensures CS_NO_HANDLER != CS_DISCONNECTING && CS_NO_HANDLER != CS_DISCONNECTED
      ensures RT_READ != RT_OPEN && RT_READ != RT_WRITE && RT_READ != RT_CLOSE
      ensures RT_OPEN != RT_WRITE && RT_OPEN != RT_CLOSE && RT_WRITE != RT_CLOSE
    {
    }

    lemma WaitsIs()
      ensures Waits() <==> state != CS_DISCONNECTING && state != CS_DISCONNECTED && state != CS_NO_HANDLER
      ensures Refusal() == if state == CS_NO_HANDLER then RS_NO_HANDLER else RS_NOT_CONNECTED
    {
    }

    /** The reply a request gets at once, with nothing read. */
    ghost function ReplyNow(r: Request, answer: Word, actual: Word): Requests.Reply
      reads this`due, this`sweeps
    {
      Requests.Reply(r, answer, actual, [], DueOf(due, r), sweeps)
    }

    /** What an OPEN does to a connection with the requests `q` in its queue. */
    ghost predicate OpenHandled(r: Request, q: seq<Request>, sent: seq<Outgoing>, out: Outbox)
      reads this, out
    {
      && reqQueue == q + [r] && state == CS_CONNECTING && handlerId == r.handlerId
      && out.sent == sent + [Outgoing(PT_CONNECT, id, WordBytes(r.handlerId))]
    }

    ghost predicate CloseHandled(r: Request, was: Word, before: seq<Requests.Reply>, sent: seq<Outgoing>, out: Outbox)
      reads this, out
    {
      && state == (if was < CS_DISCONNECTING then CS_DISCONNECTING else was)
      && replies == before + [ReplyNow(r, RS_OK, 0)]
      && out.sent == sent + if was < CS_DISCONNECTING then [Outgoing(PT_DISCONNECT, id, [])] else []
    }

    ghost predicate ReadHandled(r: Request, q: seq<Request>, ps: seq<Packet>, before: seq<Requests.Reply>)
      reads this
    {
      if Waits() then Pushed(q + [r], ps, before)
      else reqQueue == q && packetQueue == ps && replies == before + [ReplyNow(r, Refusal(), 0)]
    }

    ghost predicate WriteHandled(r: Request, data: seq<Byte>, before: seq<Requests.Reply>, sent: seq<Outgoing>,
                                 out: Outbox)
      reads this, out
    {
      if Waits() && HEADER_SIZE + r.length <= BUFFER_SIZE then
        && replies == before + [ReplyNow(r, RS_OK, r.length)]
        && out.sent == sent + [Outgoing(PT_DATA, id, data)]
      else
        && replies == before + [ReplyNow(r, if Waits() then RS_FAILED else Refusal(), 0)]
        && out.sent == sent
    }

    /** What a request that carries `data` does to a connection that was in state `was`, with requests `q`
        and packets `ps` in its queues, `before` the replies given and `sent` the packets sent so far. */
    ghost predicate Handled(r: Request, data: seq<Byte>, was: Word, q: seq<Request>, ps: seq<Packet>,
                            before: seq<Requests.Reply>, sent: seq<Outgoing>, out: Outbox)
      reads this, out
    {
      if r.rtype == RT_OPEN then packetQueue == ps && replies == before && OpenHandled(r, q, sent, out)
      else if r.rtype == RT_READ then state == was && out.sent == sent && ReadHandled(r, q, ps, before)
      else
        && reqQueue == q && packetQueue == ps
        && if r.rtype == RT_CLOSE then CloseHandled(r, was, before, sent, out)
           else if r.rtype == RT_WRITE then state == was && WriteHandled(r, data, before, sent, out)
           else state == was && out.sent == sent && replies == before + [ReplyNow(r, RS_OK, 0)]
    }

    ghost function Now(): Before
      reads this
    {
      Before(state, accepted, reqQueue, packetQueue, replies, due, steady, written)
    }

    /** What request `r`, which carries `data` and had `ticks` on its counter, leaves of a connection that was
        as `b` says when `sent` packets had been sent. */
    ghost predicate Asked(r: Request, data: seq<Byte>, ticks: Word, b: Before, sent: seq<Outgoing>, out: Outbox)
      reads this, r`timeoutTicks, out
    {
      && accepted == b.accepted + [r] && steady == (b.steady && (r.rtype == RT_OPEN ==> log == []))
      && r.timeoutTicks == (if r.timeout > 0 then r.timeout else ticks)
      && due == b.due - {r} + (if r.timeoutTicks > 0 then map[r := sweeps + r.timeoutTicks] else map[])
      && Handled(r, data, b.state, b.reqQueue, b.packetQueue, b.replies, sent, out)
      && written == b.written + if r.rtype == RT_WRITE && replies == b.replies + [ReplyNow(r, RS_OK, r.length)]
                                then [data] else []
    }

    /** Whether a write of request `r` goes to the remote side. */
    predicate Forwards(r: Request)
      reads this`state
    {
      r.rtype == RT_WRITE && Waits() && HEADER_SIZE + r.length <= BUFFER_SIZE
    }

    /** APB_HandleClientRequest */
    method HandleClientRequest(r: Request, out: Outbox)
      requires Valid() && !destroyed && r !in accepted && r.length <= r.data.Length
      requires r.rtype == RT_OPEN ==> AllReads(reqQueue)
      modifies this`state, this`handlerId, this`reqQueue, this`packetQueue, this`accepted, this`replies, this`due,
        this`steady, this`written, reqQueue`state, reqQueue`actual, (set q | q in reqQueue :: q.data), r, r.data, out
      ensures Valid() && Asked(r, old(r.data[..r.length]), old(r.timeoutTicks), old(Now()), old(out.sent), out)
    {
      hide *;
      ghost var data, b, forwarded := r.data[..r.length], Now(), Forwards(r);
      SnapshotIs(r);
      if forwarded {
        written := written + [data];
      }
      NotQueued(r);
      Prepare(r);
      Dispatch(r, out);
      AskedIs(r, data, old(r.timeoutTicks), b, old(out.sent), out, forwarded);
    }

    lemma SnapshotIs(r: Request)
      ensures Forwards(r) ==> r.rtype == RT_WRITE
      ensures Now() == Before(state, accepted, reqQueue, packetQueue, replies, due, steady, written)
    {
    }

    lemma AskedParts(r: Request, data: seq<Byte>, ticks: Word, b: Before, sent: seq<Outgoing>, out: Outbox)
      requires Asked(r, data, ticks, b, sent, out)
      ensures accepted == b.accepted + [r] && steady == (b.steady && (r.rtype == RT_OPEN ==> log == []))
    {
    }

    lemma AskedIs(r: Request, data: seq<Byte>, ticks: Word, b: Before, sent: seq<Outgoing>, out: Outbox,
                  forwarded: bool)
      requires accepted == b.accepted + [r] && steady == (b.steady && (r.rtype == RT_OPEN ==> log == []))
      requires r.timeoutTicks == if r.timeout > 0 then r.timeout else ticks
      requires due == b.due - {r} + if r.timeoutTicks > 0 then map[r := sweeps + r.timeoutTicks] else map[]
      requires Handled(r, data, b.state, b.reqQueue, b.packetQueue, b.replies, sent, out)
      requires state == b.state ==> (forwarded <==> Forwards(r))
      requires r.rtype != RT_WRITE ==> !forwarded
      requires written == b.written + if forwarded then [data] else []
      ensures Asked(r, data, ticks, b, sent, out)
    {
      Codes();
      if r.rtype == RT_WRITE {
        assert WriteHandled(r, data, b.replies, sent, out);
        assert replies[|b.replies|].state == RS_OK <==> forwarded;
      }
      hide Pushed, OpenHandled, ReadHandled;
    }

    /** The switch over the type of the request. */
    method Dispatch(r: Request, out: Outbox)
      requires Valid() && !destroyed && r !in accepted && r.length <= r.data.Length
      requires r.rtype == RT_OPEN ==> AllReads(reqQueue)
      requires r.actual == 0 && r.state == RS_OK
      requires if r in due then r.timeoutTicks >= 1 && due[r] <= sweeps + r.timeoutTicks else r.timeoutTicks == 0
      modifies this`state, this`handlerId, this`reqQueue, this`packetQueue, this`accepted, this`replies, this`steady,
        reqQueue`state, reqQueue`actual, (set q | q in reqQueue :: q.data), r`state, r`actual, r.data, out
      ensures Valid() && accepted == old(accepted) + [r]
      ensures steady == (old(steady) && (r.rtype == RT_OPEN ==> log == []))
      ensures Handled(r, old(r.data[..r.length]), old(state), old(reqQueue), old(packetQueue), old(replies),
                      old(out.sent), out)
    {
      Codes();
      hide *;
      if r.rtype == RT_OPEN {
        Open(r, out);
      } else if r.rtype == RT_CLOSE {
        Close(r, out);
      } else if r.rtype == RT_READ {
        Read(r);
      } else if r.rtype == RT_WRITE {
        Write(r, out);
      } else {
        Answer(r);
      }
      HandledIs(r, old(r.data[..r.length]), old(state), old(reqQueue), old(packetQueue), old(replies),
        old(out.sent), out);
    }

    lemma HandledIs(r: Request, data: seq<Byte>, was: Word, q: seq<Request>, ps: seq<Packet>,
                    before: seq<Requests.Reply>, sent: seq<Outgoing>, out: Outbox)
      requires if r.rtype == RT_OPEN then packetQueue == ps && replies == before && OpenHandled(r, q, sent, out)
               else if r.rtype == RT_READ then state == was && out.sent == sent && ReadHandled(r, q, ps, before)
               else
                 && reqQueue == q && packetQueue == ps
                 && if r.rtype == RT_CLOSE then CloseHandled(r, was, before, sent, out)
                    else if r.rtype == RT_WRITE then state == was && WriteHandled(r, data, before, sent, out)
                    else state == was && out.sent == sent && replies == before + [ReplyNow(r, RS_OK, 0)]
      ensures Handled(r, data, was, q, ps, before, sent, out)
    {
    }

    method Close(r: Request, out: Outbox)
      requires Valid() && !destroyed && r !in accepted && r.actual == 0 && r.state == RS_OK
      requires r.rtype == RT_CLOSE
      modifies this`accepted, this`replies, this`state, out
      ensures Valid() && accepted == old(accepted) + [r]
      ensures CloseHandled(r, old(state), old(replies), old(out.sent), out)
    {
      Codes();
      hide Valid, OnTime;
      if state < CS_DISCONNECTING {
        Disconnect(out);
      }
      Answer(r);
    }

    /** The first OPEN among the requests, if there is one, is answered with `answer`. */
    ghost predicate OpenAnswered(answer: Word, q: seq<Request>, before: seq<Requests.Reply>)
      reads this
    {
      var e := FirstOpen(q);
      if e < |q| then
        reqQueue == q[..e] + q[e + 1..] && replies == before + [ReplyNow(q[e], answer, 0)]
      else reqQueue == q && replies == before
    }

    /** The loop that answers a pending OPEN; the state has already been set. */
    method AnswerOpen(answer: Word)
      requires Books(CS_CONNECTING, state) && Ticking(reqQueue, due, sweeps) && answer != RS_TIMEOUT
      modifies this`reqQueue, this`replies, reqQueue`state
      ensures Valid() && OpenAnswered(answer, old(reqQueue), old(replies))
    {
      Codes();
      hide *;
      BookParts(CS_CONNECTING, state);
      ghost var q, before := reqQueue, replies;
      for i := 0 to |reqQueue|
        invariant reqQueue == q && replies == before
        invariant forall j | 0 <= j < i :: q[j].rtype != RT_OPEN
      {
        if reqQueue[i].rtype == RT_OPEN {
          OnlyOpen(q, i, state);
          AnswerAt(i, answer, CS_CONNECTING);
          OpenAnsweredNow(answer, q, before, i);
          return;
        }
      }
      NoOpen(q, state);
      Whole(state);
      OpenAnsweredNow(answer, q, before, |q|);
    }

    lemma OpenAnsweredNow(answer: Word, q: seq<Request>, before: seq<Requests.Reply>, e: nat)
      requires e <= |q| && (forall j | 0 <= j < e :: q[j].rtype != RT_OPEN)
      requires if e < |q| then
                 && q[e].rtype == RT_OPEN && reqQueue == q[..e] + q[e + 1..]
                 && replies == before + [ReplyNow(q[e], answer, 0)]
               else reqQueue == q && replies == before
      ensures OpenAnswered(answer, q, before)
    {
    }

    static lemma OnlyOpen(q: seq<Request>, i: nat, state: Word)
      requires Queueable(q, CS_CONNECTING) && i < |q| && q[i].rtype == RT_OPEN
      ensures Queueable(q[..i] + q[i + 1..], state)
    {
      var rest := q[..i] + q[i + 1..];
      assert forall j | 0 <= j < |rest| :: rest[j] == q[if j < i then j else j + 1];
    }

    static lemma NoOpen(q: seq<Request>, state: Word)
      requires Queueable(q, CS_CONNECTING) && forall j | 0 <= j < |q| :: q[j].rtype != RT_OPEN
      ensures Queueable(q, state)
    {
    }

    /** APB_DestroyConnection: the packets still queued are released; requests still queued stay unanswered. */
    method Destroy(out: Outbox)
      requires Valid() && !destroyed
      modifies this`packetQueue, this`dropped, this`destroyed, this`state, out
      ensures Valid() && destroyed && packetQueue == [] && dropped == old(packetQueue)
      ensures state == if old(state) < CS_DISCONNECTING then CS_DISCONNECTING else old(state)
      ensures out.sent == old(out.sent)
                          + if old(state) < CS_DISCONNECTING then [Outgoing(PT_DISCONNECT, id, [])] else []
    {
      hide *;
      if state < CS_DISCONNECTING {
        Disconnect(out);
      }
      Parts();
      BookParts(state, state);
      ConserveDrop(arrived, replies, packetQueue);
      NoneSmall();
      dropped, destroyed := packetQueue, true;
      packetQueue := [];
      Whole(state);
    }

    static lemma NoneSmall()
      ensures AllSmall([])
    {
    }

    /** What a packet does to a connection that was in state `was`, with requests `q` and packets `ps` in its
        queues and `before` the replies given so far. */
    ghost predicate PacketHandled(p: Packet, was: Word, q: seq<Request>, ps: seq<Packet>,
                                  before: seq<Requests.Reply>)
      reads this
    {
      if p.ptype == PT_CONNECTED then
        state == CS_CONNECTED && packetQueue == ps && OpenAnswered(RS_OK, q, before)
      else if p.ptype == PT_NO_HANDLER then
        state == CS_NO_HANDLER && packetQueue == ps && OpenAnswered(RS_NO_HANDLER, q, before)
      else if p.ptype == PT_DISCONNECTED then
        && state == CS_DISCONNECTED && destroyed && dropped == ps
        && reqQueue == q && replies == before
      else
        && state == was
        && if was < CS_DISCONNECTING then Pushed(q, ps + [p], before)
           else reqQueue == q && packetQueue == ps && replies == before
    }

    /** APB_HandleConnectionPacket */
    method HandleConnectionPacket(p: Packet, out: Outbox)
      requires Valid() && !destroyed && |p.payload| <= BUFFER_SIZE
      modifies this`state, this`reqQueue, this`packetQueue, this`replies, this`arrived, this`dropped, this`log,
        this`destroyed, reqQueue`state, reqQueue`actual, (set q | q in reqQueue :: q.data), out
      ensures Valid() && (destroyed <==> p.ptype == PT_DISCONNECTED) && out.sent == old(out.sent)
      ensures log == old(log) + [p]
      ensures arrived == old(arrived) + if IsData(p) && old(state) < CS_DISCONNECTING then [p] else []
      ensures PacketHandled(p, old(state), old(reqQueue), old(packetQueue), old(replies))
    {
      PacketCodes(p);
      hide *;
      ghost var was := state;
      if p.ptype == PT_CONNECTED {
        ChangeState(p, CS_CONNECTED, RS_OK);
      } else if p.ptype == PT_DISCONNECTED {
        Disconnected(p);
        Destroy(out);
      } else if p.ptype == PT_NO_HANDLER {
        ChangeState(p, CS_NO_HANDLER, RS_NO_HANDLER);
      } else if state < CS_DISCONNECTING {
        Arrive(p);
        PushToClient();
      } else {
        Ignore(p);
      }
      PacketIs(p, was, old(reqQueue), old(packetQueue), old(replies));
    }

    /** The answer to a CONNECT: the state changes, and a pending OPEN is answered. */
    method ChangeState(p: Packet, s: Word, answer: Word)
      requires Valid() && answer != RS_TIMEOUT
      requires (p.ptype == PT_CONNECTED && s == CS_CONNECTED) || (p.ptype == PT_NO_HANDLER && s == CS_NO_HANDLER)
      modifies this`state, this`log, this`reqQueue, this`replies, reqQueue`state
      ensures Valid() && state == s && log == old(log) + [p] && OpenAnswered(answer, old(reqQueue), old(replies))
    {
      hide *;
      Parts();
      BookParts(state, state);
      ReadsFit(reqQueue, state);
      LogOne(steady, log, arrived, state, p);
      log := log + [p];
      state := s;
      BooksNow(CS_CONNECTING);
      AnswerOpen(answer);
    }

    method Disconnected(p: Packet)
      requires Valid() && p.ptype == PT_DISCONNECTED
      modifies this`state, this`log
      ensures Valid() && state == CS_DISCONNECTED && log == old(log) + [p]
    {
      PacketCodes(p);
      hide *;
      Parts();
      BookParts(state, state);
      LogOne(steady, log, arrived, state, p);
      NoneConnected(reqQueue, state, CS_DISCONNECTED);
      log := log + [p];
      state := CS_DISCONNECTED;
      Whole(state);
    }

    /** A packet for the client is put at the end of the queue. */
    method Arrive(p: Packet)
      requires Valid() && !destroyed && IsData(p) && state < CS_DISCONNECTING && |p.payload| <= BUFFER_SIZE
      modifies this`packetQueue, this`arrived, this`log
      ensures Valid() && log == old(log) + [p]
      ensures arrived == old(arrived) + [p] && packetQueue == old(packetQueue) + [p]
    {
      hide *;
      Parts();
      BookParts(state, state);
      LogOne(steady, log, arrived, state, p);
      ConserveArrival(arrived, replies, packetQueue, p);
      StillSmall(packetQueue, p);
      log, arrived, packetQueue := log + [p], arrived + [p], packetQueue + [p];
      Whole(state);
    }

    /** A packet for a client that is about to leave is released. */
    method Ignore(p: Packet)
      requires Valid() && IsData(p) && state >= CS_DISCONNECTING
      modifies this`log
      ensures Valid() && log == old(log) + [p]
    {
      hide *;
      Parts();
      BookParts(state, state);
      LogOne(steady, log, arrived, state, p);
      log := log + [p];
      Whole(state);
    }

    static lemma StillSmall(packets: seq<Packet>, p: Packet)
      requires AllSmall(packets) && |p.payload| <= BUFFER_SIZE
      ensures AllSmall(packets + [p])
    {
    }

    static lemma PacketCodes(p: Packet)
      ensures IsData(p) <==> p.ptype != PT_CONNECTED && p.ptype != PT_DISCONNECTED && p.ptype != PT_NO_HANDLER
      ensures PT_CONNECTED != PT_DISCONNECTED && PT_CONNECTED != PT_NO_HANDLER && PT_DISCONNECTED != PT_NO_HANDLER
      ensures RS_OK != RS_TIMEOUT && RS_NO_HANDLER != RS_TIMEOUT && CS_DISCONNECTED >= CS_DISCONNECTING
      ensures CS_DISCONNECTED != CS_CONNECTED
    {
    }

    static lemma ReadsFit(q: seq<Request>, state: Word)
      requires Queueable(q, state)
      ensures Queueable(q, CS_CONNECTING)
    {
    }

    static lemma NoneConnected(q: seq<Request>, was: Word, state: Word)
      requires Queueable(q, was) && state != CS_CONNECTED
      ensures Queueable(q, state)
    {
    }

    lemma PacketIs(p: Packet, was: Word, q: seq<Request>, ps: seq<Packet>, before: seq<Requests.Reply>)
      requires
        if p.ptype == PT_CONNECTED then
          state == CS_CONNECTED && packetQueue == ps && OpenAnswered(RS_OK, q, before)
        else if p.ptype == PT_NO_HANDLER then
          state == CS_NO_HANDLER && packetQueue == ps && OpenAnswered(RS_NO_HANDLER, q, before)
        else if p.ptype == PT_DISCONNECTED then
          && state == CS_DISCONNECTED && destroyed && dropped == ps
          && reqQueue == q && replies == before
        else
          && state == was
          && if was < CS_DISCONNECTING then Pushed(q, ps + [p], before)
             else reqQueue == q && packetQueue == ps && replies == before
      ensures PacketHandled(p, was, q, ps, before)
    {
    }
  }
}
