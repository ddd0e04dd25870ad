/** Client requests, the replies to them, and what pairing queued packets with queued reads and counting
    down timeouts come to. */
module Requests {
  import opened Memory
  import opened Framing

  const RT_OPEN: Word := 1
  const RT_CLOSE: Word := 2
  const RT_READ: Word := 3
  const RT_WRITE: Word := 4

  const RS_OK: Word := 1
  const RS_FAILED: Word := 2
  const RS_NOT_CONNECTED: Word := 3
  const RS_NO_HANDLER: Word := 4
  const RS_NO_CONNECTION: Word := 5
  const RS_BUFFER_TOO_SMALL: Word := 8
  const RS_TIMEOUT: Word := 9

  /** A message from a client, from the time the server gets it to its reply. What the client fills in is
      constant meanwhile. A client that sends the same memory again sends another request here, which may
      share the data buffer and whose tick counter starts out as what was left in it. */
  class Request {
    const rtype: Word
    const handlerId: Word
    const length: Word
    const timeout: Word
    const data: array<Byte>
    var state: Word
    var actual: Word
    var connId: Word
    var timeoutTicks: Word

    constructor (rtype: Word, handlerId: Word, length: Word, timeout: Word, data: array<Byte>, memory: Word)
      ensures this.rtype == rtype && this.handlerId == handlerId && this.length == length
      ensures this.timeout == timeout && this.data == data && timeoutTicks == memory
    {
      this.rtype, this.handlerId, this.length, this.timeout, this.data := rtype, handlerId, length, timeout, data;
      timeoutTicks := memory;
    }
  }

  /** A request as its client gets it back: the state, the count and the data read; `due` is the sweep
      at which it was to time out and `at` the number of sweeps when it was replied to. */
  datatype Reply = Reply(request: Request, state: Word, actual: Word, data: seq<Byte>, due: Option<nat>,
                         at: nat)

  /** The payloads that the reads replied to as OK got, in order. */
  function Received(replies: seq<Reply>): seq<seq<Byte>> {
    if replies == [] then []
    else
      var last := replies[|replies| - 1];
      Received(replies[..|replies| - 1])
      + if last.request.rtype == RT_READ && last.state == RS_OK then [last.data] else []
  }

  function RequestsOf(replies: seq<Reply>): (r: seq<Request>)
    ensures |r| == |replies| && forall k | 0 <= k < |r| :: r[k] == replies[k].request
  {
    seq(|replies|, k requires 0 <= k < |replies| => replies[k].request)
  }

  function Payloads(packets: seq<Packet>): (r: seq<seq<Byte>>)
    ensures |r| == |packets| && forall k | 0 <= k < |r| :: r[k] == packets[k].payload
  {
    seq(|packets|, k requires 0 <= k < |packets| => packets[k].payload)
  }

  lemma {:induction false} ReceivedConcat(a: seq<Reply>, b: seq<Reply>)
    ensures Received(a + b) == Received(a) + Received(b)
  {
    if b == [] {
      assert a + b == a;
    } else {
      assert (a + b)[..|a + b| - 1] == a + b[..|b| - 1];
      ReceivedConcat(a, b[..|b| - 1]);
    }
  }

  lemma ReceivedOne(reply: Reply)
    ensures Received([reply]) ==
            if reply.request.rtype == RT_READ && reply.state == RS_OK then [reply.data] else []
  {
    assert Received([reply][..0]) == [];
  }

  function DueOf(due: map<Request, nat>, r: Request): Option<nat> {
    if r in due then Some(due[r]) else None
  }

  /** The reply to the first request when the first packet is there for it. */
  function ServedOne(r: Request, p: Packet, due: map<Request, nat>, at: nat): Reply
    requires |p.payload| <= BUFFER_SIZE
  {
    if r.length < |p.payload| then Reply(r, RS_BUFFER_TOO_SMALL, |p.payload|, [], DueOf(due, r), at)
    else Reply(r, RS_OK, |p.payload|, p.payload, DueOf(due, r), at)
  }

  ghost predicate AllSmall(packets: seq<Packet>) {
    forall p | p in packets :: |p.payload| <= BUFFER_SIZE
  }

  /** What is left of the packets when the first request has been answered. */
  function Rest(r: Request, packets: seq<Packet>): seq<Packet>
    requires packets != []
  {
    if r.length < |packets[0].payload| then packets else packets[1..]
  }

  /** The replies when requests and packets are paired in order until one of the queues is empty; a
      packet too big for a request stays for the next one. */
  ghost function Served(reqs: seq<Request>, packets: seq<Packet>, due: map<Request, nat>, at: nat): seq<Reply>
    requires AllSmall(packets)
    decreases |reqs|
  {
    if reqs == [] || packets == [] then []
    else [ServedOne(reqs[0], packets[0], due, at)] + Served(reqs[1..], Rest(reqs[0], packets), due, at)
  }

  /** How many packets are handed out by this. */
  ghost function HandedOut(reqs: seq<Request>, packets: seq<Packet>): (n: nat)
    ensures n <= |packets|
    decreases |reqs|
  {
    if reqs == [] || packets == [] then 0
    else HandedOut(reqs[1..], Rest(reqs[0], packets)) + |packets| - |Rest(reqs[0], packets)|
  }

  ghost predicate AllReads(reqs: seq<Request>) {
    forall r | r in reqs :: r.rtype == RT_READ
  }

  lemma ServedStep(reqs: seq<Request>, packets: seq<Packet>, due: map<Request, nat>, at: nat)
    requires AllSmall(packets) && AllReads(reqs) && reqs != [] && packets != []
    ensures var rest, n := Rest(reqs[0], packets), HandedOut(reqs, packets);
            && AllSmall(rest) && AllReads(reqs[1..]) && n <= |packets|
            && Served(reqs, packets, due, at) == [ServedOne(reqs[0], packets[0], due, at)]
                                                 + Served(reqs[1..], rest, due, at)
            && n == HandedOut(reqs[1..], rest) + |packets| - |rest|
  {
  }

  lemma PayloadsStep(r: Request, packets: seq<Packet>, n: nat, due: map<Request, nat>, at: nat)
    requires AllSmall(packets) && packets != [] && r.rtype == RT_READ && n <= |Rest(r, packets)|
    ensures n + |packets| - |Rest(r, packets)| <= |packets|
    ensures Payloads(packets[..n + |packets| - |Rest(r, packets)|])
            == Received([ServedOne(r, packets[0], due, at)]) + Payloads(Rest(r, packets)[..n])
  {
    ReceivedOne(ServedOne(r, packets[0], due, at));
    hide Received;
    if r.length >= |packets[0].payload| {
      assert packets[..n + 1] == [packets[0]] + packets[1..][..n];
    }
  }

  lemma RequestsStep(reqs: seq<Request>, p: Packet, due: map<Request, nat>, at: nat, tail: seq<Reply>)
    requires reqs != [] && |p.payload| <= BUFFER_SIZE && |tail| < |reqs|
    requires RequestsOf(tail) == reqs[1..][..|tail|]
    ensures RequestsOf([ServedOne(reqs[0], p, due, at)] + tail) == reqs[..|tail| + 1]
  {
    assert reqs[..|tail| + 1] == [reqs[0]] + reqs[1..][..|tail|];
  }

  /** The requests are answered in order; the reads among them that are OK get exactly the packets handed
      out, in order and once each; and afterwards one of the queues is empty. */
  lemma {:induction false} ServedInOrder(reqs: seq<Request>, packets: seq<Packet>, due: map<Request, nat>, at: nat)
    requires AllSmall(packets) && AllReads(reqs)
    ensures var s, n := Served(reqs, packets, due, at), HandedOut(reqs, packets);
            && |s| <= |reqs| && RequestsOf(s) == reqs[..|s|]
            && Received(s) == Payloads(packets[..n])
            && (|s| == |reqs| || n == |packets|)
    decreases |reqs|
  {
    if reqs != [] && packets != [] {
      hide *;
      var first, rest := ServedOne(reqs[0], packets[0], due, at), Rest(reqs[0], packets);
      FirstFits(reqs, packets);
      ServedStep(reqs, packets, due, at);
      ServedInOrder(reqs[1..], rest, due, at);
      var tail := Served(reqs[1..], rest, due, at);
      ReceivedConcat([first], tail);
      RequestsStep(reqs, packets[0], due, at, tail);
      PayloadsStep(reqs[0], packets, HandedOut(reqs[1..], rest), due, at);
    }
  }

  lemma FirstFits(reqs: seq<Request>, packets: seq<Packet>)
    requires AllSmall(packets) && AllReads(reqs) && reqs != [] && packets != []
    ensures |packets[0].payload| <= BUFFER_SIZE && reqs[0].rtype == RT_READ
    ensures |Rest(reqs[0], packets)| <= |packets|
  {
  }

  /** A read is answered with the length of the packet at the head of the queue, and with its payload unless
      the read is too small for it: then it gets nothing. */
  lemma {:induction false} ServedAt(reqs: seq<Request>, packets: seq<Packet>, due: map<Request, nat>, at: nat,
                                    k: nat)
    requires AllSmall(packets) && k < |Served(reqs, packets, due, at)|
    ensures k < |reqs| && HandedOut(reqs[..k], packets) < |packets|
    ensures var reply, p := Served(reqs, packets, due, at)[k], packets[HandedOut(reqs[..k], packets)];
            && reply.request == reqs[k] && reply.actual == |p.payload|
            && reply.at == at && reply.due == DueOf(due, reqs[k])
            && if reqs[k].length >= |p.payload| then reply.state == RS_OK && reply.data == p.payload
               else reply.state == RS_BUFFER_TOO_SMALL && reply.data == []
    decreases k
  {
    if k > 0 {
      var rest := Rest(reqs[0], packets);
      ServedAt(reqs[1..], rest, due, at, k - 1);
      assert reqs[..k][1..] == reqs[1..][..k - 1];
    }
  }

  /** The first request with one tick left, if there is one. */
  function FirstExpired(ticks: seq<Word>): (e: nat)
    ensures e <= |ticks| && (e < |ticks| ==> ticks[e] == 1)
    ensures forall i | 0 <= i < e :: ticks[i] != 1
  {
    if ticks == [] || ticks[0] == 1 then 0 else 1 + FirstExpired(ticks[1..])
  }

  function Less(ticks: Word): Word {
    if ticks > 1 then ticks - 1 else ticks
  }

  /** One sweep: the counters are decremented up to the first request that expires. It leaves the queue,
      and as the reply relinks it, the requests behind it are not looked at. */
  function Swept(ticks: seq<Word>): (r: seq<Word>)
    ensures var e := FirstExpired(ticks);
            && |r| == (if e < |ticks| then |ticks| - 1 else |ticks|)
            && (forall i | 0 <= i < e :: r[i] == Less(ticks[i]))
            && (forall i | e <= i < |r| :: r[i] == ticks[i + 1])
  {
    var e := FirstExpired(ticks);
    seq(e, i requires 0 <= i < |ticks| => Less(ticks[i])) + if e < |ticks| then ticks[e + 1..] else []
  }

  /** Request number `j` expires in the `n`-th of the sweeps to come, if nothing else happens. */
  predicate ExpiresIn(ticks: seq<Word>, j: nat, n: nat)
    requires j < |ticks|
    decreases n
  {
    var e := FirstExpired(ticks);
    if n == 0 then false
    else if e == j then n == 1
    else ExpiresIn(Swept(ticks), if e < j then j - 1 else j, n - 1)
  }

  /** No request expires before its time, and one whose counter is zero never does. */
  lemma {:induction false} NeverEarly(ticks: seq<Word>, j: nat, n: nat)
    requires j < |ticks| && ExpiresIn(ticks, j, n)
    ensures 0 < ticks[j] <= n
    decreases n
  {
    var e := FirstExpired(ticks);
    if e != j {
      NeverEarly(Swept(ticks), if e < j then j - 1 else j, n - 1);
    }
  }

  /** No request ahead of number `j` has a counter between 1 and that of `j`. */
  ghost predicate NothingSooner(ticks: seq<Word>, j: nat)
    requires j < |ticks|
  {
    forall i | 0 <= i < j :: ticks[i] == 0 || ticks[i] > ticks[j]
  }

  lemma AfterSweep(ticks: seq<Word>, j: nat)
    requires j < |ticks| && ticks[j] > 1 && FirstExpired(ticks) > j
    ensures |Swept(ticks)| > j && Swept(ticks)[j] == ticks[j] - 1
    ensures NothingSooner(Swept(ticks), j) <==> NothingSooner(ticks, j)
  {
    var next := Swept(ticks);
    assert forall i | 0 <= i < j :: next[i] == Less(ticks[i]) && ticks[i] != 1;
    hide Swept, FirstExpired;
  }

  /** A request with T > 0 ticks left expires in exactly the T-th sweep if and only if no request ahead of
      it in the queue has a counter between 1 and T. */
  lemma {:induction false} ExactExpiry(ticks: seq<Word>, j: nat)
    requires j < |ticks| && ticks[j] > 0
    ensures ExpiresIn(ticks, j, ticks[j]) <==> forall i | 0 <= i < j :: ticks[i] == 0 || ticks[i] > ticks[j]
    decreases ticks[j]
  {
    var t, e, next := ticks[j], FirstExpired(ticks), Swept(ticks);
    hide Swept, FirstExpired;
    if e < j {
      if t > 1 && ExpiresIn(next, j - 1, t - 1) {
        NeverEarly(next, j - 1, t - 1);
      }
    } else if t > 1 {
      AfterSweep(ticks, j);
      ExactExpiry(next, j);
    }
  }

  /** Two requests with one tick left each: the second one does not expire in its first sweep but in the
      next. */
  lemma LateExpiry()
    ensures !ExpiresIn([1, 1], 1, 1) && ExpiresIn([1, 1], 1, 2)
  {
    ExactExpiry([1, 1], 1);
    assert FirstExpired([1, 1]) == 0 && Swept([1, 1]) == [1];
    assert FirstExpired([1]) == 0;
  }
}
