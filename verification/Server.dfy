/** The server: it hands the packets of the link to its connections, asks for packets it missed, and watches
    the link. */
module Server {
  import opened Memory
  import opened Framing
  import opened Requests
  import opened Connection
  import opened Gaps
  import opened Watchdog

  const DEFAULT_CONNECTION: Word := 0
  const PT_HELLO: Byte := 0x01
  const PT_GOODBYE: Byte := 0x03
  const PT_RESEND: Byte := 0x22
  const PT_PING: Byte := 0x23
  const PT_PONG: Byte := 0x24
  const PT_NO_CONNECTION: Byte := 0x32

  const RT_SRV_QUIT: Word := 100
  const RT_SRV_LOG_LEVEL: Word := 102

  predicate Resent(p: Packet) {
    p.flags / PF_RESEND % 2 == 1
  }

  /** The flag is the second lowest bit. */
  lemma ResentIsBit(p: Packet)
    ensures Resent(p) <==> p.flags % 4 == 2 || p.flags % 4 == 3
  {
  }

  /** What a packet means to the watch over the link. */
  function ControlOf(p: Packet): Control {
    if p.connId != DEFAULT_CONNECTION then Other
    else if p.ptype == PT_HELLO then Hello
    else if p.ptype == PT_GOODBYE then Goodbye
    else if p.ptype == PT_PONG then Pong
    else Other
  }

  /** The identifiers of the packets that were not sent again. */
  function IdsOf(packets: seq<Packet>): seq<nat> {
    if packets == [] then []
    else
      var last := packets[|packets| - 1];
      IdsOf(packets[..|packets| - 1]) + if Resent(last) then [] else [last.packId]
  }

  /** The packets for connection `id`. */
  function ForConnection(packets: seq<Packet>, id: Word): seq<Packet> {
    if packets == [] then []
    else
      var last := packets[|packets| - 1];
      ForConnection(packets[..|packets| - 1], id) + if last.connId == id then [last] else []
  }

  lemma ForConnectionOne(packets: seq<Packet>, p: Packet, id: Word)
    ensures ForConnection(packets + [p], id) == ForConnection(packets, id) + if p.connId == id then [p] else []
  {
    assert (packets + [p])[..|packets|] == packets;
  }

  lemma IdsOfOne(packets: seq<Packet>, p: Packet)
    ensures IdsOf(packets + [p]) == IdsOf(packets) + if Resent(p) then [] else [p.packId]
  {
    assert (packets + [p])[..|packets|] == packets;
  }

  /** The requests to send the packets `ids` again. */
  function Resends(ids: seq<nat>): (r: seq<Outgoing>)
    requires forall k | 0 <= k < |ids| :: ids[k] < 0x1_0000
  {
    seq(|ids|, k requires 0 <= k < |ids| => Outgoing(PT_RESEND, DEFAULT_CONNECTION, WordBytes(ids[k])))
  }

  /** The identifiers of the packets that the RESEND packets among `sent` ask for. */
  function ResendIds(sent: seq<Outgoing>): seq<nat> {
    if sent == [] then []
    else
      var last := sent[|sent| - 1];
      ResendIds(sent[..|sent| - 1])
      + if last.ptype == 0x22 && last.connId == 0 && |last.payload| == 2 then
          [0x100 * (last.payload[0] as int) + last.payload[1] as int]
        else []
  }

  lemma {:induction false} ResendIdsConcat(a: seq<Outgoing>, b: seq<Outgoing>)
    ensures ResendIds(a + b) == ResendIds(a) + ResendIds(b)
  {
    if b == [] {
      assert a + b == a;
    } else {
      assert (a + b)[..|a + b| - 1] == a + b[..|b| - 1];
      ResendIdsConcat(a, b[..|b| - 1]);
    }
  }

  /** Each of them asks for one packet, in a RESEND on the control connection. */
  lemma {:induction false} ResendsAsk(ids: seq<nat>)
    requires forall k | 0 <= k < |ids| :: ids[k] < 0x1_0000
    ensures ResendIds(Resends(ids)) == ids
  {
    if ids != [] {
      var n := |ids| - 1;
      assert Resends(ids)[..n] == Resends(ids[..n]);
      ResendsAsk(ids[..n]);
    }
  }

  lemma {:induction false} NoneAsked(sent: seq<Outgoing>)
    requires forall k | 0 <= k < |sent| :: sent[k].ptype != PT_RESEND
    ensures ResendIds(sent) == []
  {
    if sent != [] {
      NoneAsked(sent[..|sent| - 1]);
    }
  }

  /** Nothing has been asked for since `before`. */
  ghost predicate NoneAskedSince(before: seq<Outgoing>, after: seq<Outgoing>) {
    before <= after && forall k | |before| <= k < |after| :: after[k].ptype != PT_RESEND
  }

  lemma NoMoreAsked(before: seq<Outgoing>, after: seq<Outgoing>)
    requires NoneAskedSince(before, after)
    ensures ResendIds(after) == ResendIds(before)
  {
    var more := after[|before|..];
    assert after == before + more && forall k | 0 <= k < |more| :: more[k] == after[|before| + k];
    NoneAsked(more);
    ResendIdsConcat(before, more);
  }

  ghost predicate DistinctIds(connections: seq<Connection>) {
    forall i, j | 0 <= i < j < |connections| :: connections[i].id != connections[j].id
  }

  /** No request is known to two connections. */
  ghost predicate Separate(connections: seq<Connection>)
    reads connections`accepted
  {
    forall i, j | 0 <= i < |connections| && 0 <= j < |connections| && i != j ::
      forall r | r in connections[i].accepted :: r !in connections[j].accepted
  }

  /** Every connection has been handed its packets, in order, since it exists. */
  ghost predicate Handed(connections: seq<Connection>, handled: seq<Packet>, from: map<Connection, nat>)
    reads connections`log
  {
    forall c | c in connections ::
      c in from && from[c] <= |handled| && c.log == ForConnection(handled[from[c]..], c.id)
  }

  /** All connections are in use and consistent; `reqs` includes all requests they have accepted. */
  ghost predicate AllLive(connections: seq<Connection>, reqs: set<Request>)
    reads connections, reqs
  {
    forall c | c in connections :: Live(c, reqs)
  }

  ghost predicate Live(c: Connection, reqs: set<Request>)
    reads c, reqs
  {
    (forall r | r in c.accepted :: r in reqs) && QueueAccepted(c) && c.Valid() && !c.destroyed
  }

  ghost predicate QueueAccepted(c: Connection)
    reads c`reqQueue, c`accepted
  {
    forall r | r in c.reqQueue :: r in c.accepted
  }

  /** Connections are numbered in the order of their creation. */
  ghost predicate Numbered(connections: seq<Connection>, opens: nat) {
    forall c | c in connections :: 1 <= c.id <= opens
  }

  /** Connections that have left the table: their accounts are closed, and their logs stay where they were. */
  ghost predicate Past(closed: seq<Connection>, connections: seq<Connection>, handled: seq<Packet>,
                       from: map<Connection, nat>)
    reads closed
  {
    forall c | c in closed ::
      && c !in connections && c.Books(c.state, c.state)
      && c in from && from[c] <= |handled| && c.log <= ForConnection(handled[from[c]..], c.id)
  }

  lemma {:induction false} ForConnectionPrefix(a: seq<Packet>, b: seq<Packet>, id: Word)
    requires a <= b
    ensures ForConnection(a, id) <= ForConnection(b, id)
  {
    if |a| < |b| {
      ForConnectionPrefix(a, b[..|b| - 1], id);
    } else {
      assert a == b;
    }
  }

  lemma PastGrows(closed: seq<Connection>, connections: seq<Connection>, history: seq<Packet>,
                  from: map<Connection, nat>, p: Packet)
    requires Past(closed, connections, history, from)
    ensures Past(closed, connections, history + [p], from)
  {
    hide Connection.Books;
    forall c | c in closed ensures c.log <= ForConnection((history + [p])[from[c]..], c.id) {
      assert history[from[c]..] <= (history + [p])[from[c]..];
      ForConnectionPrefix(history[from[c]..], (history + [p])[from[c]..], c.id);
    }
  }

  /** Connection number `i` leaves the table. */
  lemma OneLeaves(closed: seq<Connection>, connections: seq<Connection>, i: nat, history: seq<Packet>,
                  from: map<Connection, nat>)
    requires Past(closed, connections, history, from) && i < |connections| && DistinctIds(connections)
    requires var c := connections[i];
             && c.Books(c.state, c.state)
             && c in from && from[c] <= |history| && c.log == ForConnection(history[from[c]..], c.id)
    ensures Past(closed + [connections[i]], Without(connections, i), history, from)
  {
    hide Connection.Books, ForConnection;
  }

  /** A connection that did not exist before enters the table. */
  lemma OneEnters(closed: seq<Connection>, connections: seq<Connection>, history: seq<Packet>,
                  from: map<Connection, nat>, c: Connection)
    requires Past(closed, connections, history, from) && c !in closed
    ensures Past(closed, connections + [c], history, from[c := |history|])
  {
    hide Connection.Books;
  }

  lemma NotPast(closed: seq<Connection>, connections: seq<Connection>, history: seq<Packet>,
                from: map<Connection, nat>, i: nat)
    requires Past(closed, connections, history, from) && i < |connections|
    ensures forall j | 0 <= j < |closed| :: closed[j] != connections[i]
  {
    hide Connection.Books;
    forall j | 0 <= j < |closed| ensures closed[j] != connections[i] {
      assert closed[j] in closed;
    }
  }

  /** All connections but number `i`. */
  function Without(connections: seq<Connection>, i: nat): (r: seq<Connection>)
    requires i < |connections|
  {
    connections[..i] + connections[i + 1..]
  }

  lemma WithoutKeeps(connections: seq<Connection>, i: nat, opens: nat, reqs: set<Request>)
    requires DistinctIds(connections) && Separate(connections) && AllLive(connections, reqs)
    requires i < |connections| && Numbered(connections, opens)
    ensures var c, rest := connections[i], Without(connections, i);
            && DistinctIds(rest) && Separate(rest) && Numbered(rest, opens) && Live(c, reqs)
            && AllLive(rest, Others(c, reqs)) && c !in rest
            && (forall d | d in rest :: d.id != c.id && d in connections)
            && (forall r | r in Others(c, reqs) :: r in reqs && r !in c.reqQueue)
  {
    var c, rest := connections[i], Without(connections, i);
    assert forall j | 0 <= j < |rest| :: rest[j] == connections[if j < i then j else j + 1];
    hide Connection.Valid;
    forall d | d in rest ensures Live(d, Others(c, reqs)) && d in connections && d.id != c.id {
      var j: nat :| j < |rest| && rest[j] == d;
      var k := if j < i then j else j + 1;
      assert connections[k] == d && connections[k].id != connections[i].id;
      assert Live(d, reqs);
      forall r | r in d.accepted ensures r in Others(c, reqs) {
        assert r !in c.accepted;
      }
    }
  }

  /** The requests not known to a connection. */
  ghost function Others(c: Connection, reqs: set<Request>): set<Request>
    reads c`accepted
  {
    reqs - set r | r in c.accepted
  }

  lemma LiveAfter(c: Connection, reqs: set<Request>)
    requires c.Valid() && !c.destroyed && forall r | r in c.accepted :: r in reqs
    ensures Live(c, reqs)
  {
    forall r | r in c.reqQueue ensures r in c.accepted {
      ExactlyOnce(c.accepted, c.reqQueue, c.replies);
    }
  }

  /** The history grows by a packet that is not for these connections. */
  lemma HandedOthers(connections: seq<Connection>, history: seq<Packet>, from: map<Connection, nat>, p: Packet)
    requires Handed(connections, history, from) && forall c | c in connections :: c.id != p.connId
    ensures Handed(connections, history + [p], from)
  {
    forall c | c in connections
      ensures c in from && from[c] <= |history + [p]|
              && c.log == ForConnection((history + [p])[from[c]..], c.id)
    {
      ForConnectionOne(history[from[c]..], p, c.id);
      assert (history + [p])[from[c]..] == history[from[c]..] + [p];
    }
  }

  lemma HandedWithout(connections: seq<Connection>, i: nat, history: seq<Packet>, from: map<Connection, nat>)
    requires Handed(connections, history, from) && i < |connections|
    ensures Handed(Without(connections, i), history, from)
    ensures var c := connections[i];
            c in from && from[c] <= |history| && c.log == ForConnection(history[from[c]..], c.id)
  {
  }

  /** What connection number `i` and the others satisfy, all satisfy. */
  lemma AllAgain(connections: seq<Connection>, i: nat, history: seq<Packet>, from: map<Connection, nat>,
                 others: set<Request>, reqs: set<Request>)
    requires i < |connections| && Live(connections[i], reqs) && others <= reqs
    requires AllLive(Without(connections, i), others) && Handed(Without(connections, i), history, from)
    requires var c := connections[i];
             c in from && from[c] <= |history| && c.log == ForConnection(history[from[c]..], c.id)
    ensures AllLive(connections, reqs) && Handed(connections, history, from)
  {
    var rest := Without(connections, i);
    forall c | c in connections ensures c == connections[i] || c in rest {
      var j: nat :| j < |connections| && connections[j] == c;
      if j != i {
        assert rest[if j < i then j else j - 1] == c;
      }
    }
    hide Connection.Valid;
  }

  lemma SeparateAgain(connections: seq<Connection>, i: nat, others: set<Request>)
    requires i < |connections| && Separate(Without(connections, i)) && AllLive(Without(connections, i), others)
    requires forall r | r in connections[i].accepted :: r !in others
    ensures Separate(connections)
  {
    hide Connection.Valid;
    var c, rest := connections[i], Without(connections, i);
    forall j | 0 <= j < |connections| && j != i
      ensures forall r | r in connections[j].accepted :: r in others && r !in c.accepted
      ensures connections[j] == rest[if j < i then j else j - 1]
    {
      assert connections[j] == rest[if j < i then j else j - 1];
      assert Live(connections[j], others);
    }
  }

  lemma OthersApart(c: Connection, reqs: set<Request>)
    ensures Others(c, reqs) <= reqs && forall r | r in c.accepted :: r !in Others(c, reqs)
  {
  }

  /** A new connection, numbered after all others, joins them. */
  lemma OneMore(connections: seq<Connection>, history: seq<Packet>, from: map<Connection, nat>, opens: nat,
                reqs: set<Request>, c: Connection)
    requires DistinctIds(connections) && Separate(connections) && AllLive(connections, reqs)
    requires Handed(connections, history, from) && Numbered(connections, opens)
    requires c.id == opens + 1 && c.Valid() && !c.destroyed && c.accepted == [] && c.log == [] && c !in connections
    ensures var all, from' := connections + [c], from[c := |history|];
            && DistinctIds(all) && Separate(all) && AllLive(all, reqs)
            && Handed(all, history, from') && Numbered(all, opens + 1)
  {
    LiveAfter(c, reqs);
    assert history[|history|..] == [];
    hide Connection.Valid;
  }

  lemma MoreRequests(connections: seq<Connection>, others: set<Request>, reqs: set<Request>)
    requires AllLive(connections, others) && others <= reqs
    ensures AllLive(connections, reqs)
  {
    hide Connection.Valid;
  }

  /** A connection before a sweep. */
  datatype Snap = Snap(sweeps: nat, ticks: seq<Word>, queue: seq<Request>, replies: seq<Reply>)

  ghost function SnapOf(c: Connection): Snap
    reads c, c.reqQueue
  {
    Snap(c.sweeps, Ticks(c.reqQueue), c.reqQueue, c.replies)
  }

  ghost predicate AllQueuedIn(connections: seq<Connection>, reqs: set<Request>)
    reads connections`reqQueue
  {
    forall i | 0 <= i < |connections| :: forall r | r in connections[i].reqQueue :: r in reqs
  }

  ghost function Snaps(connections: seq<Connection>, reqs: set<Request>): (r: seq<Snap>)
    requires AllQueuedIn(connections, reqs)
    reads connections, reqs
    ensures |r| == |connections| && forall i | 0 <= i < |r| :: r[i] == SnapOf(connections[i])
  {
    if connections == [] then []
    else
      var n := |connections| - 1;
      Snaps(connections[..n], reqs) + [SnapOf(connections[n])]
  }

  /** A connection that was `s` has been swept once since: its counters have been decremented up to the first
      request with one tick left, which has been replied to and has left the queue. */
  ghost predicate SweptFrom(s: Snap, c: Connection)
    reads c, c.reqQueue
  {
    && c.sweeps == s.sweeps + 1 && Ticks(c.reqQueue) == Swept(s.ticks)
    && c.Expired(FirstExpired(s.ticks), s.queue, s.replies)
  }

  /** A connection that was `s` has been swept or is as it was; its requests are among `reqs`. */
  ghost predicate SweptOrNot(s: Snap, c: Connection, swept: bool, reqs: set<Request>)
    reads c, reqs
  {
    (forall r | r in c.reqQueue :: r in reqs) && if swept then SweptFrom(s, c) else SnapOf(c) == s
  }

  /** The first `n` connections have been swept, the others are as they were. */
  ghost predicate SweptFirst(connections: seq<Connection>, snaps: seq<Snap>, n: nat, reqs: set<Request>)
    reads connections, reqs
  {
    && |snaps| == |connections|
    && forall i | 0 <= i < |connections| :: SweptOrNot(snaps[i], connections[i], i < n, reqs)
  }

  lemma OtherRequests(s: Snap, c: Connection, swept: bool, reqs: set<Request>, reqs': set<Request>)
    requires SweptOrNot(s, c, swept, reqs) && forall r | r in c.reqQueue :: r in reqs'
    ensures SweptOrNot(s, c, swept, reqs')
  {
  }

  lemma QueuedIn(s: Snap, c: Connection, swept: bool, reqs: set<Request>)
    requires SweptOrNot(s, c, swept, reqs)
    ensures forall r | r in c.reqQueue :: r in reqs
  {
  }

  lemma SweptRest(connections: seq<Connection>, snaps: seq<Snap>, i: nat, reqs: set<Request>)
    returns (snaps': seq<Snap>)
    requires SweptFirst(connections, snaps, i, reqs) && i < |connections|
    requires AllLive(Without(connections, i), Others(connections[i], reqs))
    ensures |snaps| == |connections| && snaps' == snaps[..i] + snaps[i + 1..]
    ensures var c := connections[i]; snaps[i] == Snap(c.sweeps, Ticks(c.reqQueue), c.reqQueue, c.replies)
    ensures SweptFirst(Without(connections, i), snaps', i, Others(connections[i], reqs))
  {
    snaps' := snaps[..i] + snaps[i + 1..];
    assert SweptOrNot(snaps[i], connections[i], false, reqs);
    var rest, others := Without(connections, i), Others(connections[i], reqs);
    hide SweptFrom, SweptOrNot, Connection.Valid, Others;
    forall j | 0 <= j < |rest| ensures SweptOrNot(snaps'[j], rest[j], j < i, others) {
      var k := if j < i then j else j + 1;
      assert rest[j] == connections[k] && snaps'[j] == snaps[k] && (j < i <==> k < i);
      assert Live(rest[j], others);
      OtherRequests(snaps[k], connections[k], j < i, reqs, others);
    }
  }

  lemma SweptAgain(connections: seq<Connection>, snaps: seq<Snap>, i: nat, others: set<Request>, reqs: set<Request>)
    requires i < |connections| == |snaps| && others <= reqs && Live(connections[i], reqs)
    requires SweptFirst(Without(connections, i), snaps[..i] + snaps[i + 1..], i, others)
    requires SweptFrom(snaps[i], connections[i])
    ensures SweptFirst(connections, snaps, i + 1, reqs)
  {
    var rest, snaps' := Without(connections, i), snaps[..i] + snaps[i + 1..];
    assert SweptOrNot(snaps[i], connections[i], true, reqs);
    hide SweptFrom, SweptOrNot, Live;
    forall j | 0 <= j < |connections| ensures SweptOrNot(snaps[j], connections[j], j < i + 1, reqs) {
      if j != i {
        var k := if j < i then j else j - 1;
        assert rest[k] == connections[j] && snaps'[k] == snaps[j] && (j < i + 1 <==> k < i);
        QueuedIn(snaps'[k], rest[k], k < i, others);
        OtherRequests(snaps'[k], rest[k], k < i, others, reqs);
      }
    }
  }

  lemma SweptAll(connections: seq<Connection>, snaps: seq<Snap>, reqs: set<Request>)
    requires SweptFirst(connections, snaps, |connections|, reqs)
    ensures |snaps| == |connections|
    ensures forall i | 0 <= i < |connections| :: SweptFrom(snaps[i], connections[i])
  {
  }

  lemma SweptNow(s: Snap, c: Connection)
    requires c.sweeps == s.sweeps + 1 && Ticks(c.reqQueue) == Swept(s.ticks)
    requires c.Expired(FirstExpired(s.ticks), s.queue, s.replies)
    ensures SweptFrom(s, c)
  {
  }

  class Server {
    const out: Outbox
    var state: ServerState
    var lastInPackId: Word
    var pingSendTicks: Word
    var pingTimeoutTicks: Word
    var missedPingCount: Word

    var connections: seq<Connection>
    var nextConnId: Word

    /** The packets handled so far, and what has been asked for and received by their identifiers. */
    ghost var handled: seq<Packet>
    ghost var ledger: seq<nat>

    /** The number of connections opened so far, and of packets handled before each of them existed; and
        the requests they have accepted. */
    ghost var opens: nat
    ghost var from: map<Connection, nat>
    ghost var requests: set<Request>

    /** The connections that have left the table, in the order in which they did. */
    ghost var closed: seq<Connection>

    /** The replies to requests that are not for any connection. */
    ghost var replies: seq<Reply>

    ghost function Watch(): Watchdog.Watch
      reads this`state, this`pingSendTicks, this`pingTimeoutTicks, this`missedPingCount
    {
      Watchdog.Watch(state, pingSendTicks, pingTimeoutTicks, missedPingCount)
    }

    /** The gap accounting is up to date. */
    ghost predicate Counted()
      reads this`handled, this`ledger, this`lastInPackId
    {
      && ledger == Ledger(0, IdsOf(handled)) && lastInPackId == Last(0, IdsOf(handled))
    }

    /** The connections are consistent with the packets `history`. */
    ghost predicate TableFor(history: seq<Packet>)
      reads this`connections, this`closed, this`requests, this`from, this`opens, this`nextConnId, connections,
        closed, requests
    {
      && DistinctIds(connections) && Separate(connections) && AllLive(connections, requests)
      && Handed(connections, history, from) && Numbered(connections, opens)
      && Past(closed, connections, history, from)
      && opens < 0x1_0000 && nextConnId == (opens + 1) % 0x1_0000
    }

    ghost predicate Table()
      reads this`connections, this`closed, this`requests, this`from, this`opens, this`nextConnId, this`handled,
        connections, closed, requests
    {
      TableFor(handled)
    }

    /** APB_SrvInitServer */
    constructor ()
      ensures Counted() && Table() && handled == [] && fresh(out) && out.sent == [] && Watch() == CREATED.watch
      ensures connections == [] && closed == [] && opens == 0 && requests == {} && replies == []
    {
      out := new Outbox();
      state, lastInPackId := Starting, 0;
      pingSendTicks, pingTimeoutTicks, missedPingCount := MAX_MISSED_PINGS, 0, 0;
      connections, closed, nextConnId := [], [], 1;
      handled, ledger, opens, from, requests, replies := [], [], 0, map[], {}, [];
    }

    /** APB_SendPing */
    method SendPing()
      modifies out, this`pingTimeoutTicks, this`pingSendTicks
      ensures Watch() == Watchdog.SendPing(old(Watch()))
      ensures out.sent == old(out.sent) + [Outgoing(PT_PING, DEFAULT_CONNECTION, [])]
    {
      var ok := out.Send(PT_PING, DEFAULT_CONNECTION, []);
      if !ok {
        return;
      }
      pingTimeoutTicks := PING_TICKS;
      pingSendTicks := 0;
    }

    /** APB_RequestResend */
    method RequestResend(currPackId: Word)
      requires currPackId - 1 > lastInPackId
      modifies out
      ensures out.sent == old(out.sent) + Resends(Range(lastInPackId + 1, currPackId))
      ensures |out.sent| == |old(out.sent)| + currPackId - lastInPackId - 1
      ensures forall i | |old(out.sent)| <= i < |out.sent| ::
                var p := out.sent[i];
                && p.ptype == 0x22 && p.connId == 0 && |p.payload| == 2
                && 0x100 * (p.payload[0] as int) + p.payload[1] as int == lastInPackId + 1 + i - |old(out.sent)|
    {
      var packId: nat := (lastInPackId + 1) % 0x1_0000;
      ghost var first := packId;
      while packId < currPackId
        invariant first <= packId <= currPackId
        invariant out.sent == old(out.sent) + Resends(Range(first, packId))
      {
        var ok := out.Send(PT_RESEND, DEFAULT_CONNECTION, WordBytes(packId));
        if !ok {
          break;
        }
        packId := packId + 1;
      }
    }

    /** The part of APB_HandlePacket that is about the link: the countdowns start anew, and behind a gap the
        missing packets are asked for. */
    method NotePacket(p: Packet)
      requires Counted()
      modifies out, this`pingSendTicks, this`pingTimeoutTicks, this`lastInPackId, this`ledger, this`handled
      ensures Counted() && handled == old(handled) + [p]
      ensures Watch() == old(Watch()).(sendTicks := PING_TICKS, timeoutTicks := 0)
      ensures out.sent == old(out.sent) + AskedFor(old(lastInPackId), p)
      ensures lastInPackId == if Resent(p) then old(lastInPackId) else p.packId
    {
      hide IdsOf, Ledger, Asked, Resends, AskedFor, Resent;
      pingSendTicks := PING_TICKS;
      pingTimeoutTicks := 0;
      NoteIds(handled, p);
      if !Resent(p) {
        NoteGap(p.packId);
        ledger := ledger + Asked(lastInPackId, p.packId) + [p.packId];
        lastInPackId := p.packId;
      } else {
        assert out.sent == out.sent + [];
      }
      handled := handled + [p];
    }

    method NoteGap(id: Word)
      modifies out
      ensures out.sent == old(out.sent) + Resends(Asked(lastInPackId, id))
    {
      if id - 1 > lastInPackId {
        RequestResend(id);
      } else {
        assert Asked(lastInPackId, id) == [] && Resends([]) == [];
      }
    }

    static lemma NoteIds(handled: seq<Packet>, p: Packet)
      ensures var ids, ids' := IdsOf(handled), IdsOf(handled + [p]);
              if Resent(p) then
                ids' == ids && forall last: Word :: AskedFor(last, p) == []
              else
                && Ledger(0, ids') == Ledger(0, ids) + Asked(Last(0, ids), p.packId) + [p.packId]
                && Last(0, ids') == p.packId
                && forall last: Word :: AskedFor(last, p) == Resends(Asked(last, p.packId))
    {
      IdsOfOne(handled, p);
      var ids := IdsOf(handled);
      if Resent(p) {
        assert ids + [] == ids;
      } else {
        LedgerSnoc(0, ids, p.packId);
      }
    }

    /** The requests to send packets again that a packet gives rise to. */
    static function AskedFor(last: Word, p: Packet): seq<Outgoing> {
      if Resent(p) then [] else Resends(Asked(last, p.packId))
    }

    /** APB_FindConnection */
    static method FindConnection(connections: seq<Connection>, id: Word) returns (c: Connection?, ghost i: nat)
      ensures i <= |connections| && (forall j | 0 <= j < i :: connections[j].id != id)
      ensures if i < |connections| then c == connections[i] && c.id == id else c == null
    {
      i := 0;
      for k := 0 to |connections|
        invariant i == k && forall j | 0 <= j < k :: connections[j].id != id
      {
        if connections[k].id == id {
          return connections[k], i;
        }
        i := i + 1;
      }
      c := null;
    }

    /** APB_HandleConnectionPacket for connection number `i`, which leaves the table when the peer has
        closed it. */
    method ToConnection(ghost i: nat, c: Connection, p: Packet, ghost before: seq<Packet>)
      requires TableFor(before) && handled == before + [p] && |p.payload| <= BUFFER_SIZE
      requires i < |connections| && c == connections[i] && c.id == p.connId
      modifies this`connections, this`closed, c`state, c`reqQueue, c`packetQueue, c`replies, c`arrived, c`dropped,
        c`log, c`destroyed, c.reqQueue`state, c.reqQueue`actual, (set q | q in c.reqQueue :: q.data), out
      ensures Table() && out.sent == old(out.sent)
      ensures if p.ptype == PT_DISCONNECTED then
                connections == Without(old(connections), i) && closed == old(closed) + [c]
              else connections == old(connections) && closed == old(closed)
      ensures c.PacketHandled(p, old(c.state), old(c.reqQueue), old(c.packetQueue), old(c.replies))
      ensures c.log == old(c.log) + [p]
      ensures c.arrived == old(c.arrived) + if IsData(p) && old(c.state) < CS_DISCONNECTING then [p] else []
    {
      hide *;
      TableParts(before);
      WithoutKeeps(connections, i, opens, requests);
      HandedWithout(connections, i, before, from);
      ghost var rest, others := Without(connections, i), Others(c, requests);
      HandedOthers(rest, before, from, p);
      ForConnectionOne(before[from[c]..], p, c.id);
      assert (before + [p])[from[c]..] == before[from[c]..] + [p];
      LiveParts(c, requests);
      PastGrows(closed, connections, before, from, p);
      NotPast(closed, connections, handled, from, i);
      assert AllLive(rest, others) && Past(closed, connections, handled, from);
      c.HandleConnectionPacket(p, out);
      if p.ptype == PT_DISCONNECTED {
        RemoveIs(connections, c, i);
        BooksOf(c);
        OneLeaves(closed, connections, i, handled, from);
        connections, closed := Remove(connections, c), closed + [c];
        MoreRequests(connections, others, requests);
        TableWhole();
      } else {
        LiveAfter(c, requests);
        AllAgain(connections, i, handled, from, others, requests);
        TableWhole();
      }
    }

    static lemma BooksOf(c: Connection)
      requires c.Valid()
      ensures c.Books(c.state, c.state)
    {
    }

    static lemma LiveParts(c: Connection, reqs: set<Request>)
      requires Live(c, reqs)
      ensures c.Valid() && !c.destroyed && forall r | r in c.accepted :: r in reqs
    {
    }

    /** Exec's Remove takes a node out of the list it is in. */
    static function Remove(connections: seq<Connection>, c: Connection): (r: seq<Connection>)
      requires c in connections
    {
      if connections[0] == c then connections[1..] else [connections[0]] + Remove(connections[1..], c)
    }

    static lemma RemoveIs(connections: seq<Connection>, c: Connection, i: nat)
      requires DistinctIds(connections) && i < |connections| && connections[i] == c
      ensures Remove(connections, c) == Without(connections, i)
    {
      hide DistinctIds;
      if i > 0 {
        DistinctTail(connections, i);
        RemoveIs(connections[1..], c, i - 1);
        assert Without(connections, i) == [connections[0]] + Without(connections[1..], i - 1);
      }
    }

    static lemma DistinctTail(connections: seq<Connection>, i: nat)
      requires DistinctIds(connections) && 0 < i < |connections|
      ensures DistinctIds(connections[1..]) && connections[0] != connections[i] == connections[1..][i - 1]
    {
    }

    lemma TableParts(history: seq<Packet>)
      requires TableFor(history)
      ensures DistinctIds(connections) && Separate(connections) && AllLive(connections, requests)
      ensures Handed(connections, history, from) && Numbered(connections, opens)
      ensures Past(closed, connections, history, from)
      ensures opens < 0x1_0000 && nextConnId == (opens + 1) % 0x1_0000
    {
    }

    lemma TableWhole()
      requires DistinctIds(connections) && Separate(connections) && AllLive(connections, requests)
      requires Handed(connections, handled, from) && Numbered(connections, opens)
      requires Past(closed, connections, handled, from)
      requires opens < 0x1_0000 && nextConnId == (opens + 1) % 0x1_0000
      ensures Table()
    {
    }

    /** APB_HandleControlPacket. A RESEND has no effect: the packet to send again is looked for by a field
        that never holds its identifier (server/packetwriter.c:295). */
    method HandleControlPacket(p: Packet)
      requires p.connId == DEFAULT_CONNECTION
      modifies out, this`state, this`pingSendTicks, this`pingTimeoutTicks, this`missedPingCount
      ensures Watch() == React(old(Watch()), ControlOf(p))
      ensures out.sent == old(out.sent) + if p.ptype == PT_HELLO then [Ping()] else []
      ensures state == if p.ptype == 0x01 then Connected else if p.ptype == 0x03 then Disconnected else old(state)
      ensures missedPingCount == if p.ptype == 0x24 then 0 else old(missedPingCount)
      ensures pingSendTicks == if p.ptype == 0x01 then 0 else old(pingSendTicks)
      ensures pingTimeoutTicks == if p.ptype == 0x01 then 5 else old(pingTimeoutTicks)
    {
      if p.ptype == PT_HELLO {
        state := Connected;
        SendPing();
      } else if p.ptype == PT_GOODBYE {
        state := Disconnected;
      } else if p.ptype == PT_PONG {
        missedPingCount := 0;
      }
    }

    static function Ping(): Outgoing {
      Outgoing(PT_PING, DEFAULT_CONNECTION, [])
    }

    ghost predicate Known(id: Word)
      reads this`connections
    {
      exists c :: c in connections && c.id == id
    }

    /** The connection with a number, if there is one; the requests queued on it; and their buffers. */
    ghost function ConnectionsAt(id: Word): (r: set<Connection>)
      reads this`connections
      ensures forall c | c in connections :: c in r <==> c.id == id
      ensures forall c | c in r :: c in connections && c.id == id
    {
      set c | c in connections && c.id == id
    }

    ghost function QueuedAt(id: Word): set<Request>
      reads this`connections, connections`reqQueue
    {
      set c, r | c in connections && c.id == id && r in c.reqQueue :: r
    }

    ghost function BuffersAt(id: Word): set<array<Byte>>
      reads this`connections, connections`reqQueue
    {
      set r | r in QueuedAt(id) :: r.data
    }

    /** What is queued on connection number `i`, and that it is queued nowhere else. */
    lemma QueuedHere(before: seq<Packet>, i: nat)
      requires TableFor(before) && i < |connections|
      ensures var c := connections[i];
              && c in ConnectionsAt(c.id)
              && (forall k | 0 <= k < |c.reqQueue| ::
                    c.reqQueue[k] in QueuedAt(c.id) && c.reqQueue[k].data in BuffersAt(c.id))
    {
      var c := connections[i];
      forall k | 0 <= k < |c.reqQueue|
        ensures c.reqQueue[k] in QueuedAt(c.id) && c.reqQueue[k].data in BuffersAt(c.id)
      {
        assert c in connections && c.reqQueue[k] in c.reqQueue;
      }
    }

    lemma QueuedElsewhere(before: seq<Packet>, id: Word)
      requires TableFor(before)
      ensures forall c | c in connections && c.id != id ::
                c !in ConnectionsAt(id) && forall r | r in c.reqQueue :: r !in QueuedAt(id) && r in requests
      ensures forall r | r in QueuedAt(id) :: r in requests
      ensures forall d | d in BuffersAt(id) :: exists r | r in requests :: r.data == d
    {
      hide Connection.Valid;
      forall c | c in connections ensures Live(c, requests) {
      }
    }

    /** What is sent back at once for a packet. */
    static function Response(p: Packet, known: bool): seq<Outgoing> {
      if p.connId == DEFAULT_CONNECTION then if p.ptype == PT_HELLO then [Ping()] else []
      else if known then [] else [Outgoing(PT_NO_CONNECTION, p.connId, [])]
    }

    /** The part of APB_HandlePacket that hands the packet on. */
    method HandOn(p: Packet, ghost before: seq<Packet>)
      requires TableFor(before) && handled == before + [p] && |p.payload| <= BUFFER_SIZE
      modifies this`state, this`pingSendTicks, this`pingTimeoutTicks, this`missedPingCount, this`connections,
        this`closed, out,
        ConnectionsAt(p.connId)`state, ConnectionsAt(p.connId)`reqQueue, ConnectionsAt(p.connId)`packetQueue,
        ConnectionsAt(p.connId)`replies, ConnectionsAt(p.connId)`arrived, ConnectionsAt(p.connId)`dropped,
        ConnectionsAt(p.connId)`log, ConnectionsAt(p.connId)`destroyed,
        QueuedAt(p.connId)`state, QueuedAt(p.connId)`actual, BuffersAt(p.connId)
      ensures Table() && Watch() == React(old(Watch()), ControlOf(p))
      ensures out.sent == old(out.sent) + Response(p, old(Known(p.connId)))
      ensures forall c :: c in connections <==>
                c in old(connections) && !(c.id == p.connId && p.ptype == PT_DISCONNECTED)
      ensures old(closed) <= closed && forall k | |old(closed)| <= k < |closed| :: closed[k] in old(connections)
      ensures forall c | c in old(connections) && c !in connections :: c in closed
      ensures forall c | c in old(connections) && c.id == p.connId ::
                && c.PacketHandled(p, old(c.state), old(c.reqQueue), old(c.packetQueue), old(c.replies))
                && c.log == old(c.log) + [p]
                && c.arrived == old(c.arrived) + if IsData(p) && old(c.state) < CS_DISCONNECTING then [p] else []
      ensures forall c | c in old(connections) && c.id != p.connId ::
                unchanged(c) && forall r | r in old(c.reqQueue) :: unchanged(r)
    {
      OnlyOther(p);
      hide *;
      QueuedElsewhere(before, p.connId);
      if p.connId == DEFAULT_CONNECTION {
        NotInTable(before, p);
        NotForTable(before, p);
        HandleControlPacket(p);
      } else {
        var c, i := FindConnection(connections, p.connId);
        if c == null {
          NotForTable(before, p);
          NotKnown(p.connId);
          var ok := out.Send(PT_NO_CONNECTION, p.connId, []);
        } else {
          KnownHere(before, i);
          QueuedHere(before, i);
          ToConnection(i, c, p, before);
        }
      }
    }

    static lemma OnlyOther(p: Packet)
      ensures p.connId != DEFAULT_CONNECTION ==>
                && (forall w :: React(w, ControlOf(p)) == w) && Response(p, true) == []
                && Response(p, false) == [Outgoing(PT_NO_CONNECTION, p.connId, [])] && Outbox.Allocates(0)
      ensures p.connId == DEFAULT_CONNECTION ==>
                forall known :: Response(p, known) == if p.ptype == PT_HELLO then [Ping()] else []
    {
    }

    lemma NotInTable(before: seq<Packet>, p: Packet)
      requires TableFor(before) && p.connId == DEFAULT_CONNECTION
      ensures forall c | c in connections :: c.id != p.connId
    {
    }

    lemma NotForTable(before: seq<Packet>, p: Packet)
      requires TableFor(before) && handled == before + [p] && forall c | c in connections :: c.id != p.connId
      ensures Table()
    {
      hide AllLive, Separate, DistinctIds, Handed, Past;
      HandedOthers(connections, before, from, p);
      PastGrows(closed, connections, before, from, p);
    }

    lemma NotKnown(id: Word)
      requires forall c | c in connections :: c.id != id
      ensures !Known(id)
    {
    }

    lemma KnownHere(before: seq<Packet>, i: nat)
      requires TableFor(before) && i < |connections|
      ensures Known(connections[i].id)
      ensures forall r | r in connections[i].reqQueue :: r in requests
      ensures forall c | c in connections :: c.id == connections[i].id ==> c == connections[i]
      ensures forall c | c in connections :: c.id != connections[i].id ==> c in Without(connections, i)
      ensures var rest := Without(connections, i);
              forall j | 0 <= j < |rest| :: rest[j] in connections && rest[j].id != connections[i].id
    {
      hide Connection.Valid;
      var c := connections[i];
      assert Live(c, requests);
      WithoutKeeps(connections, i, opens, requests);
      var rest := Without(connections, i);
      forall d | d in connections
        ensures (d.id == c.id ==> d == c) && (d.id != c.id ==> d in rest)
      {
        var j: nat :| j < |connections| && connections[j] == d;
        if j != i {
          assert rest[if j < i then j else j - 1] == d;
        }
      }
    }

    /** APB_HandlePacket */
    method HandlePacket(p: Packet)
      requires Counted() && Table() && |p.payload| <= BUFFER_SIZE
      modifies this`state, this`pingSendTicks, this`pingTimeoutTicks, this`missedPingCount, this`connections,
        this`closed, this`lastInPackId, this`ledger, this`handled, out,
        ConnectionsAt(p.connId)`state, ConnectionsAt(p.connId)`reqQueue, ConnectionsAt(p.connId)`packetQueue,
        ConnectionsAt(p.connId)`replies, ConnectionsAt(p.connId)`arrived, ConnectionsAt(p.connId)`dropped,
        ConnectionsAt(p.connId)`log, ConnectionsAt(p.connId)`destroyed,
        QueuedAt(p.connId)`state, QueuedAt(p.connId)`actual, BuffersAt(p.connId)
      ensures Counted() && Table() && handled == old(handled) + [p]
      ensures Watch() == Hear(old(Watch()), ControlOf(p)) && Alive(old(Watch()), p)
      ensures p.connId != 0 && old(!Known(p.connId)) ==>
                |out.sent| > |old(out.sent)| && out.sent[|out.sent| - 1] == Outgoing(0x32, p.connId, [])
      ensures lastInPackId == if Resent(p) then old(lastInPackId) else p.packId
      ensures out.sent == old(out.sent) + AskedFor(old(lastInPackId), p) + Response(p, old(Known(p.connId)))
      ensures forall c :: c in connections <==>
                c in old(connections) && !(c.id == p.connId && p.ptype == PT_DISCONNECTED)
      ensures old(closed) <= closed && forall k | |old(closed)| <= k < |closed| :: closed[k] in old(connections)
      ensures forall c | c in old(connections) && c !in connections :: c in closed
      ensures forall c | c in old(connections) && c.id == p.connId ::
                && c.PacketHandled(p, old(c.state), old(c.reqQueue), old(c.packetQueue), old(c.replies))
                && c.log == old(c.log) + [p]
                && c.arrived == old(c.arrived) + if IsData(p) && old(c.state) < CS_DISCONNECTING then [p] else []
      ensures forall c | c in old(connections) && c.id != p.connId ::
                unchanged(c) && forall r | r in old(c.reqQueue) :: unchanged(r)
    {
      HearIs(p);
      hide *;
      TableIs();
      ghost var before := handled;
      QueuedElsewhere(before, p.connId);
      NotePacket(p);
      HandOn(p, before);
      AliveIs(old(Watch()), p);
      ErrorIs(old(out.sent), old(lastInPackId), p);
    }

    /** A packet shows that the peer is alive; HELLO connects the server and is answered with a ping, GOODBYE
        disconnects it, and a PONG makes up for all pings missed. */
    ghost predicate Alive(w: Watchdog.Watch, p: Packet)
      reads this`state, this`pingSendTicks, this`pingTimeoutTicks, this`missedPingCount
    {
      var control, ptype := p.connId == 0, p.ptype;
      && state == (if control && ptype == 0x01 then Connected
                   else if control && ptype == 0x03 then Disconnected
                   else w.state)
      && missedPingCount == (if control && ptype == 0x24 then 0 else w.missed)
      && pingSendTicks == (if control && ptype == 0x01 then 0 else 5)
      && pingTimeoutTicks == (if control && ptype == 0x01 then 5 else 0)
    }

    lemma AliveIs(w: Watchdog.Watch, p: Packet)
      requires Watch() == Hear(w, ControlOf(p))
      ensures Alive(w, p)
    {
    }

    static lemma ErrorIs(sent: seq<Outgoing>, last: Word, p: Packet)
      ensures p.connId != 0 ==>
                var now := sent + AskedFor(last, p) + Response(p, false);
                |now| > |sent| && now[|now| - 1] == Outgoing(0x32, p.connId, [])
    {
    }

    lemma TableIs()
      ensures Table() <==> TableFor(handled)
    {
    }

    lemma HearIs(p: Packet)
      ensures Hear(Watch(), ControlOf(p)) ==
              React(Watch().(sendTicks := PING_TICKS, timeoutTicks := 0), ControlOf(p))
    {
    }

    /** APB_CnnCheckRequestTimeouts for connection number `i`, when those before it have been swept. */
    method SweepOne(i: nat, c: Connection, ghost snaps: seq<Snap>)
      requires Table() && i < |connections| && c == connections[i] && SweptFirst(connections, snaps, i, requests)
      modifies c`reqQueue, c`replies, c`sweeps, c.reqQueue`timeoutTicks, c.reqQueue`state
      ensures Table() && SweptFirst(connections, snaps, i + 1, requests)
    {
      hide *;
      ghost var rest, others := Focus(i, c);
      ghost var snaps' := SweptRest(connections, snaps, i, requests);
      assert AllLive(rest, others) && SweptFirst(rest, snaps', i, others) && Past(closed, connections, handled, from);
      c.CheckRequestTimeouts();
      SweptNow(snaps[i], c);
      LiveAfter(c, requests);
      SweptAgain(connections, snaps, i, others, requests);
      TableWith(i, c, others);
    }

    /** APB_CheckRequestTimeouts: one sweep over the queue of every connection. */
    method CheckRequestTimeouts()
      requires Table()
      modifies connections`reqQueue, connections`replies, connections`sweeps, requests`timeoutTicks, requests`state
      ensures Table() && forall i | 0 <= i < |connections| :: SweptFrom(old(SnapOf(connections[i])), connections[i])
    {
      hide *;
      ghost var snaps := SweepBegins();
      for i := 0 to |connections|
        invariant Table() && SweptFirst(connections, snaps, i, requests)
      {
        AllKnown(i);
        SweepOne(i, connections[i], snaps);
      }
      SweptAll(connections, snaps, requests);
    }

    lemma SweepBegins() returns (snaps: seq<Snap>)
      requires Table()
      ensures SweptFirst(connections, snaps, 0, requests) && |snaps| == |connections|
      ensures forall i | 0 <= i < |connections| :: snaps[i] == SnapOf(connections[i])
    {
      hide Connection.Valid, SnapOf;
      forall i | 0 <= i < |connections| ensures Live(connections[i], requests) {
        assert connections[i] in connections;
      }
      snaps := Snaps(connections, requests);
    }

    lemma AllKnown(i: nat)
      requires Table() && i < |connections|
      ensures forall r | r in connections[i].reqQueue :: r in requests
    {
      assert Live(connections[i], requests);
      hide Connection.Valid;
    }

    /** APB_HandleTimer */
    method HandleTimer()
      requires Table()
      modifies this`state, this`pingSendTicks, this`pingTimeoutTicks, this`missedPingCount, out,
        connections`reqQueue, connections`replies, connections`sweeps, requests`timeoutTicks, requests`state
      ensures Table() && Watch() == Tick(old(Watch())) && Ticked(old(Watch()))
      ensures out.sent == old(out.sent)
                          + if old(state) == Connected && old(pingSendTicks) == 1 then [Ping()] else []
      ensures old(state) == Connected ==>
                forall i | 0 <= i < |connections| :: SweptFrom(old(SnapOf(connections[i])), connections[i])
      ensures old(state) != Connected ==>
                (forall c | c in connections :: unchanged(c)) && forall r | r in requests :: unchanged(r)
    {
      hide *;
      if state == Connected {
        CountTicks();
        CheckRequestTimeouts();
      } else {
        TickUnconnected();
      }
      TickedIs(old(Watch()));
    }

    /** What a tick does: it ends the waiting for a peer or for the last packets; and of a connected server it
        counts down the ticks to the next ping and those left for its answer, and the sixth ping missed loses
        the connection. */
    ghost predicate Ticked(w: Watchdog.Watch)
      reads this`state, this`pingSendTicks, this`pingTimeoutTicks, this`missedPingCount
    {
      if w.state != Connected then
        && pingSendTicks == w.sendTicks && pingTimeoutTicks == w.timeoutTicks && missedPingCount == w.missed
        && state == if w.state == WaitForConnect then ConnectFailed
                    else if w.state == Disconnecting then Disconnected
                    else w.state
      else
        && missedPingCount == (if w.timeoutTicks == 1 then (w.missed + 1) % 0x1_0000 else w.missed)
        && state == (if w.timeoutTicks == 1 && missedPingCount > 5 then ConnectionLost else Connected)
        && pingSendTicks == (if w.sendTicks > 1 then w.sendTicks - 1 else 0)
        && pingTimeoutTicks == (if w.sendTicks == 1 then 5 else if w.timeoutTicks > 1 then w.timeoutTicks - 1 else 0)
    }

    lemma TickedIs(w: Watchdog.Watch)
      requires Watch() == Tick(w)
      ensures Ticked(w)
    {
    }

    /** APB_HandleTimer while there is no connection to watch. */
    method TickUnconnected()
      requires state != Connected
      modifies this`state
      ensures Watch() == Tick(old(Watch()))
    {
      if state == WaitForConnect {
        state := ConnectFailed;
      } else if state == Disconnecting {
        state := Disconnected;
      }
    }

    /** The countdowns of APB_HandleTimer. */
    method CountTicks()
      requires state == Connected
      modifies this`state, this`pingSendTicks, this`pingTimeoutTicks, this`missedPingCount, out
      ensures Watch() == Tick(old(Watch()))
      ensures out.sent == old(out.sent) + if old(pingSendTicks) == 1 then [Ping()] else []
    {
      if pingTimeoutTicks == 1 {
        pingTimeoutTicks := 0;
        missedPingCount := (missedPingCount + 1) % 0x1_0000;
        if missedPingCount > MAX_MISSED_PINGS {
          state := ConnectionLost;
        }
      } else if pingTimeoutTicks > 1 {
        pingTimeoutTicks := pingTimeoutTicks - 1;
      }
      if pingSendTicks == 1 {
        SendPing();
      } else if pingSendTicks > 1 {
        pingSendTicks := pingSendTicks - 1;
      }
    }

    /** Connection number `i` on the one hand, all others on the other. */
    lemma Focus(i: nat, c: Connection) returns (rest: seq<Connection>, others: set<Request>)
      requires Table() && i < |connections| && c == connections[i]
      ensures rest == Without(connections, i) && others == Others(c, requests) && others <= requests
      ensures DistinctIds(connections) && Separate(connections) && Separate(rest) && Numbered(connections, opens)
      ensures opens < 0x1_0000 && nextConnId == (opens + 1) % 0x1_0000
      ensures AllLive(connections, requests) && AllLive(rest, others) && Handed(rest, handled, from)
      ensures Past(closed, connections, handled, from) && forall j | 0 <= j < |closed| :: closed[j] != c
      ensures c in from && from[c] <= |handled| && c.log == ForConnection(handled[from[c]..], c.id)
      ensures c.Valid() && !c.destroyed && (forall r | r in c.accepted :: r in requests && r !in others)
      ensures c !in rest && forall r | r in others :: r in requests && r !in c.reqQueue
    {
      hide *;
      TableIs();
      TableParts(handled);
      WithoutKeeps(connections, i, opens, requests);
      HandedWithout(connections, i, handled, from);
      OthersApart(c, requests);
      LiveParts(c, requests);
      NotPast(closed, connections, handled, from, i);
      rest, others := Without(connections, i), Others(c, requests);
    }

    /** The table is consistent when connection number `i` on the one hand and all others on the other are. */
    lemma TableWith(i: nat, c: Connection, others: set<Request>)
      requires i < |connections| && c == connections[i] && DistinctIds(connections)
      requires Separate(Without(connections, i)) && Numbered(connections, opens)
      requires AllLive(Without(connections, i), others) && Handed(Without(connections, i), handled, from)
      requires opens < 0x1_0000 && nextConnId == (opens + 1) % 0x1_0000 && others <= requests
      requires Past(closed, connections, handled, from)
      requires c.Valid() && !c.destroyed && (forall r | r in c.accepted :: r in requests && r !in others)
      requires c in from && from[c] <= |handled| && c.log == ForConnection(handled[from[c]..], c.id)
      ensures Table()
    {
      hide *;
      LiveAfter(c, requests);
      AllAgain(connections, i, handled, from, others, requests);
      SeparateAgain(connections, i, others);
      TableWhole();
    }

    /** A request goes to connection number `i`. */
    method ToClientOf(ghost i: nat, c: Connection, r: Request)
      requires Table() && i < |connections| && c == connections[i] && r !in requests
      requires r.length <= r.data.Length && (r.rtype == RT_OPEN ==> AllReads(c.reqQueue))
      modifies c`state, c`handlerId, c`reqQueue, c`packetQueue, c`accepted, c`replies, c`due, c`steady,
        c`written, c.reqQueue`state, c.reqQueue`actual, (set q | q in c.reqQueue :: q.data), r, r.data, out,
        this`requests
      ensures Table() && requests == old(requests) + {r}
      ensures c.Asked(r, old(r.data[..r.length]), old(r.timeoutTicks), old(c.Now()), old(out.sent), out)
    {
      hide *;
      ghost var rest, others := Focus(i, c);
      assert AllLive(rest, others) && Past(closed, connections, handled, from);
      ghost var data, ticks, b, sent := r.data[..r.length], r.timeoutTicks, c.Now(), out.sent;
      c.SnapshotIs(r);
      c.HandleClientRequest(r, out);
      c.AskedParts(r, data, ticks, b, sent, out);
      requests := requests + {r};
      TableWith(i, c, others);
    }

    /** APB_CreateConnection, called while there have been fewer than 65535 connections. */
    method CreateConnection(memory: Word) returns (c: Connection)
      requires Table() && opens < 0xFFFF
      modifies this`connections, this`nextConnId, this`opens, this`from
      ensures Table() && fresh(c) && connections == old(connections) + [c] && opens == old(opens) + 1
      ensures c.id == opens && c.state == memory && c.log == [] && c.arrived == [] && c.steady
      ensures from == old(from)[c := |handled|] && c.reqQueue == [] && c.packetQueue == []
      ensures c.replies == [] && c.accepted == [] && c.written == []
    {
      hide *;
      TableIs();
      TableParts(handled);
      c := new Connection(nextConnId, memory);
      OneMore(connections, handled, from, opens, requests, c);
      assert c !in closed;
      OneEnters(closed, connections, handled, from, c);
      nextConnId := (nextConnId + 1) % 0x1_0000;
      connections, from, opens := connections + [c], from[c := |handled|], opens + 1;
      TableWhole();
    }

    method ReplyTo(r: Request, answer: Word)
      modifies r`state, this`replies
      ensures replies == old(replies) + [Requests.Reply(r, answer, r.actual, [], None, 0)]
    {
      r.state := answer;
      replies := replies + [Requests.Reply(r, r.state, r.actual, [], None, 0)];
    }

    /** What an OPEN leaves when there were the connections `before` and `sent` packets had been sent. */
    ghost predicate Opened(r: Request, before: seq<Connection>, sent: seq<Outgoing>)
      reads this, connections, out
    {
      && |connections| == |before| + 1 && before <= connections
      && var c := connections[|before|];
      && c.id == opens && c.accepted == [r] && c.steady && c.log == []
      && c.reqQueue == [r] && c.replies == [] && c.arrived == [] && c.written == [] && c.state == CS_CONNECTING
      && c in from && from[c] == |handled|
      && out.sent == sent + [Outgoing(PT_CONNECT, c.id, WordBytes(r.handlerId))]
    }

    /** An OPEN creates a connection, whatever state its memory held, and goes to it. */
    method OpenConnection(r: Request, memory: Word)
      requires Table() && r !in requests && r.length <= r.data.Length && r.rtype == RT_OPEN && opens < 0xFFFF
      modifies this`connections, this`nextConnId, this`opens, this`from, this`requests, r, r.data, out
      ensures Table() && Opened(r, old(connections), old(out.sent))
      ensures opens == old(opens) + 1 && requests == old(requests) + {r}
      ensures fresh(connections[|old(connections)|]) && from == old(from)[connections[|old(connections)|] := |handled|]
    {
      hide *;
      ghost var before := connections;
      var c := CreateConnection(memory);
      NoReads(c);
      ghost var data, ticks, b, sent := r.data[..r.length], r.timeoutTicks, c.Now(), out.sent;
      c.SnapshotIs(r);
      ToClientOf(|connections| - 1, c, r);
      OpenedNow(c, r, data, ticks, b, before, sent);
    }

    lemma OpenedNow(c: Connection, r: Request, data: seq<Byte>, ticks: Word, b: Before, before: seq<Connection>,
                    sent: seq<Outgoing>)
      requires r.rtype == RT_OPEN && c.Asked(r, data, ticks, b, sent, out) && b.steady
      requires b.accepted == [] && b.reqQueue == [] && b.packetQueue == [] && b.replies == [] && b.written == []
      requires connections == before + [c] && c.id == opens && c.log == []
      requires c.arrived == [] && c in from && from[c] == |handled|
      ensures Opened(r, before, sent)
    {
    }

    /** APB_HandleClientControlMessage: an OPEN goes to a new connection; all other requests are answered at
        once. */
    method HandleClientControlMessage(r: Request, memory: Word)
      requires Table() && r !in requests && r.length <= r.data.Length
      requires r.rtype == RT_OPEN ==> opens < 0xFFFF
      modifies this`connections, this`nextConnId, this`opens, this`from, this`requests, this`replies, this`state,
        r, r.data, out
      ensures Table()
      ensures r.rtype == RT_OPEN ==>
                && Opened(r, old(connections), old(out.sent)) && opens == old(opens) + 1
                && fresh(connections[|old(connections)|])
                && from == old(from)[connections[|old(connections)|] := |handled|]
                && replies == old(replies) && requests == old(requests) + {r} && state == old(state)
      ensures r.rtype != RT_OPEN ==>
                && connections == old(connections) && requests == old(requests) && out.sent == old(out.sent)
                && opens == old(opens) && from == old(from)
                && replies == old(replies) + [Requests.Reply(r, if r.rtype == RT_SRV_QUIT || r.rtype == RT_SRV_LOG_LEVEL
                                                                then RS_OK else RS_FAILED, old(r.actual), [], None, 0)]
                && state == if r.rtype == RT_SRV_QUIT then Disconnected else old(state)
    {
      hide *;
      if r.rtype == RT_OPEN {
        OpenConnection(r, memory);
      } else {
        AnswerControl(r);
      }
    }

    method AnswerControl(r: Request)
      requires Table() && r !in requests && r.rtype != RT_OPEN
      modifies this`replies, this`state, r`state
      ensures Table()
      ensures replies == old(replies) + [Requests.Reply(r, if r.rtype == RT_SRV_QUIT || r.rtype == RT_SRV_LOG_LEVEL
                                                           then RS_OK else RS_FAILED, r.actual, [], None, 0)]
      ensures state == if r.rtype == RT_SRV_QUIT then Disconnected else old(state)
    {
      AnswersAre();
      hide *;
      r.state := RS_OK;
      if r.rtype == RT_SRV_QUIT {
        state := Disconnected;
        ReplyTo(r, r.state);
      } else if r.rtype == RT_SRV_LOG_LEVEL {
        ReplyTo(r, r.state);
      } else {
        ReplyTo(r, RS_FAILED);
      }
    }

    static lemma AnswersAre()
      ensures RT_OPEN != RT_SRV_QUIT
    {
    }

    static lemma NoReads(c: Connection)
      requires c.reqQueue == []
      ensures AllReads(c.reqQueue)
    {
    }

    /** One turn of the loop in APB_ReceiveFromClient: request `r` for connection `connId`. */
    method ReceiveFromClient(r: Request, connId: Word, memory: Word)
      requires Table() && r !in requests && r.length <= r.data.Length
      requires connId == DEFAULT_CONNECTION && r.rtype == RT_OPEN ==> opens < 0xFFFF
      requires r.rtype == RT_OPEN ==> forall c | c in connections && c.id == connId :: AllReads(c.reqQueue)
      modifies this`connections, this`nextConnId, this`opens, this`from, this`requests, this`replies, this`state,
        r, r.data, out,
        ConnectionsAt(connId)`state, ConnectionsAt(connId)`handlerId, ConnectionsAt(connId)`reqQueue,
        ConnectionsAt(connId)`packetQueue, ConnectionsAt(connId)`accepted, ConnectionsAt(connId)`replies,
        ConnectionsAt(connId)`due, ConnectionsAt(connId)`steady, ConnectionsAt(connId)`written,
        QueuedAt(connId)`state, QueuedAt(connId)`actual, BuffersAt(connId)
      ensures Table()
      ensures forall c | c in old(connections) && c.id != connId ::
                unchanged(c) && forall q | q in old(c.reqQueue) :: unchanged(q)
      ensures connId == DEFAULT_CONNECTION && r.rtype == RT_OPEN ==>
                && Opened(r, old(connections), old(out.sent)) && opens == old(opens) + 1
                && fresh(connections[|old(connections)|])
                && from == old(from)[connections[|old(connections)|] := |handled|]
                && replies == old(replies) && requests == old(requests) + {r} && state == old(state)
      ensures connId == DEFAULT_CONNECTION && r.rtype != RT_OPEN ==>
                && connections == old(connections) && requests == old(requests) && out.sent == old(out.sent)
                && opens == old(opens) && from == old(from)
                && replies == old(replies) + [Requests.Reply(r, if r.rtype == RT_SRV_QUIT || r.rtype == RT_SRV_LOG_LEVEL
                                                                then RS_OK else RS_FAILED, old(r.actual), [], None, 0)]
                && state == if r.rtype == RT_SRV_QUIT then Disconnected else old(state)
      ensures connId != DEFAULT_CONNECTION ==>
                && connections == old(connections) && state == old(state)
                && opens == old(opens) && from == old(from)
      ensures connId != DEFAULT_CONNECTION && old(Known(connId)) ==>
                requests == old(requests) + {r} && replies == old(replies)
      ensures connId != DEFAULT_CONNECTION && old(!Known(connId)) ==>
                && requests == old(requests) && out.sent == old(out.sent)
                && replies == old(replies) + [Requests.Reply(r, RS_NO_CONNECTION, old(r.actual), [], None, 0)]
      ensures connId != DEFAULT_CONNECTION ==>
                forall c | c in connections && c.id == connId ::
                  c.Asked(r, old(r.data[..r.length]), old(r.timeoutTicks), old(c.Now()), old(out.sent), out)
    {
      hide *;
      TableIs();
      QueuedElsewhere(handled, connId);
      if connId == DEFAULT_CONNECTION {
        HandleClientControlMessage(r, memory);
      } else {
        var c, i := FindConnection(connections, connId);
        if c == null {
          NotKnown(connId);
          ReplyTo(r, RS_NO_CONNECTION);
        } else {
          KnownHere(handled, i);
          QueuedHere(handled, i);
          ToClientOf(i, c, r);
        }
      }
    }
  }
}
