/** Delivery from the peer's frames to the reads of the clients: the link and the server together. */
module EndToEnd {
  import opened Memory
  import opened Framing
  import opened Drafts
  import opened ReaderTrace
  import opened Requests
  import opened Connection
  import opened Server
  import opened Link
  import opened Forwarding
  import opened Gaps
  import RoundTrip
  import Checksum
  import FrameScan

  lemma {:induction false} DataPrefix(a: seq<Packet>, b: seq<Packet>)
    requires a <= b
    ensures DataOf(a) <= DataOf(b) && Payloads(DataOf(a)) <= Payloads(DataOf(b))
  {
    if |a| < |b| {
      DataPrefix(a, b[..|b| - 1]);
      assert DataOf(b[..|b| - 1]) <= DataOf(b);
    } else {
      assert a == b;
    }
    assert Payloads(DataOf(a)) == Payloads(DataOf(b))[..|DataOf(a)|];
  }

  lemma OrderlyOfPrefix(a: seq<Packet>, b: seq<Packet>)
    requires a <= b && Orderly(b)
    ensures Orderly(a)
  {
    forall i, j | 0 <= i < j < |a| && a[j].ptype == PT_CONNECTED
      ensures a[i].ptype != PT_CONNECTED && !IsData(a[i])
    {
      assert a[i] == b[i] && a[j] == b[j];
    }
  }

  /** The packets of good frames carry at most a buffer of payload. */
  lemma GoodAreSmall(fs: seq<seq<Byte>>)
    requires AllGood(fs)
    ensures AllSmall(Packets(fs))
  {
    hide Packets, Checksum.Accepts;
  }

  lemma {:induction false} PacketsConcat(a: seq<seq<Byte>>, b: seq<seq<Byte>>)
    requires AllGood(a) && AllGood(b)
    ensures AllGood(a + b) && Packets(a + b) == Packets(a) + Packets(b)
  {
    hide Packets, GoodFrame;
  }

  /** Hands the next packet to the server, whose connections are among `cs`. */
  method HandleNext(srv: Server, p: Packet, ghost cs: set<Connection>, ghost memory: set<array<Byte>>)
    requires AskedAgain(srv) && srv.Counted() && srv.Table() && |p.payload| <= BUFFER_SIZE
    requires Among(srv.connections, cs) && forall r | r in srv.requests :: r.data in memory
    modifies srv`state, srv`pingSendTicks, srv`pingTimeoutTicks, srv`missedPingCount, srv`connections, srv`closed,
      srv`lastInPackId, srv`ledger, srv`handled, srv.out, cs`state, cs`reqQueue, cs`packetQueue, cs`replies,
      cs`arrived, cs`dropped, cs`log, cs`destroyed, srv.requests`state, srv.requests`actual, memory
    ensures srv.Counted() && srv.Table() && srv.handled == old(srv.handled) + [p]
    ensures Among(srv.connections, cs) && LeftAmong(old(srv.closed), srv.closed, cs)
    ensures NoDataSince(old(srv.out.sent), srv.out.sent) && AskedAgain(srv)
  {
    hide *;
    AmongAll(srv.connections, cs);
    AtKnown(srv, p.connId);
    ghost var out, last, known := srv.out.sent, srv.lastInPackId, srv.Known(p.connId);
    ghost var handled := srv.handled;
    LastIs(srv);
    srv.HandlePacket(p);
    AmongNow(srv.connections, cs);
    LeftNow(old(srv.closed), srv.closed, cs);
    NoDataInResponse(out, last, p, known);
    AskedOne(srv, handled, out, last, p, known);
  }

  /** Hands packets to the server, oldest first. */
  method HandleAll(srv: Server, packets: seq<Packet>, ghost cs: set<Connection>, ghost memory: set<array<Byte>>)
    requires AskedAgain(srv) && srv.Counted() && srv.Table() && AllSmall(packets)
    requires Among(srv.connections, cs) && forall r | r in srv.requests :: r.data in memory
    modifies srv`state, srv`pingSendTicks, srv`pingTimeoutTicks, srv`missedPingCount, srv`connections, srv`closed,
      srv`lastInPackId, srv`ledger, srv`handled, srv.out, cs`state, cs`reqQueue, cs`packetQueue, cs`replies,
      cs`arrived, cs`dropped, cs`log, cs`destroyed, srv.requests`state, srv.requests`actual, memory
    ensures srv.Counted() && srv.Table() && srv.handled == old(srv.handled) + packets
    ensures Among(srv.connections, cs) && LeftAmong(old(srv.closed), srv.closed, cs)
    ensures NoDataSince(old(srv.out.sent), srv.out.sent) && AskedAgain(srv)
  {
    hide *;
    ghost var requests := srv.requests;
    LeftNow(srv.closed, srv.closed, cs);
    NoDataYet(srv.out.sent);
    for k := 0 to |packets|
      invariant srv.Counted() && srv.Table() && srv.handled == old(srv.handled) + packets[..k]
      invariant srv.requests == requests && Among(srv.connections, cs)
      invariant LeftAmong(old(srv.closed), srv.closed, cs) && NoDataSince(old(srv.out.sent), srv.out.sent)
      invariant AskedAgain(srv)
    {
      ghost var closed, out := srv.closed, srv.out.sent;
      Small(packets, k);
      HandleNext(srv, packets[k], cs, memory);
      LeftSince(old(srv.closed), closed, srv.closed, cs);
      NoDataEver(old(srv.out.sent), out, srv.out.sent);
      assert packets[..k + 1] == packets[..k] + [packets[k]];
    }
    assert packets[..|packets|] == packets;
  }

  /** The peer has been asked, in order, for exactly the packets that were missing. */
  ghost predicate AskedAgain(srv: Server)
    reads srv`handled, srv.out
  {
    ResendIds(srv.out.sent) == AllAsked(0, IdsOf(srv.handled))
  }

  lemma LastIs(srv: Server)
    ensures srv.Counted() ==> srv.lastInPackId == Last(0, IdsOf(srv.handled))
    ensures AskedAgain(srv) <==> ResendIds(srv.out.sent) == AllAsked(0, IdsOf(srv.handled))
  {
  }

  /** One more packet has been handled. */
  lemma AskedOne(srv: Server, handled: seq<Packet>, sent: seq<Outgoing>, last: Word, p: Packet, known: bool)
    requires last == Last(0, IdsOf(handled)) && ResendIds(sent) == AllAsked(0, IdsOf(handled))
    requires srv.handled == handled + [p]
    requires srv.out.sent == sent + Server.AskedFor(last, p) + Server.Response(p, known)
    ensures AskedAgain(srv)
  {
    var asked, response := Server.AskedFor(last, p), Server.Response(p, known);
    NoResendInResponse(p, known);
    AskedForIs(last, p);
    hide *;
    ResendIdsConcat(sent + asked, response);
    ResendIdsConcat(sent, asked);
    NoneAsked(response);
    IdsOfOne(handled, p);
    LastIs(srv);
    if Resent(p) {
      assert IdsOf(handled) + [] == IdsOf(handled);
    } else {
      AllAskedSnoc(0, IdsOf(handled), p.packId);
    }
  }

  lemma NoResendInResponse(p: Packet, known: bool)
    ensures forall k | 0 <= k < |Server.Response(p, known)| :: Server.Response(p, known)[k].ptype != PT_RESEND
  {
  }

  lemma AskedForIs(last: Word, p: Packet)
    ensures ResendIds(Server.AskedFor(last, p)) == if Resent(p) then [] else Asked(last, p.packId)
  {
    if !Resent(p) {
      ResendsAsk(Asked(last, p.packId));
    }
  }

  lemma NoDataInResponse(sent: seq<Outgoing>, last: Word, p: Packet, known: bool)
    ensures NoDataSince(sent, sent + Server.AskedFor(last, p) + Server.Response(p, known))
  {
  }

  /** The connections that have left the table since are among `cs`. */
  ghost predicate LeftAmong(before: seq<Connection>, after: seq<Connection>, cs: set<Connection>) {
    before <= after && forall k | |before| <= k < |after| :: after[k] in cs
  }

  lemma LeftNow(before: seq<Connection>, after: seq<Connection>, cs: set<Connection>)
    requires before <= after && forall k | |before| <= k < |after| :: after[k] in cs
    ensures LeftAmong(before, after, cs)
  {
  }

  lemma LeftSince(a: seq<Connection>, b: seq<Connection>, c: seq<Connection>, cs: set<Connection>)
    requires LeftAmong(a, b, cs) && LeftAmong(b, c, cs)
    ensures LeftAmong(a, c, cs)
  {
  }

  lemma AtKnown(srv: Server, id: Word)
    requires srv.Table()
    ensures forall c | c in srv.ConnectionsAt(id) :: c in srv.connections
    ensures forall r | r in srv.QueuedAt(id) :: r in srv.requests
    ensures forall d | d in srv.BuffersAt(id) :: exists r | r in srv.requests :: r.data == d
  {
    srv.QueuedElsewhere(srv.handled, id);
  }

  ghost predicate Among(connections: seq<Connection>, cs: set<Connection>) {
    forall i | 0 <= i < |connections| :: connections[i] in cs
  }

  lemma AmongAll(connections: seq<Connection>, cs: set<Connection>)
    requires Among(connections, cs)
    ensures forall i | 0 <= i < |connections| :: connections[i] in cs
    ensures forall c | c in connections :: c in cs
  {
  }

  lemma AmongNow(connections: seq<Connection>, cs: set<Connection>)
    requires forall c | c in connections :: c in cs
    ensures Among(connections, cs)
  {
  }

  lemma Small(packets: seq<Packet>, k: nat)
    requires AllSmall(packets) && k < |packets|
    ensures |packets[k].payload| <= BUFFER_SIZE
  {
  }

  /** The server has handled exactly the packets of the frames that the reader has taken. */
  ghost predicate UpToDate(srv: Server, link: Link)
    reads srv`handled, link.reader`trace
  {
    AllGood(link.reader.trace.frames) && srv.handled == Packets(link.reader.trace.frames)
  }

  /** The memory of the requests is not the memory of the link. */
  ghost predicate Apart(requests: set<Request>, chain: seq<FrameScan.InBuffer>, buf: Buffer?) {
    forall r | r in requests ::
      (buf != null ==> r.data != buf.data) && forall c | c in chain :: r.data != c.buf.data
  }

  lemma ApartGrown(requests: set<Request>, before: seq<FrameScan.InBuffer>, after: seq<FrameScan.InBuffer>,
                   buf: Buffer, buf': Buffer)
    requires Apart(requests, before, buf) && Link.Grown(before, after, buf)
    requires buf' == buf || forall r | r in requests :: r.data != buf'.data
    ensures Apart(requests, after, buf')
  {
    forall r, c | r in requests && c in after ensures r.data != c.buf.data {
      var i: nat :| i < |after| && after[i] == c;
      if i < |before| {
        assert before[i] == c;
      }
    }
  }

  /** What has been caught up with, and what came since. */
  lemma CatchUp(before: seq<seq<Byte>>, after: seq<seq<Byte>>, grants: nat, packets: seq<Packet>)
    requires AllGood(before) && Link.Added(before, after, grants, packets)
    ensures AllGood(after) && Packets(after) == Packets(before) + packets && AllSmall(packets)
  {
    var more := after[|before|..];
    assert after == before + more;
    PacketsConcat(before, more);
    GoodAreSmall(more);
    hide Packets, GoodFrame;
  }

  /** APB_SrvReceiveFromRemote with the packets going to their connections. */
  method ReceiveFromRemote(srv: Server, link: Link, bytes: seq<Byte>, grants: nat)
    requires AskedAgain(srv) && srv.Counted() && srv.Table() && link.Valid()
    requires link.reader.queue == [] && link.readBuffer != null
    requires |bytes| <= BUFFER_SIZE - link.readBuffer.offset && Tame(link.reader.stream + bytes)
    requires UpToDate(srv, link) && Apart(srv.requests, link.reader.chain, link.readBuffer)
    modifies srv`state, srv`pingSendTicks, srv`pingTimeoutTicks, srv`missedPingCount, srv`connections, srv`closed,
      srv`lastInPackId, srv`ledger, srv`handled, srv.out, srv.connections`state, srv.connections`reqQueue,
      srv.connections`packetQueue, srv.connections`replies, srv.connections`arrived, srv.connections`dropped,
      srv.connections`log, srv.connections`destroyed, srv.requests`state, srv.requests`actual,
      (set r | r in srv.requests :: r.data), link, link.reader, link.reader.chain, link.readBuffer`offset,
      link.readBuffer.data
    ensures srv.Counted() && srv.Table() && link.Valid() && link.reader.queue == [] && link.readBuffer != null
    ensures link.reader.stream == old(link.reader.stream) + bytes
    ensures Link.Grown(old(link.reader.chain), link.reader.chain, old(link.readBuffer))
    ensures forall i | |old(link.reader.chain)| <= i < |link.reader.chain| :: fresh(link.reader.chain[i])
    ensures link.readBuffer == old(link.readBuffer) || (fresh(link.readBuffer) && fresh(link.readBuffer.data))
    ensures var cs := set c | c in old(srv.connections);
            Among(srv.connections, cs) && LeftAmong(old(srv.closed), srv.closed, cs)
    ensures UpToDate(srv, link) && Apart(srv.requests, link.reader.chain, link.readBuffer)
    ensures NoDataSince(old(srv.out.sent), srv.out.sent) && AskedAgain(srv)
    ensures bytes != [] ==>
              Delivers(link.reader.trace.frames, link.reader.stream, |old(link.reader.trace.frames)| + grants)
  {
    hide *;
    ghost var cs, memory := set c | c in srv.connections, set r | r in srv.requests :: r.data;
    ghost var before, chain, buf := link.reader.trace.frames, link.reader.chain, link.readBuffer;
    UpToDateIs(srv, link);
    AmongNow(srv.connections, cs);
    var packets := link.ReceiveFromRemote(bytes, grants);
    CatchUp(before, link.reader.trace.frames, grants, packets);
    assert forall r | r in srv.requests :: old(allocated(r.data));
    ApartGrown(srv.requests, chain, link.reader.chain, buf, link.readBuffer);
    HandOver(srv, link, packets, cs, memory);
  }

  /** The packets of the frames that have just been taken are handled; the link is not touched. */
  method HandOver(srv: Server, link: Link, packets: seq<Packet>, ghost cs: set<Connection>,
                  ghost memory: set<array<Byte>>)
    requires AskedAgain(srv) && srv.Counted() && srv.Table() && link.Valid() && AllSmall(packets)
    requires AllGood(link.reader.trace.frames) && srv.handled + packets == Packets(link.reader.trace.frames)
    requires Among(srv.connections, cs) && (forall r | r in srv.requests :: r.data in memory)
    requires Apart(srv.requests, link.reader.chain, link.readBuffer)
    requires forall m | m in memory :: exists r | r in srv.requests :: m == r.data
    modifies srv`state, srv`pingSendTicks, srv`pingTimeoutTicks, srv`missedPingCount, srv`connections, srv`closed,
      srv`lastInPackId, srv`ledger, srv`handled, srv.out, cs`state, cs`reqQueue, cs`packetQueue, cs`replies,
      cs`arrived, cs`dropped, cs`log, cs`destroyed, srv.requests`state, srv.requests`actual, memory
    ensures srv.Counted() && srv.Table() && link.Valid() && UpToDate(srv, link)
    ensures Among(srv.connections, cs) && LeftAmong(old(srv.closed), srv.closed, cs)
    ensures NoDataSince(old(srv.out.sent), srv.out.sent) && AskedAgain(srv)
  {
    hide *;
    ApartFrom(srv.requests, link.reader.chain, link.readBuffer, memory);
    HandleAll(srv, packets, cs, memory);
    UpToDateIs(srv, link);
  }

  lemma UpToDateIs(srv: Server, link: Link)
    ensures UpToDate(srv, link) <==>
            AllGood(link.reader.trace.frames) && srv.handled == Packets(link.reader.trace.frames)
  {
  }

  lemma ApartFrom(requests: set<Request>, chain: seq<FrameScan.InBuffer>, buf: Buffer?, memory: set<array<Byte>>)
    requires Apart(requests, chain, buf) && forall m | m in memory :: exists r | r in requests :: m == r.data
    ensures (forall c | c in chain :: c.buf.data !in memory) && (buf != null ==> buf.data !in memory)
  {
  }

  lemma WellFormedAreGood(fs: seq<seq<Byte>>)
    requires AllWellFormed(fs)
    ensures AllGood(fs)
  {
    hide GoodFrame;
  }

  lemma {:induction false} PacketsPrefix(a: seq<seq<Byte>>, b: seq<seq<Byte>>)
    requires a <= b && AllGood(b)
    ensures AllGood(a) && Packets(a) <= Packets(b)
  {
    hide GoodFrame, Packets;
    assert b == a + b[|a|..];
    PacketsConcat(a, b[|a|..]);
  }

  /** The frames of the run `sent` that are for connection `id`, if `skipped` came before it existed. */
  ghost function Meant(sent: seq<seq<Byte>>, skipped: nat, id: Word): seq<Packet>
    requires AllGood(sent) && skipped <= |sent|
  {
    ForConnection(Packets(sent)[skipped..], id)
  }

  lemma MeantPrefix(frames: seq<seq<Byte>>, sent: seq<seq<Byte>>, skipped: nat, id: Word)
    requires AllGood(sent) && frames <= sent && skipped <= |frames|
    ensures AllGood(frames) && ForConnection(Packets(frames)[skipped..], id) <= Meant(sent, skipped, id)
  {
    hide GoodFrame, Packets, ForConnection;
    PacketsPrefix(frames, sent);
    ForConnectionPrefix(Packets(frames)[skipped..], Packets(sent)[skipped..], id);
  }

  lemma HandledIs(srv: Server, link: Link)
    requires UpToDate(srv, link)
    ensures AllGood(link.reader.trace.frames) && srv.handled == Packets(link.reader.trace.frames)
    ensures |srv.handled| == |link.reader.trace.frames|
  {
  }

  /** What is known of any connection there has been. */
  lemma ConnectionFacts(srv: Server, c: Connection)
    requires srv.Table() && (c in srv.connections || c in srv.closed)
    ensures c in srv.from && srv.from[c] <= |srv.handled|
    ensures c.log <= ForConnection(srv.handled[srv.from[c]..], c.id)
    ensures InStep(c.steady, c.log, c.arrived, c.state)
    ensures Conserved(c.arrived, c.replies, c.dropped, c.packetQueue)
  {
    if c in srv.connections {
      assert Live(c, srv.requests);
      assert c.Valid();
    } else {
      assert c.Books(c.state, c.state);
    }
  }

  ghost predicate AllSteady(connections: seq<Connection>)
    reads connections`steady
  {
    forall i | 0 <= i < |connections| :: connections[i].steady
  }

  /** No connection has been opened twice, what the clients have written has been sent, and the peer has been
      asked for what was missing. */
  ghost predicate Faithful(srv: Server)
    reads srv`connections, srv`closed, srv`opens, srv`handled, srv.out, srv.connections`steady,
      srv.closed`steady, srv.connections`written, srv.closed`written
  {
    && AskedAgain(srv) && AllSteady(srv.connections) && AllSteady(srv.closed)
    && Gone(srv.closed, srv.connections, srv.opens) && DataBelow(srv.out.sent, srv.opens)
    && AllForwarded(srv.out.sent, srv.connections) && AllForwarded(srv.out.sent, srv.closed)
  }

  lemma FaithfulIs(srv: Server)
    ensures AskedAgain(srv) <==> ResendIds(srv.out.sent) == AllAsked(0, IdsOf(srv.handled))
    ensures Faithful(srv) <==>
            && AskedAgain(srv) && AllSteady(srv.connections) && AllSteady(srv.closed)
            && Gone(srv.closed, srv.connections, srv.opens) && DataBelow(srv.out.sent, srv.opens)
            && AllForwarded(srv.out.sent, srv.connections) && AllForwarded(srv.out.sent, srv.closed)
  {
  }

  /** Connections have left the table, and no data has been sent. */
  lemma StillFaithful(srv: Server, before: seq<Connection>, closed: seq<Connection>, sent: seq<Outgoing>)
    requires AskedAgain(srv) && srv.Table() && DistinctIds(before) && NoDataSince(sent, srv.out.sent)
    requires AllSteady(before) && AllSteady(closed) && Gone(closed, before, srv.opens) && DataBelow(sent, srv.opens)
    requires AllForwarded(sent, before) && AllForwarded(sent, closed)
    requires Among(srv.connections, set c | c in before) && LeftAmong(closed, srv.closed, set c | c in before)
    ensures Faithful(srv)
  {
    hide *;
    StillSteady(before, closed, srv.connections, srv.closed, set c | c in before);
    StillGone(srv, before, closed);
    BelowStill(sent, srv.out.sent, srv.opens);
    MovedOnly(before, closed, srv.connections, srv.closed, set c | c in before);
    BothForwarded(sent, before, closed);
    ForwardedStill(sent, before + closed, srv.out.sent, srv.connections);
    ForwardedStill(sent, before + closed, srv.out.sent, srv.closed);
    FaithfulIs(srv);
  }

  lemma MovedOnly(before: seq<Connection>, closed: seq<Connection>, after: seq<Connection>,
                  closed': seq<Connection>, cs: set<Connection>)
    requires (forall c | c in cs :: c in before) && Among(after, cs) && LeftAmong(closed, closed', cs)
    ensures forall i | 0 <= i < |after| :: after[i] in before + closed
    ensures forall i | 0 <= i < |closed'| :: closed'[i] in before + closed
  {
    forall i | 0 <= i < |closed'| ensures closed'[i] in before + closed {
      if i < |closed| {
        assert closed'[i] == closed[i];
      }
    }
  }

  lemma StillGone(srv: Server, before: seq<Connection>, closed: seq<Connection>)
    requires srv.Table() && DistinctIds(before) && Gone(closed, before, srv.opens)
    requires Among(srv.connections, set c | c in before) && LeftAmong(closed, srv.closed, set c | c in before)
    ensures Gone(srv.closed, srv.connections, srv.opens)
  {
    TableIds(srv);
    hide Server.Table;
    forall i, j | 0 <= i < |srv.closed| && 0 <= j < |srv.connections|
      ensures srv.closed[i].id != srv.connections[j].id {
      assert srv.connections[j] in before;
      if i >= |closed| {
        assert srv.closed[i] in before && srv.closed[i] != srv.connections[j];
      }
    }
  }

  lemma TableIds(srv: Server)
    requires srv.Table()
    ensures DistinctIds(srv.connections)
    ensures forall i, j | 0 <= i < |srv.closed| && 0 <= j < |srv.connections| :: srv.closed[i] != srv.connections[j]
  {
    hide Connection.Books;
    forall i, j | 0 <= i < |srv.closed| && 0 <= j < |srv.connections|
      ensures srv.closed[i] != srv.connections[j] {
      assert srv.closed[i] in srv.closed;
    }
  }

  /** The server and its link, when the peer has sent the frames `sent`, and no connection has been opened
      twice. */
  ghost predicate Session(srv: Server, link: Link, sent: seq<seq<Byte>>)
    reads srv, srv.out, srv.connections, srv.closed, srv.requests, link, link.reader, link.reader.chain,
      (set c | c in link.reader.chain :: c.buf), (set c | c in link.reader.chain :: c.buf.data), link.readBuffer
  {
    && srv.Counted() && srv.Table() && link.Valid() && link.reader.queue == [] && link.readBuffer != null
    && UpToDate(srv, link) && Apart(srv.requests, link.reader.chain, link.readBuffer)
    && Faithful(srv) && link.reader.stream <= Flatten(sent) && link.reader.trace.frames <= sent
  }

  /** The reads answered OK on a connection got, in order and once each, a prefix of the payloads of exactly
      the data frames sent with its identifier after it was opened, if the peer says CONNECTED once and
      before any data. */
  ghost predicate Delivered(srv: Server, sent: seq<seq<Byte>>, c: Connection)
    reads srv`from, c`replies
  {
    && AllGood(sent) && c in srv.from && srv.from[c] <= |sent|
    && var meant := Meant(sent, srv.from[c], c.id);
       Orderly(meant) ==> Received(c.replies) <= Payloads(DataOf(meant))
  }

  /** End-to-end delivery holds on every connection there has been, closed since or not. */
  lemma Delivery(srv: Server, link: Link, sent: seq<seq<Byte>>, c: Connection)
    requires AllWellFormed(sent) && Session(srv, link, sent) && (c in srv.connections || c in srv.closed)
    ensures Delivered(srv, sent, c)
  {
    SessionFacts(srv, link, sent, c);
    hide *;
    ConnectionFacts(srv, c);
    HandledIs(srv, link);
    WellFormedAreGood(sent);
    MeantPrefix(link.reader.trace.frames, sent, srv.from[c], c.id);
    var meant := Meant(sent, srv.from[c], c.id);
    if Orderly(meant) {
      OrderlyOfPrefix(c.log, meant);
      ReadsGetPrefix(c.steady, c.log, c.arrived, c.state, c.replies, c.dropped, c.packetQueue);
      DataPrefix(c.log, meant);
    }
    DeliveredNow(srv, sent, c, meant);
  }

  lemma DeliveredNow(srv: Server, sent: seq<seq<Byte>>, c: Connection, meant: seq<Packet>)
    requires AllGood(sent) && c in srv.from && srv.from[c] <= |sent| && meant == Meant(sent, srv.from[c], c.id)
    requires Orderly(meant) ==> Received(c.replies) <= Payloads(DataOf(meant))
    ensures Delivered(srv, sent, c)
  {
  }

  /** The data packets sent on a connection carry, in order and once each, what the writes answered OK on it
      carried. */
  lemma WritesSent(srv: Server, link: Link, sent: seq<seq<Byte>>, c: Connection)
    requires Session(srv, link, sent) && (c in srv.connections || c in srv.closed)
    ensures DataSent(srv.out.sent, c.id) == c.written
  {
    SessionParts(srv, link, sent);
    hide Session, DataSent;
  }

  /** The way back: once the packet writer holds what the server has sent, whatever prefix of the bytes written
      has reached the peer, its reader finds in the data packets of a connection a prefix of what the writes
      answered OK on it carried, and all of it when everything was written and has arrived. */
  lemma WritesDelivered(srv: Server, link: Link, sent: seq<seq<Byte>>, c: Connection, w: RoundTrip.Writer,
                        received: seq<Byte>, taken: seq<seq<Byte>>, limit: nat, packets: seq<Packet>)
    requires Session(srv, link, sent) && (c in srv.connections || c in srv.closed)
    requires RoundTrip.Balanced(w) && RoundTrip.Matches(w.ledger, srv.out.sent) && received <= Flatten(w.sent)
    requires Delivers(taken, received, limit)
    requires |packets| == |taken| && forall k | 0 <= k < |taken| :: RoundTrip.Carries(taken[k], packets[k])
    ensures RoundTrip.PayloadsOf(packets, PT_DATA, c.id) <= c.written
    ensures received == Flatten(w.sent) && w.unsent == [] && |w.sent| <= limit ==>
              RoundTrip.PayloadsOf(packets, PT_DATA, c.id) == c.written
  {
    hide *;
    WritesSent(srv, link, sent, c);
    DataSentIs(srv.out.sent, c.id);
    RoundTrip.OutgoingDelivery(w, srv.out.sent, received, taken, limit, packets, PT_DATA, c.id);
  }

  /** In a session the packets asked for in RESEND packets and those received unasked are together all packets
      from the first to the newest one, each exactly once, if and only if the identifiers received increase. */
  lemma MissingAskedFor(srv: Server, link: Link, sent: seq<seq<Byte>>)
    requires Session(srv, link, sent)
    ensures EachOnce(0, ResendIds(srv.out.sent), IdsOf(srv.handled)) <==> Increasing(0, IdsOf(srv.handled))
  {
    SessionParts(srv, link, sent);
    hide *;
    FaithfulIs(srv);
    AskedOrReceivedOnce(0, IdsOf(srv.handled));
  }

  lemma SessionFacts(srv: Server, link: Link, sent: seq<seq<Byte>>, c: Connection)
    requires Session(srv, link, sent) && (c in srv.connections || c in srv.closed)
    ensures srv.Table() && UpToDate(srv, link) && link.reader.trace.frames <= sent && c.steady
  {
    hide Flatten;
  }

  lemma SessionParts(srv: Server, link: Link, sent: seq<seq<Byte>>)
    requires Session(srv, link, sent)
    ensures srv.Counted() && srv.Table() && link.Valid() && link.reader.queue == [] && link.readBuffer != null
    ensures UpToDate(srv, link) && Apart(srv.requests, link.reader.chain, link.readBuffer)
    ensures Faithful(srv)
    ensures link.reader.stream <= Flatten(sent) && link.reader.trace.frames <= sent
  {
  }

  lemma SessionWhole(srv: Server, link: Link, sent: seq<seq<Byte>>)
    requires srv.Counted() && srv.Table() && link.Valid() && link.reader.queue == [] && link.readBuffer != null
    requires UpToDate(srv, link) && Apart(srv.requests, link.reader.chain, link.readBuffer)
    requires Faithful(srv)
    requires link.reader.stream <= Flatten(sent) && link.reader.trace.frames <= sent
    ensures Session(srv, link, sent)
  {
  }

  /** Connections that were steady before, in the table or not, still are. */
  lemma StillSteady(before: seq<Connection>, closed: seq<Connection>, after: seq<Connection>,
                    closed': seq<Connection>, cs: set<Connection>)
    requires AllSteady(before) && AllSteady(closed) && forall c | c in cs :: c in before
    requires Among(after, cs) && LeftAmong(closed, closed', cs)
    ensures AllSteady(after) && AllSteady(closed')
  {
    forall i | 0 <= i < |after| ensures after[i].steady {
      assert after[i] in before;
    }
    forall i | 0 <= i < |closed'| ensures closed'[i].steady {
      if i >= |closed| {
        assert closed'[i] in before;
      }
    }
  }

  /** A read of the session: the next bytes the peer has sent. Once all of them have arrived, and if there
      was memory for the packets, all frames have been taken. */
  method Receive(srv: Server, link: Link, ghost sent: seq<seq<Byte>>, bytes: seq<Byte>, grants: nat)
    requires AllWellFormed(sent) && Session(srv, link, sent) && bytes != []
    requires |bytes| <= BUFFER_SIZE - link.readBuffer.offset && link.reader.stream + bytes <= Flatten(sent)
    modifies srv`state, srv`pingSendTicks, srv`pingTimeoutTicks, srv`missedPingCount, srv`connections, srv`closed,
      srv`lastInPackId, srv`ledger, srv`handled, srv.out, srv.connections`state, srv.connections`reqQueue,
      srv.connections`packetQueue, srv.connections`replies, srv.connections`arrived, srv.connections`dropped,
      srv.connections`log, srv.connections`destroyed, srv.requests`state, srv.requests`actual,
      (set r | r in srv.requests :: r.data), link, link.reader, link.reader.chain, link.readBuffer`offset,
      link.readBuffer.data
    ensures Session(srv, link, sent) && link.reader.stream == old(link.reader.stream) + bytes
    ensures Among(srv.connections, set c | c in old(srv.connections))
    ensures Link.Grown(old(link.reader.chain), link.reader.chain, old(link.readBuffer))
    ensures forall i | |old(link.reader.chain)| <= i < |link.reader.chain| :: fresh(link.reader.chain[i])
    ensures link.readBuffer == old(link.readBuffer) || (fresh(link.readBuffer) && fresh(link.readBuffer.data))
    ensures link.reader.stream == Flatten(sent) && |sent| <= |old(link.reader.trace.frames)| + grants ==>
              link.reader.trace.frames == sent
  {
    hide *;
    SessionParts(srv, link, sent);
    ghost var before, closed, out := srv.connections, srv.closed, srv.out.sent;
    FaithfulIs(srv);
    TableIds(srv);
    ghost var limit := |link.reader.trace.frames| + grants;
    RoundTrip.CutStream(sent, link.reader.stream + bytes, [], 0);
    ReceiveFromRemote(srv, link, bytes, grants);
    RoundTrip.CutStream(sent, link.reader.stream, link.reader.trace.frames, limit);
    StillFaithful(srv, before, closed, out);
    SessionWhole(srv, link, sent);
  }

  /** A tick of the timer. */
  method Elapse(srv: Server, link: Link, ghost sent: seq<seq<Byte>>)
    requires Session(srv, link, sent)
    modifies srv`state, srv`pingSendTicks, srv`pingTimeoutTicks, srv`missedPingCount, srv.out,
      srv.connections`reqQueue, srv.connections`replies, srv.connections`sweeps, srv.requests`timeoutTicks,
      srv.requests`state
    ensures Session(srv, link, sent)
  {
    hide *;
    SessionParts(srv, link, sent);
    FaithfulIs(srv);
    ghost var before := srv.out.sent;
    srv.HandleTimer();
    NoDataInPing(before);
    SentOnly(srv, before);
    SessionWhole(srv, link, sent);
  }

  lemma NoDataInPing(sent: seq<Outgoing>)
    ensures NoDataSince(sent, sent + []) && NoDataSince(sent, sent + [Server.Ping()])
    ensures NoneAskedSince(sent, sent + []) && NoneAskedSince(sent, sent + [Server.Ping()])
  {
    NoDataYet(sent);
    assert sent + [] == sent;
  }

  /** No data has been sent, and nothing else has changed. */
  lemma SentOnly(srv: Server, sent: seq<Outgoing>)
    requires AllSteady(srv.connections) && AllSteady(srv.closed) && Gone(srv.closed, srv.connections, srv.opens)
    requires DataBelow(sent, srv.opens) && NoDataSince(sent, srv.out.sent)
    requires AllForwarded(sent, srv.connections) && AllForwarded(sent, srv.closed)
    requires NoneAskedSince(sent, srv.out.sent) && ResendIds(sent) == AllAsked(0, IdsOf(srv.handled))
    ensures Faithful(srv)
  {
    hide *;
    NoMoreAsked(sent, srv.out.sent);
    BelowStill(sent, srv.out.sent, srv.opens);
    ForwardedStill(sent, srv.connections, srv.out.sent, srv.connections);
    ForwardedStill(sent, srv.closed, srv.out.sent, srv.closed);
    FaithfulIs(srv);
  }

  /** A request of a client, in memory apart from the link's; only a request on the control connection opens
      a connection. */
  method Ask(srv: Server, link: Link, ghost sent: seq<seq<Byte>>, r: Request, connId: Word, memory: Word)
    requires Session(srv, link, sent) && r !in srv.requests && r.length <= r.data.Length
    requires r.rtype == RT_OPEN ==> connId == DEFAULT_CONNECTION && srv.opens < 0xFFFF
    requires Apart({r}, link.reader.chain, link.readBuffer)
    modifies srv`connections, srv`nextConnId, srv`opens, srv`from, srv`requests, srv`replies, srv`state,
      r, r.data, srv.out, srv.connections`state, srv.connections`handlerId, srv.connections`reqQueue,
      srv.connections`packetQueue, srv.connections`accepted, srv.connections`replies, srv.connections`due,
      srv.connections`steady, srv.connections`written, srv.requests`state, srv.requests`actual,
      set q | q in srv.requests :: q.data
    ensures Session(srv, link, sent) && srv.requests <= old(srv.requests) + {r}
    ensures old(srv.connections) <= srv.connections
    ensures forall i | |old(srv.connections)| <= i < |srv.connections| :: fresh(srv.connections[i])
    ensures srv.opens == old(srv.opens) + if r.rtype == RT_OPEN then 1 else 0
  {
    hide *;
    SessionParts(srv, link, sent);
    if connId == DEFAULT_CONNECTION {
      AskControl(srv, link, r, memory);
    } else {
      AskConnection(srv, link, r, connId, memory);
    }
    ApartOneMore(old(srv.requests), r, srv.requests, link.reader.chain, link.readBuffer);
    SessionWhole(srv, link, sent);
  }

  lemma ApartOneMore(before: set<Request>, r: Request, after: set<Request>, chain: seq<FrameScan.InBuffer>,
                     buf: Buffer?)
    requires Apart(before, chain, buf) && Apart({r}, chain, buf) && after <= before + {r}
    ensures Apart(after, chain, buf)
  {
  }

  /** A request on the control connection. */
  method AskControl(srv: Server, link: Link, r: Request, memory: Word)
    requires srv.Table() && link.Valid() && r !in srv.requests && r.length <= r.data.Length
    requires r.rtype == RT_OPEN ==> srv.opens < 0xFFFF
    requires Faithful(srv)
    requires Apart({r}, link.reader.chain, link.readBuffer)
    modifies srv`connections, srv`nextConnId, srv`opens, srv`from, srv`requests, srv`replies, srv`state,
      r, r.data, srv.out
    ensures srv.Table() && link.Valid() && srv.requests <= old(srv.requests) + {r}
    ensures Faithful(srv)
    ensures old(srv.connections) <= srv.connections
    ensures forall i | |old(srv.connections)| <= i < |srv.connections| :: fresh(srv.connections[i])
    ensures srv.opens == old(srv.opens) + if r.rtype == RT_OPEN then 1 else 0
  {
    hide *;
    ApartFrom({r}, link.reader.chain, link.readBuffer, {r.data});
    FaithfulIs(srv);
    ghost var before, sent := srv.connections, srv.out.sent;
    srv.HandleClientControlMessage(r, memory);
    if r.rtype == RT_OPEN {
      OpenedFaithful(srv, r, before, sent);
    } else {
      FaithfulIs(srv);
    }
  }

  lemma OpenedFaithful(srv: Server, r: Request, before: seq<Connection>, sent: seq<Outgoing>)
    requires srv.Opened(r, before, sent) && AllSteady(before) && AllSteady(srv.closed) && srv.opens >= 1
    requires Gone(srv.closed, before, srv.opens - 1) && DataBelow(sent, srv.opens - 1)
    requires AllForwarded(sent, before) && AllForwarded(sent, srv.closed)
    requires ResendIds(sent) == AllAsked(0, IdsOf(srv.handled))
    ensures Faithful(srv) && before <= srv.connections && |srv.connections| == |before| + 1
  {
    hide *;
    OpenedSteady(srv, r, before, sent);
    OpenedSends(srv, r, before, sent);
    NoMoreAsked(sent, srv.out.sent);
    BelowStill(sent, srv.out.sent, srv.opens - 1);
    NoDataAbove(srv.out.sent, srv.opens - 1, srv.opens);
    ForwardedStill(sent, before, srv.out.sent, before);
    ForwardedStill(sent, srv.closed, srv.out.sent, srv.closed);
    OneMoreConnection(srv, before);
    FaithfulIs(srv);
  }

  lemma OpenedSends(srv: Server, r: Request, before: seq<Connection>, sent: seq<Outgoing>)
    requires srv.Opened(r, before, sent)
    ensures NoneAskedSince(sent, srv.out.sent) && NoDataSince(sent, srv.out.sent)
    ensures |srv.connections| == |before| + 1 && srv.connections == before + [srv.connections[|before|]]
    ensures srv.connections[|before|].id == srv.opens && srv.connections[|before|].written == []
  {
  }

  /** The connection that has been opened is the newest one, and nothing has been written on it. */
  lemma OneMoreConnection(srv: Server, before: seq<Connection>)
    requires |srv.connections| == |before| + 1 && srv.connections == before + [srv.connections[|before|]]
    requires srv.connections[|before|].id == srv.opens && srv.connections[|before|].written == []
    requires srv.opens >= 1 && Gone(srv.closed, before, srv.opens - 1) && DataBelow(srv.out.sent, srv.opens - 1)
    requires AllForwarded(srv.out.sent, before) && DataSent(srv.out.sent, srv.opens) == []
    ensures Gone(srv.closed, srv.connections, srv.opens) && DataBelow(srv.out.sent, srv.opens)
    ensures AllForwarded(srv.out.sent, srv.connections)
  {
    hide DataSent;
  }

  lemma OpenedSteady(srv: Server, r: Request, before: seq<Connection>, sent: seq<Outgoing>)
    requires srv.Opened(r, before, sent) && AllSteady(before)
    ensures AllSteady(srv.connections) && before <= srv.connections && |srv.connections| == |before| + 1
  {
    forall i | 0 <= i < |srv.connections| ensures srv.connections[i].steady {
      if i < |before| {
        assert srv.connections[i] == before[i];
      }
    }
  }

  /** A request on a connection, which does not open it again. */
  method AskConnection(srv: Server, link: Link, r: Request, connId: Word, memory: Word)
    requires srv.Table() && link.Valid() && r !in srv.requests && r.length <= r.data.Length
    requires connId != DEFAULT_CONNECTION && r.rtype != RT_OPEN
    requires Faithful(srv)
    requires Apart({r}, link.reader.chain, link.readBuffer)
    requires Apart(srv.requests, link.reader.chain, link.readBuffer)
    modifies srv`connections, srv`nextConnId, srv`opens, srv`from, srv`requests, srv`replies, srv`state,
      r, r.data, srv.out, srv.connections`state, srv.connections`handlerId, srv.connections`reqQueue,
      srv.connections`packetQueue, srv.connections`accepted, srv.connections`replies, srv.connections`due,
      srv.connections`steady, srv.connections`written, srv.requests`state, srv.requests`actual,
      set q | q in srv.requests :: q.data
    ensures srv.Table() && link.Valid() && srv.requests <= old(srv.requests) + {r}
    ensures Faithful(srv) && srv.opens == old(srv.opens)
    ensures srv.connections == old(srv.connections)
  {
    hide *;
    ghost var all := set q | q in srv.requests :: q.data;
    ApartFrom({r}, link.reader.chain, link.readBuffer, {r.data});
    ApartFrom(srv.requests, link.reader.chain, link.readBuffer, all);
    assert link.Valid();
    AskServer(srv, r, connId, memory);
  }

  /** The server's part of it. */
  method AskServer(srv: Server, r: Request, connId: Word, memory: Word)
    requires srv.Table() && r !in srv.requests && r.length <= r.data.Length
    requires connId != DEFAULT_CONNECTION && r.rtype != RT_OPEN && Faithful(srv)
    modifies srv`connections, srv`nextConnId, srv`opens, srv`from, srv`requests, srv`replies, srv`state,
      r, r.data, srv.out, srv.connections`state, srv.connections`handlerId, srv.connections`reqQueue,
      srv.connections`packetQueue, srv.connections`accepted, srv.connections`replies, srv.connections`due,
      srv.connections`steady, srv.connections`written, srv.requests`state, srv.requests`actual,
      set q | q in srv.requests :: q.data
    ensures srv.Table() && srv.requests <= old(srv.requests) + {r}
    ensures Faithful(srv) && srv.opens == old(srv.opens) && srv.connections == old(srv.connections)
  {
    hide *;
    AtKnown(srv, connId);
    FaithfulIs(srv);
    AtOpen(srv, connId);
    KnownIs(srv, connId);
    ghost var snaps, data, ticks := Snapshots(srv.connections), r.data[..r.length], r.timeoutTicks;
    ghost var sent, connections := srv.out.sent, srv.connections;
    WrittenBefore(sent, srv.connections);
    SteadyBefore(srv.connections);
    srv.ReceiveFromClient(r, connId, memory);
    forall i | 0 <= i < |connections|
      ensures if connections[i].id != connId then connections[i].written == snaps[i].written
              else connections[i].Asked(r, data, ticks, snaps[i], sent, srv.out)
      ensures connections[i].steady {
      assert connections[i] in connections;
      if connections[i].id == connId {
        AskedSteady(connections[i], r, data, ticks, snaps[i], sent, srv.out);
      }
    }
    SteadyNow(srv.connections);
    NoneAskedNow(sent, srv.out, srv.connections, snaps, connId, r, data, ticks);
    NoMoreAsked(sent, srv.out.sent);
    AskedForwarded(sent, srv.out, srv.connections, snaps, srv.closed, srv.opens, connId, r, data, ticks);
    FaithfulIs(srv);
  }

  lemma NoneAskedNow(sent: seq<Outgoing>, out: Outbox, connections: seq<Connection>, snaps: seq<Before>, id: Word,
                     r: Request, data: seq<Byte>, ticks: Word)
    requires |snaps| == |connections|
    requires forall i | 0 <= i < |connections| && connections[i].id == id ::
               connections[i].Asked(r, data, ticks, snaps[i], sent, out)
    requires out.sent == sent || exists i :: 0 <= i < |connections| && connections[i].id == id
    ensures NoneAskedSince(sent, out.sent)
  {
    hide Connection.Asked;
    if i :| 0 <= i < |connections| && connections[i].id == id {
      AskedNoResend(connections[i], r, data, ticks, snaps[i], sent, out);
    }
  }

  lemma AskedSteady(c: Connection, r: Request, data: seq<Byte>, ticks: Word, b: Before, sent: seq<Outgoing>,
                    out: Outbox)
    requires c.Asked(r, data, ticks, b, sent, out) && r.rtype != RT_OPEN
    ensures c.steady == b.steady
  {
  }

  lemma SteadyBefore(connections: seq<Connection>)
    requires AllSteady(connections)
    ensures forall i | 0 <= i < |connections| :: connections[i].steady && Snapshots(connections)[i].steady
  {
  }

  lemma SteadyNow(connections: seq<Connection>)
    requires forall i | 0 <= i < |connections| :: connections[i].steady
    ensures AllSteady(connections)
  {
  }

  lemma AtOpen(srv: Server, id: Word)
    requires srv.Table()
    ensures forall i, c | 0 <= i < |srv.closed| && c in srv.ConnectionsAt(id) :: srv.closed[i] != c
  {
    TableIds(srv);
    hide Server.Table;
  }

  lemma KnownIs(srv: Server, id: Word)
    ensures srv.Known(id) <==> exists i :: 0 <= i < |srv.connections| && srv.connections[i].id == id
  {
  }

  /** What happens to a server: the device has read at most `count` bytes, and there is memory for `grants`
      packets; a client makes a request; the timer ticks. */
  datatype Event =
    | Read(count: nat, grants: nat)
    | Demand(request: Request, connId: Word, memory: Word)
    | Elapsed

  /** The messages sent to the server are different ones, and connections are opened through the control
      connection. */
  ghost predicate Scripted(events: seq<Event>) {
    && (forall i | 0 <= i < |events| && events[i].Demand? ::
          var r := events[i].request;
          r.length <= r.data.Length && (r.rtype == RT_OPEN ==> events[i].connId == DEFAULT_CONNECTION))
    && (forall i, j | 0 <= i < j < |events| && events[i].Demand? && events[j].Demand? ::
          events[i].request != events[j].request)
  }

  function Opens(events: seq<Event>): nat {
    if events == [] then 0
    else
      var last := events[|events| - 1];
      Opens(events[..|events| - 1]) + if Opening(last) then 1 else 0
  }

  /** The requests of the events, and their buffers. */
  ghost function RequestsIn(events: seq<Event>): set<Request> {
    set e | e in events && e.Demand? :: e.request
  }

  /** `mine` includes the objects the server and the link consist of. */
  ghost predicate Owned(mine: set<object>, srv: Server, link: Link)
    reads srv`connections, link`readBuffer, link.reader`chain
  {
    && srv in mine && srv.out in mine && link in mine && link.reader in mine
    && link.readBuffer != null && link.readBuffer in mine && link.readBuffer.data in mine
    && (forall i | 0 <= i < |srv.connections| :: srv.connections[i] in mine)
    && (forall i | 0 <= i < |link.reader.chain| ::
          link.reader.chain[i] in mine && link.reader.chain[i].buf.data in mine)
  }

  /** The link's memory is not that of a request which belongs to someone else. */
  lemma NotOwned(mine: set<object>, srv: Server, link: Link, r: Request)
    requires Owned(mine, srv, link) && r.data !in mine
    ensures Apart({r}, link.reader.chain, link.readBuffer)
  {
  }

  lemma NewSession(srv: Server, link: Link, sent: seq<seq<Byte>>)
    requires srv.Counted() && srv.Table() && link.Valid() && link.readBuffer != null
    requires srv.connections == [] && srv.closed == [] && srv.requests == {} && srv.handled == []
    requires srv.out.sent == []
    requires link.reader.stream == [] && link.reader.queue == [] && link.reader.trace.frames == []
    ensures Session(srv, link, sent)
  {
    hide Flatten;
  }

  lemma NextOpens(events: seq<Event>, k: nat)
    requires k < |events|
    ensures Opens(events[..k + 1]) == Opens(events[..k])
                                     + if events[k].Demand? && events[k].request.rtype == RT_OPEN then 1 else 0
    ensures Opens(events[..k + 1]) <= Opens(events)
  {
    assert events[..k + 1][..k] == events[..k];
    OpensGrow(events, k + 1);
  }

  lemma NextRequest(events: seq<Event>, k: nat)
    requires Scripted(events) && k < |events|
    ensures RequestsIn(events[..k]) <= RequestsIn(events[..k + 1]) <= RequestsIn(events)
    ensures events[k].Demand? ==>
              var r := events[k].request;
              && r !in RequestsIn(events[..k]) && r in RequestsIn(events[..k + 1])
              && r.length <= r.data.Length && (r.rtype == RT_OPEN ==> events[k].connId == DEFAULT_CONNECTION)
  {
    forall r | r in RequestsIn(events[..k]) ensures r in RequestsIn(events[..k + 1]) {
      var e :| e in events[..k] && e.Demand? && e.request == r;
      assert e in events[..k + 1];
    }
    forall r | r in RequestsIn(events[..k + 1]) ensures r in RequestsIn(events) {
      var e :| e in events[..k + 1] && e.Demand? && e.request == r;
      assert e in events;
    }
    if events[k].Demand? {
      assert events[k] in events[..k + 1] by {
        assert events[..k + 1][k] == events[k];
      }
      forall e | e in events[..k] && e.Demand? ensures e.request != events[k].request {
        var i: nat :| i < k && events[..k][i] == e;
        assert events[i] == e;
      }
    }
  }

  lemma {:induction false} OpensGrow(events: seq<Event>, k: nat)
    requires k <= |events|
    ensures Opens(events[..k]) <= Opens(events)
    decreases |events|
  {
    if k < |events| {
      var n := |events| - 1;
      assert events[..n][..k] == events[..k];
      OpensGrow(events[..n], k);
    } else {
      assert events[..k] == events;
    }
  }

  lemma OwnedParts(mine: set<object>, srv: Server, link: Link)
    requires Owned(mine, srv, link)
    ensures srv in mine && srv.out in mine && link in mine && link.reader in mine
    ensures link.readBuffer != null && link.readBuffer in mine && link.readBuffer.data in mine
    ensures forall i | 0 <= i < |srv.connections| :: srv.connections[i] in mine
    ensures forall i | 0 <= i < |link.reader.chain| ::
              link.reader.chain[i] in mine && link.reader.chain[i].buf.data in mine
  {
  }

  lemma StillOwned(mine: set<object>, connections: seq<Connection>, chain: seq<FrameScan.InBuffer>, buf: Buffer,
                   mine': set<object>, srv: Server, link: Link)
    requires mine <= mine' && srv in mine && srv.out in mine && link in mine && link.reader in mine
    requires forall i | 0 <= i < |connections| :: connections[i] in mine
    requires forall i | 0 <= i < |chain| :: chain[i] in mine && chain[i].buf.data in mine
    requires buf.data in mine && Link.Grown(chain, link.reader.chain, buf)
    requires Among(srv.connections, set c | c in connections)
    requires link.readBuffer != null && link.readBuffer in mine' && link.readBuffer.data in mine'
    requires forall i | 0 <= i < |link.reader.chain| :: link.reader.chain[i] in mine'
    ensures Owned(mine', srv, link)
  {
    forall i | 0 <= i < |srv.connections| ensures srv.connections[i] in mine' {
      assert srv.connections[i] in connections;
    }
  }

  /** What a read adds to the server's objects is its new read buffer or behind the chain there was. */
  lemma NewObjects(mine: set<object>, before: seq<FrameScan.InBuffer>, after: seq<FrameScan.InBuffer>,
                   buf: Buffer, buf': Buffer)
    requires Link.Grown(before, after, buf) && buf in mine && buf.data in mine
    requires forall i | 0 <= i < |before| :: before[i] in mine
    ensures forall o | o in mine + {buf', buf'.data} + (set c | c in after) && o !in mine ::
              (buf' != buf && (o == buf' || o == buf'.data)) || exists i | |before| <= i < |after| :: after[i] == o
  {
  }

  lemma RoomLeft(link: Link)
    requires link.Valid() && link.readBuffer != null
    ensures link.readBuffer.offset <= BUFFER_SIZE
  {
  }

  lemma NextBytes(wire: seq<Byte>, stream: seq<Byte>, n: nat)
    requires stream <= wire && |stream| + n <= |wire|
    ensures stream + wire[|stream|..|stream| + n] <= wire
  {
  }

  predicate Opening(e: Event) {
    e.Demand? && e.request.rtype == RT_OPEN
  }

  /** The device reads at most `count` of the bytes behind the first `got`. */
  method HappenRead(srv: Server, link: Link, ghost sent: seq<seq<Byte>>, wire: seq<Byte>, got: nat, count: nat,
                    grants: nat, ghost mine: set<object>)
    returns (got': nat, ghost mine': set<object>)
    requires AllWellFormed(sent) && wire == Flatten(sent) && Session(srv, link, sent)
    requires got == |link.reader.stream| && Owned(mine, srv, link)
    modifies mine, srv.requests, set r | r in srv.requests :: r.data
    ensures Session(srv, link, sent) && got' == |link.reader.stream|
    ensures Owned(mine', srv, link) && mine <= mine' && fresh(mine' - mine)
    ensures srv.opens == old(srv.opens) && srv.requests == old(srv.requests)
  {
    hide *;
    SessionParts(srv, link, sent);
    RoomLeft(link);
    got', mine' := got, mine;
    var n := Least(Least(count, |wire| - got), BUFFER_SIZE - link.readBuffer.offset);
    if n > 0 {
      NextBytes(wire, link.reader.stream, n);
      mine' := ReadBytes(srv, link, sent, wire[got..got + n], grants, mine);
      got' := got + n;
    }
  }

  method ReadBytes(srv: Server, link: Link, ghost sent: seq<seq<Byte>>, bytes: seq<Byte>, grants: nat,
                   ghost mine: set<object>)
    returns (ghost mine': set<object>)
    requires AllWellFormed(sent) && Session(srv, link, sent) && bytes != [] && Owned(mine, srv, link)
    requires link.readBuffer != null && |bytes| <= BUFFER_SIZE - link.readBuffer.offset
    requires link.reader.stream + bytes <= Flatten(sent)
    modifies mine, srv.requests, set r | r in srv.requests :: r.data
    ensures Session(srv, link, sent) && link.reader.stream == old(link.reader.stream) + bytes
    ensures Owned(mine', srv, link) && mine <= mine' && fresh(mine' - mine)
    ensures srv.opens == old(srv.opens) && srv.requests == old(srv.requests)
  {
    hide *;
    OwnedParts(mine, srv, link);
    ghost var connections, chain, buf := srv.connections, link.reader.chain, link.readBuffer;
    Receive(srv, link, sent, bytes, grants);
    SessionParts(srv, link, sent);
    mine' := mine + {link.readBuffer, link.readBuffer.data} + set c | c in link.reader.chain;
    StillOwned(mine, connections, chain, buf, mine', srv, link);
    NewObjects(mine, chain, link.reader.chain, buf, link.readBuffer);
  }

  /** A client makes a request, in memory of its own. */
  method HappenDemand(srv: Server, link: Link, ghost sent: seq<seq<Byte>>, r: Request, connId: Word, memory: Word,
                      ghost mine: set<object>)
    returns (ghost mine': set<object>)
    requires Session(srv, link, sent) && Owned(mine, srv, link) && r.data !in mine
    requires r !in srv.requests && r.length <= r.data.Length
    requires r.rtype == RT_OPEN ==> connId == DEFAULT_CONNECTION && srv.opens < 0xFFFF
    modifies mine, r, r.data, srv.requests, set q | q in srv.requests :: q.data
    ensures Session(srv, link, sent) && link.reader.stream == old(link.reader.stream)
    ensures Owned(mine', srv, link) && mine <= mine' && fresh(mine' - mine)
    ensures srv.opens == old(srv.opens) + if r.rtype == RT_OPEN then 1 else 0
    ensures srv.requests <= old(srv.requests) + {r}
  {
    hide *;
    OwnedParts(mine, srv, link);
    NotOwned(mine, srv, link, r);
    Ask(srv, link, sent, r, connId, memory);
    mine' := mine + set c | c in srv.connections;
    OwnedMore(mine, mine', srv, link);
    forall o | o in mine' - mine ensures fresh(o) {
      assert exists i :: 0 <= i < |srv.connections| && srv.connections[i] == o;
    }
  }

  lemma OwnedMore(mine: set<object>, mine': set<object>, srv: Server, link: Link)
    requires mine <= mine' && srv in mine && srv.out in mine && link in mine && link.reader in mine
    requires link.readBuffer != null && link.readBuffer in mine && link.readBuffer.data in mine
    requires forall i | 0 <= i < |srv.connections| :: srv.connections[i] in mine'
    requires forall i | 0 <= i < |link.reader.chain| ::
               link.reader.chain[i] in mine && link.reader.chain[i].buf.data in mine
    ensures Owned(mine', srv, link)
  {
  }

  /** One event. */
  method Happen(srv: Server, link: Link, ghost sent: seq<seq<Byte>>, wire: seq<Byte>, got: nat, e: Event,
                ghost mine: set<object>)
    returns (got': nat, ghost mine': set<object>)
    requires AllWellFormed(sent) && wire == Flatten(sent) && Session(srv, link, sent)
    requires got == |link.reader.stream| && Owned(mine, srv, link)
    requires e.Demand? ==>
               var r := e.request;
               && r.data !in mine && r !in srv.requests && r.length <= r.data.Length
               && (r.rtype == RT_OPEN ==> e.connId == DEFAULT_CONNECTION && srv.opens < 0xFFFF)
    modifies mine, srv.requests, (set r | r in srv.requests :: r.data), if e.Demand? then {e.request} else {},
      if e.Demand? then {e.request.data} else {}
    ensures Session(srv, link, sent) && got' == |link.reader.stream|
    ensures Owned(mine', srv, link) && mine <= mine' && fresh(mine' - mine)
    ensures srv.opens == old(srv.opens) + if e.Demand? && e.request.rtype == RT_OPEN then 1 else 0
    ensures srv.requests <= old(srv.requests) + if e.Demand? then {e.request} else {}
  {
    hide *;
    got', mine' := got, mine;
    match e
    case Read(count, grants) =>
      got', mine' := HappenRead(srv, link, sent, wire, got, count, grants, mine);
    case Demand(r, connId, memory) =>
      mine' := HappenDemand(srv, link, sent, r, connId, memory, mine);
    case Elapsed =>
      OwnedParts(mine, srv, link);
      Elapse(srv, link, sent);
      OwnedMore(mine, mine, srv, link);
  }

  /** A run: from a new server and link, for any sequence of reads, requests and ticks, end-to-end delivery
      holds on every connection there has been, and what its writes carried has been sent; and the peer has
      been asked for exactly the packets missing if what it sent has increasing identifiers. */
  method Run(ghost sent: seq<seq<Byte>>, wire: seq<Byte>, events: seq<Event>) returns (srv: Server, link: Link)
    requires AllWellFormed(sent) && wire == Flatten(sent) && Scripted(events) && Opens(events) < 0x1_0000
    modifies RequestsIn(events), set r | r in RequestsIn(events) :: r.data
    ensures Session(srv, link, sent)
    ensures forall c | c in srv.connections || c in srv.closed ::
              Delivered(srv, sent, c) && DataSent(srv.out.sent, c.id) == c.written
    ensures UpToDate(srv, link)
    ensures EachOnce(0, ResendIds(srv.out.sent), IdsOf(srv.handled)) <==> Increasing(0, IdsOf(srv.handled))
  {
    hide *;
    srv := new Server();
    link := new Link();
    link.BeginRead();
    NewSession(srv, link, sent);
    ghost var mine: set<object> := {srv, srv.out, link, link.reader, link.readBuffer, link.readBuffer.data};
    OwnedMore(mine, mine, srv, link);
    var got := 0;
    NoEvents();
    for k := 0 to |events|
      invariant Session(srv, link, sent) && got == |link.reader.stream| && Owned(mine, srv, link) && fresh(mine)
      invariant srv.opens <= Opens(events[..k]) && srv.requests <= RequestsIn(events[..k])
    {
      NextOpens(events, k);
      NextRequest(events, k);
      got, mine := Happen(srv, link, sent, wire, got, events[k], mine);
    }
    SessionParts(srv, link, sent);
    MissingAskedFor(srv, link, sent);
    forall c | c in srv.connections || c in srv.closed
      ensures Delivered(srv, sent, c) && DataSent(srv.out.sent, c.id) == c.written {
      Delivery(srv, link, sent, c);
      WritesSent(srv, link, sent, c);
    }
  }

  lemma NoEvents()
    ensures Opens([]) == 0 && RequestsIn([]) == {}
  {
  }

  function Least(a: nat, b: nat): (m: nat)
    ensures m <= a && m <= b && (m == a || m == b)
  {
    if a < b then a else b
  }
}
