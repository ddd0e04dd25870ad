/** The way out of the server: what the clients' writes carry is sent to the peer as data packets. */
module Forwarding {
  import opened Memory
  import opened Framing
  import opened Requests
  import opened Connection
  import opened ReaderTrace
  import opened RoundTrip
  import Server

  /** No data has been sent since `before`. */
  ghost predicate NoDataSince(before: seq<Outgoing>, after: seq<Outgoing>) {
    before <= after && forall k | |before| <= k < |after| :: after[k].ptype != PT_DATA
  }

  lemma NoDataYet(sent: seq<Outgoing>)
    ensures NoDataSince(sent, sent)
  {
  }

  lemma NoDataEver(a: seq<Outgoing>, b: seq<Outgoing>, c: seq<Outgoing>)
    requires NoDataSince(a, b) && NoDataSince(b, c)
    ensures NoDataSince(a, c)
  {
  }

  /** The data sent on connection `id`. */
  function DataSent(sent: seq<Outgoing>, id: Word): seq<seq<Byte>> {
    PayloadsSent(sent, PT_DATA, id)
  }

  lemma DataSentIs(sent: seq<Outgoing>, id: Word)
    ensures DataSent(sent, id) == PayloadsSent(sent, PT_DATA, id)
  {
  }

  lemma {:induction false} NoMoreData(before: seq<Outgoing>, after: seq<Outgoing>, id: Word)
    requires NoDataSince(before, after)
    ensures DataSent(after, id) == DataSent(before, id)
  {
    if |before| < |after| {
      NoMoreData(before, after[..|after| - 1], id);
    } else {
      assert before == after;
    }
  }

  lemma OneMoreData(sent: seq<Outgoing>, data: seq<Byte>, at: Word, id: Word)
    ensures DataSent(sent + [Outgoing(PT_DATA, at, data)], id) ==
            DataSent(sent, id) + if at == id then [data] else []
  {
    assert (sent + [Outgoing(PT_DATA, at, data)])[..|sent|] == sent;
  }

  lemma {:induction false} NoDataAbove(sent: seq<Outgoing>, n: nat, id: Word)
    requires DataBelow(sent, n) && id > n
    ensures DataSent(sent, id) == []
  {
    if sent != [] {
      var m := |sent| - 1;
      assert forall k | 0 <= k < m :: sent[..m][k] == sent[k];
      NoDataAbove(sent[..m], n, id);
    }
  }

  /** Data is sent on the first `n` connections only. */
  ghost predicate DataBelow(sent: seq<Outgoing>, n: nat) {
    forall k | 0 <= k < |sent| && sent[k].ptype == PT_DATA :: sent[k].connId <= n
  }

  /** No identifier of a connection that has left the table is that of one in it, or of a later one. */
  ghost predicate Gone(closed: seq<Connection>, connections: seq<Connection>, opens: nat) {
    && (forall i | 0 <= i < |connections| :: 1 <= connections[i].id <= opens)
    && (forall i | 0 <= i < |closed| :: 1 <= closed[i].id <= opens)
    && forall i, j | 0 <= i < |closed| && 0 <= j < |connections| :: closed[i].id != connections[j].id
  }

  /** The data sent on each connection is what its client's successful writes carried. */
  ghost predicate AllForwarded(sent: seq<Outgoing>, connections: seq<Connection>)
    reads connections`written
  {
    forall i | 0 <= i < |connections| :: DataSent(sent, connections[i].id) == connections[i].written
  }

  lemma ForwardedStill(sent: seq<Outgoing>, connections: seq<Connection>, sent': seq<Outgoing>,
                       connections': seq<Connection>)
    requires AllForwarded(sent, connections) && NoDataSince(sent, sent')
    requires forall i | 0 <= i < |connections'| :: connections'[i] in connections
    ensures AllForwarded(sent', connections')
  {
    hide DataSent, NoDataSince;
    forall i | 0 <= i < |connections'| ensures DataSent(sent', connections'[i].id) == connections'[i].written {
      NoMoreData(sent, sent', connections'[i].id);
    }
  }

  lemma BelowStill(sent: seq<Outgoing>, sent': seq<Outgoing>, n: nat)
    requires DataBelow(sent, n) && NoDataSince(sent, sent')
    ensures DataBelow(sent', n)
  {
    forall k | 0 <= k < |sent'| && sent'[k].ptype == PT_DATA ensures sent'[k].connId <= n {
      assert sent'[k] == sent[k];
    }
  }

  /** How the data sent on connection `id`, which was `written`, has changed: not at all, or by `data`. */
  ghost predicate Wrote(sent: seq<Outgoing>, written: seq<seq<Byte>>, sent': seq<Outgoing>,
                        written': seq<seq<Byte>>, id: Word, data: seq<Byte>) {
    || (NoDataSince(sent, sent') && written' == written)
    || (sent' == sent + [Outgoing(PT_DATA, id, data)] && written' == written + [data])
  }

  /** A request sends data exactly when it is a write that is answered OK. */
  lemma AskedWrote(c: Connection, r: Request, data: seq<Byte>, ticks: Word, b: Before, sent: seq<Outgoing>,
                   out: Outbox)
    requires c.Asked(r, data, ticks, b, sent, out)
    ensures Wrote(sent, b.written, out.sent, c.written, c.id, data)
  {
    Connection.Codes();
    if r.rtype == RT_WRITE {
      assert c.WriteHandled(r, data, b.replies, sent, out);
      var replies := b.replies + [c.ReplyNow(r, RS_OK, r.length)];
      if c.replies == replies {
        assert c.replies[|b.replies|].state == RS_OK;
      }
    }
    hide Connection.Pushed, Connection.ReadHandled;
  }

  /** A request of a client does not ask the peer for anything. */
  lemma AskedNoResend(c: Connection, r: Request, data: seq<Byte>, ticks: Word, b: Before, sent: seq<Outgoing>,
                      out: Outbox)
    requires c.Asked(r, data, ticks, b, sent, out)
    ensures Server.NoneAskedSince(sent, out.sent)
  {
    Connection.Codes();
    if r.rtype == RT_WRITE {
      assert c.WriteHandled(r, data, b.replies, sent, out);
    }
    hide Connection.Pushed, Connection.ReadHandled;
  }

  lemma BothForwarded(sent: seq<Outgoing>, a: seq<Connection>, b: seq<Connection>)
    requires AllForwarded(sent, a) && AllForwarded(sent, b)
    ensures AllForwarded(sent, a + b)
  {
  }

  ghost function Snapshots(connections: seq<Connection>): (r: seq<Before>)
    reads connections
    ensures |r| == |connections| && forall i | 0 <= i < |r| :: r[i] == connections[i].Now()
  {
    if connections == [] then [] else [connections[0].Now()] + Snapshots(connections[1..])
  }

  lemma WrittenBefore(sent: seq<Outgoing>, connections: seq<Connection>)
    requires AllForwarded(sent, connections)
    ensures forall i | 0 <= i < |connections| ::
              Snapshots(connections)[i].written == connections[i].written == DataSent(sent, connections[i].id)
  {
  }

  /** Request `r` on connection `id` has sent data there or nowhere. */
  lemma AskedForwarded(sent: seq<Outgoing>, out: Outbox, connections: seq<Connection>, snaps: seq<Before>,
                       closed: seq<Connection>, opens: nat, id: Word, r: Request, data: seq<Byte>, ticks: Word)
    requires Gone(closed, connections, opens) && DataBelow(sent, opens) && AllForwarded(sent, closed)
    requires |snaps| == |connections|
    requires forall i | 0 <= i < |connections| :: snaps[i].written == DataSent(sent, connections[i].id)
    requires forall i | 0 <= i < |connections| ::
               if connections[i].id != id then connections[i].written == snaps[i].written
               else connections[i].Asked(r, data, ticks, snaps[i], sent, out)
    requires out.sent == sent || exists i :: 0 <= i < |connections| && connections[i].id == id
    ensures DataBelow(out.sent, opens)
    ensures AllForwarded(out.sent, connections) && AllForwarded(out.sent, closed)
  {
    forall i | 0 <= i < |connections| && connections[i].id == id
      ensures Wrote(sent, snaps[i].written, out.sent, connections[i].written, id, data) {
      AskedWrote(connections[i], r, data, ticks, snaps[i], sent, out);
    }
    hide DataSent, Connection.Asked;
    if NoDataSince(sent, out.sent) {
      BelowStill(sent, out.sent, opens);
      ForwardedStill(sent, closed, out.sent, closed);
    } else {
      assert out.sent == sent + [Outgoing(PT_DATA, id, data)];
    }
    forall c: Connection | c in connections || c in closed
      ensures DataSent(out.sent, c.id) == DataSent(sent, c.id) + if NoDataSince(sent, out.sent) || c.id != id then []
                                                                 else [data] {
      if NoDataSince(sent, out.sent) {
        NoMoreData(sent, out.sent, c.id);
      } else {
        OneMoreData(sent, data, id, c.id);
      }
    }
  }
}
