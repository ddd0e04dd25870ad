/** Writer and reader undo each other: whatever the interleaving of allocating, filling in and writing
    packets, and however the written bytes are cut into reads, the reader hands out the packets that
    were written, in the order of their allocation. */
module RoundTrip {
  import opened Memory
  import opened Framing
  import opened Drafts
  import opened ReaderTrace
  import PW = PacketWriter
  import opened Connection

  /** The writer as its methods change it: drafts not yet sent, frames sent, and as a ledger the packets
      allocated so far with what their owners filled in. */
  datatype Writer = Writer(unsent: seq<seq<Byte>>, sent: seq<seq<Byte>>, ledger: seq<Packet>)

  const IDLE := Writer([], [], [])

  /** AllocPacket puts a draft behind the others, Compose fills one in, WriteBuffer stamps and sends the
      first `n`. */
  datatype Step =
    | Allocate(draft: seq<Byte>)
    | FillIn(i: nat, ptype: Byte, connId: Word, payload: seq<Byte>)
    | Write(n: nat)

  predicate Enabled(w: Writer, step: Step) {
    match step
    case Allocate(draft) => IsDraft(draft)
    case FillIn(i, _, _, payload) =>
      i < |w.unsent| && IsDraft(w.unsent[i]) && |payload| == HeaderAt(w.unsent[i], 0).length
      && |w.sent| + i < |w.ledger|
    case Write(n) => n <= |w.unsent|
  }

  function Apply(w: Writer, step: Step): Writer
    requires Enabled(w, step)
  {
    match step
    case Allocate(draft) =>
      w.(unsent := w.unsent + [draft], ledger := w.ledger + [DraftPacket(draft)])
    case FillIn(i, ptype, connId, payload) =>
      var k := |w.sent| + i;
      w.(unsent := w.unsent[i := Compose(w.unsent[i], ptype, connId, payload)],
         ledger := w.ledger[k := w.ledger[k].(ptype := ptype, connId := connId, payload := payload)])
    case Write(n) =>
      w.(unsent := w.unsent[n..], sent := w.sent + Stamps(w.unsent[..n]))
  }

  ghost predicate Runs(w: Writer, steps: seq<Step>)
    decreases |steps|
  {
    steps == [] || (Enabled(w, steps[0]) && Runs(Apply(w, steps[0]), steps[1..]))
  }

  ghost function After(w: Writer, steps: seq<Step>): Writer
    requires Runs(w, steps)
    decreases |steps|
  {
    if steps == [] then w else After(Apply(w, steps[0]), steps[1..])
  }

  /** A frame on the wire, or a draft, that carries the packet `p`. */
  predicate Carries(f: seq<Byte>, p: Packet) {
    WellFormed(f) && PacketOf(f) == p
  }

  predicate DraftOf(f: seq<Byte>, p: Packet) {
    IsDraft(f) && DraftPacket(f) == p
  }

  /** The ledger is what has been sent, followed by what is still to be sent. */
  ghost predicate Balanced(w: Writer) {
    && |w.ledger| == |w.sent| + |w.unsent|
    && (forall k | 0 <= k < |w.sent| :: Carries(w.sent[k], w.ledger[k]))
    && (forall k | 0 <= k < |w.unsent| :: DraftOf(w.unsent[k], w.ledger[|w.sent| + k]))
  }

  lemma StampedCarries(f: seq<Byte>, p: Packet)
    requires DraftOf(f, p)
    ensures Carries(Stamp(f), p)
  {
    StampedDraft(f);
  }

  lemma ComposedIsDraft(f: seq<Byte>, p: Packet, ptype: Byte, connId: Word, payload: seq<Byte>)
    requires DraftOf(f, p) && |payload| == HeaderAt(f, 0).length
    ensures DraftOf(Compose(f, ptype, connId, payload), p.(ptype := ptype, connId := connId, payload := payload))
  {
    ComposedDraft(f, ptype, connId, payload);
  }

  lemma WriteKeepsBalance(w: Writer, n: nat)
    requires Balanced(w) && n <= |w.unsent|
    ensures Balanced(Apply(w, Write(n)))
  {
    var w' := Apply(w, Write(n));
    hide Stamp, DraftOf, Carries;
    assert |w'.sent| == |w.sent| + n && |w'.unsent| == |w.unsent| - n;
    forall k | 0 <= k < |w'.sent| ensures Carries(w'.sent[k], w'.ledger[k]) {
      if k >= |w.sent| {
        StampedCarries(w.unsent[k - |w.sent|], w.ledger[k]);
      }
    }
  }

  lemma StepKeepsBalance(w: Writer, step: Step)
    requires Balanced(w) && Enabled(w, step)
    ensures Balanced(Apply(w, step))
  {
    match step
    case Allocate(draft) =>
      assert DraftOf(draft, DraftPacket(draft));
      hide DraftOf, Carries, IsDraft;
    case FillIn(i, ptype, connId, payload) =>
      ComposedIsDraft(w.unsent[i], w.ledger[|w.sent| + i], ptype, connId, payload);
      hide Compose, HeaderAt, DraftOf, Carries, IsDraft;
    case Write(n) =>
      WriteKeepsBalance(w, n);
  }

  lemma {:induction false} RunKeepsBalance(w: Writer, steps: seq<Step>)
    requires Balanced(w) && Runs(w, steps)
    ensures Balanced(After(w, steps))
    decreases |steps|
  {
    if steps != [] {
      StepKeepsBalance(w, steps[0]);
      RunKeepsBalance(Apply(w, steps[0]), steps[1..]);
    }
  }

  /** A stream cut from well-formed frames meets the reader's precondition, and what the reader must
      deliver for it is a prefix of these frames, all of them once all bytes have arrived. */
  lemma CutStream(sent: seq<seq<Byte>>, received: seq<Byte>, taken: seq<seq<Byte>>, limit: nat)
    requires AllWellFormed(sent) && received <= Flatten(sent)
    ensures Tame(received)
    ensures Delivers(taken, received, limit) ==> taken <= sent
    ensures Delivers(taken, received, limit) && received == Flatten(sent) && |sent| <= limit ==> taken == sent
  {
    ParseOfCutStream(sent, received);
    hide Parse, Flatten, WellFormed;
  }

  /** The round trip: for every run of the writer and every cut of its output, the packets of the frames
      the reader takes are the first entries of the ledger, and all that was sent once it has arrived. */
  lemma RoundTrip(steps: seq<Step>, received: seq<Byte>, taken: seq<seq<Byte>>, limit: nat)
    requires Runs(IDLE, steps) && received <= Flatten(After(IDLE, steps).sent)
    requires Delivers(taken, received, limit)
    ensures var w := After(IDLE, steps);
            && |taken| <= |w.sent| <= |w.ledger|
            && (forall k | 0 <= k < |taken| :: Carries(taken[k], w.ledger[k]))
            && (received == Flatten(w.sent) && |w.sent| <= limit ==> |taken| == |w.sent|)
  {
    RunKeepsBalance(IDLE, steps);
    var w := After(IDLE, steps);
    AllCarry(w);
    CutStream(w.sent, received, taken, limit);
    hide Delivers, Flatten, Runs, After, Carries;
  }

  lemma AllCarry(w: Writer)
    requires Balanced(w)
    ensures AllWellFormed(w.sent)
  {
    hide PacketOf, WellFormed;
  }

  /** The packet writer `pw` is where the model `w` says. */
  ghost predicate Shows(pw: PW.PacketWriter, w: Writer)
    reads pw, pw.queue`offset, pw.queue`canRelease, pw.live`packetCount, pw.recent`sent,
      (set b | b in pw.queue :: b.buf)`offset, set p | p in Flatten(pw.pending) :: p.outBuf.buf.data
  {
    pw.Valid() && pw.Unsent() == w.unsent && pw.sentFrames == w.sent
  }

  lemma ShowsIs(pw: PW.PacketWriter, w: Writer)
    ensures Shows(pw, w) <==> pw.Valid() && pw.Unsent() == w.unsent && pw.sentFrames == w.sent
  {
  }

  /** The real allocation is the step of the model. */
  method DoAllocate(pw: PW.PacketWriter, ghost w: Writer, length: Word, haveBuffer: bool, havePacket: bool)
    returns (r: Option<PW.OutPacket>, ghost step: Step)
    requires Shows(pw, w) && length != BUFFER_SIZE - 1
    modifies pw`queue, pw`outBuf, pw`bufCount, pw`pending, pw`recent, pw`recentCount,
      pw`sentCount, pw`live, pw.live`packetCount, (if pw.outBuf == null then {} else {pw.outBuf.buf})`offset,
      (if pw.outBuf == null then {} else {pw.outBuf.buf.data}), pw`nextPackId
    ensures r.Some? <==> old(pw.CanAlloc(length, haveBuffer, havePacket))
    ensures r.None? ==> Shows(pw, w)
    ensures r.Some? ==>
              && Flatten(pw.pending) == old(Flatten(pw.pending)) + [r.value]
              && r.value.outBuf == pw.outBuf && (pw.outBuf == old(pw.outBuf) || fresh(pw.outBuf.buf.data))
              && step.Allocate? && Enabled(w, step) && Shows(pw, Apply(w, step))
              && HeaderAt(step.draft, 0).packId == old(pw.nextPackId)
              && HeaderAt(step.draft, 0).length == length - HEADER_SIZE
  {
    hide *;
    ShowsIs(pw, w);
    ghost var dropped;
    r, dropped := pw.AllocPacket(length, haveBuffer, havePacket);
    step := Write(0);
    if r.Some? {
      step := AllocateStep(w, r.value.Bytes(), old(pw.nextPackId), length);
      ShowsIs(pw, Apply(w, step));
    }
    ShowsIs(pw, w);
  }

  lemma AllocateStep(w: Writer, draft: seq<Byte>, packId: Word, length: Word) returns (step: Step)
    requires PW.IsDraftOf(draft, packId, length)
    ensures step == Allocate(draft) && Enabled(w, step) && HeaderAt(draft, 0).packId == packId
    ensures |draft| >= HEADER_SIZE && HeaderAt(draft, 0).length == length - HEADER_SIZE
    ensures Apply(w, step).unsent == w.unsent + [draft] && Apply(w, step).sent == w.sent
  {
    step := Allocate(draft);
  }

  /** Filling in a packet is the step of the model. */
  method DoFillIn(pw: PW.PacketWriter, ghost w: Writer, op: PW.OutPacket, ghost i: nat, ptype: Byte, connId: Word,
                  payload: seq<Byte>)
    returns (ghost step: Step)
    requires Shows(pw, w) && Balanced(w) && i < |w.unsent| && i < |Flatten(pw.pending)| && op == Flatten(pw.pending)[i]
    requires |w.unsent[i]| >= HEADER_SIZE && |payload| == HeaderAt(w.unsent[i], 0).length
    modifies op.outBuf.buf.data
    ensures step == FillIn(i, ptype, connId, payload) && Enabled(w, step) && Shows(pw, Apply(w, step))
  {
    hide *;
    ShowsIs(pw, w);
    step := FillInStep(w, i, ptype, connId, payload);
    pw.Compose(op, i, ptype, connId, payload);
    ShowsIs(pw, Apply(w, step));
  }

  lemma FillInStep(w: Writer, i: nat, ptype: Byte, connId: Word, payload: seq<Byte>) returns (step: Step)
    requires Balanced(w) && i < |w.unsent| && |w.unsent[i]| >= HEADER_SIZE
    requires |payload| == HeaderAt(w.unsent[i], 0).length
    ensures step == FillIn(i, ptype, connId, payload) && Enabled(w, step)
    ensures HEADER_SIZE + |payload| <= |w.unsent[i]|
    ensures Apply(w, step).unsent == w.unsent[i := Compose(w.unsent[i], ptype, connId, payload)]
    ensures Apply(w, step).sent == w.sent
  {
    step := FillIn(i, ptype, connId, payload);
    assert DraftOf(w.unsent[i], w.ledger[|w.sent| + i]);
    hide Compose;
  }

  /** Writing a buffer is the step of the model, and what goes on the wire are the frames it sends. */
  method DoWrite(pw: PW.PacketWriter, ghost w: Writer, remote: PW.Remote) returns (ghost step: Step)
    requires Shows(pw, w) && remote.wire == Flatten(w.sent)
    modifies remote, pw.recent`sent, pw.queue`offset, pw.queue`canRelease, (set b | b in pw.queue :: b.buf.data),
      pw`queue, pw`bufCount, pw`pending, pw`sentCount, pw`sentFrames
    ensures step.Write? && Enabled(w, step) && Shows(pw, Apply(w, step))
    ensures remote.wire == Flatten(Apply(w, step).sent)
  {
    hide *;
    ShowsIs(pw, w);
    ghost var n := pw.WriteBuffer(remote);
    step := WriteStep(w, n, pw.Unsent(), pw.sentFrames, remote.wire);
    ShowsIs(pw, Apply(w, step));
  }

  lemma WriteStep(w: Writer, n: nat, unsent: seq<seq<Byte>>, sent: seq<seq<Byte>>, wire: seq<Byte>)
    returns (step: Step)
    requires PW.PacketWriter.Sent(n, w.unsent, w.sent, Flatten(w.sent), unsent, sent, wire)
    ensures step == Write(n) && Enabled(w, step)
    ensures unsent == Apply(w, step).unsent && sent == Apply(w, step).sent
    ensures wire == Flatten(Apply(w, step).sent)
  {
    step := Write(n);
    FlattenConcat(w.sent, Stamps(w.unsent[..n]));
    hide Flatten, Stamps;
  }

  /** The packet of a ledger entry is what the upper layers sent. */
  predicate IsSent(p: Packet, o: Outgoing) {
    p.ptype == o.ptype && p.connId == o.connId && p.payload == o.payload
  }

  /** The ledger of the packet writer is what the upper layers have sent, in order. */
  ghost predicate Matches(ledger: seq<Packet>, sent: seq<Outgoing>) {
    |ledger| == |sent| && forall k | 0 <= k < |sent| :: IsSent(ledger[k], sent[k])
  }

  /** A packet is allocated from the packet writer and filled in, which is what Outbox.Send stands for: with
      memory at hand it fails exactly when Outbox.Send does, and otherwise the ledger grows by this packet. */
  method Send(pw: PW.PacketWriter, ghost w: Writer, ghost sent: seq<Outgoing>, ptype: Byte, connId: Word,
              payload: seq<Byte>, haveBuffer: bool, havePacket: bool)
    returns (ok: bool, ghost w': Writer)
    requires Shows(pw, w) && Balanced(w) && Matches(w.ledger, sent)
    requires |payload| < 0x1_0000 && HEADER_SIZE + |payload| != BUFFER_SIZE - 1
    modifies pw`queue, pw`outBuf, pw`bufCount, pw`pending, pw`recent, pw`recentCount,
      pw`sentCount, pw`live, pw.live`packetCount, (if pw.outBuf == null then {} else {pw.outBuf.buf})`offset,
      (if pw.outBuf == null then {} else {pw.outBuf.buf.data}), pw`nextPackId
    ensures haveBuffer && havePacket ==> ok == Outbox.Allocates(|payload|)
    ensures Shows(pw, w') && Balanced(w') && w'.sent == w.sent
    ensures Matches(w'.ledger, sent + if ok then [Outgoing(ptype, connId, payload)] else [])
  {
    CanAllocIs(pw, payload, haveBuffer, havePacket);
    assert sent + [] == sent && HEADER_SIZE == 14;
    hide *;
    UnsentCount(pw, w);
    ghost var i := |w.unsent|;
    var r;
    ghost var step;
    r, step := DoAllocate(pw, w, (14 + |payload|) % 0x1_0000, haveBuffer, havePacket);
    ok, w' := r.Some?, w;
    if ok {
      StepKeepsBalance(w, step);
      ghost var w1 := Apply(w, step);
      AllocatedLast(w, step);
      ghost var fill := DoFillIn(pw, w1, r.value, i, ptype, connId, payload);
      StepKeepsBalance(w1, fill);
      FilledMatches(w, step, fill, sent);
      w' := Apply(w1, fill);
    }
  }

  lemma CanAllocIs(pw: PW.PacketWriter, payload: seq<Byte>, haveBuffer: bool, havePacket: bool)
    requires |payload| < 0x1_0000 && HEADER_SIZE + |payload| != BUFFER_SIZE - 1
    ensures var length := (HEADER_SIZE + |payload|) % 0x1_0000;
            && length != BUFFER_SIZE - 1
            && (haveBuffer && havePacket ==>
                 pw.CanAlloc(length, haveBuffer, havePacket) == Outbox.Allocates(|payload|))
            && (pw.CanAlloc(length, haveBuffer, havePacket) ==> length == HEADER_SIZE + |payload|)
  {
    AllocatesUpToBuffer(|payload|);
  }

  lemma UnsentCount(pw: PW.PacketWriter, w: Writer)
    requires Shows(pw, w)
    ensures |Flatten(pw.pending)| == |w.unsent|
  {
  }

  lemma AllocatedLast(w: Writer, step: Step)
    requires Enabled(w, step) && step.Allocate?
    ensures |Apply(w, step).unsent| == |w.unsent| + 1 && Apply(w, step).unsent[|w.unsent|] == step.draft
    ensures |step.draft| >= HEADER_SIZE
  {
  }

  /** The last packet allocated has been filled in. */
  lemma FilledMatches(w: Writer, step: Step, fill: Step, sent: seq<Outgoing>)
    requires Balanced(w) && Matches(w.ledger, sent) && step.Allocate? && Enabled(w, step)
    requires fill.FillIn? && fill.i == |w.unsent| && Enabled(Apply(w, step), fill)
    ensures var w' := Apply(Apply(w, step), fill);
            w'.sent == w.sent && Matches(w'.ledger, sent + [Outgoing(fill.ptype, fill.connId, fill.payload)])
  {
    hide DraftPacket, Drafts.Compose, Balanced, IsDraft, HeaderAt;
    assert |w.ledger| == |w.sent| + |w.unsent| by {
      BalancedCount(w);
    }
  }

  lemma BalancedCount(w: Writer)
    requires Balanced(w)
    ensures |w.ledger| == |w.sent| + |w.unsent|
  {
  }

  /** The payloads that the upper layers have sent as packets of a type on a connection. */
  function PayloadsSent(sent: seq<Outgoing>, ptype: Byte, connId: Word): seq<seq<Byte>> {
    if sent == [] then []
    else
      var last := sent[|sent| - 1];
      PayloadsSent(sent[..|sent| - 1], ptype, connId)
      + if last.ptype == ptype && last.connId == connId then [last.payload] else []
  }

  /** The same of packets received. */
  function PayloadsOf(packets: seq<Packet>, ptype: Byte, connId: Word): seq<seq<Byte>> {
    if packets == [] then []
    else
      var last := packets[|packets| - 1];
      PayloadsOf(packets[..|packets| - 1], ptype, connId)
      + if last.ptype == ptype && last.connId == connId then [last.payload] else []
  }

  lemma {:induction false} SamePayloads(packets: seq<Packet>, sent: seq<Outgoing>, ptype: Byte, connId: Word)
    requires |packets| <= |sent| && forall k | 0 <= k < |packets| :: IsSent(packets[k], sent[k])
    ensures PayloadsOf(packets, ptype, connId) == PayloadsSent(sent[..|packets|], ptype, connId)
  {
    if packets != [] {
      var n := |packets| - 1;
      assert sent[..n + 1][..n] == sent[..n];
      SamePayloads(packets[..n], sent, ptype, connId);
    }
  }

  lemma {:induction false} PayloadsPrefix(sent: seq<Outgoing>, n: nat, ptype: Byte, connId: Word)
    requires n <= |sent|
    ensures PayloadsSent(sent[..n], ptype, connId) <= PayloadsSent(sent, ptype, connId)
    decreases |sent|
  {
    if n < |sent| {
      var m := |sent| - 1;
      assert sent[..m][..n] == sent[..n];
      PayloadsPrefix(sent[..m], n, ptype, connId);
    } else {
      assert sent[..n] == sent;
    }
  }

  /** The way out: whatever prefix of the written bytes has reached the peer, in chunks of any size, the
      payloads its reader finds in packets of a type and connection are, in order and once each, a prefix of
      those sent as such packets; and they are all of them when all was written and has arrived. */
  lemma OutgoingDelivery(w: Writer, sent: seq<Outgoing>, received: seq<Byte>, taken: seq<seq<Byte>>, limit: nat,
                         packets: seq<Packet>, ptype: Byte, connId: Word)
    requires Balanced(w) && Matches(w.ledger, sent) && received <= Flatten(w.sent)
    requires Delivers(taken, received, limit)
    requires |packets| == |taken| && forall k | 0 <= k < |taken| :: Carries(taken[k], packets[k])
    ensures PayloadsOf(packets, ptype, connId) <= PayloadsSent(sent, ptype, connId)
    ensures received == Flatten(w.sent) && w.unsent == [] && |w.sent| <= limit ==>
              PayloadsOf(packets, ptype, connId) == PayloadsSent(sent, ptype, connId)
  {
    AllCarry(w);
    CutStream(w.sent, received, taken, limit);
    TakenAreSent(w, sent, taken, packets);
    hide *;
    SamePayloads(packets, sent, ptype, connId);
    PayloadsPrefix(sent, |packets|, ptype, connId);
    BalancedCount(w);
    MatchesCount(w, sent);
    assert sent[..|sent|] == sent;
  }

  lemma MatchesCount(w: Writer, sent: seq<Outgoing>)
    requires Matches(w.ledger, sent)
    ensures |w.ledger| == |sent|
  {
  }

  lemma TakenAreSent(w: Writer, sent: seq<Outgoing>, taken: seq<seq<Byte>>, packets: seq<Packet>)
    requires Balanced(w) && Matches(w.ledger, sent) && taken <= w.sent && |packets| == |taken|
    requires forall k | 0 <= k < |taken| :: Carries(taken[k], packets[k])
    ensures |packets| <= |sent| && forall k | 0 <= k < |packets| :: IsSent(packets[k], sent[k])
  {
    hide WellFormed, PacketOf, DraftOf;
    forall k | 0 <= k < |packets| ensures IsSent(packets[k], sent[k]) {
      assert taken[k] == w.sent[k] && Carries(w.sent[k], w.ledger[k]) && Carries(taken[k], packets[k]);
    }
  }
}
