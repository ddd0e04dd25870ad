/** server/packetreader.c: frames are re-assembled, without copying their payload, from a linked list
    of 4096-byte buffers into which the device reads chunks of any size. */
module PacketReader {
  import opened Memory
  import opened Checksum
  import opened Framing
  import opened FrameScan
  import opened ReaderTrace

  /** A received packet: header fields and where its payload lies. */
  datatype InPacket = InPacket(ptype: Byte, flags: Byte, connId: Word, packId: Word,
                               data1: Piece, data2: Piece)
  {
    ghost function Value(): Packet
      requires data1.InBounds() && data2.InBounds()
      reads data1.data, data2.data
    {
      Packet(ptype, flags, connId, packId, data1.Content() + data2.Content())
    }
  }

  /** `ip` describes the frame `f` that lies at position `at` of the stream. */
  ghost predicate Describes(chain: seq<InBuffer>, size: nat, ip: InPacket, f: seq<Byte>, at: nat) {
    && GoodFrame(f)
    && var h := HeaderAt(f, 0);
    && ip.ptype == h.ptype && ip.flags == h.flags && ip.connId == h.connId && ip.packId == h.packId
    && ip.data1.length + ip.data2.length == h.length
    && Covers(chain, size, ip.data1, at + HEADER_SIZE)
    && Covers(chain, size, ip.data2, at + HEADER_SIZE + ip.data1.length)
  }

  lemma SliceOfPart(s: seq<Byte>, at: nat, f: seq<Byte>, from: nat, to: nat)
    requires LiesAt(s, at, f) && from <= to <= |f|
    ensures s[at + from..at + to] == f[from..to]
  {
    JoinSlices(s, at, at + from, at + |f|);
    JoinSlices(s, at + from, at + to, at + |f|);
    assert f == s[at..at + from] + (s[at + from..at + to] + s[at + to..at + |f|]);
  }

  lemma PieceOfFrame(chain: seq<InBuffer>, s: seq<Byte>, piece: Piece, f: seq<Byte>, at: nat, from: nat)
    requires Linked(chain) && Holds(chain, s) && Covers(chain, |s|, piece, at + from)
    requires LiesAt(s, at, f) && from + piece.length <= |f|
    ensures piece.InBounds() && piece.Content() == f[from..from + piece.length]
  {
    assert at + |f| <= |s|;
    SliceOfPart(s, at, f, from, from + piece.length);
    hide Linked, Holds, Covers, LiesAt;
    CoveredContent(chain, s, piece, at + from);
  }

  /** The bytes a packet points to are the payload of its frame. */
  lemma DescribedValue(chain: seq<InBuffer>, s: seq<Byte>, ip: InPacket, f: seq<Byte>, at: nat)
    requires Linked(chain) && Holds(chain, s)
    requires Describes(chain, |s|, ip, f, at) && LiesAt(s, at, f)
    ensures ip.data1.InBounds() && ip.data2.InBounds()
    ensures ip.Value() == PacketOf(f)
  {
    hide Linked, Holds, Covers, LiesAt, HeaderAt, Accepts, Header.PadAgrees, Piece.Content;
    var n := HEADER_SIZE + ip.data1.length;
    PieceOfFrame(chain, s, ip.data1, f, at, HEADER_SIZE);
    PieceOfFrame(chain, s, ip.data2, f, at, n);
    JoinSlices(f, HEADER_SIZE, n, n + ip.data2.length);
  }

  /** What the scan has found is described by the packet made of it. */
  lemma FoundIsDescribed(chain: seq<InBuffer>, s: seq<Byte>, q: nat, h: Header, data1: Piece, data2: Piece)
    requires FoundAt(chain, s, q, h, data1, data2)
    ensures Describes(chain, |s|, InPacket(h.ptype, h.flags, h.connId, h.packId, data1, data2),
                      s[q..q + h.FrameSize()], q)
  {
    HeaderAtSlice(s, q, q + h.FrameSize());
    hide GoodFrame, HeaderAt;
  }

  /** In the chain and stream, `ip` points to the payload of the frame `f` at position `at`. */
  ghost predicate Held(chain: seq<InBuffer>, s: seq<Byte>, ip: InPacket, f: seq<Byte>, at: nat) {
    Describes(chain, |s|, ip, f, at) && LiesAt(s, at, f)
  }

  /** A chain and its stream go on as others: buffers and bytes have only been added. */
  ghost predicate GoesOnAs(chain: seq<InBuffer>, s: seq<Byte>, chain': seq<InBuffer>, s': seq<Byte>) {
    s <= s' && |chain| <= |chain'| && forall i | 0 <= i < |chain| :: chain'[i] == chain[i]
  }

  lemma HeldInMore(chain: seq<InBuffer>, s: seq<Byte>, chain': seq<InBuffer>, s': seq<Byte>, ip: InPacket,
                   f: seq<Byte>, at: nat)
    requires GoesOnAs(chain, s, chain', s') && Held(chain, s, ip, f, at)
    ensures Held(chain', s', ip, f, at)
  {
    LiesAtExtended(s, s', at, f);
    CoversInMore(chain, |s|, chain', |s'|, ip.data1, at + HEADER_SIZE);
    CoversInMore(chain, |s|, chain', |s'|, ip.data2, at + HEADER_SIZE + ip.data1.length);
    hide Covers, LiesAt, GoodFrame, HeaderAt;
  }

  lemma GoesOn(chain: seq<InBuffer>, s: seq<Byte>, chain': seq<InBuffer>, s': seq<Byte>)
    requires s <= s' && |chain| <= |chain'| && forall i | 0 <= i < |chain| :: chain'[i] == chain[i]
    ensures GoesOnAs(chain, s, chain', s')
  {
  }

  lemma CoversInMore(chain: seq<InBuffer>, size: nat, chain': seq<InBuffer>, size': nat, piece: Piece, at: nat)
    requires size <= size' && |chain| <= |chain'| && forall i | 0 <= i < |chain| :: chain'[i] == chain[i]
    ensures Covers(chain, size, piece, at) ==> Covers(chain', size', piece, at)
  {
  }

  datatype Outcome = Stopped | Took | Skipped

  class PacketReader {
    var inBuf: InBuffer?
    var queue: seq<InPacket>

    /** All buffers ever appended, the bytes they held when last processed, and the progress made. */
    ghost var chain: seq<InBuffer>
    ghost var stream: seq<Byte>
    ghost var trace: Trace

    /** The offsets the buffers of a chain carry. */
    static ghost function Offsets(chain: seq<InBuffer>): (r: seq<nat>)
      reads chain`offset
      ensures |r| == |chain| && forall i | 0 <= i < |chain| :: r[i] == chain[i].offset
    {
      if chain == [] then [] else Offsets(chain[..|chain| - 1]) + [chain[|chain| - 1].offset]
    }

    /** The queue holds the packets of the last |queue| frames taken. */
    static ghost predicate Queued(chain: seq<InBuffer>, size: nat, queue: seq<InPacket>,
                                  frames: seq<seq<Byte>>, starts: seq<nat>) {
      && |queue| <= |frames| == |starts|
      && forall k | 0 <= k < |queue| ::
           var j := |frames| - |queue| + k;
           Describes(chain, size, queue[k], frames[j], starts[j])
    }

    /** What the queue has nothing to do with. */
    ghost predicate Framed()
      reads this`chain, this`stream, this`trace, this`inBuf, chain, set c | c in chain :: c.buf,
        set c | c in chain :: c.buf.data
    {
      && Linked(chain) && Holds(chain, stream) && Offsets(chain) == trace.offsets
      && Good(trace, stream)
      && (if chain == [] then trace.head == 0 && inBuf == null
          else trace.head < |chain| && inBuf == chain[trace.head])
    }

    ghost predicate Valid()
      reads this, chain, set c | c in chain :: c.buf, set c | c in chain :: c.buf.data
    {
      Framed() && Queued(chain, |stream|, queue, trace.frames, trace.starts)
    }

    constructor ()
      ensures Valid() && stream == [] && queue == [] && trace == START && chain == []
    {
      inBuf, queue := null, [];
      chain, stream, trace := [], [], START;
    }

    /** `buf` is the buffer read into last and, with it, the bytes read so far are `received`. */
    ghost predicate Arrived(buf: Buffer, received: seq<Byte>)
      reads this, buf, buf.data, chain, set c | c in chain :: c.buf, set c | c in chain :: c.buf.data
    {
      && stream <= received && buf.data.Length == BUFFER_SIZE && buf.offset <= BUFFER_SIZE
      && if chain != [] && chain[|chain| - 1].buf == buf then
           Holds(chain, received) && |received| == Filled(chain)
         else
           && (forall c | c in chain :: c.buf != buf)
           && (chain != [] ==> chain[|chain| - 1].buf.offset == BUFFER_SIZE)
           && |stream| == Filled(chain) && |received| == |stream| + buf.offset
           && (forall j | 0 <= j < buf.offset :: buf.data[j] == received[|stream| + j])
    }

    /** The search through the list from pr_InBuf on, which can only find its last buffer. */
    method Contains(buf: Buffer, ghost received: seq<Byte>) returns (known: bool)
      requires Valid() && Arrived(buf, received)
      ensures known <==> chain != [] && chain[|chain| - 1].buf == buf
    {
      hide Good, Queued, Holds;
      ghost var i := trace.head;
      var ib2 := inBuf;
      while ib2 != null
        invariant ib2 != null ==> trace.head <= i < |chain| && ib2 == chain[i]
        invariant ib2 == null ==> chain == [] || chain[|chain| - 1].buf != buf
        decreases if ib2 == null then 0 else |chain| - i
      {
        if ib2.buf == buf {
          return true;
        }
        Neighbour(chain, i);
        ib2, i := ib2.next, i + 1;
      }
      known := false;
    }

    /** The last buffer of the list. */
    method Last() returns (ib2: InBuffer)
      requires Valid() && chain != []
      ensures ib2 == chain[|chain| - 1]
    {
      hide Good, Queued, Holds;
      ghost var i := trace.head;
      ib2 := inBuf;
      Neighbour(chain, i);
      while ib2.next != null
        invariant trace.head <= i < |chain| && ib2 == chain[i]
        invariant ib2.next == null <==> i == |chain| - 1
        decreases |chain| - i
      {
        Neighbour(chain, i);
        ib2, i := ib2.next, i + 1;
        Neighbour(chain, i);
      }
    }

    /** APB_AppendBuffer: `buf` becomes the last buffer of the chain unless it already is. */
    method AppendBuffer(buf: Buffer, ghost received: seq<Byte>)
      requires Valid() && Arrived(buf, received)
      modifies this, chain
      ensures stream == old(stream) && queue == old(queue) && trace == old(trace)
      ensures chain != [] && chain[|chain| - 1].buf == buf && |chain| >= |old(chain)|
      ensures forall i | 0 <= i < |old(chain)| :: chain[i] == old(chain)[i]
      ensures |chain| > |old(chain)| ==> |chain| == |old(chain)| + 1 && fresh(chain[|chain| - 1])
      ensures inBuf == chain[trace.head]
      ensures Linked(chain) && Holds(chain, received) && |received| == Filled(chain)
      ensures Offsets(chain) == Grow(trace, |chain| > |old(chain)|).offsets
    {
      hide *;
      GrowOffsets(trace);
      HeadOfChain();
      var known := Contains(buf, received);
      if known {
        KnownBuffer(buf, received);
      } else {
        ChainBuffer(buf, received);
      }
    }

    /** A buffer that is not the last one of the chain is put behind it. */
    method ChainBuffer(buf: Buffer, ghost received: seq<Byte>)
      requires Valid() && Arrived(buf, received) && !(chain != [] && chain[|chain| - 1].buf == buf)
      modifies this`inBuf, this`chain, chain
      ensures |chain| == |old(chain)| + 1 && fresh(chain[|chain| - 1]) && chain[|chain| - 1].buf == buf
      ensures forall i | 0 <= i < |old(chain)| :: chain[i] == old(chain)[i]
      ensures trace.head < |chain| && inBuf == chain[trace.head]
      ensures Linked(chain) && Holds(chain, received) && |received| == Filled(chain)
      ensures Offsets(chain) == trace.offsets + [0]
    {
      hide *;
      HeadOfChain();
      NewBuffer(buf, received);
      var ib := new InBuffer(buf);
      if inBuf == null {
        inBuf := ib;
        LinkedAlone(ib);
      } else {
        var last := Last();
        LinkBehind(chain, last, ib);
      }
      HoldsWithNew(chain, stream, ib, received);
      chain := chain + [ib];
    }

    lemma HeadOfChain()
      requires Valid()
      ensures Linked(chain) && Holds(chain, stream) && Offsets(chain) == trace.offsets
      ensures if chain == [] then trace.head == 0 && inBuf == null
              else trace.head < |chain| && inBuf == chain[trace.head]
    {
      hide Linked, Holds, Good, Queued, Offsets;
    }

    /** What has arrived in the last buffer of the chain, or in a new one. */
    lemma KnownBuffer(buf: Buffer, received: seq<Byte>)
      requires Arrived(buf, received) && chain != [] && chain[|chain| - 1].buf == buf
      ensures Holds(chain, received) && |received| == Filled(chain)
    {
    }

    lemma NewBuffer(buf: Buffer, received: seq<Byte>)
      requires Valid() && Arrived(buf, received) && !(chain != [] && chain[|chain| - 1].buf == buf)
      ensures (forall c | c in chain :: c.buf != buf) && buf.data.Length == BUFFER_SIZE && buf.offset <= BUFFER_SIZE
      ensures chain != [] ==> chain[|chain| - 1].buf.offset == BUFFER_SIZE
      ensures |stream| == Filled(chain) == 4096 * |chain| && |received| == |stream| + buf.offset
      ensures stream <= received && forall j | 0 <= j < buf.offset :: buf.data[j] == received[|stream| + j]
    {
      hide Good, Queued, Holds, Linked, Filled, Offsets;
      ChainFacts(chain);
    }

    static lemma ChainFacts(chain: seq<InBuffer>)
      requires Linked(chain)
      ensures chain == [] ==> Filled(chain) == 0
      ensures chain != [] && chain[|chain| - 1].buf.offset == BUFFER_SIZE ==> Filled(chain) == 4096 * |chain|
    {
    }

    static lemma GrowOffsets(t: Trace)
      ensures Grow(t, true).offsets == t.offsets + [0]
      ensures Grow(t, false) == t
    {
    }

    static lemma LinkedAlone(ib: InBuffer)
      requires ib.next == null && ib.offset == 0
      requires ib.buf.data.Length == BUFFER_SIZE && ib.buf.offset <= BUFFER_SIZE
      ensures Linked([] + [ib]) && Offsets([] + [ib]) == Offsets([]) + [0]
    {
    }

    static method LinkBehind(ghost chain: seq<InBuffer>, last: InBuffer, ib: InBuffer)
      requires Linked(chain) && chain != [] && last == chain[|chain| - 1] && last.buf.offset == BUFFER_SIZE
      requires ib !in chain && ib.next == null && ib.offset == 0 && forall c | c in chain :: c.buf != ib.buf
      requires ib.buf.data.Length == BUFFER_SIZE && ib.buf.offset <= BUFFER_SIZE
      modifies last`next
      ensures Linked(chain + [ib]) && Offsets(chain + [ib]) == old(Offsets(chain)) + [0]
    {
      last.next := ib;
    }

    static lemma HoldsWithNew(chain: seq<InBuffer>, s: seq<Byte>, ib: InBuffer, t: seq<Byte>)
      requires Linked(chain + [ib]) && Holds(chain, s) && |s| == Filled(chain)
      requires |s| == 4096 * |chain| && |t| == |s| + ib.buf.offset && s <= t
      requires forall j | 0 <= j < ib.buf.offset :: ib.buf.data[j] == t[|s| + j]
      ensures Holds(chain + [ib], t) && Filled(chain + [ib]) == |t|
    {
      var longer := chain + [ib];
      forall i, j | 0 <= i < |longer| && 0 <= j < longer[i].buf.data.Length && Pos(i, j) < |t|
        ensures longer[i].buf.data[j] == t[Pos(i, j)]
      {
        if i < |chain| {
          assert chain[i].buf.data[j] == s[Pos(i, j)];
        }
      }
    }

    /** The first half of APB_ProcessBuffer: what has arrived becomes part of the stream. */
    method Receive(buf: Buffer, ghost received: seq<Byte>)
      requires Valid() && Arrived(buf, received)
      modifies this, chain
      ensures Valid() && stream == received && |stream| == Filled(chain)
      ensures queue == old(queue) && trace.frames == old(trace.frames)
      ensures chain != [] && chain[|chain| - 1].buf == buf && |chain| >= |old(chain)|
      ensures forall i | 0 <= i < |old(chain)| :: chain[i] == old(chain)[i]
      ensures |chain| > |old(chain)| ==> |chain| == |old(chain)| + 1 && fresh(chain[|chain| - 1])
      ensures old(stream) <= stream
    {
      hide *;
      ReceivedMore(buf, received);
      ReaderParts();
      HeadOfChain();
      AppendBuffer(buf, received);
      FilledSize(chain);
      GrowIsGood(trace, stream, received, |chain| > |old(chain)|);
      QueuedInMore(old(chain), |stream|, chain, |received|, queue, trace.frames, trace.starts);
      GrownFrames(trace, |chain| > |old(chain)|);
      trace, stream := Grow(trace, |chain| > |old(chain)|), received;
      OffsetsAre(chain);
      ReaderWhole();
    }

    lemma ReceivedMore(buf: Buffer, received: seq<Byte>)
      requires Arrived(buf, received)
      ensures stream <= received
    {
    }

    static lemma FilledSize(chain: seq<InBuffer>)
      requires Linked(chain)
      ensures 4096 * |chain| - 4096 <= Filled(chain) <= 4096 * |chain|
    {
    }

    static lemma GrownFrames(t: Trace, newBuffer: bool)
      ensures var g := Grow(t, newBuffer); g.frames == t.frames && g.starts == t.starts && g.head == t.head
    {
    }

    static lemma QueuedInMore(chain: seq<InBuffer>, size: nat, chain': seq<InBuffer>, size': nat,
                              queue: seq<InPacket>, frames: seq<seq<Byte>>, starts: seq<nat>)
      requires Queued(chain, size, queue, frames, starts) && size <= size' && |chain| <= |chain'|
      requires forall i | 0 <= i < |chain| :: chain'[i] == chain[i]
      ensures Queued(chain', size', queue, frames, starts)
    {
    }

    static lemma QueuedNext(chain: seq<InBuffer>, size: nat, queue: seq<InPacket>, frames: seq<seq<Byte>>,
                            starts: seq<nat>, ip: InPacket, f: seq<Byte>, at: nat)
      requires Queued(chain, size, queue, frames, starts) && Describes(chain, size, ip, f, at)
      ensures Queued(chain, size, queue + [ip], frames + [f], starts + [at])
    {
      hide Describes;
    }

    /** The buffer the loop of APB_ProcessBuffer stands at. */
    static ghost predicate IsAt(chain: seq<InBuffer>, ib: InBuffer?, i: nat) {
      i <= |chain| && ib == if i < |chain| then chain[i] else null
    }

    /** Moves the parse offset of buffer `k`. */
    static method MoveOffset(ghost chain: seq<InBuffer>, ghost k: nat, ib: InBuffer, step: nat)
      requires Linked(chain) && k < |chain| && ib == chain[k]
      modifies ib`offset
      ensures ib.offset == old(ib.offset) + step
      ensures Offsets(chain) == old(Offsets(chain))[k := ib.offset]
    {
      ib.offset := ib.offset + step;
      assert forall j | 0 <= j < |chain| && j != k :: chain[j] != ib;
    }

    /** One frame more than in `t` and one packet more than in `q`. */
    ghost predicate OneMore(t: Trace, q: seq<InPacket>)
      reads this`trace, this`queue
    {
      t.frames < trace.frames && |trace.frames| == |t.frames| + 1 && q < queue && |queue| == |q| + 1
    }

    /** The packet of the frame found at buffer `i` is queued and the parse offset moved behind it. */
    method Accept(ghost i: nat, ib: InBuffer, h: Header, into: InBuffer?, data1: Piece, data2: Piece,
                  consumed: nat)
      returns (ghost k: nat)
      requires Valid() && |stream| == Filled(chain) && i < |chain| && ib == chain[i]
      requires StandsAt(trace, stream, i) && ib.offset <= ib.buf.offset
      requires Pos(i, ib.offset) <= |stream| && ScanAgrees(chain, stream, i, Found(h, into, data1, data2, consumed))
      modifies this`queue, this`inBuf, this`trace, chain`offset
      ensures Valid() && k == (if into == null then i else i + 1) && k < |chain| && inBuf == chain[k]
      ensures into == null ==> consumed > 0
      ensures inBuf.offset == old(Offsets(chain))[k] + consumed && |old(trace).offsets| == |chain|
      ensures StandsAt(trace, stream, AfterTake(old(trace), k, consumed))
      ensures OneMore(old(trace), old(queue))
    {
      hide *;
      ReaderParts();
      OffsetsAre(chain);
      k := if into == null then i else i + 1;
      ghost var t' := TakenFits(chain, stream, trace, queue, i, h, into, data1, data2, consumed);
      queue := queue + [PacketFor(h, data1, data2)];
      inBuf := if into == null then ib else into;
      MoveOffset(chain, k, inBuf, consumed);
      trace := t';
      ReaderWhole();
      OneMoreIs(old(trace), old(queue));
    }

    /** The parts of the invariant while there is a buffer, and the invariant from them. */
    lemma ReaderParts()
      requires Valid()
      ensures Linked(chain) && Holds(chain, stream) && Offsets(chain) == trace.offsets && Good(trace, stream)
      ensures Queued(chain, |stream|, queue, trace.frames, trace.starts) && |chain| == |trace.offsets|
    {
      hide Linked, Holds, Good, Queued;
    }

    lemma ReaderWhole()
      requires Linked(chain) && Holds(chain, stream) && Offsets(chain) == trace.offsets && Good(trace, stream)
      requires Queued(chain, |stream|, queue, trace.frames, trace.starts)
      requires trace.head < |chain| && inBuf == chain[trace.head]
      ensures Valid()
    {
      hide Linked, Holds, Good, Queued, Offsets;
    }

    lemma OneMoreIs(t: Trace, q: seq<InPacket>)
      requires t.frames < trace.frames && |trace.frames| == |t.frames| + 1 && q < queue && |queue| == |q| + 1
      ensures OneMore(t, q)
    {
    }

    static lemma OffsetsAre(chain: seq<InBuffer>)
      requires Linked(chain)
      ensures |Offsets(chain)| == |chain| && forall k | 0 <= k < |chain| :: Offsets(chain)[k] == chain[k].offset
    {
    }

    /** A frame has been found at buffer `i`: its packet is queued and the loop goes on behind it. */
    method Take(ghost i: nat, ib: InBuffer, h: Header, into: InBuffer?, data1: Piece, data2: Piece,
                consumed: nat)
      returns (next: InBuffer?, ghost j: nat)
      requires Valid() && |stream| == Filled(chain) && i < |chain| && ib == chain[i]
      requires StandsAt(trace, stream, i) && ib.offset <= ib.buf.offset
      requires Pos(i, ib.offset) <= |stream| && ScanAgrees(chain, stream, i, Found(h, into, data1, data2, consumed))
      modifies this`queue, this`inBuf, this`trace, chain`offset
      ensures Valid() && StandsAt(trace, stream, j) && IsAt(chain, next, j)
      ensures OneMore(old(trace), old(queue))
      ensures j > i || (j == i && next.offset > old(ib.offset))
    {
      hide *;
      ReaderParts();
      OffsetsAre(chain);
      ghost var t := trace;
      ghost var k := Accept(i, ib, h, into, data1, data2, consumed);
      AfterTakeFacts(t, k, consumed);
      ReaderParts();
      Neighbour(chain, k);
      next, j := inBuf, k;
      if next.offset == BUFFER_SIZE {
        next, j := next.next, k + 1;
      }
      IsThere(chain, next, j);
    }

    static lemma IsThere(chain: seq<InBuffer>, ib: InBuffer?, i: nat)
      requires i <= |chain| && ib == if i < |chain| then chain[i] else null
      ensures IsAt(chain, ib, i)
    {
    }

    static function PacketFor(h: Header, data1: Piece, data2: Piece): InPacket {
      InPacket(h.ptype, h.flags, h.connId, h.packId, data1, data2)
    }

    static lemma AfterTakeFacts(t: Trace, k: nat, consumed: nat)
      requires k < |t.offsets|
      ensures AfterTake(t, k, consumed) == if t.offsets[k] + consumed == BUFFER_SIZE then k + 1 else k
    {
    }

    static lemma FoundFacts(chain: seq<InBuffer>, s: seq<Byte>, i: nat, h: Header, into: InBuffer?,
                            data1: Piece, data2: Piece, consumed: nat)
      requires i < |chain| && Pos(i, chain[i].offset) <= |s|
      requires ScanAgrees(chain, s, i, Found(h, into, data1, data2, consumed))
      ensures var q := Pos(i, chain[i].offset);
              && q + h.FrameSize() <= |s| && EndsAt(chain, i, h, into, consumed)
              && FoundAt(chain, s, q, h, data1, data2)
              && var f := s[q..q + h.FrameSize()];
              && GoodFrame(f) && LiesAt(s, q, f) && |f| == h.FrameSize() > 0 && |f| % 2 == 0
              && Classify(s, q) == if |f| <= BUFFER_SIZE then Complete(|f|) else Malformed
    {
      hide Layout, EndsAt, HeaderAt, Classify;
      var q := Pos(i, chain[i].offset);
      LayoutFits(chain, |s|, q, h, data1, data2);
      HeaderAtSlice(s, q, q + h.FrameSize());
      h.EvenFrameSize();
      hide GoodFrame;
    }

    /** The buffer a frame found at buffer `i` ends in. */
    static lemma EndFits(chain: seq<InBuffer>, t: Trace, i: nat, h: Header, into: InBuffer?, consumed: nat)
      requires Linked(chain) && Offsets(chain) == t.offsets && i < |chain|
      requires chain[i].offset <= chain[i].buf.offset && EndsAt(chain, i, h, into, consumed)
      ensures var k := if into == null then i else i + 1;
              && k < |chain| && chain[k] == (if into == null then chain[i] else into)
              && consumed <= BUFFER_SIZE && t.offsets[i] <= BUFFER_SIZE
              && TakeEnds(t, i, h.FrameSize(), k, consumed)
    {
      Neighbour(chain, i);
      hide Linked;
    }

    /** What the scan reports is a step of the trace. */
    static lemma TakenFits(chain: seq<InBuffer>, s: seq<Byte>, t: Trace, queue: seq<InPacket>, i: nat,
                           h: Header, into: InBuffer?, data1: Piece, data2: Piece, consumed: nat)
      returns (t': Trace)
      requires Linked(chain) && Offsets(chain) == t.offsets && Good(t, s) && StandsAt(t, s, i)
      requires Queued(chain, |s|, queue, t.frames, t.starts)
      requires i < |chain| && chain[i].offset <= chain[i].buf.offset && Pos(i, chain[i].offset) <= |s|
      requires ScanAgrees(chain, s, i, Found(h, into, data1, data2, consumed))
      ensures into == null ==> consumed > 0
      ensures var k := if into == null then i else i + 1;
              && k < |chain| && chain[k] == (if into == null then chain[i] else into)
              && Good(t', s) && StandsAt(t', s, AfterTake(t, k, consumed))
              && t'.head == k && t'.offsets == t.offsets[k := t.offsets[k] + consumed]
      ensures |t'.frames| == |t.frames| + 1 && t.frames < t'.frames
      ensures Queued(chain, |s|, queue + [PacketFor(h, data1, data2)], t'.frames, t'.starts)
    {
      hide *;
      var q, k := Pos(i, chain[i].offset), if into == null then i else i + 1;
      FoundFacts(chain, s, i, h, into, data1, data2, consumed);
      EndFits(chain, t, i, h, into, consumed);
      var f := s[q..q + h.FrameSize()];
      t' := ReaderTrace.Take(t, i, f, k, consumed);
      TakeFacts(t, i, f, k, consumed);
      TakeIsGood(t, s, i, f, k, consumed);
      FoundIsDescribed(chain, s, q, h, data1, data2);
      PacketForFields(h, data1, data2);
      QueuedNext(chain, |s|, queue, t.frames, t.starts, PacketFor(h, data1, data2), f, q);
    }

    static lemma PacketForFields(h: Header, data1: Piece, data2: Piece)
      ensures PacketFor(h, data1, data2) == InPacket(h.ptype, h.flags, h.connId, h.packId, data1, data2)
    {
    }

    static lemma TakeFacts(t: Trace, i: nat, f: seq<Byte>, k: nat, consumed: nat)
      requires i < |t.offsets| && k < |t.offsets|
      ensures var t' := ReaderTrace.Take(t, i, f, k, consumed);
              && t'.frames == t.frames + [f] && t'.starts == t.starts + [Pos(i, t.offsets[i])]
              && t'.head == k && t'.offsets == t.offsets[k := t.offsets[k] + consumed]
      ensures TakeEnds(t, i, |f|, i, consumed) ==> consumed == |f|
    {
    }

    /** The bad-data exit: two bytes are skipped in the last buffer looked at, or pr_InBuf moves on. */
    method SkipBadData(ghost i: nat, ib: InBuffer, skipTo: InBuffer?) returns (next: InBuffer, ghost j: nat)
      requires Valid() && |stream| == Filled(chain) && i < |chain| && ib == chain[i]
      requires StandsAt(trace, stream, i) && ib.offset <= ib.buf.offset
      requires Pos(i, ib.offset) <= |stream| && ScanAgrees(chain, stream, i, Bad(skipTo))
      modifies this, chain`offset
      ensures Valid() && stream == old(stream) && chain == old(chain)
      ensures StandsAt(trace, stream, j) && IsAt(chain, next, j)
      ensures trace.frames == old(trace.frames) && queue == old(queue)
      ensures j > i || (j == i && next.offset > old(ib.offset))
    {
      hide *;
      ReaderParts();
      OffsetsAre(chain);
      HeadOfChain();
      next, j := ib, i;
      if skipTo != null {
        next, j := skipTo, i + 1;
      }
      ghost var t' := SkippedFits(chain, stream, trace, i, skipTo);
      Neighbour(chain, j);
      if next.offset < next.buf.offset {
        MoveOffset(chain, j, next, 2);
      } else if next.buf.offset == BUFFER_SIZE && next.next != null {
        inBuf := next.next;
      }
      FramesQueued(chain, |stream|, queue, trace, t');
      trace := t';
      ReaderWhole();
      IsThere(chain, next, j);
    }

    static lemma FramesQueued(chain: seq<InBuffer>, size: nat, queue: seq<InPacket>, t: Trace, t': Trace)
      requires Queued(chain, size, queue, t.frames, t.starts) && t'.frames == t.frames && t'.starts == t.starts
      ensures Queued(chain, size, queue, t'.frames, t'.starts)
    {
    }

    static lemma SkippedFits(chain: seq<InBuffer>, s: seq<Byte>, t: Trace, i: nat, skipTo: InBuffer?)
      returns (t': Trace)
      requires Linked(chain) && Offsets(chain) == t.offsets && Good(t, s) && StandsAt(t, s, i)
      requires |s| == Filled(chain) && i < |chain| && chain[i].offset <= chain[i].buf.offset
      requires Pos(i, chain[i].offset) <= |s| && ScanAgrees(chain, s, i, Bad(skipTo))
      ensures var k := if skipTo == null then i else i + 1;
              && k < |chain| && chain[k] == (if skipTo == null then chain[i] else skipTo)
              && (skipTo == null ==> chain[i].offset < chain[i].buf.offset)
              && Good(t', s) && StandsAt(t', s, k)
              && t'.frames == t.frames && t'.starts == t.starts
              && (if chain[k].offset < chain[k].buf.offset then
                    t'.head == t.head && t'.offsets == t.offsets[k := chain[k].offset + 2]
                  else if chain[k].buf.offset == BUFFER_SIZE && k + 1 < |chain| then
                    t'.head == k + 1 && t'.offsets == t.offsets
                  else t'.head == t.head && t'.offsets == t.offsets)
    {
      hide *;
      var k := if skipTo == null then i else i + 1;
      BadFacts(chain, s, i, skipTo);
      BytesInBuffer(chain, s, t, i);
      BytesInBuffer(chain, s, t, k);
      t' := Skip(t, s, k);
      SkipFacts(t, s, k);
      SkipIsGood(t, s, i, k);
    }

    static lemma BadFacts(chain: seq<InBuffer>, s: seq<Byte>, i: nat, skipTo: InBuffer?)
      requires i < |chain| && Pos(i, chain[i].offset) <= |s| && ScanAgrees(chain, s, i, Bad(skipTo))
      ensures Classify(s, Pos(i, chain[i].offset)).Malformed?
      ensures if skipTo == null then chain[i].offset < chain[i].buf.offset
              else i + 1 < |chain| && skipTo == chain[i + 1]
    {
      hide Classify;
    }

    static lemma BytesInBuffer(chain: seq<InBuffer>, s: seq<Byte>, t: Trace, k: nat)
      requires Linked(chain) && |s| == Filled(chain) && |t.offsets| == |chain| && k < |chain|
      ensures BytesIn(t, s, k) == chain[k].buf.offset
    {
      Neighbour(chain, k);
    }

    static lemma SkipFacts(t: Trace, s: seq<Byte>, k: nat)
      requires k < |t.offsets|
      ensures var t' := Skip(t, s, k);
              && t'.frames == t.frames && t'.starts == t.starts
              && (if t.offsets[k] < BytesIn(t, s, k) then
                    t'.head == t.head && t'.offsets == t.offsets[k := t.offsets[k] + 2]
                  else if BytesIn(t, s, k) == BUFFER_SIZE && k + 1 < |t.offsets| then
                    t'.head == k + 1 && t'.offsets == t.offsets
                  else t'.head == t.head && t'.offsets == t.offsets)
    {
    }

    /** APB_ProcessBuffer: takes all frames that have become complete with the bytes in `buf`, unless
        the allocation of a packet fails after `grants` successes. */
    method ProcessBuffer(buf: Buffer, ghost received: seq<Byte>, grants: nat)
      requires Valid() && Arrived(buf, received) && Tame(received)
      modifies this, chain
      ensures Valid() && stream == received && |stream| == Filled(chain)
      ensures chain != [] && chain[|chain| - 1].buf == buf && |chain| >= |old(chain)|
      ensures forall i | 0 <= i < |old(chain)| :: chain[i] == old(chain)[i]
      ensures |chain| > |old(chain)| ==> |chain| == |old(chain)| + 1 && fresh(chain[|chain| - 1])
      ensures old(trace.frames) <= trace.frames && |trace.frames| <= |old(trace.frames)| + grants
      ensures old(queue) <= queue && |queue| - |old(queue)| == |trace.frames| - |old(trace.frames)|
      ensures Delivers(trace.frames, received, |old(trace.frames)| + grants)
      ensures GoesOnAs(old(chain), old(stream), chain, stream)
    {
      hide *;
      Receive(buf, received);
      ScanChain(grants);
      GoesOn(old(chain), old(stream), chain, stream);
    }

    /** One turn of the loop at buffer `i`, with or without a packet left to allocate. */
    method ScanOne(ghost i: nat, ib1: InBuffer, canTake: bool)
      returns (outcome: Outcome, next: InBuffer?, ghost j: nat)
      requires Valid() && |stream| == Filled(chain) && Tame(stream)
      requires StandsAt(trace, stream, i) && i < |chain| && IsAt(chain, ib1, i) && ib1.offset <= ib1.buf.offset
      modifies this, chain`offset
      ensures Valid() && stream == old(stream) && chain == old(chain)
      ensures outcome == Took ==> canTake && |trace.frames| == |old(trace.frames)| + 1 && |queue| == |old(queue)| + 1
      ensures outcome != Took ==> |trace.frames| == |old(trace.frames)| && |queue| == |old(queue)|
      ensures old(trace.frames) <= trace.frames && old(queue) <= queue
      ensures outcome == Stopped ==>
                forall limit | |trace.frames| <= limit && (canTake || |trace.frames| == limit) ::
                  Delivers(trace.frames, stream, limit)
      ensures outcome != Stopped ==>
                && StandsAt(trace, stream, j) && IsAt(chain, next, j)
                && (j > i || (j == i && next != null && next.offset > old(ib1.offset)))
    {
      hide Linked, Holds, Filled, Good, Queued, Offsets, StandsAt, ScanAgrees, Pos, Delivers, Tame;
      next, j := ib1, i;
      ScanFits(chain, trace, stream, i);
      var scan := Inspect(chain, stream, i, ib1);
      match scan {
        case Wait =>
          outcome := Stopped;
          forall limit | |trace.frames| <= limit ensures Delivers(trace.frames, stream, limit) {
            StopsWaiting(chain, trace, stream, i, limit);
          }
        case Found(h, into, data1, data2, consumed) =>
          if canTake {
            outcome := Took;
            next, j := Take(i, ib1, h, into, data1, data2, consumed);
          } else {
            outcome := Stopped;
            StopsAtLimit(trace, stream);
          }
        case Bad(skipTo) =>
          outcome := Skipped;
          next, j := SkipBadData(i, ib1, skipTo);
      }
    }

    /** The loop of APB_ProcessBuffer. */
    method ScanChain(grants: nat)
      requires Valid() && |stream| == Filled(chain) && Tame(stream) && chain != []
      modifies this, chain`offset
      ensures Valid() && stream == old(stream) && chain == old(chain)
      ensures old(trace.frames) <= trace.frames && |trace.frames| <= |old(trace.frames)| + grants
      ensures old(queue) <= queue && |queue| - |old(queue)| == |trace.frames| - |old(trace.frames)|
      ensures Delivers(trace.frames, stream, |old(trace.frames)| + grants)
    {
      ghost var i := trace.head;
      var left, ib1 := grants, inBuf;
      hide Linked, Holds, Filled, Good, Queued, Offsets, StandsAt, Delivers, Tame;
      BeginsAtHead(trace, stream);
      hide Valid;
      while ib1 != null && ib1.offset <= ib1.buf.offset
        invariant Valid() && stream == old(stream) && chain == old(chain) && |stream| == Filled(chain)
        invariant StandsAt(trace, stream, i) && IsAt(chain, ib1, i)
        invariant |trace.frames| + left == |old(trace.frames)| + grants && old(trace.frames) <= trace.frames
        invariant old(queue) <= queue && |queue| - |old(queue)| == |trace.frames| - |old(trace.frames)|
        decreases |chain| - i, if ib1 == null then 0 else ib1.buf.offset - ib1.offset
      {
        var outcome;
        outcome, ib1, i := ScanOne(i, ib1, left > 0);
        if outcome == Stopped {
          return;
        } else if outcome == Took {
          left := left - 1;
        }
      }
      Ended(i, ib1, |old(trace.frames)| + grants);
    }

    lemma Ended(i: nat, ib1: InBuffer?, limit: nat)
      requires Valid() && |stream| == Filled(chain) && |trace.frames| <= limit
      requires StandsAt(trace, stream, i) && IsAt(chain, ib1, i)
      requires ib1 == null || ib1.offset > ib1.buf.offset
      ensures Delivers(trace.frames, stream, limit)
    {
      hide Linked, Holds, Filled, Good, Queued, Offsets, StandsAt, Delivers;
      StopsAtEnd(chain, trace, stream, i, limit);
    }

    static lemma BeginsAtHead(t: Trace, s: seq<Byte>)
      requires Good(t, s) && t.offsets != []
      ensures StandsAt(t, s, t.head) && t.head < |t.offsets|
    {
      StartsAtHead(t, s);
    }

    /** The next candidate position may be scanned. */
    static lemma ScanFits(chain: seq<InBuffer>, t: Trace, s: seq<Byte>, i: nat)
      requires Linked(chain) && Offsets(chain) == t.offsets && Good(t, s) && StandsAt(t, s, i) && Tame(s)
      requires |s| == Filled(chain) && i < |chain| && chain[i].offset <= chain[i].buf.offset
      ensures Pos(i, chain[i].offset) <= |s| && chain[i].offset % 2 == 0
      ensures PadAgreesAt(s, Pos(i, chain[i].offset))
    {
      PosWithin(chain, i, chain[i].offset);
      hide Linked, InOrder, FollowsParse, StandsAt, Tame, PadAgreesAt;
      TameHere(t, s, i);
    }

    static lemma StopsWaiting(chain: seq<InBuffer>, t: Trace, s: seq<Byte>, i: nat, limit: nat)
      requires Offsets(chain) == t.offsets && Good(t, s) && StandsAt(t, s, i) && |t.frames| <= limit
      requires i < |chain| && Pos(i, chain[i].offset) <= |s| && ScanAgrees(chain, s, i, Wait)
      ensures Delivers(t.frames, s, limit)
    {
      hide Classify, Delivers, InOrder, OffsetsFit;
      assert FollowsParse(t, s);
      hide FollowsParse;
      DeliversAll(t, s, limit);
    }

    static lemma StopsAtLimit(t: Trace, s: seq<Byte>)
      requires Good(t, s)
      ensures Delivers(t.frames, s, |t.frames|)
    {
      hide FollowsParse, Delivers;
      DeliversAtLimit(t, s);
    }

    /** Behind the last buffer, or at an offset that skipping garbage has moved beyond the bytes read. */
    static lemma StopsAtEnd(chain: seq<InBuffer>, t: Trace, s: seq<Byte>, i: nat, limit: nat)
      requires Linked(chain) && Offsets(chain) == t.offsets && Good(t, s) && StandsAt(t, s, i)
      requires |s| == Filled(chain) && |t.frames| <= limit
      requires i == |chain| || (i < |chain| && chain[i].offset > chain[i].buf.offset)
      ensures Delivers(t.frames, s, limit)
    {
      if t.synced {
        if i < |chain| {
          Neighbour(chain, i);
          assert false;
        }
        NothingAtEnd(s);
      }
      hide *;
      GoodFollows(t, s);
      DeliversAll(t, s, limit);
    }

    static lemma GoodFollows(t: Trace, s: seq<Byte>)
      requires Good(t, s)
      ensures FollowsParse(t, s)
    {
    }

    /** The frame whose packet is at the head of the queue. */
    ghost function Handed(): int
      reads this
    {
      |trace.frames| - |queue|
    }

    /** Soundness on any bytes: every frame taken is a slice of the stream with a valid checksum, and the
        slices are disjoint and in stream order. */
    lemma FramesAreSlices()
      requires Valid()
      ensures |trace.starts| == |trace.frames|
      ensures forall k | 0 <= k < |trace.frames| ::
                GoodFrame(trace.frames[k]) && LiesAt(stream, trace.starts[k], trace.frames[k])
      ensures forall j, k | 0 <= j < k < |trace.frames| ::
                trace.starts[j] + |trace.frames[j]| <= trace.starts[k]
    {
      IsGood();
      hide *;
      OrderOfGood(trace, stream);
      SlicesInOrder(stream, trace.frames, trace.starts, trace.passed);
    }

    lemma IsGood()
      requires Valid()
      ensures Good(trace, stream)
    {
    }

    static lemma SlicesInOrder(s: seq<Byte>, frames: seq<seq<Byte>>, starts: seq<nat>, passed: nat)
      requires InOrder(s, frames, starts, passed)
      ensures |starts| == |frames|
      ensures forall k | 0 <= k < |frames| :: GoodFrame(frames[k]) && LiesAt(s, starts[k], frames[k])
      ensures forall j, k | 0 <= j < k < |frames| :: starts[j] + |frames[j]| <= starts[k]
    {
    }

    /** Packet `ip` points to frame number `j` of those taken. */
    ghost predicate IsHeld(ip: InPacket, j: int)
      reads this`chain, this`stream, this`trace
    {
      && 0 <= j < |trace.frames| == |trace.starts|
      && Held(chain, stream, ip, trace.frames[j], trace.starts[j])
    }

    /** A packet keeps its value although it only points into the buffers: whatever has been read since it was
        held by `chain` and `s`, it still is the packet of its frame. */
    lemma HeldValue(chain: seq<InBuffer>, s: seq<Byte>, ip: InPacket, f: seq<Byte>, at: nat)
      requires Valid() && GoesOnAs(chain, s, this.chain, stream) && Held(chain, s, ip, f, at)
      ensures ip.data1.InBounds() && ip.data2.InBounds() && GoodFrame(f) && ip.Value() == PacketOf(f)
    {
      HeldInMore(chain, s, this.chain, stream, ip, f, at);
      hide Good, Queued, Offsets, Linked, Holds, Describes, GoodFrame;
      DescribedValue(this.chain, stream, ip, f, at);
    }

    /** APB_DequeueInPacket: the packet of the oldest frame not handed out yet. */
    method DequeueInPacket() returns (r: Option<InPacket>)
      requires Valid()
      modifies this`queue
      ensures Valid()
      ensures r.None? <==> old(queue) == []
      ensures r.Some? ==>
                && queue == old(queue)[1..] && 0 <= old(Handed()) < |trace.frames|
                && GoodFrame(trace.frames[old(Handed())])
                && r.value.data1.InBounds() && r.value.data2.InBounds()
                && r.value.Value() == PacketOf(trace.frames[old(Handed())])
                && IsHeld(r.value, old(Handed()))
    {
      hide *;
      if queue == [] {
        return None;
      }
      var ip := TakeFirst();
      r := Some(ip);
    }

    /** RemHead on the queue, which is not empty. */
    method TakeFirst() returns (ip: InPacket)
      requires Valid() && queue != []
      modifies this`queue
      ensures Valid() && queue == old(queue)[1..] && 0 <= old(Handed()) < |trace.frames|
      ensures GoodFrame(trace.frames[old(Handed())]) && ip.data1.InBounds() && ip.data2.InBounds()
      ensures ip.Value() == PacketOf(trace.frames[old(Handed())]) && IsHeld(ip, old(Handed()))
    {
      hide Framed, Queued, GoodFrame, PacketOf, Valid, IsHeld;
      ghost var j := Handed();
      QueuedPacket(0);
      assert j + 0 == j;
      TailIsValid();
      ip := queue[0];
      hide Handed;
      queue := queue[1..];
      ValidAgain();
    }

    lemma TailIsValid()
      requires Valid() && queue != []
      ensures Framed() && Queued(chain, |stream|, queue[1..], trace.frames, trace.starts)
    {
      QueuedTail(chain, |stream|, queue, trace.frames, trace.starts);
      hide Framed, Queued;
    }

    lemma ValidAgain()
      requires Framed() && Queued(chain, |stream|, queue, trace.frames, trace.starts)
      ensures Valid()
    {
    }

    /** A queued packet has the value of its frame. */
    lemma QueuedPacket(k: nat)
      requires Valid() && k < |queue|
      ensures 0 <= Handed() + k < |trace.frames| && GoodFrame(trace.frames[Handed() + k])
      ensures queue[k].data1.InBounds() && queue[k].data2.InBounds()
      ensures queue[k].Value() == PacketOf(trace.frames[Handed() + k]) && IsHeld(queue[k], Handed() + k)
    {
      OrderOfGood(trace, stream);
      hide Linked, Holds, Good, Offsets, Describes, InOrder;
      var j := Handed() + k;
      FrameInOrder(stream, trace.frames, trace.starts, trace.passed, j);
      DescribedValue(chain, stream, queue[k], trace.frames[j], trace.starts[j]);
    }

    static lemma QueuedTail(chain: seq<InBuffer>, size: nat, queue: seq<InPacket>, frames: seq<seq<Byte>>,
                            starts: seq<nat>)
      requires Queued(chain, size, queue, frames, starts) && queue != []
      ensures Queued(chain, size, queue[1..], frames, starts)
    {
      hide Describes;
    }

    static lemma OrderOfGood(t: Trace, s: seq<Byte>)
      requires Good(t, s)
      ensures InOrder(s, t.frames, t.starts, t.passed)
    {
      hide InOrder;
    }

    static lemma FrameInOrder(s: seq<Byte>, frames: seq<seq<Byte>>, starts: seq<nat>, passed: nat, j: nat)
      requires InOrder(s, frames, starts, passed) && j < |frames|
      ensures |starts| == |frames| && GoodFrame(frames[j]) && LiesAt(s, starts[j], frames[j])
    {
    }
  }

  /** APB_InPacketToBuffer: the payload, joined again, at the start of `dest`. */
  method InPacketToBuffer(ip: InPacket, dest: array<Byte>) returns (n: nat)
    requires ip.data1.InBounds() && ip.data2.InBounds()
    requires ip.data1.length + ip.data2.length <= dest.Length
    requires ip.data1.data != dest && ip.data2.data != dest
    modifies dest
    ensures n == |ip.Value().payload| && dest[..n] == ip.Value().payload
    ensures dest[n..] == old(dest[n..])
  {
    if ip.data1.length > 0 {
      CopyMem(ip.data1.data, ip.data1.start, dest, 0, ip.data1.length);
    }
    ghost var before := dest[..];
    if ip.data2.length > 0 {
      CopyMem(ip.data2.data, ip.data2.start, dest, ip.data1.length, ip.data2.length);
    }
    n := ip.data1.length + ip.data2.length;
    assert dest[n..] == before[ip.data1.length..][ip.data2.length..];
    assert old(dest[n..]) == old(dest[ip.data1.length..])[ip.data2.length..];
    assert dest[..ip.data1.length] == before[..ip.data1.length] == ip.data1.Content();
    assert dest[..n] == dest[..ip.data1.length] + dest[ip.data1.length..n];
  }
}
