/** The receiving side of the link as server/server.c drives it: the device reads chunks of any size
    into the current buffer, the reader processes it, and the packets found are handed on. */
module Link {
  import opened Memory
  import opened Framing
  import opened FrameScan
  import opened ReaderTrace
  import opened PacketReader

  ghost predicate AllGood(fs: seq<seq<Byte>>) {
    forall k | 0 <= k < |fs| :: GoodFrame(fs[k])
  }

  ghost function LastBuffer(chain: seq<InBuffer>): Buffer
    requires chain != []
  {
    chain[|chain| - 1].buf
  }

  class Link {
    const reader: PacketReader
    var readBuffer: Buffer?

    /** Different buffers have different memory. */
    static ghost predicate Apart(chain: seq<InBuffer>) {
      forall i, j | 0 <= i < j < |chain| :: chain[i].buf.data != chain[j].buf.data
    }

    /** The read buffer is the last one of the chain, or a new one that is still empty. */
    static ghost predicate Current(chain: seq<InBuffer>, readBuffer: Buffer?)
      reads readBuffer, (set c | c in chain :: c.buf)`offset
    {
      if readBuffer == null then chain == []
      else
        && readBuffer.offset <= BUFFER_SIZE && readBuffer.data.Length == BUFFER_SIZE
        && ((chain != [] && LastBuffer(chain) == readBuffer) ||
            (readBuffer.offset == 0
             && (forall c | c in chain :: c.buf != readBuffer && c.buf.data != readBuffer.data)
             && (chain != [] ==> LastBuffer(chain).offset == BUFFER_SIZE)))
    }

    ghost predicate Valid()
      reads this, reader, reader.chain, set c | c in reader.chain :: c.buf,
        set c | c in reader.chain :: c.buf.data, readBuffer
    {
      && reader.Valid() && |reader.stream| == Filled(reader.chain)
      && Apart(reader.chain) && Current(reader.chain, readBuffer)
    }

    constructor ()
      ensures Valid() && reader.stream == [] && reader.queue == [] && fresh(reader) && readBuffer == null
      ensures reader.chain == [] && reader.trace.frames == []
    {
      reader := new PacketReader();
      readBuffer := null;
    }

    /** APB_SrvBeginRead: a full buffer is replaced by a new one; the device may fill what is free. */
    method BeginRead()
      requires Valid()
      modifies this`readBuffer
      ensures Valid() && readBuffer != null && readBuffer.offset < BUFFER_SIZE
      ensures readBuffer == old(readBuffer) || (fresh(readBuffer) && fresh(readBuffer.data))
    {
      if readBuffer == null || readBuffer.offset == BUFFER_SIZE {
        readBuffer := new Buffer();
      }
    }

    /** The device puts `bytes` behind the bytes in use, which then include them. In the last buffer
        of a chain this appends to the stream the chain holds. */
    static method DeviceRead(ghost chain: seq<InBuffer>, ghost s: seq<Byte>, buf: Buffer, bytes: seq<Byte>)
      requires Linked(chain) && Holds(chain, s) && |s| == Filled(chain) && Apart(chain)
      requires Current(chain, buf) && 0 < |bytes| <= BUFFER_SIZE - buf.offset
      modifies buf`offset, buf.data
      ensures buf.offset == old(buf.offset) + |bytes|
      ensures Linked(chain) && Holds(chain, s)
      ensures if chain != [] && LastBuffer(chain) == buf then
                Holds(chain, s + bytes) && Filled(chain) == |s + bytes|
              else
                Filled(chain) == |s| && forall j | 0 <= j < |bytes| :: buf.data[j] == bytes[j]
    {
      var from := buf.offset;
      forall k | 0 <= k < |bytes| {
        buf.data[from + k] := bytes[k];
      }
      buf.offset := from + |bytes|;
      forall i, j | 0 <= i < |chain| && 0 <= j < chain[i].buf.data.Length && Pos(i, j) < |s|
        ensures chain[i].buf.data[j] == s[Pos(i, j)]
      {
        assert old(chain[i].buf.data[j]) == s[Pos(i, j)];
      }
      if chain != [] && LastBuffer(chain) == buf {
        forall i, j | 0 <= i < |chain| && 0 <= j < chain[i].buf.data.Length && |s| <= Pos(i, j) < |s + bytes|
          ensures chain[i].buf.data[j] == (s + bytes)[Pos(i, j)]
        {
          assert i == |chain| - 1;
        }
      }
    }

    /** A chunk arrives in the read buffer. */
    method Fill(bytes: seq<Byte>)
      requires Valid() && readBuffer != null && 0 < |bytes| <= BUFFER_SIZE - readBuffer.offset
      modifies readBuffer`offset, readBuffer.data
      ensures reader.Valid() && reader.Arrived(readBuffer, reader.stream + bytes)
    {
      hide Linked, Holds, Filled, Good, PacketReader.Queued, PacketReader.Offsets, Apart;
      DeviceRead(reader.chain, reader.stream, readBuffer, bytes);
    }

    /** Dequeues one packet and copies its payload out. */
    method HandOut() returns (p: Packet)
      requires reader.Valid() && reader.queue != []
      modifies reader`queue
      ensures reader.Valid() && |reader.queue| == |old(reader.queue)| - 1
      ensures 0 <= old(reader.Handed()) < |reader.trace.frames|
      ensures GoodFrame(reader.trace.frames[old(reader.Handed())])
      ensures p == PacketOf(reader.trace.frames[old(reader.Handed())])
    {
      hide *;
      var r := reader.DequeueInPacket();
      p := CopyOut(r.value);
    }

    /** The payload is copied out of the buffers. */
    static method CopyOut(ip: InPacket) returns (p: Packet)
      requires ip.data1.InBounds() && ip.data2.InBounds()
      ensures p == old(ip.Value())
    {
      var data := new Byte[ip.data1.length + ip.data2.length];
      var n := InPacketToBuffer(ip, data);
      p := Packet(ip.ptype, ip.flags, ip.connId, ip.packId, data[..n]);
    }

    /** The draining loop of APB_SrvReceiveFromRemote: the queued packets, oldest first. */
    method Drain() returns (packets: seq<Packet>)
      requires Valid()
      modifies reader`queue
      ensures Valid() && reader.queue == []
      ensures old(reader.Handed()) >= 0
      ensures var taken := reader.trace.frames[old(reader.Handed())..];
              AllGood(taken) && packets == Packets(taken)
    {
      hide Linked, Holds, Filled, Good, PacketReader.Queued, PacketReader.Offsets, Apart, Current,
        GoodFrame, PacketReader.Valid;
      HandedFits();
      packets := [];
      ghost var frames, first := reader.trace.frames, reader.Handed();
      while reader.queue != []
        invariant reader.Valid() && first <= reader.Handed() <= |frames|
        invariant AllGood(frames[first..reader.Handed()])
        invariant packets == Packets(frames[first..reader.Handed()])
        decreases |reader.queue|
      {
        ghost var k := reader.Handed();
        var p := HandOut();
        packets := packets + [p];
        assert frames[first..k + 1] == frames[first..k] + [frames[k]];
        PacketsSnoc(frames[first..k], frames[k]);
      }
      assert frames[first..reader.Handed()] == frames[first..];
    }

    lemma HandedFits()
      requires reader.Valid()
      ensures 0 <= reader.Handed() <= |reader.trace.frames|
    {
    }

    /** `bytes` have been read: they are added to the buffer and processed. */
    method Process(bytes: seq<Byte>, grants: nat)
      requires Valid() && readBuffer != null && 0 < |bytes| <= BUFFER_SIZE - readBuffer.offset
      requires Tame(reader.stream + bytes)
      modifies reader, reader.chain, readBuffer`offset, readBuffer.data
      ensures Valid() && reader.stream == old(reader.stream) + bytes
      ensures Grown(old(reader.chain), reader.chain, readBuffer)
      ensures forall i | |old(reader.chain)| <= i < |reader.chain| :: fresh(reader.chain[i])
      ensures GoesOnAs(old(reader.chain), old(reader.stream), reader.chain, reader.stream)
      ensures old(reader.trace.frames) <= reader.trace.frames && reader.Handed() == old(reader.Handed())
      ensures |reader.trace.frames| <= |old(reader.trace.frames)| + grants
      ensures Delivers(reader.trace.frames, reader.stream, |old(reader.trace.frames)| + grants)
    {
      hide *;
      ghost var chain := reader.chain;
      StillApart();
      HandedIs();
      Fill(bytes);
      reader.ProcessBuffer(readBuffer, reader.stream + bytes, grants);
      HandedIs();
      ReaderFacts();
      NowLast(chain, reader.chain, readBuffer);
      GrownNow(chain, reader.chain, readBuffer);
      ValidNow();
    }

    /** The buffers of the chain are the ones it had and the read buffer. */
    static ghost predicate Grown(before: seq<InBuffer>, after: seq<InBuffer>, buf: Buffer) {
      |before| <= |after| && forall i | 0 <= i < |after| ::
        if i < |before| then after[i] == before[i] else after[i].buf == buf
    }

    static lemma GrownNow(before: seq<InBuffer>, after: seq<InBuffer>, buf: Buffer)
      requires after != [] && after[|after| - 1].buf == buf && |before| <= |after| <= |before| + 1
      requires forall i | 0 <= i < |before| :: after[i] == before[i]
      ensures Grown(before, after, buf)
    {
    }

    lemma ValidNow()
      requires reader.Valid() && |reader.stream| == Filled(reader.chain)
      requires Apart(reader.chain) && Current(reader.chain, readBuffer)
      ensures Valid()
    {
      hide PacketReader.Valid, Filled, Apart, Current;
    }

    lemma HandedIs()
      ensures reader.Handed() == |reader.trace.frames| - |reader.queue|
    {
    }

    lemma ReaderFacts()
      requires reader.Valid()
      ensures Linked(reader.chain)
    {
    }

    static ghost predicate OthersApart(chain: seq<InBuffer>, buf: Buffer) {
      Apart(chain) && forall c | c in chain && c.buf != buf :: c.buf.data != buf.data
    }

    lemma StillApart()
      requires Valid() && readBuffer != null
      ensures OthersApart(reader.chain, readBuffer)
    {
    }

    static lemma NowLast(chain: seq<InBuffer>, chain': seq<InBuffer>, buf: Buffer)
      requires OthersApart(chain, buf)
      requires chain' != [] && chain'[|chain'| - 1].buf == buf && |chain| <= |chain'| <= |chain| + 1
      requires (forall i | 0 <= i < |chain| :: chain'[i] == chain[i]) && Linked(chain')
      ensures Apart(chain') && Current(chain', buf)
    {
      if |chain'| > |chain| {
        forall i | 0 <= i < |chain| ensures chain'[i].buf.data != buf.data {
          assert chain'[i] in chain;
        }
      } else {
        assert chain' == chain;
      }
    }

    /** APB_SrvReceiveFromRemote with at least one byte read. */
    method ReceiveSome(bytes: seq<Byte>, grants: nat) returns (packets: seq<Packet>)
      requires Valid() && reader.queue == [] && readBuffer != null
      requires 0 < |bytes| <= BUFFER_SIZE - readBuffer.offset
      requires Tame(reader.stream + bytes)
      modifies this, reader, reader.chain, readBuffer`offset, readBuffer.data
      ensures Valid() && reader.queue == [] && readBuffer != null && readBuffer.offset < BUFFER_SIZE
      ensures readBuffer == old(readBuffer) || (fresh(readBuffer) && fresh(readBuffer.data))
      ensures reader.stream == old(reader.stream) + bytes
      ensures Grown(old(reader.chain), reader.chain, old(readBuffer))
      ensures forall i | |old(reader.chain)| <= i < |reader.chain| :: fresh(reader.chain[i])
      ensures GoesOnAs(old(reader.chain), old(reader.stream), reader.chain, reader.stream)
      ensures Added(old(reader.trace.frames), reader.trace.frames, grants, packets)
      ensures Delivers(reader.trace.frames, reader.stream, |old(reader.trace.frames)| + grants)
    {
      hide *;
      HandedIs();
      Process(bytes, grants);
      HandedIs();
      BeginRead();
      packets := Drain();
      AddedIntro(old(reader.trace.frames), reader.trace.frames, grants, packets);
    }

    /** The frames taken by one call, and the packets handed on for them. */
    static ghost predicate Added(before: seq<seq<Byte>>, after: seq<seq<Byte>>, grants: nat,
                                 packets: seq<Packet>) {
      && before <= after && |after| <= |before| + grants
      && AllGood(after[|before|..]) && packets == Packets(after[|before|..])
    }

    static lemma AddedIntro(before: seq<seq<Byte>>, after: seq<seq<Byte>>, grants: nat, packets: seq<Packet>)
      requires before <= after && |after| <= |before| + grants
      requires AllGood(after[|before|..])
      requires packets == Packets(after[|before|..])
      ensures Added(before, after, grants, packets)
    {
    }

    /** APB_SrvReceiveFromRemote: `bytes` have been read; the packets they complete are handed on. */
    method ReceiveFromRemote(bytes: seq<Byte>, grants: nat) returns (packets: seq<Packet>)
      requires Valid() && reader.queue == [] && readBuffer != null
      requires |bytes| <= BUFFER_SIZE - readBuffer.offset
      requires Tame(reader.stream + bytes)
      modifies this, reader, reader.chain, readBuffer`offset, readBuffer.data
      ensures Valid() && reader.queue == [] && readBuffer != null
      ensures readBuffer == old(readBuffer) || (fresh(readBuffer) && fresh(readBuffer.data))
      ensures reader.stream == old(reader.stream) + bytes
      ensures Grown(old(reader.chain), reader.chain, old(readBuffer))
      ensures forall i | |old(reader.chain)| <= i < |reader.chain| :: fresh(reader.chain[i])
      ensures GoesOnAs(old(reader.chain), old(reader.stream), reader.chain, reader.stream)
      ensures Added(old(reader.trace.frames), reader.trace.frames, grants, packets)
      ensures bytes != [] ==>
                && readBuffer.offset < BUFFER_SIZE
                && Delivers(reader.trace.frames, reader.stream, |old(reader.trace.frames)| + grants)
    {
      if bytes == [] {
        assert reader.stream + bytes == reader.stream;
        hide Valid;
        packets := [];
      } else {
        hide *;
        packets := ReceiveSome(bytes, grants);
      }
    }
  }
}
