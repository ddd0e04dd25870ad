/** server/packetwriter.c: frames are packed into 4096-byte buffers, stamped with their checksum when
    their buffer is written, and kept in a trimmed history. */
module PacketWriter {
  import opened Memory
  import opened Checksum
  import opened Framing
  import opened Drafts

  const RECENT_PACKETS_TO_KEEP := 10

  /** The device: it takes a copy of what it is given. */
  class Remote {
    var wire: seq<Byte>

    method Write(data: array<Byte>, start: nat, length: nat)
      requires start + length <= data.Length
      modifies this
      ensures wire == old(wire) + data[start..start + length]
    {
      wire := wire + data[start..start + length];
    }
  }

  class OutBuffer {
    const buf: Buffer
    var offset: nat
    var packetCount: nat
    var canRelease: bool

    constructor (buf: Buffer)
      ensures this.buf == buf && offset == 0 && packetCount == 0 && !canRelease
    {
      this.buf := buf;
      offset, packetCount, canRelease := 0, 0, false;
    }
  }

  /** A packet in a buffer: `size` bytes from `pac` on. */
  class OutPacket {
    const outBuf: OutBuffer
    const pac: nat
    ghost const size: nat
    var sent: bool

    constructor (outBuf: OutBuffer, pac: nat, ghost size: nat)
      ensures this.outBuf == outBuf && this.pac == pac && this.size == size && !sent
    {
      this.outBuf, this.pac, this.size := outBuf, pac, size;
      sent := false;
    }

    /** The bytes of the packet as they are in memory now. */
    ghost function Bytes(): (f: seq<Byte>)
      reads outBuf.buf.data
      ensures |f| == size || f == []
    {
      if pac + size <= outBuf.buf.data.Length then outBuf.buf.data[pac..pac + size] else []
    }
  }

  ghost function BytesOf(ps: seq<OutPacket>): (r: seq<seq<Byte>>)
    reads set p | p in ps :: p.outBuf.buf.data
    ensures |r| == |ps| && forall i | 0 <= i < |ps| :: r[i] == ps[i].Bytes()
  {
    if ps == [] then [] else BytesOf(ps[..|ps| - 1]) + [ps[|ps| - 1].Bytes()]
  }

  /** The packets `ps` fill buffer `ob` from `from` to `to` without gaps. */
  ghost predicate Fill(ps: seq<OutPacket>, ob: OutBuffer, from: nat, to: nat) {
    if ps == [] then from == to else
    var p := ps[|ps| - 1];
    && p.outBuf == ob && from <= p.pac && p.pac + p.size == to && p.size >= HEADER_SIZE
    && Fill(ps[..|ps| - 1], ob, from, p.pac)
  }

  lemma {:induction false} FillBounds(ps: seq<OutPacket>, ob: OutBuffer, from: nat, to: nat)
    requires Fill(ps, ob, from, to)
    ensures from <= to
    ensures forall i | 0 <= i < |ps| ::
              ps[i].outBuf == ob && from <= ps[i].pac && ps[i].pac + ps[i].size <= to
    ensures forall i, j | 0 <= i < j < |ps| :: ps[i].pac + ps[i].size <= ps[j].pac
    decreases |ps|
  {
    if ps != [] {
      FillBounds(ps[..|ps| - 1], ob, from, ps[|ps| - 1].pac);
    }
  }

  /** Packets that fill a stretch of a buffer are, one after the other, the bytes of that stretch. */
  lemma {:induction false} FilledBytes(ps: seq<OutPacket>, ob: OutBuffer, from: nat, to: nat)
    requires Fill(ps, ob, from, to) && to <= ob.buf.data.Length
    ensures from <= to && Flatten(BytesOf(ps)) == ob.buf.data[from..to]
    decreases |ps|
  {
    if ps != [] {
      var p, init := ps[|ps| - 1], ps[..|ps| - 1];
      FilledBytes(init, ob, from, p.pac);
      assert BytesOf(ps) == BytesOf(init) + [p.Bytes()];
      FlattenSnoc(BytesOf(init), p.Bytes());
      assert ob.buf.data[from..to] == ob.buf.data[from..p.pac] + ob.buf.data[p.pac..to];
    }
  }

  /** Number of packets of a history that lie in a buffer. */
  ghost function Count(ps: seq<OutPacket>, ob: OutBuffer): nat {
    if ps == [] then 0 else Count(ps[1..], ob) + if ps[0].outBuf == ob then 1 else 0
  }

  lemma {:induction false} CountConcat(a: seq<OutPacket>, b: seq<OutPacket>, ob: OutBuffer)
    ensures Count(a + b, ob) == Count(a, ob) + Count(b, ob)
  {
    if a == [] {
      assert a + b == b;
    } else {
      CountConcat(a[1..], b, ob);
      assert (a + b)[1..] == a[1..] + b;
    }
  }

  lemma {:induction false} CountPositive(ps: seq<OutPacket>, p: OutPacket)
    requires p in ps
    ensures Count(ps, p.outBuf) > 0
  {
    if ps[0] != p {
      CountPositive(ps[1..], p);
    }
  }

  /** A queue of different buffers with their own memory, of which only the first may be partly sent. */
  ghost predicate QueueFits(queue: seq<OutBuffer>)
    reads queue`offset, queue`canRelease, (set b | b in queue :: b.buf)`offset
  {
    && (forall i, j | 0 <= i < j < |queue| ::
          queue[i] != queue[j] && queue[i].buf != queue[j].buf && queue[i].buf.data != queue[j].buf.data)
    && (forall i | 0 <= i < |queue| ::
          && queue[i].buf.data.Length == BUFFER_SIZE && !queue[i].canRelease
          && queue[i].offset <= queue[i].buf.offset <= BUFFER_SIZE && queue[i].buf.offset % 2 == 0
          && (i > 0 ==> queue[i].offset == 0))
  }

  /** `pending[i]` are the unsent packets in `queue[i]`; they fill it behind what has been sent. */
  ghost predicate Filled(queue: seq<OutBuffer>, pending: seq<seq<OutPacket>>)
    reads queue`offset, (set b | b in queue :: b.buf)`offset
  {
    && |pending| == |queue|
    && forall i | 0 <= i < |queue| :: Fill(pending[i], queue[i], queue[i].offset, queue[i].buf.offset)
  }

  ghost predicate Distinct(ps: seq<OutPacket>) {
    forall i, j | 0 <= i < j < |ps| :: ps[i] != ps[j]
  }

  /** Exactly the first `k` packets of the history have been sent. */
  ghost predicate SentUpTo(recent: seq<OutPacket>, k: nat)
    reads recent`sent
  {
    forall i | 0 <= i < |recent| :: recent[i].sent <==> i < k
  }

  /** The history: sent packets first, then exactly the pending ones in the order of the queue. */
  ghost predicate HistoryFits(recent: seq<OutPacket>, sentCount: nat, pending: seq<seq<OutPacket>>)
    reads recent`sent
  {
    && sentCount <= |recent| && recent[sentCount..] == Flatten(pending)
    && Distinct(recent) && SentUpTo(recent, sentCount)
  }

  /** Every buffer not recycled counts the packets of the history in it; all that is queued or in the
      history is among these buffers, and what is queued cannot be released. */
  ghost predicate Counted(live: set<OutBuffer>, queue: seq<OutBuffer>, recent: seq<OutPacket>)
    reads live`packetCount
  {
    && (forall b | b in queue :: b in live)
    && (forall p | p in recent :: p.outBuf in live)
    && (forall b | b in live :: b.packetCount == Count(recent, b))
  }

  lemma {:induction false} InFlatten<T>(parts: seq<seq<T>>, x: T)
    requires x in Flatten(parts)
    ensures exists i :: 0 <= i < |parts| && x in parts[i]
  {
    if x in parts[0] {
      assert x in parts[0];
    } else {
      InFlatten(parts[1..], x);
      var i :| 0 <= i < |parts[1..]| && x in parts[1..][i];
      assert x in parts[i + 1];
    }
  }

  /** Pending packets lie in queued buffers, below the end of what is in use. */
  lemma PendingPlaces(queue: seq<OutBuffer>, pending: seq<seq<OutPacket>>)
    requires Filled(queue, pending)
    ensures forall p | p in Flatten(pending) ::
              && p.outBuf in queue && p.size >= HEADER_SIZE && p.outBuf.offset <= p.pac
              && p.pac + p.size <= p.outBuf.buf.offset
  {
    forall p | p in Flatten(pending)
      ensures p.outBuf in queue && p.size >= HEADER_SIZE && p.outBuf.offset <= p.pac
      ensures p.pac + p.size <= p.outBuf.buf.offset
    {
      InFlatten(pending, p);
      var i :| 0 <= i < |pending| && p in pending[i];
      FillBounds(pending[i], queue[i], queue[i].offset, queue[i].buf.offset);
      FillSizes(pending[i], queue[i], queue[i].offset, queue[i].buf.offset);
    }
  }

  lemma {:induction false} FillSizes(ps: seq<OutPacket>, ob: OutBuffer, from: nat, to: nat)
    requires Fill(ps, ob, from, to)
    ensures forall p | p in ps :: p.size >= HEADER_SIZE
    decreases |ps|
  {
    if ps != [] {
      FillSizes(ps[..|ps| - 1], ob, from, ps[|ps| - 1].pac);
    }
  }

  lemma QueuedBuffer(queue: seq<OutBuffer>, i: nat)
    requires QueueFits(queue) && i < |queue|
    ensures queue[i].buf.data.Length == BUFFER_SIZE && !queue[i].canRelease
    ensures queue[i].offset <= queue[i].buf.offset <= BUFFER_SIZE && queue[i].buf.offset % 2 == 0
    ensures i > 0 ==> queue[i].offset == 0
  {
  }

  /** A new buffer joins the queue. */
  lemma Enlarged(queue: seq<OutBuffer>, pending: seq<seq<OutPacket>>, live: set<OutBuffer>,
                 recent: seq<OutPacket>, sentCount: nat, ob: OutBuffer)
    requires QueueFits(queue) && Filled(queue, pending) && HistoryFits(recent, sentCount, pending)
    requires Counted(live, queue, recent) && ob !in live
    requires forall b | b in queue :: b != ob && b.buf != ob.buf && b.buf.data != ob.buf.data
    requires ob.offset == ob.buf.offset == ob.packetCount == 0 && !ob.canRelease
    requires ob.buf.data.Length == BUFFER_SIZE
    ensures QueueFits(queue + [ob]) && Filled(queue + [ob], pending + [[]])
    ensures HistoryFits(recent, sentCount, pending + [[]]) && Counted(live + {ob}, queue + [ob], recent)
    ensures Flatten(pending + [[]]) == Flatten(pending)
  {
    NothingAppended(pending);
    hide HistoryFits, Flatten, Counted;
    EnlargedQueue(queue, ob);
    hide QueueFits;
    EnlargedPending(queue, pending, ob);
    hide Filled;
    EnlargedCount(queue, live, recent, ob);
    SameHistory(recent, sentCount, pending, pending + [[]]);
  }

  lemma NothingAppended<T>(parts: seq<seq<T>>)
    ensures Flatten(parts + [[]]) == Flatten(parts)
  {
    FlattenSnoc(parts, []);
    assert Flatten(parts) + [] == Flatten(parts);
  }

  lemma SameHistory(recent: seq<OutPacket>, sentCount: nat, pending: seq<seq<OutPacket>>,
                    pending': seq<seq<OutPacket>>)
    requires HistoryFits(recent, sentCount, pending) && Flatten(pending') == Flatten(pending)
    ensures HistoryFits(recent, sentCount, pending')
  {
  }

  lemma EnlargedQueue(queue: seq<OutBuffer>, ob: OutBuffer)
    requires QueueFits(queue)
    requires forall b | b in queue :: b != ob && b.buf != ob.buf && b.buf.data != ob.buf.data
    requires ob.offset == ob.buf.offset == 0 && !ob.canRelease && ob.buf.data.Length == BUFFER_SIZE
    ensures QueueFits(queue + [ob])
  {
  }

  lemma EnlargedPending(queue: seq<OutBuffer>, pending: seq<seq<OutPacket>>, ob: OutBuffer)
    requires Filled(queue, pending) && ob.offset == ob.buf.offset == 0
    ensures Filled(queue + [ob], pending + [[]])
  {
    assert Fill([], ob, 0, 0);
    hide Fill;
  }

  lemma EnlargedCount(queue: seq<OutBuffer>, live: set<OutBuffer>, recent: seq<OutPacket>, ob: OutBuffer)
    requires Counted(live, queue, recent) && ob !in live && ob.packetCount == 0
    ensures Counted(live + {ob}, queue + [ob], recent)
  {
    CountAbsent(recent, ob);
  }

  lemma {:induction false} CountAbsent(ps: seq<OutPacket>, ob: OutBuffer)
    requires forall p | p in ps :: p.outBuf != ob
    ensures Count(ps, ob) == 0
  {
    if ps != [] {
      CountAbsent(ps[1..], ob);
    }
  }

  /** The last buffer's packets with one more. */
  function WithLast(pending: seq<seq<OutPacket>>, op: OutPacket): seq<seq<OutPacket>>
    requires pending != []
  {
    pending[..|pending| - 1] + [pending[|pending| - 1] + [op]]
  }

  lemma FlattenWithLast(pending: seq<seq<OutPacket>>, op: OutPacket)
    requires pending != []
    ensures Flatten(WithLast(pending, op)) == Flatten(pending) + [op]
  {
    var init, last := pending[..|pending| - 1], pending[|pending| - 1];
    FlattenSnoc(init, last + [op]);
    FlattenSnoc(init, last);
    assert pending == init + [last];
  }

  lemma HistoryGrows(recent: seq<OutPacket>, sentCount: nat, pending: seq<seq<OutPacket>>, op: OutPacket)
    requires HistoryFits(recent, sentCount, pending) && pending != [] && !op.sent && op !in recent
    ensures HistoryFits(recent + [op], sentCount, WithLast(pending, op))
  {
    FlattenWithLast(pending, op);
    hide Flatten, WithLast;
  }

  /** What is pending in the last buffer's memory lies below its free part. */
  lemma PendingBelow(queue: seq<OutBuffer>, pending: seq<seq<OutPacket>>)
    requires QueueFits(queue) && Filled(queue, pending) && queue != []
    ensures var last := queue[|queue| - 1];
            forall p | p in Flatten(pending) && p.outBuf.buf.data == last.buf.data ::
              p.pac + p.size <= last.buf.offset
  {
    PendingPlaces(queue, pending);
    hide Filled, Flatten;
  }

  /** The new packet takes the next `step` bytes of the last buffer. */
  method Advance(ghost queue: seq<OutBuffer>, ghost pending: seq<seq<OutPacket>>, ob: OutBuffer,
                 ghost op: OutPacket, step: nat)
    requires QueueFits(queue) && Filled(queue, pending) && queue != [] && ob == queue[|queue| - 1]
    requires op.outBuf == ob && op.pac == ob.buf.offset && op.size == step >= HEADER_SIZE && step % 2 == 0
    requires ob.buf.offset + step <= BUFFER_SIZE
    modifies ob.buf`offset
    ensures ob.buf.offset == old(ob.buf.offset) + step
    ensures QueueFits(queue) && pending != [] && Filled(queue, WithLast(pending, op))
  {
    ghost var n := |queue| - 1;
    FillOneMore(pending[n], op, ob, ob.offset, ob.buf.offset);
    WithLastAt(pending, op);
    hide Fill, WithLast;
    ob.buf.offset := ob.buf.offset + step;
    forall i | 0 <= i < n
      ensures Fill(WithLast(pending, op)[i], queue[i], queue[i].offset, queue[i].buf.offset) {
      assert queue[i].buf != queue[n].buf;
    }
  }

  lemma FillOneMore(ps: seq<OutPacket>, op: OutPacket, ob: OutBuffer, from: nat, to: nat)
    requires Fill(ps, ob, from, to) && op.outBuf == ob && op.pac == to && op.size >= HEADER_SIZE
    ensures from <= to && Fill(ps + [op], ob, from, to + op.size)
  {
    FillBounds(ps, ob, from, to);
    assert (ps + [op])[..|ps|] == ps;
  }

  lemma WithLastAt(pending: seq<seq<OutPacket>>, op: OutPacket)
    requires pending != []
    ensures var n, r := |pending| - 1, WithLast(pending, op);
            |r| == n + 1 && r[n] == pending[n] + [op] && forall i | 0 <= i < n :: r[i] == pending[i]
  {
  }

  method CountUp(ghost live: set<OutBuffer>, ghost queue: seq<OutBuffer>, ghost recent: seq<OutPacket>,
                 ob: OutBuffer, ghost op: OutPacket)
    requires Counted(live, queue, recent) && ob in live && op.outBuf == ob
    modifies ob`packetCount
    ensures Counted(live, queue, recent + [op])
  {
    ob.packetCount := ob.packetCount + 1;
    forall b | b in live ensures b.packetCount == Count(recent + [op], b) {
      CountConcat(recent, [op], b);
      assert Count([op], b) == if op.outBuf == b then 1 else 0;
    }
  }

  /** Both, for the packet `op` that has just been written. */
  method Book(ghost live: set<OutBuffer>, ghost queue: seq<OutBuffer>, ghost recent: seq<OutPacket>,
              ghost pending: seq<seq<OutPacket>>, ghost ps: seq<OutPacket>, ob: OutBuffer,
              ghost op: OutPacket, step: nat)
    requires QueueFits(queue) && Filled(queue, pending) && queue != [] && ob == queue[|queue| - 1]
    requires op.outBuf == ob && op.pac == ob.buf.offset && op.size == step >= HEADER_SIZE && step % 2 == 0
    requires ob.buf.offset + step <= BUFFER_SIZE
    requires Counted(live, queue, recent)
    modifies ob.buf`offset, ob`packetCount
    ensures QueueFits(queue) && pending != [] && Filled(queue, WithLast(pending, op))
    ensures Counted(live, queue, recent + [op])
    ensures BytesOf(ps) == old(BytesOf(ps))
  {
    CountedLast(live, queue, recent);
    hide QueueFits, Filled, Counted, WithLast, Flatten, BytesOf, OutPacket.Bytes;
    Advance(queue, pending, ob, op, step);
    CountUp(live, queue, recent, ob, op);
  }

  lemma CountedLast(live: set<OutBuffer>, queue: seq<OutBuffer>, recent: seq<OutPacket>)
    requires Counted(live, queue, recent) && queue != []
    ensures queue[|queue| - 1] in live
  {
  }

  /** InitHeader on free memory leaves the packets below it alone. */
  method InitFree(data: array<Byte>, at: nat, packId: Word, length: Word, ghost ps: seq<OutPacket>)
    requires HEADER_SIZE <= length <= BUFFER_SIZE && at + length + length % 2 <= data.Length
    requires length % 2 == 1 ==> at + length + 1 < data.Length
    requires forall p | p in ps && p.outBuf.buf.data == data :: p.pac + p.size <= at
    modifies data
    ensures BytesOf(ps) == old(BytesOf(ps))
    ensures IsDraftOf(data[at..at + length + length % 2], packId, length)
  {
    hide IsDraftOf;
    InitHeader(data, at, packId, length);
    forall i | 0 <= i < |ps| ensures ps[i].Bytes() == old(ps[i].Bytes()) {
      assert ps[i] in ps;
    }
  }

  lemma HistoryShrinks(op: OutPacket, history: seq<OutPacket>, sentCount: nat, pending: seq<seq<OutPacket>>)
    requires HistoryFits([op] + history, sentCount, pending) && op.sent
    ensures sentCount > 0 && HistoryFits(history, sentCount - 1, pending)
  {
    var longer := [op] + history;
    assert longer[0] == op && longer[1..] == history;
    assert longer[sentCount..] == history[sentCount - 1..];
    assert forall i | 0 <= i < |history| :: history[i] == longer[i + 1];
    hide Flatten;
  }

  /** The count of a buffer that loses a packet of the history. */
  lemma CountWithout(op: OutPacket, history: seq<OutPacket>, b: OutBuffer)
    ensures Count([op] + history, b) == Count(history, b) + if op.outBuf == b then 1 else 0
  {
    assert ([op] + history)[1..] == history;
  }

  /** Stamps the draft at `at`, whose size is read from its header. */
  method StampAt(data: array<Byte>, at: nat, ghost size: nat)
    requires at + size <= data.Length && IsDraft(data[at..at + size])
    modifies data
    ensures |Stamp(old(data[at..at + size]))| == size
    ensures data[..] == Put(old(data[..]), at, Stamp(old(data[at..at + size])))
  {
    assert HEADER_SIZE == 14 && BUFFER_SIZE == 4096 && CHECKSUM_AT == 10;
    hide *;
    ghost var f, before := data[at..at + size], data[..];
    LengthInMemory(f);
    assert f[12] == data[at + 12] && f[13] == data[at + 13];
    var length: Word := 0x100 * (data[at + 12] as int) + data[at + 13] as int;
    var ps := HEADER_SIZE + length + if length % 2 == 1 then 1 else 0;
    var c := CalculateChecksum(data, at, ps);
    PutBytes(data, at + CHECKSUM_AT, WordBytes(c));
    StampedInPlace(before, at, f, c);
  }

  lemma LengthInMemory(f: seq<Byte>)
    requires IsDraft(f)
    ensures HEADER_SIZE <= |f| <= BUFFER_SIZE && |f| % 2 == 0
    ensures var length := 0x100 * (f[12] as int) + f[13] as int;
            |f| == HEADER_SIZE + length + if length % 2 == 1 then 1 else 0
  {
  }

  lemma StampedInPlace(s: seq<Byte>, at: nat, f: seq<Byte>, c: Word)
    requires LiesAt(s, at, f) && |f| >= HEADER_SIZE && c == Completion(WordSum(f))
    ensures Put(s, at + CHECKSUM_AT, WordBytes(c)) == Put(s, at, Stamp(f))
  {
    hide Completion, WordSum, Put;
    assert forall k | 0 <= k < |f| :: f[k] == s[at + k];
  }

  /** Different pending packets do not overlap in memory. */
  lemma PendingDisjoint(queue: seq<OutBuffer>, pending: seq<seq<OutPacket>>, p: OutPacket, q: OutPacket)
    requires QueueFits(queue) && Filled(queue, pending)
    requires p in Flatten(pending) && q in Flatten(pending) && p != q
    ensures p.outBuf.buf.data != q.outBuf.buf.data || p.pac + p.size <= q.pac || q.pac + q.size <= p.pac
  {
    InFlatten(pending, p);
    InFlatten(pending, q);
    var i :| 0 <= i < |pending| && p in pending[i];
    var j :| 0 <= j < |pending| && q in pending[j];
    assert Fill(pending[i], queue[i], queue[i].offset, queue[i].buf.offset);
    assert Fill(pending[j], queue[j], queue[j].offset, queue[j].buf.offset);
    hide Filled, Fill, Flatten;
    if i == j {
      DisjointInBuffer(pending[i], queue[i], queue[i].offset, queue[i].buf.offset, p, q);
    } else {
      FillBounds(pending[i], queue[i], queue[i].offset, queue[i].buf.offset);
      FillBounds(pending[j], queue[j], queue[j].offset, queue[j].buf.offset);
      assert p.outBuf == queue[i] && q.outBuf == queue[j];
    }
  }

  lemma DisjointInBuffer(ps: seq<OutPacket>, ob: OutBuffer, from: nat, to: nat, p: OutPacket, q: OutPacket)
    requires Fill(ps, ob, from, to) && p in ps && q in ps && p != q
    ensures p.pac + p.size <= q.pac || q.pac + q.size <= p.pac
  {
    FillBounds(ps, ob, from, to);
    hide Fill;
    var a :| 0 <= a < |ps| && ps[a] == p;
    var b :| 0 <= b < |ps| && ps[b] == q;
    assert a < b || b < a;
  }

  /** Packets in different memory. */
  ghost predicate Disjoint(ps: seq<OutPacket>) {
    forall i, j | 0 <= i < |ps| && 0 <= j < |ps| && i != j ::
      ps[i].outBuf.buf.data != ps[j].outBuf.buf.data
      || ps[i].pac + ps[i].size <= ps[j].pac || ps[j].pac + ps[j].size <= ps[i].pac
  }

  lemma PendingAreDisjoint(queue: seq<OutBuffer>, pending: seq<seq<OutPacket>>, recent: seq<OutPacket>,
                           sentCount: nat)
    requires QueueFits(queue) && Filled(queue, pending) && HistoryFits(recent, sentCount, pending)
    ensures Disjoint(Flatten(pending))
  {
    var ps := Flatten(pending);
    forall i, j | 0 <= i < |ps| && 0 <= j < |ps| && i != j
      ensures ps[i].outBuf.buf.data != ps[j].outBuf.buf.data
              || ps[i].pac + ps[i].size <= ps[j].pac || ps[j].pac + ps[j].size <= ps[i].pac
    {
      assert ps[i] == recent[sentCount + i] && ps[j] == recent[sentCount + j];
      hide Flatten, Filled;
      PendingDisjoint(queue, pending, ps[i], ps[j]);
    }
  }

  /** The bytes of a packet when the memory `data` held `before`. */
  ghost function BytesWhen(p: OutPacket, data: array<Byte>, before: seq<Byte>): seq<Byte>
    reads if p.outBuf.buf.data == data then {} else {p.outBuf.buf.data}
  {
    if p.outBuf.buf.data != data then p.Bytes()
    else if p.pac + p.size <= |before| then before[p.pac..p.pac + p.size] else []
  }

  lemma Elsewhere(p: OutPacket, data: array<Byte>, before: seq<Byte>, at: nat, bytes: seq<Byte>)
    requires |before| == data.Length && at + |bytes| <= |before| && data[..] == Put(before, at, bytes)
    requires p.outBuf.buf.data != data || p.pac + p.size <= at || at + |bytes| <= p.pac
    ensures p.Bytes() == BytesWhen(p, data, before)
  {
    if p.outBuf.buf.data == data && p.pac + p.size <= |before| {
      hide Put;
      assert data[p.pac..p.pac + p.size] == data[..][p.pac..p.pac + p.size];
      assert data[..][p.pac..p.pac + p.size] == before[p.pac..p.pac + p.size];
    }
  }

  /** `was` is what the packets were when `before` was in `data`. */
  ghost predicate WereBytes(was: seq<seq<Byte>>, ps: seq<OutPacket>, data: array<Byte>, before: seq<Byte>)
    reads set p | p in ps && p.outBuf.buf.data != data :: p.outBuf.buf.data
  {
    |was| == |ps| && forall j | 0 <= j < |ps| :: was[j] == BytesWhen(ps[j], data, before)
  }

  /** A change of one packet's bytes leaves the others alone. */
  lemma OneChanged(ps: seq<OutPacket>, i: nat, data: array<Byte>, before: seq<Byte>, bytes: seq<Byte>,
                   was: seq<seq<Byte>>)
    requires Disjoint(ps) && i < |ps| && data == ps[i].outBuf.buf.data && |before| == data.Length
    requires WereBytes(was, ps, data, before)
    requires |bytes| == ps[i].size && ps[i].pac + |bytes| <= |before|
    requires data[..] == Put(before, ps[i].pac, bytes)
    ensures ps[i].Bytes() == bytes && BytesOf(ps) == was[i := bytes]
  {
    PutThere(before, ps[i].pac, bytes);
    assert data[..][ps[i].pac..ps[i].pac + |bytes|] == data[ps[i].pac..ps[i].pac + |bytes|];
    assert ps[i].Bytes() == bytes;
    hide BytesWhen, OutPacket.Bytes, Put;
    forall j | 0 <= j < |ps| && j != i ensures ps[j].Bytes() == was[j] {
      Elsewhere(ps[j], data, before, ps[i].pac, bytes);
    }
  }

  /** What lies below is not touched. */
  lemma PutAway(s: seq<Byte>, at: nat, bytes: seq<Byte>, end: nat)
    requires at + |bytes| <= |s| && end <= at
    ensures |Put(s, at, bytes)| == |s| && Put(s, at, bytes)[..end] == s[..end]
    ensures forall from: nat | from <= end :: Put(s, at, bytes)[from..end] == s[from..end]
    ensures forall k | 0 <= k < end :: Put(s, at, bytes)[k] == s[k]
  {
  }

  lemma PutThere(s: seq<Byte>, at: nat, bytes: seq<Byte>)
    requires at + |bytes| <= |s|
    ensures Put(s, at, bytes)[at..at + |bytes|] == bytes
  {
  }

  /** Stamps one of several packets and leaves the others alone. */
  method StampPacket(ghost ps: seq<OutPacket>, ghost i: nat, op: OutPacket)
    requires Disjoint(ps) && i < |ps| && op == ps[i] && IsDraft(op.Bytes())
    modifies op.outBuf.buf.data
    ensures op.Bytes() == Stamp(old(op.Bytes())) && BytesOf(ps) == old(BytesOf(ps))[i := op.Bytes()]
  {
    hide *;
    BytesInBounds(op);
    Snapshot(ps, op.outBuf.buf.data);
    var data := op.outBuf.buf.data;
    ghost var before, was, f := data[..], BytesOf(ps), op.Bytes();
    StampAt(data, op.pac, op.size);
    OneChanged(ps, i, data, before, Stamp(f), was);
  }

  lemma BytesAre(op: OutPacket)
    requires op.pac + op.size <= op.outBuf.buf.data.Length
    ensures op.Bytes() == op.outBuf.buf.data[op.pac..op.pac + op.size]
  {
  }

  lemma Snapshot(ps: seq<OutPacket>, data: array<Byte>)
    ensures WereBytes(BytesOf(ps), ps, data, data[..])
  {
  }

  lemma BytesInBounds(op: OutPacket)
    requires IsDraft(op.Bytes())
    ensures op.pac + op.size <= op.outBuf.buf.data.Length && |op.Bytes()| == op.size >= HEADER_SIZE
    ensures op.Bytes() == op.outBuf.buf.data[op.pac..op.pac + op.size]
  {
  }

  method ComposeAt(data: array<Byte>, at: nat, ghost size: nat, ptype: Byte, connId: Word, payload: seq<Byte>)
    requires at + size <= data.Length && HEADER_SIZE + |payload| <= size
    modifies data
    ensures data[..] == Put(old(data[..]), at, Drafts.Compose(old(data[at..at + size]), ptype, connId, payload))
  {
    ghost var before := data[..];
    assert data[at..at + size] == before[at..at + size];
    var g := data[at..at + 4] + [ptype, data[at + 5], connId / 0x100, connId % 0x100]
             + data[at + 8..at + HEADER_SIZE] + payload;
    PutBytes(data, at, g);
    hide Put, Drafts.Compose;
    ComposedInPlace(before, at, size, g, ptype, connId, payload);
  }

  lemma ComposedInPlace(s: seq<Byte>, at: nat, size: nat, g: seq<Byte>, ptype: Byte, connId: Word,
                        payload: seq<Byte>)
    requires at + size <= |s| && HEADER_SIZE + |payload| <= size
    requires g == s[at..at + 4] + [ptype, s[at + 5], connId / 0x100, connId % 0x100]
                  + s[at + 8..at + HEADER_SIZE] + payload
    ensures Put(s, at, g) == Put(s, at, Drafts.Compose(s[at..at + size], ptype, connId, payload))
  {
    var f := s[at..at + size];
    SliceOfSlice(s, at, size, 0, 4);
    SliceOfSlice(s, at, size, 8, HEADER_SIZE);
    assert Drafts.Compose(f, ptype, connId, payload) == g + f[|g|..];
    hide Put;
    assert forall k | 0 <= k < size :: f[k] == s[at + k];
  }

  /** Fills in one of several packets and leaves the others alone. */
  method ComposePacket(ghost ps: seq<OutPacket>, ghost i: nat, op: OutPacket, ptype: Byte, connId: Word,
                       payload: seq<Byte>)
    requires Disjoint(ps) && i < |ps| && op == ps[i] && IsDraft(op.Bytes())
    requires HEADER_SIZE + |payload| <= op.size
    modifies op.outBuf.buf.data
    ensures op.Bytes() == Drafts.Compose(old(op.Bytes()), ptype, connId, payload)
    ensures BytesOf(ps) == old(BytesOf(ps))[i := op.Bytes()]
  {
    hide *;
    BytesInBounds(op);
    Snapshot(ps, op.outBuf.buf.data);
    var data := op.outBuf.buf.data;
    ghost var before, was, f := data[..], BytesOf(ps), op.Bytes();
    ComposeAt(data, op.pac, op.size, ptype, connId, payload);
    OneChanged(ps, i, data, before, Drafts.Compose(f, ptype, connId, payload), was);
  }

  /** The first buffer leaves the queue once all of it has been written and there is another one. */
  method Retire(ghost live: set<OutBuffer>, ghost queue: seq<OutBuffer>, ghost pending: seq<seq<OutPacket>>,
                ghost recent: seq<OutPacket>, ob: OutBuffer)
    requires QueueFits(queue) && Filled(queue, pending) && Counted(live, queue, recent)
    requires |queue| > 1 && ob == queue[0] && pending != [] && pending[0] == []
    modifies ob`canRelease
    ensures QueueFits(queue[1..]) && Filled(queue[1..], pending[1..]) && Counted(live, queue[1..], recent)
    ensures Flatten(pending[1..]) == Flatten(pending)
  {
    hide Fill;
    ob.canRelease := true;
    assert [] + Flatten(pending[1..]) == Flatten(pending[1..]);
  }

  /** A buffer without pending packets has been written to its end. */
  lemma NothingPending(queue: seq<OutBuffer>, pending: seq<seq<OutPacket>>)
    requires QueueFits(queue) && Filled(queue, pending) && queue != []
    ensures pending != [] && (queue[0].offset == queue[0].buf.offset <==> pending[0] == [])
  {
    FillSizes(pending[0], queue[0], queue[0].offset, queue[0].buf.offset);
    FillBounds(pending[0], queue[0], queue[0].offset, queue[0].buf.offset);
  }

  /** What is pending after one call of APB_WriteBuffer. */
  function AfterWrite(pending: seq<seq<OutPacket>>): seq<seq<OutPacket>> {
    if |pending| <= 1 then seq(|pending|, _ => []) else pending[1..]
  }

  lemma AfterWriteIs(pending: seq<seq<OutPacket>>)
    requires pending != []
    ensures AfterWrite(pending) == if |pending| > 1 then HeadSent(pending)[1..] else HeadSent(pending)
  {
  }

  lemma HeadIsSent(pending: seq<seq<OutPacket>>)
    requires pending != []
    ensures |HeadSent(pending)| == |pending| && HeadSent(pending)[0] == []
  {
  }

  function AfterWrites(pending: seq<seq<OutPacket>>, calls: nat): seq<seq<OutPacket>>
    decreases calls
  {
    if calls == 0 then pending else AfterWrites(AfterWrite(pending), calls - 1)
  }

  /** As many calls as there are buffers in the queue send everything. */
  lemma {:induction false} WritesFlush(pending: seq<seq<OutPacket>>)
    ensures Flatten(AfterWrites(pending, |pending|)) == []
  {
    if |pending| > 1 {
      WritesFlush(pending[1..]);
    } else if |pending| == 1 {
      assert AfterWrites(pending, 1) == AfterWrites([[]], 0) == [[]];
      assert Flatten([[]]) == [] + Flatten<OutPacket>([]);
    }
  }

  /** Nothing of the first buffer is pending any more. */
  function HeadSent(pending: seq<seq<OutPacket>>): seq<seq<OutPacket>>
    requires pending != []
  {
    pending[0 := []]
  }

  lemma FlattenHeadSent(pending: seq<seq<OutPacket>>)
    requires pending != []
    ensures |pending[0]| <= |Flatten(pending)|
    ensures pending[0] == Flatten(pending)[..|pending[0]|]
    ensures Flatten(HeadSent(pending)) == Flatten(pending)[|pending[0]|..]
  {
    assert HeadSent(pending)[1..] == pending[1..];
  }

  lemma HistorySent(recent: seq<OutPacket>, sentCount: nat, pending: seq<seq<OutPacket>>)
    requires pending != [] && sentCount + |pending[0]| <= |recent|
    requires recent[sentCount..] == Flatten(pending)
    requires Distinct(recent) && SentUpTo(recent, sentCount + |pending[0]|)
    ensures HistoryFits(recent, sentCount + |pending[0]|, HeadSent(pending))
  {
    hide *;
    FlattenHeadSent(pending);
    DropTwice(recent, sentCount, |pending[0]|);
    HistoryFitsNow(recent, sentCount + |pending[0]|, HeadSent(pending));
  }

  lemma HistoryFitsNow(recent: seq<OutPacket>, sentCount: nat, pending: seq<seq<OutPacket>>)
    requires sentCount <= |recent| && recent[sentCount..] == Flatten(pending)
    requires Distinct(recent) && SentUpTo(recent, sentCount)
    ensures HistoryFits(recent, sentCount, pending)
  {
  }

  /** All of the first buffer has been written. */
  method MarkWritten(ghost queue: seq<OutBuffer>, ghost pending: seq<seq<OutPacket>>, ob: OutBuffer)
    requires QueueFits(queue) && Filled(queue, pending) && queue != [] && ob == queue[0]
    modifies ob`offset
    ensures ob.offset == ob.buf.offset && QueueFits(queue) && Filled(queue, HeadSent(pending))
  {
    assert Fill([], ob, ob.buf.offset, ob.buf.offset);
    hide Fill;
    ob.offset := ob.buf.offset;
  }

  /** The stretch of the first buffer that has not been written is its stamped packets. */
  lemma HeadBytes(queue: seq<OutBuffer>, pending: seq<seq<OutPacket>>, d: seq<seq<Byte>>)
    requires QueueFits(queue) && Filled(queue, pending) && queue != []
    requires |pending[0]| <= |d| && BytesOf(Flatten(pending)) == StampFirst(d, |pending[0]|)
    ensures pending != [] && queue[0].offset <= queue[0].buf.offset <= queue[0].buf.data.Length
    ensures queue[0].buf.data[queue[0].offset..queue[0].buf.offset] == Flatten(Stamps(d[..|pending[0]|]))
  {
    var n, ps := |pending[0]|, Flatten(pending);
    QueuedBuffer(queue, 0);
    FlattenHeadSent(pending);
    FilledBytes(pending[0], queue[0], queue[0].offset, queue[0].buf.offset);
    hide *;
    BytesOfFirst(ps, n);
    StampFirstParts(d, n);
  }

  /** What stays pending is not touched. */
  lemma TailBytes(pending: seq<seq<OutPacket>>, d: seq<seq<Byte>>)
    requires pending != [] && |pending[0]| <= |d|
    requires BytesOf(Flatten(pending)) == StampFirst(d, |pending[0]|)
    ensures BytesOf(Flatten(HeadSent(pending))) == d[|pending[0]|..]
  {
    hide *;
    FlattenHeadSent(pending);
    BytesOfRest(Flatten(pending), |pending[0]|);
    StampFirstParts(d, |pending[0]|);
  }

  lemma BytesOfFirst(ps: seq<OutPacket>, n: nat)
    requires n <= |ps|
    ensures BytesOf(ps[..n]) == BytesOf(ps)[..n]
  {
    hide OutPacket.Bytes;
  }

  lemma BytesOfRest(ps: seq<OutPacket>, n: nat)
    requires n <= |ps|
    ensures BytesOf(ps[n..]) == BytesOf(ps)[n..]
  {
    hide OutPacket.Bytes;
  }

  /** The header of a new packet of `length` bytes in all at position `at` of the memory `s`. Type and
      connection stay what they were. */
  function NewHeader(s: seq<Byte>, at: nat, packId: Word, length: Word): (r: seq<Byte>)
    requires HEADER_SIZE <= length && at + HEADER_SIZE <= |s|
    ensures |r| == HEADER_SIZE
  {
    var n := length - HEADER_SIZE;
    [0x41, 0x6d, 0x50, 0x69, s[at + 4], if length % 2 == 1 then PF_PAD_BYTE else 0, s[at + 6], s[at + 7],
     packId / 0x100, packId % 0x100, 0, 0, n / 0x100, n % 0x100]
  }

  method StoreHeader(data: array<Byte>, at: nat, packId: Word, length: Word)
    requires HEADER_SIZE <= length && at + HEADER_SIZE <= data.Length
    modifies data
    ensures data[..] == Put(old(data[..]), at, NewHeader(old(data[..]), at, packId, length))
  {
    var n := length - HEADER_SIZE;
    var header := [0x41, 0x6d, 0x50, 0x69, data[at + 4], if length % 2 == 1 then PF_PAD_BYTE else 0,
                   data[at + 6], data[at + 7], packId / 0x100, packId % 0x100, 0, 0, n / 0x100, n % 0x100];
    assert header == NewHeader(data[..], at, packId, length);
    hide Put, NewHeader;
    PutBytes(data, at, header);
  }

  /** Writes the header of a packet. Payload and pad byte stay what they were in memory; the byte that is
      cleared lies behind the pad byte. */
  method InitHeader(data: array<Byte>, at: nat, packId: Word, length: Word)
    requires HEADER_SIZE <= length <= BUFFER_SIZE && at + length + length % 2 <= data.Length
    requires length % 2 == 1 ==> at + length + 1 < data.Length
    modifies data
    ensures forall k | 0 <= k < at :: data[k] == old(data[k])
    ensures IsDraftOf(data[at..at + length + length % 2], packId, length)
  {
    hide *;
    ghost var before := data[..];
    StoreHeader(data, at, packId, length);
    if length % 2 == 1 {
      PutBytes(data, at + length + 1, [0]);
    }
    HeaderInPlace(before, at, data[..], packId, length);
    assert data[at..at + length + length % 2] == data[..][at..at + length + length % 2];
    assert forall k | 0 <= k < at :: data[k] == data[..][k];
  }

  lemma HeaderInPlace(s: seq<Byte>, at: nat, r: seq<Byte>, packId: Word, length: Word)
    requires HEADER_SIZE <= length <= BUFFER_SIZE && at + length + length % 2 <= |s|
    requires length % 2 == 1 ==> at + length + 1 < |s|
    requires var t := Put(s, at, NewHeader(s, at, packId, length));
             r == if length % 2 == 1 then Put(t, at + length + 1, [0]) else t
    ensures |r| == |s| && IsDraftOf(r[at..at + length + length % 2], packId, length)
    ensures forall k | 0 <= k < at :: r[k] == s[k]
  {
    var header := NewHeader(s, at, packId, length);
    HeaderIsThere(s, at, r, header, length);
    IsDraftWith(r[at..at + length + length % 2], s, at, packId, length);
  }

  lemma HeaderIsThere(s: seq<Byte>, at: nat, r: seq<Byte>, header: seq<Byte>, length: nat)
    requires |header| == HEADER_SIZE <= length && at + length + length % 2 <= |s|
    requires length % 2 == 1 ==> at + length + 1 < |s|
    requires var t := Put(s, at, header); r == if length % 2 == 1 then Put(t, at + length + 1, [0]) else t
    ensures |r| == |s| && r[at..at + length + length % 2][..HEADER_SIZE] == header
    ensures forall k | 0 <= k < at :: r[k] == s[k]
  {
    PutThere(s, at, header);
    if length % 2 == 1 {
      PutAway(Put(s, at, header), at + length + 1, [0], at);
      PutAway(Put(s, at, header), at + length + 1, [0], at + HEADER_SIZE);
    }
    PutAway(s, at, header, at);
    hide Put;
    assert r[at..at + length + length % 2][..HEADER_SIZE] == r[at..at + HEADER_SIZE];
  }

  lemma IsDraftWith(f: seq<Byte>, s: seq<Byte>, at: nat, packId: Word, length: Word)
    requires HEADER_SIZE <= length && |f| == length + length % 2 <= BUFFER_SIZE && at + HEADER_SIZE <= |s|
    requires f[..HEADER_SIZE] == NewHeader(s, at, packId, length)
    ensures IsDraftOf(f, packId, length)
  {
    assert forall k | 0 <= k < HEADER_SIZE :: f[k] == f[..HEADER_SIZE][k];
    assert LongAt(f, 0) == PACKET_ID;
    assert f[..4] == f[..HEADER_SIZE][..4];
  }

  /** A draft as AllocPacketWithId leaves it: "AmPi", the flags, the identifier, a checksum of zero and the
      length of the payload, where they lie on the wire. */
  predicate IsDraftOf(f: seq<Byte>, packId: Word, length: Word) {
    && IsDraft(f) && |f| == length + length % 2
    && f[..4] == [0x41, 0x6d, 0x50, 0x69] && f[5] == length % 2 && 0x100 * (f[8] as int) + f[9] as int == packId
    && f[10] == f[11] == 0 && 0x100 * (f[12] as int) + f[13] as int == length - 14
  }

  lemma DraftHeader(f: seq<Byte>, packId: Word, length: Word)
    requires IsDraftOf(f, packId, length)
    ensures HeaderAt(f, 0).packId == packId && HeaderAt(f, 0).length == length - HEADER_SIZE
  {
  }

  class PacketWriter {
    var queue: seq<OutBuffer>
    var recent: seq<OutPacket>
    var outBuf: OutBuffer?
    var recentCount: nat
    var bufCount: nat
    var nextPackId: Word

    /** The unsent packets of each queued buffer, the number of sent packets in the history, the
        buffers not recycled, and the frames put on the wire so far. */
    ghost var pending: seq<seq<OutPacket>>
    ghost var sentCount: nat
    ghost var live: set<OutBuffer>
    ghost var sentFrames: seq<seq<Byte>>

    /** The memory of the packets not sent yet, oldest first. */
    ghost function Unsent(): seq<seq<Byte>>
      reads this`pending, set p | p in Flatten(pending) :: p.outBuf.buf.data
    {
      BytesOf(Flatten(pending))
    }

    /** The state is consistent once the history is `history`. */
    ghost predicate ValidFor(history: seq<OutPacket>)
      reads this`queue, this`recent, this`outBuf, this`recentCount, this`bufCount, this`pending, this`sentCount,
        this`live, this`sentFrames, queue`offset, queue`canRelease, live`packetCount, history`sent,
        (set b | b in queue :: b.buf)`offset, set p | p in Flatten(pending) :: p.outBuf.buf.data
    {
      && BuffersFit() && recentCount == |recent|
      && HistoryFits(history, sentCount, pending) && Counted(live, queue, history)
    }

    /** What the trimming of the history has nothing to do with. */
    ghost predicate BuffersFit()
      reads this`queue, this`outBuf, this`bufCount, this`pending, this`sentFrames,
        queue`offset, queue`canRelease, (set b | b in queue :: b.buf)`offset,
        set p | p in Flatten(pending) :: p.outBuf.buf.data
    {
      && QueueFits(queue) && Filled(queue, pending)
      && AllDrafts(Unsent()) && AllWellFormed(sentFrames) && bufCount == |queue|
      && (if outBuf == null then queue == [] else queue != [] && outBuf == queue[|queue| - 1])
    }

    ghost predicate Valid()
      reads this`queue, this`recent, this`outBuf, this`recentCount, this`bufCount, this`pending, this`sentCount,
        this`live, this`sentFrames, queue`offset, queue`canRelease, live`packetCount, recent`sent,
        (set b | b in queue :: b.buf)`offset, set p | p in Flatten(pending) :: p.outBuf.buf.data
    {
      ValidFor(recent)
    }

    constructor ()
      ensures Valid() && Unsent() == [] && sentFrames == [] && nextPackId == 1
    {
      queue, recent, outBuf, recentCount, bufCount, nextPackId := [], [], null, 0, 0, 1;
      pending, sentCount, live, sentFrames := [], 0, {}, [];
    }

    static method NewOutBuffer() returns (ob: OutBuffer)
      ensures fresh(ob) && fresh(ob.buf) && fresh(ob.buf.data) && ob.buf.data.Length == BUFFER_SIZE
      ensures ob.offset == ob.buf.offset == ob.packetCount == 0 && !ob.canRelease
    {
      var buf := new Buffer();
      ob := new OutBuffer(buf);
    }

    /** A new current buffer joins the queue. */
    method AddBuffer()
      requires Valid()
      modifies this`queue, this`outBuf, this`bufCount, this`pending, this`live
      ensures Valid() && Unsent() == old(Unsent())
      ensures outBuf != null && fresh(outBuf) && fresh(outBuf.buf) && fresh(outBuf.buf.data)
      ensures live == old(live) + {outBuf} && outBuf.buf.offset == 0
    {
      assert forall p | p in Flatten(pending) :: p in recent;
      hide QueueFits, Filled, HistoryFits, Counted, AllDrafts, AllWellFormed, BytesOf, Flatten;
      var ob := NewOutBuffer();
      Join(ob);
    }

    /** `ob` joins the queue. */
    method Join(ob: OutBuffer)
      requires Valid() && ob !in live && ob.buf.data.Length == BUFFER_SIZE
      requires ob.offset == ob.buf.offset == ob.packetCount == 0 && !ob.canRelease
      requires forall b | b in queue :: b != ob && b.buf != ob.buf && b.buf.data != ob.buf.data
      modifies this`queue, this`outBuf, this`bufCount, this`pending, this`live
      ensures Valid() && Unsent() == old(Unsent())
      ensures live == old(live) + {ob} && outBuf == ob
    {
      hide QueueFits, Filled, HistoryFits, Counted, AllDrafts, AllWellFormed, BytesOf, Flatten;
      Enlarged(queue, pending, live, recent, sentCount, ob);
      outBuf := ob;
      queue := queue + [ob];
      bufCount := bufCount + 1;
      pending, live := pending + [[]], live + {ob};
    }

    lemma CurrentBuffer()
      requires Valid()
      ensures outBuf != null ==> outBuf.buf.data.Length == BUFFER_SIZE && outBuf.buf.offset % 2 == 0
    {
      if outBuf != null {
        QueuedBuffer(queue, |queue| - 1);
      }
    }

    /** A new current buffer, when there is none or the packet does not fit behind the others. */
    method EnsureRoom(length: Word, haveBuffer: bool) returns (ok: bool)
      requires Valid() && HEADER_SIZE <= length <= BUFFER_SIZE && length != BUFFER_SIZE - 1
      modifies this`queue, this`outBuf, this`bufCount, this`pending, this`live
      ensures Valid() && Unsent() == old(Unsent()) && Flatten(pending) == old(Flatten(pending))
      ensures ok <==> haveBuffer || (old(outBuf) != null && old(outBuf).buf.offset + length + 1 < BUFFER_SIZE)
      ensures ok ==>
                && outBuf != null && outBuf.buf.data.Length == BUFFER_SIZE
                && outBuf.buf.offset + length + length % 2 <= BUFFER_SIZE
                && (length % 2 == 1 ==> outBuf.buf.offset + length + 1 < BUFFER_SIZE)
      ensures outBuf == old(outBuf) ==> live == old(live)
      ensures outBuf != old(outBuf) ==>
                && outBuf != null && fresh(outBuf) && fresh(outBuf.buf) && fresh(outBuf.buf.data)
                && live == old(live) + {outBuf}
    {
      CurrentBuffer();
      hide PacketWriter.Valid;
      ok := true;
      if outBuf == null || outBuf.buf.offset + length + 1 >= BUFFER_SIZE {
        if haveBuffer {
          AddBuffer();
          CurrentBuffer();
        } else {
          ok := false;
        }
      }
    }

    /** Writes the packet's header behind the others of the current buffer. */
    method Place(op: OutPacket, packId: Word, length: Word)
      requires Valid() && HEADER_SIZE <= length <= BUFFER_SIZE
      requires outBuf != null && outBuf.buf.data.Length == BUFFER_SIZE
      requires outBuf.buf.offset + length + length % 2 <= BUFFER_SIZE
      requires length % 2 == 1 ==> outBuf.buf.offset + length + 1 < BUFFER_SIZE
      requires op !in recent && !op.sent && op.outBuf == outBuf && op.pac == outBuf.buf.offset
      requires op.size == length + length % 2
      modifies outBuf`packetCount, outBuf.buf`offset, outBuf.buf.data, this`pending
      ensures ValidFor(recent + [op])
      ensures Flatten(pending) == old(Flatten(pending)) + [op]
      ensures Unsent() == old(Unsent()) + [op.Bytes()] && IsDraftOf(op.Bytes(), packId, length)
    {
      hide *;
      Parts();
      PendingBelow(queue, pending);
      UnsentIs();
      InitFree(outBuf.buf.data, outBuf.buf.offset, packId, length, Flatten(pending));
      UnsentIs();
      Whole(recent);
      BytesAre(op);
      Enter(op, packId, length);
    }

    /** The packet whose header has been written is counted as one more pending packet. */
    method Enter(op: OutPacket, ghost packId: Word, length: Word)
      requires Valid() && HEADER_SIZE <= length <= BUFFER_SIZE && IsDraftOf(op.Bytes(), packId, length)
      requires outBuf != null && outBuf.buf.offset + length + length % 2 <= BUFFER_SIZE
      requires op !in recent && !op.sent && op.outBuf == outBuf && op.pac == outBuf.buf.offset
      requires op.size == length + length % 2
      modifies outBuf`packetCount, outBuf.buf`offset, this`pending
      ensures ValidFor(recent + [op])
      ensures Flatten(pending) == old(Flatten(pending)) + [op]
      ensures Unsent() == old(Unsent()) + [op.Bytes()]
    {
      hide *;
      ghost var ps := Flatten(pending);
      Parts();
      Nonempty();
      HistoryGrows(recent, sentCount, pending, op);
      FlattenWithLast(pending, op);
      OneMore(ps, op, packId, length);
      UnsentIs();
      SizeEven(length);
      Book(live, queue, recent, pending, ps + [op], outBuf, op, length + length % 2);
      pending := WithLast(pending, op);
      UnsentIs();
      Whole(recent + [op]);
    }

    lemma SizeEven(length: nat)
      requires length >= HEADER_SIZE
      ensures HEADER_SIZE <= length + length % 2 && (length + length % 2) % 2 == 0
    {
    }

    /** The parts of the invariant, and the invariant from its parts. */
    lemma Parts()
      requires Valid()
      ensures QueueFits(queue) && Filled(queue, pending) && HistoryFits(recent, sentCount, pending)
      ensures Counted(live, queue, recent) && AllDrafts(BytesOf(Flatten(pending)))
      ensures AllWellFormed(sentFrames) && recentCount == |recent| && bufCount == |queue|
      ensures if outBuf == null then queue == [] else queue != [] && outBuf == queue[|queue| - 1]
      ensures forall p | p in Flatten(pending) :: p in recent
    {
    }

    lemma PartsFor(history: seq<OutPacket>)
      requires ValidFor(history)
      ensures QueueFits(queue) && Filled(queue, pending) && HistoryFits(history, sentCount, pending)
      ensures Counted(live, queue, history) && AllDrafts(BytesOf(Flatten(pending)))
      ensures AllWellFormed(sentFrames) && recentCount == |recent| && bufCount == |queue|
      ensures if outBuf == null then queue == [] else queue != [] && outBuf == queue[|queue| - 1]
    {
    }

    lemma Whole(history: seq<OutPacket>)
      requires QueueFits(queue) && Filled(queue, pending) && HistoryFits(history, sentCount, pending)
      requires Counted(live, queue, history) && AllDrafts(BytesOf(Flatten(pending)))
      requires AllWellFormed(sentFrames) && recentCount == |recent| && bufCount == |queue|
      requires if outBuf == null then queue == [] else queue != [] && outBuf == queue[|queue| - 1]
      ensures ValidFor(history) && (history == recent ==> Valid())
    {
    }

    lemma UnsentIs()
      ensures Unsent() == BytesOf(Flatten(pending))
    {
    }

    lemma Nonempty()
      requires Filled(queue, pending) && queue != []
      ensures pending != []
    {
    }

    lemma OneMore(ps: seq<OutPacket>, op: OutPacket, packId: Word, length: Word)
      requires AllDrafts(BytesOf(ps)) && IsDraftOf(op.Bytes(), packId, length)
      ensures BytesOf(ps + [op]) == BytesOf(ps) + [op.Bytes()] && AllDrafts(BytesOf(ps + [op]))
    {
      assert (ps + [op])[..|ps|] == ps;
      hide IsDraft;
    }

    /** APB_ReleaseOutPacket: the buffer of a packet that leaves the history is recycled if it was the
        last one there and the buffer has left the queue. */
    method ReleaseOutPacket(op2: OutPacket, ghost history: seq<OutPacket>)
      requires QueueFits(queue) && Counted(live, queue, [op2] + history)
      modifies this`live, op2.outBuf`packetCount
      ensures Counted(live, queue, history)
      ensures live <= old(live) && old(live) - live <= {op2.outBuf}
      ensures op2.outBuf !in live ==> op2.outBuf.canRelease && forall p | p in history :: p.outBuf != op2.outBuf
    {
      var ob := op2.outBuf;
      forall b ensures Count([op2] + history, b) == Count(history, b) + if ob == b then 1 else 0 {
        CountWithout(op2, history, b);
      }
      assert op2 in [op2] + history;
      assert forall p | p in history :: p in [op2] + history;
      ob.packetCount := ob.packetCount - 1;
      if ob.packetCount == 0 && ob.canRelease {
        forall p | p in history ensures p.outBuf != ob {
          if p.outBuf == ob {
            CountPositive(history, p);
          }
        }
        live := live - {ob};
      }
    }

    static lemma FirstAndRest(ps: seq<OutPacket>, op: OutPacket)
      requires ps != []
      ensures ps + [op] == [ps[0]] + (ps[1..] + [op])
    {
    }

    /** The oldest packet leaves the history. */
    method TrimOne(ghost op: OutPacket)
      requires ValidFor(recent + [op]) && recent != [] && recent[0].sent
      modifies this`recent, this`recentCount, this`sentCount, this`live, recent[0].outBuf`packetCount
      ensures ValidFor(recent + [op]) && live <= old(live)
      ensures recent == old(recent)[1..] && sentCount == old(sentCount) - 1
    {
      hide *;
      ghost var rest := OldestFirst(op);
      ReleaseOutPacket(recent[0], rest);
      recent, recentCount, sentCount := recent[1..], recentCount - 1, sentCount - 1;
      HistoryWhole(rest);
    }

    /** What the history without its oldest packet fits. */
    lemma OldestFirst(op: OutPacket) returns (rest: seq<OutPacket>)
      requires ValidFor(recent + [op]) && recent != [] && recent[0].sent
      ensures rest == recent[1..] + [op] && BuffersFit() && recentCount == |recent| && QueueFits(queue)
      ensures Counted(live, queue, [recent[0]] + rest)
      ensures sentCount > 0 && HistoryFits(rest, sentCount - 1, pending)
      ensures forall p | p in Flatten(pending) :: p in recent || p == op
    {
      hide *;
      rest := recent[1..] + [op];
      FirstAndRest(recent, op);
      HistoryPart(recent + [op]);
      InHistory(recent + [op], sentCount, pending);
      QueuePart();
      HistoryShrinks(recent[0], rest, sentCount, pending);
    }

    lemma HistoryPart(history: seq<OutPacket>)
      requires ValidFor(history)
      ensures BuffersFit() && recentCount == |recent|
      ensures HistoryFits(history, sentCount, pending) && Counted(live, queue, history)
    {
    }

    lemma HistoryWhole(history: seq<OutPacket>)
      requires BuffersFit() && recentCount == |recent|
      requires HistoryFits(history, sentCount, pending) && Counted(live, queue, history)
      ensures ValidFor(history)
    {
    }

    lemma QueuePart()
      requires BuffersFit()
      ensures QueueFits(queue) && bufCount == |queue|
    {
    }

    /** Trims the history down to RECENT_PACKETS_TO_KEEP packets, but never an unsent one. */
    method TrimHistory(ghost op: OutPacket) returns (ghost dropped: nat)
      requires ValidFor(recent + [op])
      modifies this`recent, this`recentCount, this`sentCount, this`live, live`packetCount
      ensures ValidFor(recent + [op]) && live <= old(live)
      ensures dropped <= |old(recent)| && recent == old(recent)[dropped..]
      ensures sentCount == old(sentCount) - dropped
      ensures dropped == 0 || |recent| >= RECENT_PACKETS_TO_KEEP
      ensures |recent| <= RECENT_PACKETS_TO_KEEP || sentCount == 0
    {
      assert RECENT_PACKETS_TO_KEEP == 10;
      hide *;
      dropped := 0;
      PartsFor(recent + [op]);
      ghost var was, all := recent, live;
      DropIs(was, 0);
      var trimmed := true;
      while trimmed && recentCount > RECENT_PACKETS_TO_KEEP
        invariant ValidFor(recent + [op]) && live <= all && recentCount == |recent| == |was| - dropped
        invariant Drop(was, dropped) == recent
        invariant sentCount == old(sentCount) - dropped && (trimmed || sentCount == 0)
        invariant dropped == 0 || |recent| >= RECENT_PACKETS_TO_KEEP
        decreases |recent|, trimmed
      {
        DropMore(was, dropped);
        trimmed := TrimOldest(op, all);
        if trimmed {
          dropped := dropped + 1;
        }
      }
      DropIs(was, dropped);
    }

    static function Drop(history: seq<OutPacket>, n: nat): seq<OutPacket> {
      if n <= |history| then history[n..] else []
    }

    static lemma DropMore(history: seq<OutPacket>, n: nat)
      requires n < |history|
      ensures Drop(history, n)[1..] == Drop(history, n + 1)
    {
    }

    static lemma DropIs(history: seq<OutPacket>, n: nat)
      requires n <= |history|
      ensures Drop(history, n) == history[n..] && Drop(history, 0) == history
    {
    }

    /** The oldest packet leaves the history if it has been sent. */
    method TrimOldest(ghost op: OutPacket, ghost all: set<OutBuffer>) returns (trimmed: bool)
      requires ValidFor(recent + [op]) && recent != [] && live <= all
      modifies this`recent, this`recentCount, this`sentCount, this`live, all`packetCount
      ensures ValidFor(recent + [op]) && live <= all && recentCount == |recent|
      ensures trimmed <==> old(sentCount) > 0
      ensures recent == (if trimmed then old(recent)[1..] else old(recent))
      ensures sentCount == old(sentCount) - if trimmed then 1 else 0
    {
      hide *;
      OldestState(op);
      trimmed := recent[0].sent;
      if trimmed {
        TrimOne(op);
      }
      PartsFor(recent + [op]);
    }

    lemma OldestState(op: OutPacket)
      requires ValidFor(recent + [op]) && recent != []
      ensures recent[0].sent <==> sentCount > 0
      ensures recent[0].outBuf in live && |recent| > 0
    {
      assert recent[0] == (recent + [op])[0];
    }

    /** The packet that has been placed enters the history, which is trimmed of sent packets first. */
    method Remember(op: OutPacket) returns (ghost dropped: nat)
      requires ValidFor(recent + [op])
      modifies this`recent, this`recentCount, this`sentCount, this`live, live`packetCount
      ensures Valid() && Unsent() == old(Unsent())
      ensures History(old(recent), old(sentCount), op, dropped)
    {
      hide *;
      UnsentIs();
      dropped := TrimHistory(op);
      HistoryPart(recent + [op]);
      InHistory(recent + [op], sentCount, pending);
      recent := recent + [op];
      recentCount := recentCount + 1;
      HistoryWhole(recent);
      ValidIs();
      UnsentIs();
      HistoryIs(old(recent), old(sentCount), op, dropped);
    }

    lemma ValidIs()
      ensures Valid() <==> ValidFor(recent)
    {
    }

    /** How an allocation changes the history: `dropped` sent packets leave it at its old end, the new
        one enters, and what is kept is bounded unless it is all unsent. */
    ghost predicate History(before: seq<OutPacket>, sentBefore: nat, op: OutPacket, dropped: nat)
      reads this`recent, this`sentCount
    {
      && dropped <= |before| && dropped <= sentBefore && recent == before[dropped..] + [op]
      && sentCount == sentBefore - dropped
      && (dropped == 0 || |recent| > RECENT_PACKETS_TO_KEEP)
      && (|recent| <= RECENT_PACKETS_TO_KEEP + 1 || sentCount == 0)
    }

    lemma HistoryIs(before: seq<OutPacket>, sentBefore: nat, op: OutPacket, dropped: nat)
      requires dropped <= |before| && recent == before[dropped..] + [op]
      requires sentCount == sentBefore - dropped
      requires dropped == 0 || |recent| - 1 >= RECENT_PACKETS_TO_KEEP
      requires |recent| - 1 <= RECENT_PACKETS_TO_KEEP || sentCount == 0
      ensures History(before, sentBefore, op, dropped)
    {
    }

    /** The packet is allocated in the current buffer, where there is room for it. */
    method AllocHere(length: Word, packId: Word) returns (op: OutPacket, ghost dropped: nat)
      requires Valid() && HEADER_SIZE <= length <= BUFFER_SIZE
      requires outBuf != null && outBuf.buf.data.Length == BUFFER_SIZE
      requires outBuf.buf.offset + length + length % 2 <= BUFFER_SIZE
      requires length % 2 == 1 ==> outBuf.buf.offset + length + 1 < BUFFER_SIZE
      modifies this`pending, this`recent, this`recentCount, this`sentCount, this`live, live`packetCount,
        outBuf.buf`offset, outBuf.buf.data
      ensures Valid() && fresh(op) && !op.sent && op.outBuf == outBuf
      ensures Flatten(pending) == old(Flatten(pending)) + [op]
      ensures Unsent() == old(Unsent()) + [op.Bytes()] && IsDraftOf(op.Bytes(), packId, length)
      ensures History(old(recent), old(sentCount), op, dropped)
    {
      hide *;
      Parts();
      CountedLast(live, queue, recent);
      op := new OutPacket(outBuf, outBuf.buf.offset, length + length % 2);

      Place(op, packId, length);
      dropped := Remember(op);
    }

    /** Whether a packet of `length` bytes can be allocated. */
    ghost predicate CanAlloc(length: Word, haveBuffer: bool, havePacket: bool)
      reads this`outBuf, (if outBuf == null then {} else {outBuf.buf})`offset
    {
      && HEADER_SIZE <= length <= BUFFER_SIZE && havePacket
      && (haveBuffer || (outBuf != null && outBuf.buf.offset + length + 1 < BUFFER_SIZE))
    }

    lemma RoomFor(length: Word, haveBuffer: bool, havePacket: bool)
      ensures CanAlloc(length, haveBuffer, havePacket) <==>
                && HEADER_SIZE <= length <= BUFFER_SIZE && havePacket
                && (haveBuffer || (outBuf != null && outBuf.buf.offset + length + 1 < BUFFER_SIZE))
    {
    }

    /** APB_AllocPacketWithId: a new draft behind all others, or nothing when the length is out of
        range or an allocation fails. */
    method AllocPacketWithId(length: Word, packId: Word, haveBuffer: bool, havePacket: bool)
      returns (r: Option<OutPacket>, ghost dropped: nat)
      requires Valid() && length != BUFFER_SIZE - 1
      modifies this`queue, this`outBuf, this`bufCount, this`pending, this`recent, this`recentCount,
        this`sentCount, this`live, live`packetCount, (if outBuf == null then {} else {outBuf.buf})`offset,
        if outBuf == null then {} else {outBuf.buf.data}
      ensures Valid()
      ensures r.Some? <==> old(CanAlloc(length, haveBuffer, havePacket))
      ensures r.None? ==> Unsent() == old(Unsent()) && recent == old(recent)
      ensures r.Some? ==>
                && fresh(r.value) && !r.value.sent && Flatten(pending) == old(Flatten(pending)) + [r.value]
                && r.value.outBuf == outBuf && (outBuf == old(outBuf) || fresh(outBuf.buf.data))
                && Unsent() == old(Unsent()) + [r.value.Bytes()] && IsDraftOf(r.value.Bytes(), packId, length)
                && History(old(recent), old(sentCount), r.value, dropped)
    {
      hide *;
      RoomFor(length, haveBuffer, havePacket);
      r, dropped := None, 0;
      if length > BUFFER_SIZE || length < HEADER_SIZE {
        return;
      }
      var ok := EnsureRoom(length, haveBuffer);
      if ok && havePacket {
        var op;
        op, dropped := AllocHere(length, packId);
        r := Some(op);
      }
    }

    /** APB_AllocPacket: with the next packet identifier, which is used up even when nothing is allocated. */
    method AllocPacket(length: Word, haveBuffer: bool, havePacket: bool)
      returns (r: Option<OutPacket>, ghost dropped: nat)
      requires Valid() && length != BUFFER_SIZE - 1
      modifies this`queue, this`outBuf, this`bufCount, this`pending, this`recent, this`recentCount,
        this`sentCount, this`live, live`packetCount, (if outBuf == null then {} else {outBuf.buf})`offset,
        (if outBuf == null then {} else {outBuf.buf.data}), this`nextPackId
      ensures Valid() && nextPackId == (old(nextPackId) + 1) % 0x1_0000
      ensures r.Some? <==> old(CanAlloc(length, haveBuffer, havePacket))
      ensures r.None? ==> Unsent() == old(Unsent()) && recent == old(recent)
      ensures r.Some? ==>
                && fresh(r.value) && !r.value.sent && Flatten(pending) == old(Flatten(pending)) + [r.value]
                && r.value.outBuf == outBuf && (outBuf == old(outBuf) || fresh(outBuf.buf.data))
                && Unsent() == old(Unsent()) + [r.value.Bytes()]
                && IsDraftOf(r.value.Bytes(), old(nextPackId), length)
                && History(old(recent), old(sentCount), r.value, dropped)
    {
      hide *;
      var packId := nextPackId;
      nextPackId := (nextPackId + 1) % 0x1_0000;
      r, dropped := AllocPacketWithId(length, packId, haveBuffer, havePacket);
    }

    /** The owner of an unsent packet fills it in. */
    method Compose(op: OutPacket, ghost i: nat, ptype: Byte, connId: Word, payload: seq<Byte>)
      requires Valid() && i < |Unsent()| && op == Flatten(pending)[i]
      requires |Unsent()[i]| >= HEADER_SIZE && |payload| == HeaderAt(Unsent()[i], 0).length
      modifies op.outBuf.buf.data
      ensures Valid() && HEADER_SIZE + |payload| <= |old(Unsent())[i]|
      ensures Unsent() == old(Unsent())[i := Drafts.Compose(old(Unsent())[i], ptype, connId, payload)]
      ensures FilledIn(old(op.Bytes()), op.Bytes(), ptype, connId, payload)
    {
      hide *;
      Parts();
      UnsentIs();
      ghost var ps := Flatten(pending);
      PendingAreDisjoint(queue, pending, recent, sentCount);
      DraftOf(BytesOf(ps), i, ptype, connId, payload);
      ComposeFillsIn(op.Bytes(), ptype, connId, payload);
      ComposePacket(ps, i, op, ptype, connId, payload);
      UnsentIs();
      Whole(recent);
    }

    static lemma DraftOf(fs: seq<seq<Byte>>, i: nat, ptype: Byte, connId: Word, payload: seq<Byte>)
      requires AllDrafts(fs) && i < |fs| && |fs[i]| >= HEADER_SIZE && |payload| == HeaderAt(fs[i], 0).length
      ensures IsDraft(fs[i]) && HEADER_SIZE + |payload| <= |fs[i]|
      ensures AllDrafts(fs[i := Drafts.Compose(fs[i], ptype, connId, payload)])
    {
      ComposedDraft(fs[i], ptype, connId, payload);
      hide Drafts.Compose;
    }

    /** In the unsent part of the history, the packets of the first buffer come first. */
    lemma HeadPackets()
      requires Valid() && queue != []
      ensures pending != [] && sentCount + |pending[0]| <= |recent|
      ensures forall i | sentCount <= i < |recent| ::
                recent[i].outBuf == queue[0] <==> i < sentCount + |pending[0]|
      ensures forall i | 0 <= i < |recent| :: recent[i].sent <==> i < sentCount
      ensures Flatten(pending) == recent[sentCount..] && pending[0] == Flatten(pending)[..|pending[0]|]
    {
      var head, others := pending[0], Flatten(pending[1..]);
      assert Flatten(pending) == head + others;
      FillBounds(head, queue[0], queue[0].offset, queue[0].buf.offset);
      forall i | sentCount <= i < |recent|
        ensures recent[i].outBuf == queue[0] <==> i < sentCount + |head|
      {
        var k := i - sentCount;
        assert recent[i] == Flatten(pending)[k];
        if k >= |head| {
          assert recent[i] == others[k - |head|];
          OtherBuffers(recent[i]);
        } else {
          assert recent[i] == head[k];
        }
      }
    }

    lemma OtherBuffers(p: OutPacket)
      requires Valid() && queue != [] && pending != [] && p in Flatten(pending[1..])
      ensures p.outBuf != queue[0]
    {
      InFlatten(pending[1..], p);
      var j :| 0 <= j < |pending[1..]| && p in pending[1..][j];
      assert p in pending[j + 1];
      FillBounds(pending[j + 1], queue[j + 1], queue[j + 1].offset, queue[j + 1].buf.offset);
    }

    /** From `k` on, exactly the next `n` packets are in buffer `ob`. */
    static ghost predicate InBufferFrom(recent: seq<OutPacket>, ob: OutBuffer, k: nat, n: nat) {
      forall i | k <= i < |recent| :: recent[i].outBuf == ob <==> i < k + n
    }

    static method MarkSent(ghost recent: seq<OutPacket>, ghost k: nat, op: OutPacket)
      requires Distinct(recent) && SentUpTo(recent, k) && k < |recent| && op == recent[k]
      modifies op`sent
      ensures SentUpTo(recent, k + 1)
    {
      op.sent := true;
    }

    /** One packet is stamped and marked as sent. */
    static method StampTurn(ghost recent: seq<OutPacket>, ghost k: nat, ghost ps: seq<OutPacket>,
                            ghost d: seq<seq<Byte>>, ghost m: nat, op: OutPacket)
      requires Disjoint(ps) && m < |ps| == |d| && op == ps[m] && AllDrafts(d)
      requires Distinct(recent) && SentUpTo(recent, k) && k < |recent| && op == recent[k]
      requires BytesOf(ps) == StampFirst(d, m)
      modifies op`sent, op.outBuf.buf.data
      ensures SentUpTo(recent, k + 1) && BytesOf(ps) == StampFirst(d, m + 1)
    {
      hide *;
      StampNext(d, m);
      DraftAt(d, m);
      StampPacket(ps, m, op);
      MarkSent(recent, k, op);
    }

    /** Whether it is the turn of packet `i`, when `m` of the `n` packets have been stamped. */
    static lemma WhoseTurn(recent: seq<OutPacket>, ob: OutBuffer, k: nat, n: nat, i: nat, m: nat)
      requires SentUpTo(recent, k + m) && InBufferFrom(recent, ob, k, n) && i < |recent| && m <= n
      requires if i <= k then m == 0 else if i <= k + n then m == i - k else m == n
      ensures recent[i].outBuf == ob && !recent[i].sent <==> k <= i < k + n
    {
    }

    /** The stamping loop of APB_WriteBuffer: of the unsent packets, which start at `k` in the history,
        the first `n` are in buffer `ob`. */
    static method StampLoop(recent: seq<OutPacket>, ob: OutBuffer, ghost ps: seq<OutPacket>,
                            ghost d: seq<seq<Byte>>, ghost k: nat, ghost n: nat)
      requires Disjoint(ps) && AllDrafts(d) && BytesOf(ps) == d && n <= |ps| == |d|
      requires k <= |recent| && ps == recent[k..] && Distinct(recent)
      requires InBufferFrom(recent, ob, k, n) && SentUpTo(recent, k)
      modifies recent`sent, ob.buf.data
      ensures BytesOf(ps) == StampFirst(d, n) && SentUpTo(recent, k + n)
    {
      hide *;
      ghost var m := 0;
      StampNone(d);
      for i := 0 to |recent|
        invariant m <= n && (if i <= k then m == 0 else if i <= k + n then m == i - k else m == n)
        invariant SentUpTo(recent, k + m)
        invariant BytesOf(ps) == StampFirst(d, m)
      {
        WhoseTurn(recent, ob, k, n, i, m);
        if recent[i].outBuf == ob && !recent[i].sent {
          StampTurn(recent, k + m, ps, d, m, recent[i]);
          m := m + 1;
        }
      }
    }

    lemma HeadFacts()
      requires Valid() && queue != []
      ensures pending != [] && sentCount + |pending[0]| <= |recent| && Flatten(pending) == recent[sentCount..]
      ensures InBufferFrom(recent, queue[0], sentCount, |pending[0]|) && SentUpTo(recent, sentCount)
      ensures AllDrafts(Unsent()) && Distinct(recent) && Unsent() == BytesOf(Flatten(pending))
      ensures Disjoint(Flatten(pending))
    {
      HeadPackets();
      PendingAreDisjoint(queue, pending, recent, sentCount);
    }

    /** Stamps the unsent packets in the first buffer of the queue. */
    method StampHead()
      requires Valid() && queue != []
      modifies recent`sent, queue[0].buf.data
      ensures pending != [] && |pending[0]| <= |old(Unsent())|
      ensures BytesOf(Flatten(pending)) == StampFirst(old(Unsent()), |pending[0]|)
      ensures SentUpTo(recent, sentCount + |pending[0]|)
    {
      hide *;
      HeadFacts();
      StampLoop(recent, queue[0], Flatten(pending), Unsent(), sentCount, |pending[0]|);
    }

    static lemma StampNone(d: seq<seq<Byte>>)
      ensures StampFirst(d, 0) == d
    {
      assert d[..0] == [];
    }

    static lemma DraftAt(d: seq<seq<Byte>>, m: nat)
      requires AllDrafts(d) && m < |d|
      ensures IsDraft(d[m])
    {
    }

    /** What has not been written of the first buffer is stamped and written. */
    method SendHead(remote: Remote)
      requires Valid() && queue != []
      modifies remote, recent`sent, queue[0].buf.data, queue[..1]`offset, this`pending, this`sentCount,
        this`sentFrames
      ensures Valid() && old(pending) != [] && |old(pending[0])| <= |old(Unsent())|
      ensures pending == HeadSent(old(pending)) && queue[0].offset == queue[0].buf.offset
      ensures var n, d := |old(pending[0])|, old(Unsent());
              && Unsent() == d[n..] && sentFrames == old(sentFrames) + Stamps(d[..n])
              && remote.wire == old(remote.wire) + Flatten(Stamps(d[..n]))
    {
      hide *;
      Parts();
      UnsentIs();
      HeadPackets();
      HistoryDistinct();
      ghost var d := Unsent();
      StampHead();
      HistorySent(recent, sentCount, pending);
      PutOnWire(remote, d);
    }

    /** The stamped packets of the first buffer are written. */
    method PutOnWire(remote: Remote, ghost d: seq<seq<Byte>>)
      requires QueueFits(queue) && Filled(queue, pending) && Counted(live, queue, recent) && queue != []
      requires AllDrafts(d) && AllWellFormed(sentFrames) && recentCount == |recent| && bufCount == |queue|
      requires outBuf == queue[|queue| - 1] && pending != [] && |pending[0]| <= |d|
      requires BytesOf(Flatten(pending)) == StampFirst(d, |pending[0]|)
      requires HistoryFits(recent, sentCount + |pending[0]|, HeadSent(pending))
      modifies remote, queue[..1]`offset, this`pending, this`sentCount, this`sentFrames
      ensures Valid() && pending == HeadSent(old(pending)) && queue[0].offset == queue[0].buf.offset
      ensures var n := |old(pending[0])|;
              && Unsent() == d[n..] && sentFrames == old(sentFrames) + Stamps(d[..n])
              && remote.wire == old(remote.wire) + Flatten(Stamps(d[..n]))
    {
      hide *;
      var ob := queue[0];
      ghost var n := |pending[0]|;
      HeadBytes(queue, pending, d);
      TailBytes(pending, d);
      InHistory(recent, sentCount + n, HeadSent(pending));
      MoreSent(sentFrames, d, n);
      remote.Write(ob.buf.data, ob.offset, ob.buf.offset - ob.offset);
      MarkWritten(queue, pending, ob);
      pending, sentCount, sentFrames := HeadSent(pending), sentCount + n, sentFrames + Stamps(d[..n]);
      UnsentIs();
      Whole(recent);
    }

    static lemma InHistory(recent: seq<OutPacket>, sentCount: nat, pending: seq<seq<OutPacket>>)
      requires HistoryFits(recent, sentCount, pending)
      ensures forall p | p in Flatten(pending) :: p in recent
    {
    }

    lemma HistoryDistinct()
      requires HistoryFits(recent, sentCount, pending)
      ensures Distinct(recent)
    {
    }

    static lemma MoreSent(sent: seq<seq<Byte>>, d: seq<seq<Byte>>, n: nat)
      requires AllWellFormed(sent) && AllDrafts(d) && n <= |d|
      ensures AllWellFormed(sent + Stamps(d[..n])) && AllDrafts(d[n..])
    {
      hide IsDraft, WellFormed, Stamps;
      StampedDrafts(d[..n]);
    }

    /** What one call puts on the wire: the first `n` unsent packets, stamped. */
    static ghost predicate Sent(n: nat, d: seq<seq<Byte>>, before: seq<seq<Byte>>, wire: seq<Byte>,
                                d': seq<seq<Byte>>, after: seq<seq<Byte>>, wire': seq<Byte>)
    {
      && n <= |d| && d' == d[n..] && after == before + Stamps(d[..n])
      && wire' == wire + Flatten(Stamps(d[..n]))
    }

    static lemma NothingSent(d: seq<seq<Byte>>, before: seq<seq<Byte>>, wire: seq<Byte>)
      ensures Sent(0, d, before, wire, d, before, wire)
    {
      assert d[..0] == [] && Stamps([]) == [];
      assert before + [] == before && wire + [] == wire;
    }

    /** The writing half of APB_WriteBuffer. */
    method SendPending(remote: Remote)
      requires Valid() && queue != []
      modifies remote, recent`sent, queue[0].buf.data, queue[..1]`offset, this`pending, this`sentCount,
        this`sentFrames
      ensures Valid() && old(pending) != []
      ensures pending == HeadSent(old(pending)) && queue[0].offset == queue[0].buf.offset
      ensures Sent(|old(pending[0])|, old(Unsent()), old(sentFrames), old(remote.wire), Unsent(), sentFrames,
                   remote.wire)
    {
      Parts();
      NothingPending(queue, pending);
      QueuedBuffer(queue, 0);
      hide QueueFits, Filled, HistoryFits, Counted, AllDrafts, AllWellFormed, Flatten, BytesOf, Stamps, Valid,
        Unsent;
      if queue[0].offset < queue[0].buf.offset {
        SendHead(remote);
      } else {
        NothingSent(Unsent(), sentFrames, remote.wire);
        assert pending[0 := []] == pending;
      }
    }

    /** The queueing half of APB_WriteBuffer. */
    method RetireHead()
      requires Valid() && queue != [] && pending != [] && pending[0] == []
      modifies queue[..1]`canRelease, this`queue, this`bufCount, this`pending
      ensures Valid() && Unsent() == old(Unsent())
      ensures pending == if |old(queue)| > 1 then old(pending)[1..] else old(pending)
    {
      hide *;
      Parts();
      if bufCount > 1 {
        UnsentIs();
        Retire(live, queue, pending, recent, queue[0]);
        SameHistory(recent, sentCount, pending, pending[1..]);
        queue, bufCount, pending := queue[1..], bufCount - 1, pending[1..];
        UnsentIs();
        Whole(recent);
      }
    }

    lemma AsMany()
      requires Valid()
      ensures |pending| == |queue|
    {
    }

    /** APB_WriteBuffer when the queue is not empty. */
    method WriteHead(remote: Remote)
      requires Valid() && queue != []
      modifies remote, recent`sent, queue[0].buf.data, queue[..1]`offset, queue[..1]`canRelease,
        this`queue, this`bufCount, this`pending, this`sentCount, this`sentFrames
      ensures Valid() && old(pending) != [] && pending == AfterWrite(old(pending))
      ensures Sent(|old(pending[0])|, old(Unsent()), old(sentFrames), old(remote.wire), Unsent(), sentFrames,
                   remote.wire)
    {
      hide *;
      AsMany();
      ghost var was, d, frames, wire := pending, Unsent(), sentFrames, remote.wire;
      HeadIsSent(was);
      SendPending(remote);
      assert Sent(|was[0]|, d, frames, wire, Unsent(), sentFrames, remote.wire);
      RetireHead();
      AfterWriteIs(was);
    }

    /** APB_WriteBuffer: the packets of the first buffer that have not been sent are stamped and written
        in order, and the buffer leaves the queue if it is not the only one. */
    method WriteBuffer(remote: Remote) returns (ghost n: nat)
      requires Valid()
      modifies remote, recent`sent, queue`offset, queue`canRelease, set b | b in queue :: b.buf.data,
        this`queue, this`bufCount, this`pending, this`sentCount, this`sentFrames
      ensures Valid() && recent == old(recent) && outBuf == old(outBuf)
      ensures pending == AfterWrite(old(pending))
      ensures n == if old(pending) == [] then 0 else |old(pending[0])|
      ensures Sent(n, old(Unsent()), old(sentFrames), old(remote.wire), Unsent(), sentFrames, remote.wire)
    {
      AsMany();
      assert AfterWrite([]) == [];
      hide *;
      n := if pending == [] then 0 else |pending[0]|;
      if queue == [] {
        NothingSent(Unsent(), sentFrames, remote.wire);
      } else {
        WriteHead(remote);
      }
    }
  }
}
