/** A DOS write from the time it is issued to its answer, while writes come back and the handler responds to the
    chunks of this and other packets in any interleaving. */
module WriteRun {
  import opened Memory
  import opened FsPipeline

  /** The chunks of a packet that have not been answered yet, in order. */
  ghost function Pending(jobs: seq<Job>, pkt: DosPacket): seq<Chunk> {
    if jobs == [] then []
    else
      var last := jobs[|jobs| - 1];
      Pending(jobs[..|jobs| - 1], pkt) + if last.pkt == pkt then [last.chunk] else []
  }

  lemma {:induction false} PendingConcat(a: seq<Job>, b: seq<Job>, pkt: DosPacket)
    ensures Pending(a + b, pkt) == Pending(a, pkt) + Pending(b, pkt)
  {
    if b == [] {
      assert a + b == a;
    } else {
      assert (a + b)[..|a + b| - 1] == a + b[..|b| - 1];
      PendingConcat(a, b[..|b| - 1], pkt);
    }
  }

  lemma PendingOne(job: Job, pkt: DosPacket)
    ensures Pending([job], pkt) == if job.pkt == pkt then [job.chunk] else []
  {
    assert Pending([job][..0], pkt) == [];
  }

  lemma {:induction false} PendingOwn(pkt: DosPacket, chunks: seq<Chunk>)
    ensures Pending(JobsFor(pkt, chunks), pkt) == chunks
  {
    var jobs := JobsFor(pkt, chunks);
    if chunks != [] {
      var n := |chunks| - 1;
      assert jobs[..n] == JobsFor(pkt, chunks[..n]);
      PendingOwn(pkt, chunks[..n]);
    }
  }

  lemma {:induction false} PendingNone(jobs: seq<Job>, pkt: DosPacket)
    requires forall i | 0 <= i < |jobs| :: jobs[i].pkt != pkt
    ensures Pending(jobs, pkt) == []
  {
    if jobs != [] {
      PendingNone(jobs[..|jobs| - 1], pkt);
    }
  }

  /** Taking job `i` away, the first one of its packet, takes the first pending chunk of that packet away, and
      leaves all other packets alone. */
  lemma PendingWithout(jobs: seq<Job>, i: nat, pkt: DosPacket)
    requires i < |jobs| && (jobs[i].pkt == pkt ==> forall j | 0 <= j < i :: jobs[j].pkt != pkt)
    ensures var rest := jobs[..i] + jobs[i + 1..];
            Pending(jobs, pkt) == (if jobs[i].pkt == pkt then [jobs[i].chunk] else []) + Pending(rest, pkt)
  {
    hide Pending;
    var before, one, behind := jobs[..i], [jobs[i]], jobs[i + 1..];
    assert jobs == before + one + behind;
    PendingOfThree(before, one, behind, pkt);
    PendingOne(jobs[i], pkt);
    if jobs[i].pkt == pkt {
      PendingNone(before, pkt);
    }
  }

  lemma PendingOfThree(a: seq<Job>, b: seq<Job>, c: seq<Job>, pkt: DosPacket)
    ensures Pending(a + b + c, pkt) == Pending(a, pkt) + Pending(b, pkt) + Pending(c, pkt)
    ensures Pending(a + c, pkt) == Pending(a, pkt) + Pending(c, pkt)
  {
    PendingConcat(a + b, c, pkt);
    PendingConcat(a, b, pkt);
    PendingConcat(a, c, pkt);
  }

  /** A full acknowledgement; the handler marks the chunk with nothing left behind it as the last. */
  function AckOf(chunk: Chunk): Response
    requires |chunk.data| < 0x1_0000_0000
  {
    Response(|chunk.data|, if chunk.arg3 == 0 then 0xFFFF_FFFF else 0)
  }

  /** The number of bytes of a write. */
  function Size(pkt: DosPacket): nat {
    if pkt.bytes > 0 then pkt.bytes else 0
  }

  predicate Writable(pkt: DosPacket) {
    pkt.bytes <= |pkt.source| && pkt.bytes < 0x8000_0000
  }

  /** Where the acknowledgements begin: at byte `at`, when the packet has `res1` as its count and has been given
      the answers `before`. */
  datatype Start = Start(at: nat, res1: Long, before: seq<Answer>)

  const ISSUED := Start(0, 0, [])

  /** The count of the packet when the bytes up to number `k` have been acknowledged. */
  function CountAt(s: Start, k: nat): Long
    requires s.at <= k
  {
    (s.res1 + k - s.at) % 0x1_0000_0000
  }

  /** Of the write of a packet, the bytes from where `s` begins up to number `k` have been acknowledged and
      counted; exactly when the last one is among them, the packet has been answered again, with the count. */
  ghost predicate Acknowledged(pkt: DosPacket, jobs: seq<Job>, k: nat, s: Start)
    reads pkt
  {
    && Writable(pkt) && s.at <= k <= Size(pkt) && pkt.res1 == CountAt(s, k)
    && Pending(jobs, pkt) == ApbFs.ChunksFrom(pkt, k)
    && pkt.answers == s.before + if s.at < k == Size(pkt) then [Answer(pkt.res1, 0)] else []
  }

  /** The next chunk of the packet is acknowledged. */
  lemma NextAcknowledged(pkt: DosPacket, k: nat, p: Progress)
    requires Writable(pkt) && k < Size(pkt)
    ensures var chunks := ApbFs.ChunksFrom(pkt, k);
            && chunks != [] && 0 < |chunks[0].data| <= MAX_WRITE_LEN
            && var k' := k + |chunks[0].data|;
            && k' <= Size(pkt) && ApbFs.ChunksFrom(pkt, k') == chunks[1..] && chunks[0].arg3 == Size(pkt) - k'
            && var p' := Reply(p, AckOf(chunks[0]));
            && p'.res1 == (p.res1 + |chunks[0].data|) % 0x1_0000_0000
            && p'.answers == p.answers + if k' == Size(pkt) then [Answer(p'.res1, 0)] else []
  {
    var n := if pkt.bytes - k > MAX_WRITE_LEN then MAX_WRITE_LEN else pkt.bytes - k;
    ApbFs.NextChunk(pkt, k, n);
    hide Chunks, ApbFs.ChunksFrom;
  }

  lemma CountOn(s: Start, k: nat, n: nat)
    requires s.at <= k
    ensures (CountAt(s, k) + n) % 0x1_0000_0000 == CountAt(s, k + n)
  {
  }

  /** Responding to job `i`, the first one of the packet, leaves one pending chunk less. */
  lemma NextChunkOf(pkt: DosPacket, jobs: seq<Job>, i: nat, k: nat, s: Start) returns (n: nat)
    requires Acknowledged(pkt, jobs, k, s) && i < |jobs|
    requires jobs[i].pkt == pkt && forall j | 0 <= j < i :: jobs[j].pkt != pkt
    ensures n == |jobs[i].chunk.data| && 0 < n < 0x1_0000_0000 && s.at < k + n <= Size(pkt) && Writable(pkt)
    ensures jobs[i].chunk.arg3 == Size(pkt) - (k + n) && pkt.State().answers == s.before
    ensures Pending(jobs[..i] + jobs[i + 1..], pkt) == ApbFs.ChunksFrom(pkt, k + n)
    ensures var p' := Reply(pkt.State(), AckOf(jobs[i].chunk));
            && p'.res1 == CountAt(s, k + n)
            && p'.answers == s.before + if s.at < k + n == Size(pkt) then [Answer(p'.res1, 0)] else []
  {
    assert MAX_WRITE_LEN == 512;
    hide *;
    var rest, p := Pending(jobs[..i] + jobs[i + 1..], pkt), pkt.State();
    AcknowledgedParts(pkt, jobs, k, s);
    PendingWithout(jobs, i, pkt);
    HeadAndTail(ApbFs.ChunksFrom(pkt, k), jobs[i].chunk, rest);
    Unfinished(pkt, jobs, k, s);
    NextAcknowledged(pkt, k, p);
    n := |jobs[i].chunk.data|;
    CountOn(s, k, n);
  }

  lemma HeadAndTail<T>(a: seq<T>, x: T, rest: seq<T>)
    requires a == [x] + rest
    ensures a != [] && a[0] == x && a[1..] == rest
  {
  }

  /** A chunk is acknowledged in full, the oldest one of its packet that has not been. */
  method Acknowledge(fs: ApbFs, i: nat, r: Response, ghost pkt: DosPacket, ghost k: nat, ghost s: Start)
    returns (ghost k': nat)
    requires fs.Valid() && i < |fs.sentQueue| <= |fs.underway| && Acknowledged(pkt, fs.underway, k, s)
    requires fs.underway[i].pkt == pkt && forall j | 0 <= j < i :: fs.underway[j].pkt != pkt
    requires |fs.underway[i].chunk.data| < 0x1_0000_0000 && r == AckOf(fs.underway[i].chunk)
    modifies fs`sentQueue, fs`underway, pkt
    ensures fs.Valid() && Acknowledged(pkt, fs.underway, k', s) && k' > k
    ensures old(|fs.underway|) > i && fs.underway == old(fs.underway[..i] + fs.underway[i + 1..])
  {
    hide *;
    SentJob(fs, i);
    ghost var n := NextChunkOf(pkt, fs.underway, i, k, s);
    k' := k + n;
    fs.ReceiveResponse(i, r);
    AcknowledgedNow(pkt, fs.underway, k', s);
  }

  /** A chunk fails, the oldest one of its packet that has not been responded to: the packet is answered at
      once, with the error. What is acknowledged from then on is counted on top of it. */
  method Fail(fs: ApbFs, i: nat, r: Response, ghost pkt: DosPacket, ghost k: nat, ghost s: Start)
    returns (ghost k': nat)
    requires fs.Valid() && i < |fs.sentQueue| <= |fs.underway| && Acknowledged(pkt, fs.underway, k, s)
    requires fs.underway[i].pkt == pkt && forall j | 0 <= j < i :: fs.underway[j].pkt != pkt
    requires r.res2 != 0 && r.res2 != 0xFFFF_FFFF
    modifies fs`sentQueue, fs`underway, pkt
    ensures old(pkt.answers) == s.before && pkt.answers == s.before + [Answer(r.res1, r.res2)]
    ensures pkt.res1 == r.res1 && pkt.res2 == r.res2
    ensures fs.Valid() && Acknowledged(pkt, fs.underway, k', Start(k', r.res1, pkt.answers)) && k' > k
    ensures old(|fs.underway|) > i && fs.underway == old(fs.underway[..i] + fs.underway[i + 1..])
    ensures old(fs.underway[i].chunk).arg3 == Size(pkt) - k'
  {
    hide *;
    SentJob(fs, i);
    ghost var n := NextChunkOf(pkt, fs.underway, i, k, s);
    ReplyOfFailure(pkt.State(), r);
    StateIs(pkt);
    k' := k + n;
    fs.ReceiveResponse(i, r);
    StateIs(pkt);
    Begins(pkt, fs.underway, k');
  }

  /** Nothing has been acknowledged yet behind byte number `k`. */
  lemma Begins(pkt: DosPacket, jobs: seq<Job>, k: nat)
    requires Writable(pkt) && k <= Size(pkt) && Pending(jobs, pkt) == ApbFs.ChunksFrom(pkt, k)
    ensures Acknowledged(pkt, jobs, k, Start(k, pkt.res1, pkt.answers))
  {
    hide Pending, ApbFs.ChunksFrom, Size;
    assert pkt.answers + [] == pkt.answers;
  }

  lemma StateIs(pkt: DosPacket)
    ensures pkt.State() == Progress(pkt.res1, pkt.res2, pkt.answers)
  {
  }

  /** A response of any kind to a chunk of another packet. */
  method RespondElsewhere(fs: ApbFs, i: nat, r: Response, ghost pkt: DosPacket, ghost k: nat, ghost s: Start)
    requires fs.Valid() && i < |fs.sentQueue| <= |fs.underway| && Acknowledged(pkt, fs.underway, k, s)
    requires fs.underway[i].pkt != pkt
    modifies fs`sentQueue, fs`underway, fs.sentQueue[i].pkt
    ensures fs.Valid() && Acknowledged(pkt, fs.underway, k, s)
    ensures old(|fs.underway|) > i && fs.underway == old(fs.underway[..i] + fs.underway[i + 1..])
  {
    hide *;
    SentJob(fs, i);
    PendingWithout(fs.underway, i, pkt);
    AcknowledgedParts(pkt, fs.underway, k, s);
    fs.ReceiveResponse(i, r);
    AcknowledgedNow(pkt, fs.underway, k, s);
  }

  lemma SentJob(fs: ApbFs, i: nat)
    requires fs.Valid() && i < |fs.sentQueue|
    ensures |fs.underway| == |fs.sentQueue| + |fs.reqQueue| && fs.underway[i].pkt == fs.sentQueue[i].pkt
    ensures var req := fs.sentQueue[i];
            req.length <= req.data.Length && fs.underway[i].chunk == req.Value()
  {
    JobIs(fs.underway, fs.sentQueue + fs.reqQueue, i);
  }

  lemma SentJobs(fs: ApbFs, i: nat)
    requires fs.Valid() && i < |fs.sentQueue|
    ensures |fs.underway| == |fs.sentQueue| + |fs.reqQueue|
    ensures forall j | 0 <= j <= i :: fs.underway[j].pkt == fs.sentQueue[j].pkt
    ensures var req := fs.sentQueue[i];
            req.length <= req.data.Length && fs.underway[i].chunk == req.Value()
  {
    forall j | 0 <= j <= i ensures |fs.underway| > j && fs.underway[j].pkt == fs.sentQueue[j].pkt {
      SentJob(fs, j);
    }
    SentJob(fs, i);
  }

  lemma AckIs(req: FsRequest)
    requires req.length <= req.data.Length
    ensures |req.Value().data| == req.length < 0x1_0000_0000
    ensures AckOf(req.Value()) == Response(req.length, if req.arg3 == 0 then 0xFFFF_FFFF else 0)
  {
  }

  /** The write that has just been issued. */
  lemma Issued(pkt: DosPacket, before: seq<Job>, jobs: seq<Job>)
    requires Writable(pkt) && pkt.answers == [] && pkt.res1 == 0 && Pending(before, pkt) == []
    requires jobs == before + JobsFor(pkt, ApbFs.ChunksFrom(pkt, 0))
    ensures Acknowledged(pkt, jobs, 0, ISSUED)
    ensures forall j | 0 <= j < |jobs| :: jobs[j].pkt == pkt || (j < |before| && jobs[j] == before[j])
  {
    assert ISSUED == Start(0, 0, []);
    hide *;
    var chunks := ApbFs.ChunksFrom(pkt, 0);
    JobsAdded(pkt, before, chunks);
    PendingConcat(before, JobsFor(pkt, chunks), pkt);
    PendingOwn(pkt, chunks);
    Begins(pkt, jobs, 0);
  }

  lemma JobsAdded(pkt: DosPacket, before: seq<Job>, chunks: seq<Chunk>)
    ensures var jobs := before + JobsFor(pkt, chunks);
            forall j | 0 <= j < |jobs| :: jobs[j].pkt == pkt || (j < |before| && jobs[j] == before[j])
  {
  }

  lemma AnsweredInTheEnd(pkt: DosPacket, jobs: seq<Job>, k: nat, s: Start)
    requires Acknowledged(pkt, jobs, k, s)
    ensures Pending(jobs, pkt) != [] ==> pkt.answers == s.before
    ensures Pending(jobs, pkt) == [] ==>
              pkt.answers == s.before
                             + if s.at < Size(pkt) then [Answer(CountAt(s, Size(pkt)), 0)] else []
  {
    if k < Size(pkt) {
      NextAcknowledged(pkt, k, pkt.State());
    } else {
      ApbFs.NoChunks(pkt, k);
    }
  }

  lemma SizeIs(pkt: DosPacket)
    requires Writable(pkt)
    ensures Size(pkt) == if pkt.bytes > 0 then pkt.bytes else 0
    ensures Size(pkt) % 0x1_0000_0000 == Size(pkt)
  {
  }

  lemma WrittenInTheEnd(pkt: DosPacket, jobs: seq<Job>, k: nat)
    requires Acknowledged(pkt, jobs, k, ISSUED)
    ensures Pending(jobs, pkt) != [] ==> pkt.answers == []
    ensures Pending(jobs, pkt) == [] ==> pkt.answers == if pkt.bytes > 0 then [Answer(pkt.bytes, 0)] else []
  {
    AnsweredInTheEnd(pkt, jobs, k, ISSUED);
    SizeIs(pkt);
    hide Acknowledged, Pending, Size;
  }

  lemma Unfinished(pkt: DosPacket, jobs: seq<Job>, k: nat, s: Start)
    requires Acknowledged(pkt, jobs, k, s) && Pending(jobs, pkt) != []
    ensures k < Size(pkt)
  {
  }

  lemma AcknowledgedParts(pkt: DosPacket, jobs: seq<Job>, k: nat, s: Start)
    requires Acknowledged(pkt, jobs, k, s)
    ensures Writable(pkt) && s.at <= k <= Size(pkt) && pkt.State().res1 == CountAt(s, k)
    ensures Pending(jobs, pkt) == ApbFs.ChunksFrom(pkt, k) && pkt.State() == Progress(pkt.res1, pkt.res2, pkt.answers)
    ensures pkt.State().answers == s.before + if s.at < k == Size(pkt) then [Answer(pkt.State().res1, 0)] else []
    ensures k < Size(pkt) ==> pkt.State().answers == s.before
  {
  }

  lemma AcknowledgedNow(pkt: DosPacket, jobs: seq<Job>, k: nat, s: Start)
    requires Writable(pkt) && s.at <= k <= Size(pkt) && pkt.State().res1 == CountAt(s, k)
    requires Pending(jobs, pkt) == ApbFs.ChunksFrom(pkt, k)
    requires pkt.State().answers == s.before + if s.at < k == Size(pkt) then [Answer(pkt.State().res1, 0)] else []
    ensures Acknowledged(pkt, jobs, k, s)
  {
  }

  /** What happens while a write is under way: the write on its way comes back, or the handler responds to one
      of the chunks written. */
  datatype Happening = Returned | Responded(i: nat, r: Response)

  /** A write is issued, and then any number of things happen: writes come back, the handler responds in any
      way to chunks of other packets, and acknowledges chunks of this one in full, oldest first; whatever
      else the list names does not happen. However they are interleaved, the packet is not answered before its
      last chunk has been acknowledged, and then it has been answered exactly once, with the number of its
      bytes. Only a write of no bytes is never answered. */
  method Write(fs: ApbFs, pkt: DosPacket, events: seq<Happening>) returns (ghost k: nat)
    requires fs.Valid() && Writable(pkt) && pkt.answers == [] && Pending(fs.underway, pkt) == []
    modifies fs, pkt, set job | job in fs.underway :: job.pkt
    ensures fs.Valid() && Acknowledged(pkt, fs.underway, k, ISSUED)
    ensures Pending(fs.underway, pkt) != [] ==> pkt.answers == []
    ensures Pending(fs.underway, pkt) == [] ==>
              pkt.answers == if pkt.bytes > 0 then [Answer(pkt.bytes, 0)] else []
  {
    ghost var pkts := {pkt} + set job | job in fs.underway :: job.pkt;
    hide *;
    Issue(fs, pkt, pkts);
    k := GoOn(fs, pkt, events, pkts, 0, ISSUED);
    WrittenInTheEnd(pkt, fs.underway, k);
  }

  /** The answers when a chunk with `left` bytes behind it has failed and all others have been acknowledged. */
  predicate AnsweredFailure(answers: seq<Answer>, r: Response, left: nat) {
    && (|answers| == 1 <==> left == 0)
    && answers == [Answer(r.res1, r.res2)]
                  + if left > 0 then [Answer((r.res1 + left) % 0x1_0000_0000, 0)] else []
  }

  /** The first failure of such a write: the chunk of request `i`, the oldest one of the packet that has not been
      responded to, fails. The packet is answered with the error, and with nothing else for as long as chunks
      are left. But it is the only answer if and only if no bytes were left behind that chunk: when the chunks
      behind it have been acknowledged as well, the packet is answered again. */
  method WriteFails(fs: ApbFs, pkt: DosPacket, i: nat, r: Response, later: seq<Happening>, ghost k0: nat)
    requires fs.Valid() && Acknowledged(pkt, fs.underway, k0, ISSUED) && i < |fs.sentQueue|
    requires fs.sentQueue[i].pkt == pkt && forall j | 0 <= j < i :: fs.sentQueue[j].pkt != pkt
    requires r.res2 != 0 && r.res2 != 0xFFFF_FFFF
    modifies fs, pkt, set job | job in fs.underway :: job.pkt
    ensures fs.Valid()
    ensures Pending(fs.underway, pkt) != [] ==> pkt.answers == [Answer(r.res1, r.res2)]
    ensures Pending(fs.underway, pkt) == [] ==> AnsweredFailure(pkt.answers, r, old(fs.sentQueue[i].arg3))
  {
    ghost var pkts := {pkt} + set job | job in fs.underway :: job.pkt;
    assert ISSUED.before == [];
    hide *;
    ghost var left := fs.sentQueue[i].arg3;
    ghost var at := FailSent(fs, i, r, pkt, pkts, k0, ISSUED);
    ghost var s := Start(at, r.res1, pkt.answers);
    ghost var k := GoOn(fs, pkt, later, pkts, at, s);
    FailedInTheEnd(pkt, fs.underway, k, s, r, left);
  }

  method FailSent(fs: ApbFs, i: nat, r: Response, pkt: DosPacket, ghost pkts: set<DosPacket>, ghost k: nat,
                  ghost s: Start)
    returns (ghost k': nat)
    requires fs.Valid() && Acknowledged(pkt, fs.underway, k, s) && i < |fs.sentQueue|
    requires fs.sentQueue[i].pkt == pkt && forall j | 0 <= j < i :: fs.sentQueue[j].pkt != pkt
    requires forall j | 0 <= j < |fs.underway| :: fs.underway[j].pkt in pkts
    requires r.res2 != 0 && r.res2 != 0xFFFF_FFFF
    modifies fs`sentQueue, fs`underway, pkt
    ensures fs.Valid() && Acknowledged(pkt, fs.underway, k', Start(k', r.res1, pkt.answers))
    ensures pkt.answers == s.before + [Answer(r.res1, r.res2)] && old(fs.sentQueue[i].arg3) == Size(pkt) - k'
    ensures forall j | 0 <= j < |fs.underway| :: fs.underway[j].pkt in pkts
  {
    hide *;
    SentJobs(fs, i);
    ChunkLeft(fs.sentQueue[i]);
    ghost var jobs := fs.underway;
    k' := Fail(fs, i, r, pkt, k, s);
    OneLess(jobs, i, fs.underway, pkts);
  }

  lemma FailedInTheEnd(pkt: DosPacket, jobs: seq<Job>, k: nat, s: Start, r: Response, left: nat)
    requires Acknowledged(pkt, jobs, k, s) && left == Size(pkt) - s.at
    requires s.res1 == r.res1 && s.before == [Answer(r.res1, r.res2)]
    ensures Pending(jobs, pkt) != [] ==> pkt.answers == [Answer(r.res1, r.res2)]
    ensures Pending(jobs, pkt) == [] ==> AnsweredFailure(pkt.answers, r, left)
  {
    AnsweredInTheEnd(pkt, jobs, k, s);
    hide Acknowledged, Pending, Size;
  }

  lemma ChunkLeft(req: FsRequest)
    requires req.length <= req.data.Length
    ensures req.Value().arg3 == req.arg3
  {
  }

  method Issue(fs: ApbFs, pkt: DosPacket, ghost pkts: set<DosPacket>)
    requires fs.Valid() && Writable(pkt) && pkt.answers == [] && Pending(fs.underway, pkt) == []
    requires pkt in pkts && forall j | 0 <= j < |fs.underway| :: fs.underway[j].pkt in pkts
    modifies fs, pkt`res1
    ensures fs.Valid() && Acknowledged(pkt, fs.underway, 0, ISSUED)
    ensures forall j | 0 <= j < |fs.underway| :: fs.underway[j].pkt in pkts
  {
    assert pkt.bytes <= |pkt.source| && pkt.bytes < 0x8000_0000;
    hide *;
    ghost var before := fs.underway;
    fs.ActionWrite(pkt);
    Issued(pkt, before, fs.underway);
  }

  /** Any number of things happen. */
  method GoOn(fs: ApbFs, pkt: DosPacket, events: seq<Happening>, ghost pkts: set<DosPacket>, ghost k0: nat,
              ghost s: Start)
    returns (ghost k: nat)
    requires fs.Valid() && Acknowledged(pkt, fs.underway, k0, s) && pkt in pkts
    requires forall j | 0 <= j < |fs.underway| :: fs.underway[j].pkt in pkts
    modifies fs, pkts
    ensures fs.Valid() && Acknowledged(pkt, fs.underway, k, s)
    ensures forall j | 0 <= j < |fs.underway| :: fs.underway[j].pkt in pkts
  {
    hide *;
    k := k0;
    for n := 0 to |events|
      invariant fs.Valid() && Acknowledged(pkt, fs.underway, k, s)
      invariant forall j | 0 <= j < |fs.underway| :: fs.underway[j].pkt in pkts
    {
      k := Happen(fs, pkt, events[n], pkts, k, s);
    }
  }

  method Happen(fs: ApbFs, pkt: DosPacket, e: Happening, ghost pkts: set<DosPacket>, ghost k: nat, ghost s: Start)
    returns (ghost k': nat)
    requires fs.Valid() && Acknowledged(pkt, fs.underway, k, s) && pkt in pkts
    requires forall j | 0 <= j < |fs.underway| :: fs.underway[j].pkt in pkts
    modifies fs, pkts
    ensures fs.Valid() && Acknowledged(pkt, fs.underway, k', s)
    ensures forall j | 0 <= j < |fs.underway| :: fs.underway[j].pkt in pkts
  {
    hide *;
    k' := k;
    match e
    case Returned =>
      if !fs.writeReady {
        fs.WriterReturned();
      }
    case Responded(i, r) =>
      if i < |fs.sentQueue| {
        k' := Respond(fs, i, r, pkt, pkts, k, s);
      }
  }

  /** The handler responds to the chunk of a request that has been written, if it may. */
  method Respond(fs: ApbFs, i: nat, r: Response, pkt: DosPacket, ghost pkts: set<DosPacket>, ghost k: nat,
                 ghost s: Start)
    returns (ghost k': nat)
    requires fs.Valid() && Acknowledged(pkt, fs.underway, k, s) && i < |fs.sentQueue| && pkt in pkts
    requires forall j | 0 <= j < |fs.underway| :: fs.underway[j].pkt in pkts
    modifies fs`sentQueue, fs`underway, pkts
    ensures fs.Valid() && Acknowledged(pkt, fs.underway, k', s)
    ensures forall j | 0 <= j < |fs.underway| :: fs.underway[j].pkt in pkts
  {
    hide *;
    SentJobs(fs, i);
    var req := fs.sentQueue[i];
    AckIs(req);
    ghost var jobs := fs.underway;
    k' := k;
    if req.pkt != pkt {
      RespondElsewhere(fs, i, r, pkt, k, s);
      OneLess(jobs, i, fs.underway, pkts);
    } else if (forall j | 0 <= j < i :: fs.sentQueue[j].pkt != pkt)
              && r == Response(req.length, if req.arg3 == 0 then 0xFFFF_FFFF else 0) {
      k' := Acknowledge(fs, i, r, pkt, k, s);
      OneLess(jobs, i, fs.underway, pkts);
    }
  }

  lemma OneLess(jobs: seq<Job>, i: nat, rest: seq<Job>, pkts: set<DosPacket>)
    requires i < |jobs| && rest == jobs[..i] + jobs[i + 1..]
    requires forall j | 0 <= j < |jobs| :: jobs[j].pkt in pkts
    ensures forall j | 0 <= j < |rest| :: rest[j].pkt in pkts
  {
    assert forall j | 0 <= j < |rest| :: rest[j] == jobs[if j < i then j else j + 1];
  }
}
