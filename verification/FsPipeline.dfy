/** The write path of the file system client: a DOS write becomes a queue of chunks of which one at a time is
    on its way, and the packet is answered when all of them have been acknowledged. */
module FsPipeline {
  import opened Memory

  const MAX_WRITE_LEN := 512

  /** 'W', the code of AmigaDOS. */
  const ACTION_WRITE: Word := 87

  /** A request to the remote file system; `args` are the four argument words and `data` what is appended. */
  datatype Chunk = Chunk(rtype: Word, arg1: Long, arg2: Long, arg3: Long, arg4: Long, data: seq<Byte>)

  /** The chunks that remain to be made for the bytes `data` of file `key`. */
  function Chunks(key: Long, data: seq<Byte>): (r: seq<Chunk>)
    requires |data| < 0x8000_0000
    decreases |data|
  {
    if data == [] then []
    else
      var n := if |data| > MAX_WRITE_LEN then MAX_WRITE_LEN else |data|;
      [Chunk(ACTION_WRITE, key, 0, |data| - n, n, data[..n])] + Chunks(key, data[n..])
  }

  function DataOf(chunks: seq<Chunk>): seq<seq<Byte>> {
    seq(|chunks|, k requires 0 <= k < |chunks| => chunks[k].data)
  }

  /** The chunks are the source, cut up: none is empty or too long, each says how much it carries and how
      much is left behind it, and so exactly the last one says that nothing is left. */
  lemma {:induction false} ChunksAreTheSource(key: Long, data: seq<Byte>)
    requires |data| < 0x8000_0000
    ensures var cs := Chunks(key, data);
            && Flatten(DataOf(cs)) == data
            && (forall k | 0 <= k < |cs| ::
                  && cs[k].rtype == 87 && cs[k].arg1 == key && cs[k].arg2 == 0
                  && 1 <= |cs[k].data| == cs[k].arg4 <= MAX_WRITE_LEN
                  && cs[k].arg3 == |Flatten(DataOf(cs[k + 1..]))|
                  && (cs[k].arg3 == 0 <==> k == |cs| - 1))
    decreases |data|
  {
    var cs := Chunks(key, data);
    if data != [] {
      var n := if |data| > MAX_WRITE_LEN then MAX_WRITE_LEN else |data|;
      var rest := Chunks(key, data[n..]);
      ChunksAreTheSource(key, data[n..]);
      assert cs[1..] == rest && DataOf(cs)[1..] == DataOf(rest);
      hide Chunks, Flatten, DataOf;
      forall k | 0 <= k < |cs|
        ensures cs[k].rtype == 87
        ensures 1 <= |cs[k].data| == cs[k].arg4 <= MAX_WRITE_LEN && cs[k].arg2 == 0 && cs[k].arg1 == key
                && cs[k].arg3 == |Flatten(DataOf(cs[k + 1..]))| && (cs[k].arg3 == 0 <==> k == |cs| - 1)
      {
        if k > 0 {
          assert cs[k] == rest[k - 1] && cs[k + 1..] == rest[k..];
        }
      }
    }
  }

  /** The acknowledgement of a chunk. */
  datatype Response = Response(res1: Long, res2: Long)

  datatype Answer = Answer(res1: Long, res2: Long)

  /** A DOS packet while its write goes on, and the answers it has been given. */
  datatype Progress = Progress(res1: Long, res2: Long, answers: seq<Answer>)

  /** What a response does to the packet. The handler marks the last one with -1. */
  function Reply(p: Progress, r: Response): Progress {
    var p := if r.res1 > 0 then p.(res1 := (p.res1 + r.res1) % 0x1_0000_0000, res2 := 0) else p;
    if r.res2 == 0 then p
    else if r.res2 == 0xFFFF_FFFF then p.(answers := p.answers + [Answer(p.res1, p.res2)])
    else Progress(r.res1, r.res2, p.answers + [Answer(r.res1, r.res2)])
  }

  /** A failure overrides what has been acknowledged, and is reported at once. */
  lemma ReplyOfFailure(p: Progress, r: Response)
    requires r.res2 != 0 && r.res2 != 0xFFFF_FFFF
    ensures Reply(p, r) == Progress(r.res1, r.res2, p.answers + [Answer(r.res1, r.res2)])
  {
  }

  function Replies(p: Progress, rs: seq<Response>): Progress
    decreases |rs|
  {
    if rs == [] then p else Replies(Reply(p, rs[0]), rs[1..])
  }

  /** Every chunk is acknowledged in full, and the last one as the last. */
  ghost predicate Acknowledges(rs: seq<Response>, cs: seq<Chunk>) {
    |rs| == |cs| && forall k | 0 <= k < |cs| ::
      rs[k].res1 == |cs[k].data| && rs[k].res2 == if cs[k].arg3 == 0 then 0xFFFF_FFFF else 0
  }

  lemma {:induction false} Accumulates(key: Long, data: seq<Byte>, rs: seq<Response>, p: Progress)
    requires 0 < |data| && p.res1 + |data| < 0x8000_0000 && Acknowledges(rs, Chunks(key, data))
    ensures Replies(p, rs).answers == p.answers + [Answer(p.res1 + |data|, 0)]
    decreases |data|
  {
    var cs := Chunks(key, data);
    var n := if |data| > MAX_WRITE_LEN then MAX_WRITE_LEN else |data|;
    var p' := Reply(p, rs[0]);
    assert rs[0] == Response(n, if |data| == n then 0xFFFF_FFFF else 0);
    assert cs[1..] == Chunks(key, data[n..]);
    if |data| > n {
      Accumulates(key, data[n..], rs[1..], p');
    } else {
      assert rs[1..] == [];
    }
  }

  /** When all chunks of a write are acknowledged, its packet is answered once with the number of bytes
      written; exactly a write of no bytes is never answered. */
  lemma AnsweredOnce(key: Long, data: seq<Byte>, rs: seq<Response>, res2: Long)
    requires |data| < 0x8000_0000 && Acknowledges(rs, Chunks(key, data))
    ensures var answers := Replies(Progress(0, res2, []), rs).answers;
            && (data != [] ==> answers == [Answer(|data|, 0)])
            && (answers == [] <==> data == [])
  {
    if data != [] {
      Accumulates(key, data, rs, Progress(0, res2, []));
    }
  }

  /** The two pools of requests; only the larger one has room for data. */
  datatype Pool = Min | Max

  class DosPacket {
    const key: Long
    const source: seq<Byte>
    const bytes: int
    var res1: Long
    var res2: Long
    var answers: seq<Answer>

    constructor (key: Long, source: seq<Byte>, bytes: int, memory: Long)
      ensures this.key == key && this.source == source && this.bytes == bytes && answers == []
    {
      this.key, this.source, this.bytes := key, source, bytes;
      res1, res2, answers := memory, memory, [];
    }

    ghost function State(): Progress
      reads this
    {
      Progress(res1, res2, answers)
    }

    /** FS_ActionWriteReply */
    method ActionWriteReply(r: Response)
      modifies this
      ensures State() == Reply(old(State()), r)
      ensures r.res2 == 0 ==> answers == old(answers)
      ensures r.res2 == 0 || r.res2 == 0xFFFF_FFFF ==>
                && res1 == (old(res1) + r.res1) % 0x1_0000_0000 && res2 == (if r.res1 > 0 then 0 else old(res2))
      ensures r.res2 == 0xFFFF_FFFF ==> answers == old(answers) + [Answer(res1, res2)]
      ensures r.res2 != 0 && r.res2 != 0xFFFF_FFFF ==>
                res1 == r.res1 && res2 == r.res2 && answers == old(answers) + [Answer(r.res1, r.res2)]
    {
      if r.res1 > 0 {
        res1 := (res1 + r.res1) % 0x1_0000_0000;
        res2 := 0;
      }
      if r.res2 == 0xFFFF_FFFF {
        answers := answers + [Answer(res1, res2)];
      } else if r.res2 != 0 {
        res1, res2 := r.res1, r.res2;
        answers := answers + [Answer(res1, res2)];
      }
    }
  }

  class FsRequest {
    const pkt: DosPacket
    const pool: Pool
    const data: array<Byte>
    var rtype: Word
    var length: Word
    var arg1: Long
    var arg2: Long
    var arg3: Long
    var arg4: Long

    /** FS_AllocRequest: the length to come decides from which pool the request is taken. */
    constructor (pkt: DosPacket, rtype: Word, length: Word)
      ensures this.pkt == pkt && this.rtype == rtype && this.length == 0 && fresh(data)
      ensures arg1 == 0 && arg2 == 0 && arg3 == 0 && arg4 == 0
      ensures pool == if length > 0 then Max else Min
      ensures data.Length == if length > 0 then MAX_WRITE_LEN else 0
    {
      this.pkt, this.rtype, this.length := pkt, rtype, 0;
      arg1, arg2, arg3, arg4 := 0, 0, 0, 0;
      pool := if length > 0 then Max else Min;
      data := new Byte[if length > 0 then MAX_WRITE_LEN else 0];
    }

    /** FS_AppendArg: the bytes are put behind those already there, and the argument says where. */
    method AppendArg(arg: Word, bytes: seq<Byte>)
      requires length + |bytes| <= data.Length <= MAX_WRITE_LEN
      modifies this`length, this`arg1, this`arg2, this`arg3, this`arg4, data
      ensures length == old(length) + |bytes| && data[..length] == old(data[..length]) + bytes
      ensures arg1 == if arg == 1 then old(length) else old(arg1)
      ensures arg2 == if arg == 2 then old(length) else old(arg2)
      ensures arg3 == if arg == 3 then old(length) else old(arg3)
      ensures arg4 == if arg == 4 then old(length) else old(arg4)
    {
      PutBytes(data, length, bytes);
      match arg {
        case 1 => arg1 := length;
        case 2 => arg2 := length;
        case 3 => arg3 := length;
        case 4 => arg4 := length;
        case _ =>
      }
      length := length + |bytes|;
    }

    /** FS_FreeRequest: the length decides to which pool the request goes back. */
    function FreedTo(): Pool
      reads this`length
    {
      if length > 0 then Max else Min
    }

    ghost function Value(): Chunk
      requires length <= data.Length
      reads this, data
    {
      Chunk(rtype, arg1, arg2, arg3, arg4, data[..length])
    }
  }

  /** A chunk of the write of a packet. */
  datatype Job = Job(pkt: DosPacket, chunk: Chunk)

  /** What the requests in a list are for. */
  ghost predicate JobsAre(jobs: seq<Job>, reqs: seq<FsRequest>)
    reads reqs, set q | q in reqs :: q.data
  {
    && |jobs| == |reqs|
    && forall i | 0 <= i < |reqs| ::
         reqs[i].length <= reqs[i].data.Length && jobs[i] == Job(reqs[i].pkt, reqs[i].Value())
  }

  lemma OneMoreJob(jobs: seq<Job>, reqs: seq<FsRequest>, req: FsRequest)
    requires JobsAre(jobs, reqs) && req.length <= req.data.Length
    ensures JobsAre(jobs + [Job(req.pkt, req.Value())], reqs + [req])
  {
    hide FsRequest.Value;
  }

  lemma OneLessJob(jobs: seq<Job>, reqs: seq<FsRequest>, i: nat)
    requires JobsAre(jobs, reqs) && i < |reqs|
    ensures |jobs| == |reqs| && JobsAre(jobs[..i] + jobs[i + 1..], reqs[..i] + reqs[i + 1..])
  {
    hide FsRequest.Value;
  }

  lemma JobIs(jobs: seq<Job>, reqs: seq<FsRequest>, i: nat)
    requires JobsAre(jobs, reqs) && i < |reqs|
    ensures |jobs| == |reqs| && reqs[i].length <= reqs[i].data.Length
    ensures jobs[i] == Job(reqs[i].pkt, reqs[i].Value())
  {
  }

  function JobsFor(pkt: DosPacket, chunks: seq<Chunk>): (r: seq<Job>)
    ensures |r| == |chunks| && forall k | 0 <= k < |r| :: r[k] == Job(pkt, chunks[k])
  {
    seq(|chunks|, k requires 0 <= k < |chunks| => Job(pkt, chunks[k]))
  }

  class ApbFs {
    var reqQueue: seq<FsRequest>
    var sentQueue: seq<FsRequest>
    var writeReady: bool

    /** The chunks queued so far, those written to the connection, and the writes that have come back; and
        the chunks not answered yet: those written, then those queued. */
    ghost var accepted: seq<Job>
    ghost var wire: seq<Job>
    ghost var returned: nat
    ghost var underway: seq<Job>

    /** What is on the wire and what is queued is what has been accepted, in order; and every write but the
        one on its way has come back. */
    ghost predicate InOrder()
      reads this
    {
      && |underway| == |sentQueue| + |reqQueue| && accepted == wire + underway[|sentQueue|..]
      && |wire| == returned + if writeReady then 0 else 1
    }

    ghost predicate Valid()
      reads this, sentQueue + reqQueue, set q | q in sentQueue + reqQueue :: q.data
    {
      JobsAre(underway, sentQueue + reqQueue) && InOrder() && (writeReady ==> reqQueue == [])
    }

    constructor ()
      ensures Valid() && accepted == [] && wire == [] && underway == [] && writeReady
    {
      reqQueue, sentQueue, writeReady := [], [], true;
      accepted, wire, returned, underway := [], [], 0, [];
    }

    /** FS_SendReq: the oldest request is written and waits for its answer. */
    method SendReq()
      requires JobsAre(underway, sentQueue + reqQueue) && InOrder() && writeReady
      modifies this`reqQueue, this`sentQueue, this`writeReady, this`wire
      ensures Valid() && writeReady == (old(reqQueue) == [])
      ensures if old(reqQueue) == [] then wire == old(wire) && sentQueue == old(sentQueue) && reqQueue == []
              else
                && wire == old(wire) + [underway[|old(sentQueue)|]] && reqQueue == old(reqQueue)[1..]
                && sentQueue == old(sentQueue) + [old(reqQueue)[0]]
    {
      hide JobsAre;
      if reqQueue == [] {
        return;
      }
      ghost var sent := |sentQueue|;
      assert sentQueue + [reqQueue[0]] + reqQueue[1..] == sentQueue + reqQueue;
      assert underway[sent..] == [underway[sent]] + underway[sent + 1..];
      var req := reqQueue[0];
      reqQueue := reqQueue[1..];
      wire := wire + [underway[sent]];
      sentQueue := sentQueue + [req];
      writeReady := false;
    }

    /** FS_EnqueueRequest: a request is written at once if no write is on its way. */
    method EnqueueRequest(req: FsRequest)
      requires Valid() && req.length <= req.data.Length
      modifies this
      ensures Valid() && !writeReady && returned == old(returned)
      ensures var job := Job(req.pkt, req.Value());
              accepted == old(accepted) + [job] && underway == old(underway) + [job]
              && if old(writeReady) then
                   wire == old(wire) + [job] && sentQueue == old(sentQueue) + [req] && reqQueue == []
                 else
                   wire == old(wire) && sentQueue == old(sentQueue) && reqQueue == old(reqQueue) + [req]
    {
      OneMoreJob(underway, sentQueue + reqQueue, req);
      hide JobsAre, FsRequest.Value;
      ghost var job := Job(req.pkt, req.Value());
      assert sentQueue + reqQueue + [req] == sentQueue + (reqQueue + [req]);
      assert (underway + [job])[|sentQueue|..] == underway[|sentQueue|..] + [job];
      reqQueue := reqQueue + [req];
      accepted, underway := accepted + [job], underway + [job];
      if writeReady {
        SendReq();
      }
    }

    /** The writer branch of FS_ReceiveFromRemote: the write on its way has come back, and the oldest request
        in the queue goes out. */
    method WriterReturned()
      requires Valid() && !writeReady
      modifies this
      ensures Valid() && accepted == old(accepted) && underway == old(underway) && returned == old(returned) + 1
      ensures if old(reqQueue) == [] then wire == old(wire) && sentQueue == old(sentQueue) && reqQueue == []
              else
                && wire == old(wire) + [underway[|old(sentQueue)|]] && reqQueue == old(reqQueue)[1..]
                && sentQueue == old(sentQueue) + [old(reqQueue)[0]]
    {
      hide JobsAre;
      writeReady := true;
      returned := returned + 1;
      SendReq();
    }

    /** One turn of the loop in FS_ActionWrite: a request for the chunk `bytes` with `left` bytes behind it. It
        will go back to the pool it was taken from. */
    method WriteChunk(pkt: DosPacket, bytes: seq<Byte>, left: Long) returns (req: FsRequest)
      requires Valid() && 0 < |bytes| <= MAX_WRITE_LEN
      modifies this
      ensures Valid() && fresh(req) && req.pkt == pkt && req.FreedTo() == req.pool
      ensures var job := Job(pkt, Chunk(ACTION_WRITE, pkt.key, 0, left, |bytes|, bytes));
              accepted == old(accepted) + [job] && underway == old(underway) + [job]
      ensures sentQueue + reqQueue == old(sentQueue + reqQueue) + [req]
    {
      hide JobsAre;
      req := new FsRequest(pkt, ACTION_WRITE, |bytes|);
      req.arg1 := pkt.key;
      req.AppendArg(2, bytes);
      req.arg3 := left;
      req.arg4 := |bytes|;
      assert req.data[..req.length] == bytes;
      EnqueueRequest(req);
    }

    /** FS_ActionWrite: the bytes are queued in chunks, which are all for this packet; nothing is queued when
        there are no bytes. */
    method ActionWrite(pkt: DosPacket)
      requires Valid() && pkt.bytes <= |pkt.source| && pkt.bytes < 0x8000_0000
      modifies this, pkt`res1
      ensures Valid() && pkt.res1 == 0
      ensures var jobs := JobsFor(pkt, ChunksFrom(pkt, 0));
              accepted == old(accepted) + jobs && underway == old(underway) + jobs
    {
      assert MAX_WRITE_LEN == 512;
      hide *;
      pkt.res1 := 0;
      var bytesToWrite := pkt.bytes;
      var data := 0;
      ghost var jobs := JobsFor(pkt, ChunksFrom(pkt, 0));
      while bytesToWrite > 0
        invariant Valid() && pkt.res1 == 0 && data >= 0 && bytesToWrite == pkt.bytes - data
        invariant accepted + JobsFor(pkt, ChunksFrom(pkt, data)) == old(accepted) + jobs
        invariant underway + JobsFor(pkt, ChunksFrom(pkt, data)) == old(underway) + jobs
        decreases bytesToWrite
      {
        var packetBytes := if bytesToWrite > MAX_WRITE_LEN then MAX_WRITE_LEN else bytesToWrite;
        WriteNext(pkt, data, packetBytes, old(accepted) + jobs, old(underway) + jobs);
        data := data + packetBytes;
        bytesToWrite := bytesToWrite - packetBytes;
      }
      NoChunks(pkt, data);
    }

    /** The next `n` bytes of a write are queued; with the chunks still to come, the targets are reached. */
    method WriteNext(pkt: DosPacket, data: nat, n: nat, ghost all: seq<Job>, ghost now: seq<Job>)
      requires Valid() && data < pkt.bytes <= |pkt.source| && pkt.bytes < 0x8000_0000
      requires n == if pkt.bytes - data > MAX_WRITE_LEN then MAX_WRITE_LEN else pkt.bytes - data
      requires accepted + JobsFor(pkt, ChunksFrom(pkt, data)) == all
      requires underway + JobsFor(pkt, ChunksFrom(pkt, data)) == now
      modifies this
      ensures Valid() && data + n <= pkt.bytes && n > 0
      ensures accepted + JobsFor(pkt, ChunksFrom(pkt, data + n)) == all
      ensures underway + JobsFor(pkt, ChunksFrom(pkt, data + n)) == now
    {
      NextJob(pkt, data, n);
      hide *;
      ghost var accepted0, underway0 := accepted, underway;
      ghost var rest := JobsFor(pkt, ChunksFrom(pkt, data + n));
      var req := WriteChunk(pkt, pkt.source[data..data + n], pkt.bytes - data - n);
      OneMoreFirst(accepted0, accepted[|accepted0|], rest);
      OneMoreFirst(underway0, accepted[|accepted0|], rest);
    }

    static lemma OneMoreFirst<T>(a: seq<T>, x: T, b: seq<T>)
      ensures a + ([x] + b) == a + [x] + b
    {
    }

    static lemma NoChunks(pkt: DosPacket, data: nat)
      requires pkt.bytes <= data && pkt.bytes <= |pkt.source| && pkt.bytes < 0x8000_0000
      ensures ChunksFrom(pkt, data) == [] && JobsFor(pkt, ChunksFrom(pkt, data)) == []
    {
    }

    /** The chunks for what is left of a write at byte `data`. */
    static ghost function ChunksFrom(pkt: DosPacket, data: nat): seq<Chunk>
      requires pkt.bytes <= |pkt.source| && pkt.bytes < 0x8000_0000
    {
      if data < pkt.bytes then Chunks(pkt.key, pkt.source[data..pkt.bytes]) else []
    }

    static lemma NextChunk(pkt: DosPacket, data: nat, n: nat)
      requires data < pkt.bytes <= |pkt.source| && pkt.bytes < 0x8000_0000
      requires n == if pkt.bytes - data > MAX_WRITE_LEN then MAX_WRITE_LEN else pkt.bytes - data
      ensures 0 < n <= MAX_WRITE_LEN && data + n <= pkt.bytes
      ensures ChunksFrom(pkt, data) ==
              [Chunk(ACTION_WRITE, pkt.key, 0, pkt.bytes - data - n, n, pkt.source[data..data + n])]
              + ChunksFrom(pkt, data + n)
    {
      var left := pkt.source[data..pkt.bytes];
      assert left[..n] == pkt.source[data..data + n] && left[n..] == pkt.source[data + n..pkt.bytes];
      assert Chunks(pkt.key, left) ==
             [Chunk(ACTION_WRITE, pkt.key, 0, |left| - n, n, left[..n])] + Chunks(pkt.key, left[n..]);
    }

    static lemma NextJob(pkt: DosPacket, data: nat, n: nat)
      requires data < pkt.bytes <= |pkt.source| && pkt.bytes < 0x8000_0000
      requires n == if pkt.bytes - data > MAX_WRITE_LEN then MAX_WRITE_LEN else pkt.bytes - data
      ensures 0 < n <= MAX_WRITE_LEN && data + n <= pkt.bytes
      ensures JobsFor(pkt, ChunksFrom(pkt, data)) ==
              [Job(pkt, Chunk(ACTION_WRITE, pkt.key, 0, pkt.bytes - data - n, n, pkt.source[data..data + n]))]
              + JobsFor(pkt, ChunksFrom(pkt, data + n))
    {
      NextChunk(pkt, data, n);
      hide ChunksFrom;
    }

    /** FS_ReceiveResponse for a write: the request is taken off its list and its packet gets the response. */
    method ReceiveResponse(i: nat, r: Response)
      requires Valid() && i < |sentQueue|
      modifies this`sentQueue, this`underway, sentQueue[i].pkt
      ensures Valid() && sentQueue == old(sentQueue[..i] + sentQueue[i + 1..])
      ensures old(|underway|) > i && underway == old(underway[..i] + underway[i + 1..])
      ensures var pkt := old(underway[i]).pkt; pkt.State() == Reply(old(underway[i].pkt.State()), r)
    {
      JobIs(underway, sentQueue + reqQueue, i);
      OneLessJob(underway, sentQueue + reqQueue, i);
      hide JobsAre, FsRequest.Value;
      var req := sentQueue[i];
      ghost var sent := |sentQueue|;
      assert (sentQueue + reqQueue)[..i] + (sentQueue + reqQueue)[i + 1..]
             == sentQueue[..i] + sentQueue[i + 1..] + reqQueue;
      assert (underway[..i] + underway[i + 1..])[sent - 1..] == underway[sent..];
      sentQueue := sentQueue[..i] + sentQueue[i + 1..];
      underway := underway[..i] + underway[i + 1..];
      req.pkt.ActionWriteReply(r);
    }
  }
}
