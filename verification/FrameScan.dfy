/** The chain of 4096-byte buffers the packet reader works on, and the scan of one candidate frame in
    it: fetching the header, locating the payload without copying it, and checking the sum. */
module FrameScan {
  import opened Memory
  import opened Checksum
  import opened Framing
  import opened ReaderTrace

  class InBuffer {
    const buf: Buffer
    var next: InBuffer?
    var offset: nat

    constructor (buf: Buffer)
      ensures this.buf == buf && next == null && offset == 0
    {
      this.buf := buf;
      next, offset := null, 0;
    }
  }

  /** A run of payload bytes inside a link buffer; no bytes at all when `length` is zero. */
  datatype Piece = Piece(data: array?<Byte>, start: nat, length: nat)
  {
    predicate InBounds() {
      length > 0 ==> data != null && start + length <= data.Length
    }

    ghost function Content(): seq<Byte>
      requires InBounds()
      reads data
    {
      if length == 0 then [] else data[start..start + length]
    }
  }

  const NO_PIECE := Piece(null, 0, 0)

  /** A chain of buffers, linked in order, of which all but the last are full. */
  ghost predicate Linked(chain: seq<InBuffer>)
    reads chain`next, (set c | c in chain :: c.buf)`offset
  {
    && (forall i | 0 <= i < |chain| - 1 ::
          chain[i].next == chain[i + 1] && chain[i].buf.offset == BUFFER_SIZE)
    && (forall i | 0 <= i < |chain| :: chain[i].buf.data.Length == BUFFER_SIZE)
    && (forall i, j | 0 <= i < j < |chain| :: chain[i] != chain[j] && chain[i].buf != chain[j].buf)
    && (chain != [] ==>
          var last := chain[|chain| - 1];
          last.next == null && last.buf.offset <= BUFFER_SIZE)
  }

  /** The number of bytes read into the chain. */
  ghost function Filled(chain: seq<InBuffer>): nat
    reads (set c | c in chain :: c.buf)`offset
  {
    if chain == [] then 0 else Pos(|chain| - 1, chain[|chain| - 1].buf.offset)
  }

  /** CopyMem from a buffer of the chain copies bytes of the stream. */
  method CopyHeld(ghost chain: seq<InBuffer>, ghost s: seq<Byte>, ghost i: nat, ib: InBuffer, from: nat,
                  dest: array<Byte>, to: nat, length: nat)
    requires Linked(chain) && Holds(chain, s) && i < |chain| && ib == chain[i]
    requires from + length <= BUFFER_SIZE && Pos(i, from + length) <= |s|
    requires to + length <= dest.Length && forall c | c in chain :: c.buf.data != dest
    modifies dest
    ensures dest[..to] == old(dest[..to])
    ensures dest[to..to + length] == s[Pos(i, from)..Pos(i, from + length)]
    ensures dest[to + length..] == old(dest[to + length..])
  {
    HeldSlice(chain, s, i, from, from + length);
    CopyMem(ib.buf.data, from, dest, to, length);
  }

  /** What is known of the buffer behind buffer `i`. */
  lemma Neighbour(chain: seq<InBuffer>, i: nat)
    requires Linked(chain) && i < |chain|
    ensures chain[i].next == null <==> i + 1 == |chain|
    ensures i + 1 == |chain| ==> Filled(chain) == Pos(i, chain[i].buf.offset)
    ensures i + 1 < |chain| ==>
              && chain[i].next == chain[i + 1] && chain[i].buf.offset == BUFFER_SIZE
              && chain[i + 1].buf.data.Length == BUFFER_SIZE
              && chain[i + 1].buf.offset <= BUFFER_SIZE
              && Pos(i + 1, chain[i + 1].buf.offset) <= Filled(chain)
    ensures i + 1 < |chain| && chain[i + 1].buf.offset < BUFFER_SIZE ==>
              Filled(chain) == Pos(i + 1, chain[i + 1].buf.offset)
  {
    assert i + 1 < |chain| ==> chain[i].next == chain[i + 1];
  }

  /** The chain holds the byte stream `s`, BUFFER_SIZE bytes a buffer. */
  ghost predicate Holds(chain: seq<InBuffer>, s: seq<Byte>)
    reads (set c | c in chain :: c.buf)`offset, set c | c in chain :: c.buf.data
  {
    && |s| <= Filled(chain)
    && forall i, j | 0 <= i < |chain| && 0 <= j < chain[i].buf.data.Length && Pos(i, j) < |s| ::
         chain[i].buf.data[j] == s[Pos(i, j)]
  }

  /** Bytes of buffer `i` are the bytes of the stream. */
  lemma HeldSlice(chain: seq<InBuffer>, s: seq<Byte>, i: nat, from: nat, to: nat)
    requires Linked(chain) && Holds(chain, s)
    requires i < |chain| && from <= to <= BUFFER_SIZE && Pos(i, to) <= |s|
    ensures chain[i].buf.data[from..to] == s[Pos(i, from)..Pos(i, to)]
  {
  }

  /** `piece` is where the chain keeps the stream bytes from position `at` on. */
  ghost predicate Covers(chain: seq<InBuffer>, size: nat, piece: Piece, at: nat)
  {
    piece.length > 0 ==>
      && at + piece.length <= size
      && exists k | 0 <= k < |chain| ::
           && piece.data == chain[k].buf.data && Pos(k, piece.start) == at
           && piece.start + piece.length <= BUFFER_SIZE
  }

  lemma CoversIntro(chain: seq<InBuffer>, size: nat, piece: Piece, at: nat, k: nat)
    requires k < |chain| && piece.data == chain[k].buf.data && Pos(k, piece.start) == at
    requires piece.start + piece.length <= BUFFER_SIZE && at + piece.length <= size
    ensures Covers(chain, size, piece, at)
  {
  }

  /** A split payload is cut behind an even number of bytes, and something is left of it. */
  lemma SplitParity(offset: nat, h: Header)
    requires offset % 2 == 0 && h.PadAgrees() && offset + HEADER_SIZE <= BUFFER_SIZE
    requires BUFFER_SIZE - offset - HEADER_SIZE < h.length + h.Pad()
    ensures (BUFFER_SIZE - offset - HEADER_SIZE) % 2 == 0
    ensures BUFFER_SIZE - offset - HEADER_SIZE < h.length
  {
  }

  lemma CoveredContent(chain: seq<InBuffer>, s: seq<Byte>, piece: Piece, at: nat)
    requires Linked(chain) && Holds(chain, s) && Covers(chain, |s|, piece, at)
    ensures piece.InBounds()
    ensures at + piece.length <= |s| ==> piece.Content() == s[at..at + piece.length]
  {
    if piece.length > 0 {
      var k :| 0 <= k < |chain| && piece.data == chain[k].buf.data
               && Pos(k, piece.start) == at && piece.start + piece.length <= BUFFER_SIZE;
      HeldSlice(chain, s, k, piece.start, piece.start + piece.length);
    }
  }

  /** The payload of the frame with header `h` at `q`, and its pad byte, lie where the pieces say. */
  ghost predicate Layout(chain: seq<InBuffer>, size: nat, q: nat, h: Header, data1: Piece, data2: Piece) {
    && q + h.FrameSize() <= size
    && data1.length + data2.length == h.length
    && (h.length > 0 ==> data1.length > 0)
    && (if data2.length == 0 then
          Covers(chain, size, Padded(data1, h.Pad()), q + HEADER_SIZE)
        else
          && data1.length % 2 == 0
          && Covers(chain, size, data1, q + HEADER_SIZE)
          && Covers(chain, size, Padded(data2, h.Pad()), q + HEADER_SIZE + data1.length))
  }

  function Padded(piece: Piece, pad: nat): Piece {
    if piece.length == 0 then piece else Piece(piece.data, piece.start, piece.length + pad)
  }

  /** What the scan of one candidate frame position finds. */
  datatype Scan =
    | Wait
    | Bad(skipTo: InBuffer?)
    | Found(header: Header, into: InBuffer?, data1: Piece, data2: Piece, consumed: nat)

  /** The header of the frame at Pos(i, ib1.offset), whole in buffer `i` or running on in the next
      one, of which it takes `consumed` bytes. */
  method CopyHeader(ghost chain: seq<InBuffer>, ghost s: seq<Byte>, ghost i: nat, ib1: InBuffer,
                    next: InBuffer?, consumed: nat)
    returns (p: array<Byte>)
    requires Linked(chain) && Holds(chain, s) && i < |chain| && ib1 == chain[i]
    requires consumed <= HEADER_SIZE && Pos(i, ib1.offset) + HEADER_SIZE <= |s|
    requires if next == null then consumed == HEADER_SIZE && ib1.offset + HEADER_SIZE <= BUFFER_SIZE
             else i + 1 < |chain| && next == chain[i + 1] &&
                  ib1.offset + HEADER_SIZE == BUFFER_SIZE + consumed
    ensures fresh(p) && p.Length == HEADER_SIZE
    ensures p[..] == s[Pos(i, ib1.offset)..Pos(i, ib1.offset) + HEADER_SIZE]
  {
    hide Linked, Holds;
    p := new Byte[HEADER_SIZE];
    if next != null {
      var bc := HEADER_SIZE - consumed;
      CopyHeld(chain, s, i, ib1, ib1.offset, p, 0, bc);
      CopyHeld(chain, s, i + 1, next, 0, p, bc, consumed);
      JoinSlices(s, Pos(i, ib1.offset), Pos(i + 1, 0), Pos(i + 1, consumed));
      assert p[..] == p[..bc] + p[bc..bc + consumed];
    } else {
      CopyHeld(chain, s, i, ib1, ib1.offset, p, 0, HEADER_SIZE);
      assert p[..] == p[0..HEADER_SIZE];
    }
  }

  lemma JoinSlices(s: seq<Byte>, a: nat, b: nat, c: nat)
    requires a <= b <= c <= |s|
    ensures s[a..b] + s[b..c] == s[a..c]
  {
  }

  /** Whether a whole header has arrived at Pos(i, ib1.offset), and how it lies. */
  method FindHeader(ghost chain: seq<InBuffer>, ghost i: nat, ib1: InBuffer)
    returns (ready: bool, next: InBuffer?, consumed: nat)
    requires Linked(chain) && i < |chain| && ib1 == chain[i] && ib1.offset <= ib1.buf.offset
    ensures ready <==> Pos(i, ib1.offset) + HEADER_SIZE <= Filled(chain)
    ensures ready ==> HeaderLies(chain, i, next, consumed)
  {
    Neighbour(chain, i);
    hide Linked, Filled;
    var bc := ib1.buf.offset - ib1.offset;
    ready, next, consumed := false, null, HEADER_SIZE;
    if bc < HEADER_SIZE {
      if ib1.buf.offset < BUFFER_SIZE || ib1.next == null {
        return;
      }
      next, consumed := ib1.next, HEADER_SIZE - bc;
      if next.buf.offset < consumed {
        return;
      }
    }
    ready := true;
  }

  ghost predicate HeaderLies(chain: seq<InBuffer>, i: nat, next: InBuffer?, consumed: nat)
    requires i < |chain|
    reads chain[i], chain[i].buf
  {
    if chain[i].offset + HEADER_SIZE <= chain[i].buf.offset then next == null && consumed == HEADER_SIZE
    else i + 1 < |chain| && next == chain[i + 1] &&
         chain[i].offset + HEADER_SIZE == BUFFER_SIZE + consumed && consumed <= HEADER_SIZE
  }

  lemma LayoutWhole(chain: seq<InBuffer>, size: nat, q: nat, h: Header, data: Piece, k: nat)
    requires k < |chain| && data.data == chain[k].buf.data && data.length == h.length
    requires Pos(k, data.start) == q + HEADER_SIZE && data.start + h.length + h.Pad() <= BUFFER_SIZE
    requires q + h.FrameSize() <= size
    ensures Layout(chain, size, q, h, data, NO_PIECE)
  {
    CoversIntro(chain, size, Padded(data, h.Pad()), q + HEADER_SIZE, k);
  }

  lemma LayoutSplit(chain: seq<InBuffer>, size: nat, q: nat, h: Header, data1: Piece, data2: Piece, k: nat)
    requires k + 1 < |chain| && data1.data == chain[k].buf.data && data2.data == chain[k + 1].buf.data
    requires data1.length + data2.length == h.length && 0 < data1.length < h.length
    requires data1.length % 2 == 0
    requires Pos(k, data1.start) == q + HEADER_SIZE && data1.start + data1.length == BUFFER_SIZE
    requires data2.start == 0 && data2.length + h.Pad() <= BUFFER_SIZE
    requires q + h.FrameSize() <= size
    ensures Layout(chain, size, q, h, data1, data2)
  {
    CoversIntro(chain, size, data1, q + HEADER_SIZE, k);
    CoversIntro(chain, size, Padded(data2, h.Pad()), q + HEADER_SIZE + data1.length, k + 1);
  }

  lemma LayoutEmpty(chain: seq<InBuffer>, size: nat, q: nat, h: Header)
    requires h.length == 0 && q + HEADER_SIZE <= size
    ensures Layout(chain, size, q, h, NO_PIECE, NO_PIECE) && h.FrameSize() == HEADER_SIZE
  {
  }

  /** Where the frame with header `h` in buffer `i` ends: `consumed` bytes behind its start in the
      same buffer, or at offset `consumed` of the next one. */
  ghost predicate EndsAt(chain: seq<InBuffer>, i: nat, h: Header, next: InBuffer?, consumed: nat)
    requires i < |chain|
    reads chain, set c | c in chain :: c.buf
  {
    if next == null then consumed == h.FrameSize() && chain[i].offset + consumed <= chain[i].buf.offset
    else i + 1 < |chain| && next == chain[i + 1] && consumed <= next.buf.offset &&
         BUFFER_SIZE + consumed == chain[i].offset + h.FrameSize()
  }

  /** The payload behind a header that is split over two buffers. */
  method LocateBehindSplitHeader(ghost chain: seq<InBuffer>, ghost size: nat, ghost i: nat, ib1: InBuffer,
                                 h: Header, next: InBuffer, consumed0: nat)
    returns (ready: bool, data1: Piece, consumed: nat)
    requires Linked(chain) && size == Filled(chain) && i < |chain| && ib1 == chain[i]
    requires ib1.offset <= ib1.buf.offset < ib1.offset + HEADER_SIZE
    requires HeaderLies(chain, i, next, consumed0) && Pos(i, ib1.offset) + HEADER_SIZE <= size
    ensures !ready ==> Pos(i, ib1.offset) + h.FrameSize() > size || h.FrameSize() > BUFFER_SIZE
    ensures ready ==> Layout(chain, size, Pos(i, ib1.offset), h, data1, NO_PIECE)
    ensures ready ==> EndsAt(chain, i, h, next, consumed)
  {
    Neighbour(chain, i);
    hide Linked, Filled, Layout, Header.Pad;
    var dl := h.length + h.Pad();
    data1, consumed, ready := NO_PIECE, consumed0, true;
    if h.length == 0 {
      LayoutEmpty(chain, size, Pos(i, ib1.offset), h);
    } else if next.buf.offset < dl + consumed {
      ready := false;
    } else {
      data1 := Piece(next.buf.data, HEADER_SIZE - (ib1.buf.offset - ib1.offset), h.length);
      LayoutWhole(chain, size, Pos(i, ib1.offset), h, data1, i + 1);
      consumed := consumed + dl;
    }
  }

  /** The payload behind a whole header: in the same buffer, in the next one, or split over both. */
  method LocateBehindWholeHeader(ghost chain: seq<InBuffer>, ghost size: nat, ghost i: nat, ib1: InBuffer,
                                 h: Header)
    returns (ready: bool, next: InBuffer?, data1: Piece, data2: Piece, consumed: nat)
    requires Linked(chain) && size == Filled(chain) && i < |chain| && ib1 == chain[i]
    requires ib1.offset + HEADER_SIZE <= ib1.buf.offset && ib1.offset % 2 == 0 && h.PadAgrees()
    ensures !ready ==> Pos(i, ib1.offset) + h.FrameSize() > size || h.FrameSize() > BUFFER_SIZE
    ensures ready ==> Layout(chain, size, Pos(i, ib1.offset), h, data1, data2)
    ensures ready ==> EndsAt(chain, i, h, next, consumed)
  {
    Neighbour(chain, i);
    hide Linked, Filled, Layout, Header.PadAgrees, Header.Pad;
    var bc, dl := ib1.buf.offset - ib1.offset, h.length + h.Pad();
    ghost var q := Pos(i, ib1.offset);
    next, data1, data2, consumed, ready := null, NO_PIECE, NO_PIECE, HEADER_SIZE, false;
    if h.length == 0 {
      LayoutEmpty(chain, size, q, h);
    } else if bc == HEADER_SIZE && ib1.buf.offset == BUFFER_SIZE {
      next := ib1.next;
      if next == null || next.buf.offset < dl {
        return;
      }
      data1 := Piece(next.buf.data, 0, h.length);
      LayoutWhole(chain, size, q, h, data1, i + 1);
      consumed := dl;
    } else if bc - HEADER_SIZE < dl {
      if ib1.buf.offset < BUFFER_SIZE || ib1.next == null {
        return;
      }
      next := ib1.next;
      SplitParity(ib1.offset, h);
      data1 := Piece(ib1.buf.data, ib1.offset + HEADER_SIZE, bc - HEADER_SIZE);
      data2 := Piece(next.buf.data, 0, h.length - data1.length);
      consumed := data2.length + h.Pad();
      if next.buf.offset < consumed {
        return;
      }
      LayoutSplit(chain, size, q, h, data1, data2, i);
    } else {
      data1 := Piece(ib1.buf.data, ib1.offset + HEADER_SIZE, h.length);
      LayoutWhole(chain, size, q, h, data1, i);
      consumed := consumed + dl;
    }
    ready := true;
  }

  function SumOver(s: seq<Byte>, from: nat, to: nat): nat
    requires from <= to <= |s|
  {
    WordSum(s[from..to])
  }

  lemma SumOfCut(s: seq<Byte>, from: nat, at: nat, end: nat)
    requires from <= at <= end <= |s| && (end - at) % 2 == 0
    ensures SumOver(s, from, end) == SumOver(s, from, at) + SumOver(s, at, end)
  {
    assert s[from..end] == s[from..at] + s[at..end];
    WordSumConcat(s[from..at], s[at..end]);
  }

  /** AddToChecksum on a piece in the chain sums the stream bytes it stands for. */
  method AddPiece(ghost chain: seq<InBuffer>, ghost s: seq<Byte>, ghost at: nat, ghost end: nat,
                  sum: Long, piece: Piece)
    returns (r: Long)
    requires Linked(chain) && Holds(chain, s) && Covers(chain, |s|, piece, at)
    requires 0 < piece.length < 0x1_0000 && piece.length % 2 == 0
    requires at + piece.length == end <= |s| && sum + SumOver(s, at, end) < 0x1_0000_0000
    ensures r == sum + SumOver(s, at, end)
  {
    CoveredContent(chain, s, piece, at);
    r := AddToChecksum(sum, piece.data, piece.start, piece.length);
  }

  lemma EvenPieces(h: Header, length1: nat, length2: nat)
    requires h.PadAgrees() && length1 + length2 == h.length
    requires length2 > 0 ==> length1 % 2 == 0
    ensures h.FrameSize() == HEADER_SIZE + h.length + h.Pad()
    ensures if length2 > 0 then (length2 + h.Pad()) % 2 == 0 else (length1 + h.Pad()) % 2 == 0
  {
  }

  /** Adds the payload and its pad byte, in one piece or in two. */
  method AddPayload(ghost chain: seq<InBuffer>, ghost s: seq<Byte>, ghost at: nat, ghost end: nat,
                    sum0: Long, h: Header, data1: Piece, data2: Piece)
    returns (sum: Long)
    requires at >= HEADER_SIZE && end == at - HEADER_SIZE + h.FrameSize() && at <= end <= |s|
    requires Linked(chain) && Holds(chain, s) && Layout(chain, |s|, at - HEADER_SIZE, h, data1, data2)
    requires h.Plausible() && h.PadAgrees()
    requires sum0 + SumOver(s, at, end) < 0x1_0000_0000
    ensures sum == sum0 + SumOver(s, at, end)
  {
    EvenPieces(h, data1.length, data2.length);
    ghost var mid := at + data1.length;
    hide Linked, Holds, Covers, SumOver, Header.PadAgrees, Header.Pad, Header.FrameSize;
    if data1.length == 0 {
      SumOfCut(s, at, at, end);
      sum := sum0;
    } else if data2.length > 0 {
      SumOfCut(s, at, mid, end);
      sum := AddPiece(chain, s, at, mid, sum0, data1);
      sum := AddPiece(chain, s, mid, end, sum, Padded(data2, h.Pad()));
    } else {
      sum := AddPiece(chain, s, at, end, sum0, Padded(data1, h.Pad()));
    }
  }

  /** The frame with header `h` at `q` has arrived and its checksum is right. */
  ghost predicate AcceptsAt(s: seq<Byte>, q: nat, h: Header) {
    q + h.FrameSize() <= |s| && Accepts(s[q..q + h.FrameSize()])
  }

  lemma FrameSum(s: seq<Byte>, q: nat, h: Header)
    requires q + h.FrameSize() <= |s| && h.Plausible() && h.PadAgrees()
    ensures q + HEADER_SIZE <= q + h.FrameSize()
    ensures var at, end := q + HEADER_SIZE, q + h.FrameSize();
            && SumOver(s, q, at) + SumOver(s, at, end) < 0x1_0000_0000
            && (AcceptsAt(s, q, h) <==> GoodSum(SumOver(s, q, at) + SumOver(s, at, end)))
  {
    WordSumBound(s[q..q + h.FrameSize()]);
    SumOfCut(s, q, q + HEADER_SIZE, q + h.FrameSize());
  }

  method SumHeader(ghost s: seq<Byte>, ghost q: nat, p: array<Byte>) returns (sum: Long)
    requires p.Length == HEADER_SIZE && q + HEADER_SIZE <= |s| && p[..] == s[q..q + HEADER_SIZE]
    ensures sum == SumOver(s, q, q + HEADER_SIZE)
  {
    WordSumBound(p[..]);
    assert p[0..HEADER_SIZE] == p[..];
    sum := AddToChecksum(0, p, 0, HEADER_SIZE);
  }

  /** The verdict on a frame is reached where its bytes lie; it is that of the frame in the stream. */
  method CheckFrame(ghost chain: seq<InBuffer>, ghost s: seq<Byte>, ghost q: nat, p: array<Byte>,
                    h: Header, data1: Piece, data2: Piece)
    returns (ok: bool)
    requires Linked(chain) && Holds(chain, s) && Layout(chain, |s|, q, h, data1, data2)
    requires h.Plausible() && h.PadAgrees()
    requires p.Length == HEADER_SIZE && q + HEADER_SIZE <= |s| && p[..] == s[q..q + HEADER_SIZE]
    ensures ok == AcceptsAt(s, q, h)
  {
    LayoutFits(chain, |s|, q, h, data1, data2);
    FrameSum(s, q, h);
    ghost var at, end := q + HEADER_SIZE, q + h.FrameSize();
    hide *;
    var sum := SumHeader(s, q, p);
    sum := AddPayload(chain, s, at, end, sum, h, data1, data2);
    var c := CompleteChecksum(sum);
    ok := c == 0xFFFF;
  }

  lemma LayoutFits(chain: seq<InBuffer>, size: nat, q: nat, h: Header, data1: Piece, data2: Piece)
    requires Layout(chain, size, q, h, data1, data2)
    ensures q + HEADER_SIZE <= q + h.FrameSize() <= size
  {
  }

  /** The packet found at `q` in stream `s`: its frame is good and its payload lies where it says. */
  ghost predicate FoundAt(chain: seq<InBuffer>, s: seq<Byte>, q: nat, h: Header, data1: Piece, data2: Piece) {
    && Layout(chain, |s|, q, h, data1, data2)
    && HeaderAt(s, q) == h && GoodFrame(s[q..q + h.FrameSize()])
  }

  /** Examines the candidate frame at Pos(i, ib1.offset). The outcome is the reference verdict on the
      stream, except that a frame larger than a buffer may also be waited for or found. */
  method Inspect(ghost chain: seq<InBuffer>, ghost s: seq<Byte>, ghost i: nat, ib1: InBuffer)
    returns (r: Scan)
    requires Linked(chain) && Holds(chain, s) && |s| == Filled(chain)
    requires i < |chain| && ib1 == chain[i] && ib1.offset <= ib1.buf.offset && ib1.offset % 2 == 0
    requires PadAgreesAt(s, Pos(i, ib1.offset))
    ensures Pos(i, ib1.offset) <= |s|
    ensures ScanAgrees(chain, s, i, r)
  {
    ghost var q := Pos(i, ib1.offset);
    PosWithin(chain, i, ib1.offset);
    hide Linked, Holds, Filled;
    var ready, next, consumed := FindHeader(chain, i, ib1);
    if !ready {
      return Wait;
    }
    var p := CopyHeader(chain, s, i, ib1, next, consumed);
    var h := HeaderAt(p[..], 0);
    HeaderAtSlice(s, q, q + HEADER_SIZE);
    if h.id != PACKET_ID || h.length > BUFFER_SIZE {
      return Bad(next);
    }
    r := InspectPayload(chain, s, i, ib1, p, h, next, consumed);
  }

  method InspectPayload(ghost chain: seq<InBuffer>, ghost s: seq<Byte>, ghost i: nat, ib1: InBuffer,
                        p: array<Byte>, h: Header, split: InBuffer?, consumed0: nat)
    returns (r: Scan)
    requires Linked(chain) && Holds(chain, s) && |s| == Filled(chain)
    requires i < |chain| && ib1 == chain[i] && ib1.offset <= ib1.buf.offset && ib1.offset % 2 == 0
    requires Pos(i, ib1.offset) + HEADER_SIZE <= |s| && HeaderAt(s, Pos(i, ib1.offset)) == h
    requires p.Length == HEADER_SIZE && p[..] == s[Pos(i, ib1.offset)..Pos(i, ib1.offset) + HEADER_SIZE]
    requires h.Plausible() && h.PadAgrees() && HeaderLies(chain, i, split, consumed0)
    ensures ScanAgrees(chain, s, i, r)
  {
    ghost var q := Pos(i, ib1.offset);
    hide Linked, Holds, Filled, HeaderAt, Header.FrameSize, Layout, EndsAt, GoodFrame;
    var ready, data1, consumed;
    var next, data2 := split, NO_PIECE;
    if split == null {
      ready, next, data1, data2, consumed := LocateBehindWholeHeader(chain, |s|, i, ib1, h);
    } else {
      ready, data1, consumed := LocateBehindSplitHeader(chain, |s|, i, ib1, h, split, consumed0);
    }
    if !ready {
      VerdictOfCheck(s, q, h);
      return Wait;
    }
    r := JudgeFrame(chain, s, i, ib1, p, h, next, data1, data2, consumed);
  }

  method JudgeFrame(ghost chain: seq<InBuffer>, ghost s: seq<Byte>, ghost i: nat, ib1: InBuffer,
                    p: array<Byte>, h: Header, next: InBuffer?, data1: Piece, data2: Piece, consumed: nat)
    returns (r: Scan)
    requires Linked(chain) && Holds(chain, s) && i < |chain| && ib1 == chain[i]
    requires Pos(i, ib1.offset) + HEADER_SIZE <= |s| && HeaderAt(s, Pos(i, ib1.offset)) == h
    requires p.Length == HEADER_SIZE && p[..] == s[Pos(i, ib1.offset)..Pos(i, ib1.offset) + HEADER_SIZE]
    requires h.Plausible() && h.PadAgrees()
    requires Layout(chain, |s|, Pos(i, ib1.offset), h, data1, data2) && EndsAt(chain, i, h, next, consumed)
    ensures ScanAgrees(chain, s, i, r)
  {
    hide *;
    var ok := CheckFrame(chain, s, Pos(i, ib1.offset), p, h, data1, data2);
    r := if ok then Found(h, next, data1, data2, consumed) else Bad(next);
    Judged(chain, s, i, h, next, data1, data2, consumed);
  }

  /** The outcome `r` of the scan at buffer `i` is what the stream holds there. */
  ghost predicate ScanAgrees(chain: seq<InBuffer>, s: seq<Byte>, i: nat, r: Scan)
    requires i < |chain| && Pos(i, chain[i].offset) <= |s|
    reads chain, set c | c in chain :: c.buf
  {
    var q := Pos(i, chain[i].offset);
    match r
    case Wait => !Classify(s, q).Complete?
    case Bad(skipTo) =>
      && Classify(s, q).Malformed?
      && (if skipTo == null then chain[i].offset < chain[i].buf.offset
          else i + 1 < |chain| && skipTo == chain[i + 1])
    case Found(h, into, data1, data2, consumed) =>
      && FoundAt(chain, s, q, h, data1, data2)
      && EndsAt(chain, i, h, into, consumed)
      && Classify(s, q) == (if h.FrameSize() <= BUFFER_SIZE then Complete(h.FrameSize()) else Malformed)
  }

  lemma PosWithin(chain: seq<InBuffer>, i: nat, offset: nat)
    requires Linked(chain) && i < |chain| && offset <= chain[i].buf.offset
    ensures Pos(i, offset) <= Filled(chain)
  {
  }

  lemma Judged(chain: seq<InBuffer>, s: seq<Byte>, i: nat, h: Header, next: InBuffer?,
               data1: Piece, data2: Piece, consumed: nat)
    requires i < |chain| && Pos(i, chain[i].offset) + HEADER_SIZE <= |s|
    requires HeaderAt(s, Pos(i, chain[i].offset)) == h && h.Plausible() && h.PadAgrees()
    requires Layout(chain, |s|, Pos(i, chain[i].offset), h, data1, data2)
    requires EndsAt(chain, i, h, next, consumed)
    ensures ScanAgrees(chain, s, i, if AcceptsAt(s, Pos(i, chain[i].offset), h)
                                    then Found(h, next, data1, data2, consumed) else Bad(next))
  {
    var q := Pos(i, chain[i].offset);
    LayoutFits(chain, |s|, q, h, data1, data2);
    VerdictOfCheck(s, q, h);
    hide Layout, Classify, GoodFrame, HeaderAt, Accepts;
  }

  lemma VerdictOfCheck(s: seq<Byte>, q: nat, h: Header)
    requires q + HEADER_SIZE <= |s| && HeaderAt(s, q) == h && h.Plausible() && h.PadAgrees()
    ensures q + h.FrameSize() > |s| || h.FrameSize() > BUFFER_SIZE ==> !Classify(s, q).Complete?
    ensures q + h.FrameSize() <= |s| ==>
              && (GoodFrame(s[q..q + h.FrameSize()]) <==> AcceptsAt(s, q, h))
              && Classify(s, q) == (if AcceptsAt(s, q, h) && h.FrameSize() <= BUFFER_SIZE
                                    then Complete(h.FrameSize()) else Malformed)
  {
    if q + h.FrameSize() <= |s| {
      HeaderAtSlice(s, q, q + h.FrameSize());
    }
  }
}
