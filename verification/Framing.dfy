/** Packet headers, frames, and the simple parser over a whole byte stream that serves as the
    reference for the incremental packet reader. */
module Framing {
  import opened Memory
  import opened Checksum

  /** "AmPi": every packet starts with these four bytes. */
  const PACKET_ID: Long := 0x416d_5069
  const HEADER_SIZE := 14
  const PF_PAD_BYTE := 1
  const PF_RESEND := 2

  datatype Header = Header(id: Long, ptype: Byte, flags: Byte, connId: Word, packId: Word,
                           checksum: Word, length: Word)
  {
    /** The payload is followed by one pad byte; the flag is looked at only when there is a payload. */
    function Pad(): (pad: nat) {
      if length > 0 && flags % 2 == 1 then 1 else 0
    }

    function FrameSize(): nat {
      HEADER_SIZE + length + Pad()
    }

    lemma EvenFrameSize()
      requires PadAgrees()
      ensures FrameSize() % 2 == 0
    {
    }

    /** The pad flag says what the parity of the length says. */
    predicate PadAgrees() {
      length > 0 ==> flags % 2 == length % 2
    }

    /** The two tests made before any payload byte is looked at. */
    predicate Plausible() {
      id == PACKET_ID && length <= BUFFER_SIZE
    }
  }

  function HeaderAt(s: seq<Byte>, q: nat): Header
    requires q + HEADER_SIZE <= |s|
  {
    Header(LongAt(s, q), s[q + 4], s[q + 5], WordAt(s, q + 6), WordAt(s, q + 8), WordAt(s, q + 10),
           WordAt(s, q + 12))
  }

  lemma HeaderAtSlice(s: seq<Byte>, q: nat, end: nat)
    requires q + HEADER_SIZE <= end <= |s|
    ensures HeaderAt(s[q..end], 0) == HeaderAt(s, q)
  {
  }

  /** What a packet means to the layers above the link. */
  datatype Packet = Packet(ptype: Byte, flags: Byte, connId: Word, packId: Word, payload: seq<Byte>)

  /** A frame the link may deliver: one header with the magic, its payload and its pad byte, with a
      valid checksum. */
  predicate GoodFrame(f: seq<Byte>) {
    && |f| >= HEADER_SIZE
    && var h := HeaderAt(f, 0);
    && h.Plausible() && h.PadAgrees() && |f| == h.FrameSize()
    && Accepts(f)
  }

  /** A frame that also respects the packet size agreed on at INIT. */
  predicate WellFormed(f: seq<Byte>) {
    GoodFrame(f) && |f| <= BUFFER_SIZE
  }

  ghost predicate AllWellFormed(fs: seq<seq<Byte>>) {
    forall k | 0 <= k < |fs| :: WellFormed(fs[k])
  }

  function PacketOf(f: seq<Byte>): Packet
    requires GoodFrame(f)
  {
    var h := HeaderAt(f, 0);
    Packet(h.ptype, h.flags, h.connId, h.packId, f[HEADER_SIZE..HEADER_SIZE + h.length])
  }

  function Packets(fs: seq<seq<Byte>>): (ps: seq<Packet>)
    requires forall k | 0 <= k < |fs| :: GoodFrame(fs[k])
    ensures |ps| == |fs|
    ensures forall k | 0 <= k < |fs| :: ps[k] == PacketOf(fs[k])
  {
    if fs == [] then [] else [PacketOf(fs[0])] + Packets(fs[1..])
  }

  lemma {:induction false} PacketsSnoc(fs: seq<seq<Byte>>, f: seq<Byte>)
    requires (forall k | 0 <= k < |fs| :: GoodFrame(fs[k])) && GoodFrame(f)
    ensures forall k | 0 <= k < |fs + [f]| :: GoodFrame((fs + [f])[k])
    ensures Packets(fs + [f]) == Packets(fs) + [PacketOf(f)]
  {
  }

  /** What the bytes at `q` turn out to be: not enough of them yet, no acceptable frame, or a frame. */
  datatype Verdict = Incomplete | Malformed | Complete(size: nat)

  function Classify(s: seq<Byte>, q: nat): (v: Verdict)
    requires q <= |s|
    ensures v.Complete? ==> HEADER_SIZE <= v.size && q + v.size <= |s|
  {
    if |s| - q < HEADER_SIZE then Incomplete else
    var h := HeaderAt(s, q);
    if !h.Plausible() || !h.PadAgrees() || h.FrameSize() > BUFFER_SIZE then Malformed else
    if |s| - q < h.FrameSize() then Incomplete else
    if Accepts(s[q..q + h.FrameSize()]) then Complete(h.FrameSize()) else Malformed
  }

  /** The reference parser: frame after frame until one is missing or malformed. */
  datatype Parsed = Parsed(frames: seq<seq<Byte>>, rest: nat, malformed: bool)

  function Parse(s: seq<Byte>, q: nat): Parsed
    requires q <= |s|
    decreases |s| - q
  {
    match Classify(s, q)
    case Incomplete => Parsed([], q, false)
    case Malformed => Parsed([], q, true)
    case Complete(size) => Prepend([s[q..q + size]], Parse(s, q + size))
  }

  function Prepend(fs: seq<seq<Byte>>, tail: Parsed): Parsed {
    tail.(frames := fs + tail.frames)
  }

  /** Frames are recognised exactly: bytes at `q` are reported as a frame iff they are well-formed. */
  lemma ClassifyExact(s: seq<Byte>, q: nat, f: seq<Byte>)
    requires LiesAt(s, q, f)
    ensures Classify(s, q) == Complete(|f|) <==> WellFormed(f)
  {
    hide HeaderAt, Accepts;
    if |f| >= HEADER_SIZE {
      HeaderAtSlice(s, q, q + |f|);
    }
  }

  /** A verdict other than Incomplete does not depend on bytes that have not arrived yet. */
  lemma ClassifyStable(s: seq<Byte>, t: seq<Byte>, q: nat)
    requires q <= |s| && s <= t
    requires !Classify(s, q).Incomplete?
    ensures Classify(t, q) == Classify(s, q)
  {
    assert HeaderAt(t, q) == HeaderAt(s, q);
    var end := q + HeaderAt(s, q).FrameSize();
    if end <= |s| {
      assert t[q..end] == s[q..end];
    }
  }

  lemma PrependTwice(a: seq<seq<Byte>>, b: seq<seq<Byte>>, tail: Parsed)
    ensures Prepend(a, Prepend(b, tail)) == Prepend(a + b, tail)
    ensures Prepend([], tail) == tail
  {
    assert a + (b + tail.frames) == a + b + tail.frames;
    assert [] + tail.frames == tail.frames;
  }

  /** The parser walks through any run of well-formed frames and goes on behind it. */
  lemma {:induction false} ParseThrough(s: seq<Byte>, q: nat, fs: seq<seq<Byte>>)
    requires AllWellFormed(fs) && LiesAt(s, q, Flatten(fs))
    ensures Parse(s, q) == Prepend(fs, Parse(s, q + |Flatten(fs)|))
    decreases |fs|
  {
    hide Classify, WellFormed, Prepend;
    if fs == [] {
      PrependTwice(fs, fs, Parse(s, q));
    } else {
      var f := fs[0];
      FlattenLiesAt(s, q, fs);
      ClassifyExact(s, q, f);
      assert Parse(s, q) == Prepend([f], Parse(s, q + |f|));
      hide Parse, Flatten;
      ParseThrough(s, q + |f|, fs[1..]);
      PrependTwice([f], fs[1..], Parse(s, q + |Flatten(fs)|));
      assert [f] + fs[1..] == fs;
    }
  }

  /** The parser's frames are the bytes it has passed, in order and without gaps. */
  lemma {:induction false} ParseCovers(s: seq<Byte>, q: nat)
    requires q <= |s|
    ensures var p := Parse(s, q);
            && p.rest == q + |Flatten(p.frames)| <= |s|
            && AllWellFormed(p.frames) && LiesAt(s, q, Flatten(p.frames))
            && Classify(s, p.rest) == (if p.malformed then Malformed else Incomplete)
    decreases |s| - q
  {
    hide *;
    ParseStep(s, q);
    NothingCovered(s, q);
    match Classify(s, q)
    case Incomplete =>
    case Malformed =>
    case Complete(size) =>
      ParseCovers(s, q + size);
      SliceLies(s, q, size);
      var f := s[q..q + size];
      ClassifyExact(s, q, f);
      CoversMore(s, q, f, Parse(s, q + size));
  }

  lemma ParseStep(s: seq<Byte>, q: nat)
    requires q <= |s|
    ensures match Classify(s, q)
            case Incomplete => Parse(s, q) == Parsed([], q, false)
            case Malformed => Parse(s, q) == Parsed([], q, true)
            case Complete(size) =>
              0 < size <= |s| - q && Parse(s, q) == Prepend([s[q..q + size]], Parse(s, q + size))
  {
  }

  lemma SliceLies(s: seq<Byte>, q: nat, size: nat)
    requires q + size <= |s|
    ensures LiesAt(s, q, s[q..q + size])
  {
  }

  lemma NothingCovered(s: seq<Byte>, q: nat)
    requires q <= |s|
    ensures Flatten<Byte>([]) == [] && LiesAt(s, q, []) && AllWellFormed([])
  {
  }

  /** One more frame in front of those the parser has found. */
  lemma CoversMore(s: seq<Byte>, q: nat, f: seq<Byte>, tail: Parsed)
    requires LiesAt(s, q, f) && WellFormed(f) && AllWellFormed(tail.frames)
    requires tail.rest == q + |f| + |Flatten(tail.frames)| && LiesAt(s, q + |f|, Flatten(tail.frames))
    ensures var p := Prepend([f], tail);
            && p.rest == tail.rest == q + |Flatten(p.frames)| && p.malformed == tail.malformed
            && AllWellFormed(p.frames) && LiesAt(s, q, Flatten(p.frames))
  {
    var frames := [f] + tail.frames;
    assert frames[1..] == tail.frames;
    hide WellFormed, Flatten, LiesAt;
    FlattenLiesAt(s, q, frames);
  }

  /** The parser stops where the run ends if the bytes there are not a frame yet. */
  lemma ParseRun(s: seq<Byte>, fs: seq<seq<Byte>>)
    requires AllWellFormed(fs) && Flatten(fs) <= s
    requires Classify(s, |Flatten(fs)|).Incomplete? || Classify(s, |Flatten(fs)|).Malformed?
    ensures Parse(s, 0) == Parsed(fs, |Flatten(fs)|, Classify(s, |Flatten(fs)|).Malformed?)
  {
    hide Classify, WellFormed, Flatten;
    ParseThrough(s, 0, fs);
    assert fs + [] == fs;
  }

  /** Unique decoding: the parser finds `fs` and no error exactly when the stream is the frames `fs`
      followed by something that is not yet a frame. */
  lemma ParseIsTheOnlyDecoding(s: seq<Byte>, fs: seq<seq<Byte>>)
    ensures (Parse(s, 0).frames == fs && !Parse(s, 0).malformed) <==>
            && AllWellFormed(fs) && Flatten(fs) <= s
            && Classify(s, |Flatten(fs)|) == Incomplete
  {
    hide Classify, WellFormed, Flatten;
    ParseCovers(s, 0);
    if AllWellFormed(fs) && Flatten(fs) <= s && Classify(s, |Flatten(fs)|) == Incomplete {
      ParseRun(s, fs);
    }
  }

  /** A stream with a malformed place keeps its parse whatever arrives later. */
  lemma MalformedIsFinal(s: seq<Byte>, t: seq<Byte>)
    requires s <= t && Parse(s, 0).malformed
    ensures Parse(t, 0) == Parse(s, 0)
  {
    hide Classify, WellFormed, Flatten;
    ParseCovers(s, 0);
    ClassifyStable(s, t, Parse(s, 0).rest);
    ParseRun(t, Parse(s, 0).frames);
  }

  /** Cutting a stream of well-formed frames anywhere leaves whole frames and an unfinished one. */
  lemma ParseOfCutStream(fs: seq<seq<Byte>>, s: seq<Byte>)
    requires AllWellFormed(fs) && s <= Flatten(fs)
    ensures !Parse(s, 0).malformed && Parse(s, 0).frames <= fs
    ensures s == Flatten(fs) ==> Parse(s, 0).frames == fs
  {
    hide *;
    var t := Flatten(fs);
    var p := Parse(s, 0);
    NothingAtEnd(t);
    ParseRun(t, fs);
    ParseCovers(s, 0);
    if p.malformed {
      MalformedIsFinal(s, t);
    } else {
      LiesAtExtended(s, t, 0, Flatten(p.frames));
      ParseThrough(t, 0, p.frames);
      PrependExtends(p.frames, Parse(t, p.rest));
    }
  }

  lemma PrependExtends(a: seq<seq<Byte>>, tail: Parsed)
    ensures a <= Prepend(a, tail).frames
  {
  }

  lemma NothingAtEnd(s: seq<Byte>)
    ensures Classify(s, |s|) == Incomplete
  {
  }
}
