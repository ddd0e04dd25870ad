/** A packet between its allocation and its transmission: a frame whose checksum is still zero. */
module Drafts {
  import opened Memory
  import opened Checksum
  import opened Framing

  const CHECKSUM_AT := 10

  /** The writer's flags say exactly whether there is a pad byte, and the checksum is still zero. */
  predicate IsDraft(f: seq<Byte>) {
    && HEADER_SIZE <= |f| <= BUFFER_SIZE
    && var h := HeaderAt(f, 0);
    && h.id == PACKET_ID && h.checksum == 0 && h.flags == h.length % 2
    && |f| == HEADER_SIZE + h.length + h.length % 2
  }

  ghost predicate AllDrafts(fs: seq<seq<Byte>>) {
    forall k | 0 <= k < |fs| :: IsDraft(fs[k])
  }

  /** The packet a draft will be received as. */
  function DraftPacket(f: seq<Byte>): Packet
    requires IsDraft(f)
  {
    var h := HeaderAt(f, 0);
    Packet(h.ptype, h.flags, h.connId, h.packId, f[HEADER_SIZE..HEADER_SIZE + h.length])
  }

  /** The frame put on the wire for a draft. */
  function Stamp(f: seq<Byte>): (r: seq<Byte>)
    ensures |r| == |f|
  {
    if |f| < HEADER_SIZE then f else WithWord(f, CHECKSUM_AT, Completion(WordSum(f)))
  }

  /** Stamping makes a draft a well-formed frame that carries the draft's packet. */
  lemma StampedDraft(f: seq<Byte>)
    requires IsDraft(f)
    ensures WellFormed(Stamp(f)) && PacketOf(Stamp(f)) == DraftPacket(f)
  {
    var r := Stamp(f);
    HeaderOfStamped(f);
    NonZeroSum(f);
    StampedIsAccepted(f, CHECKSUM_AT);
    assert Accepts(r);
    hide Accepts, Stamp, WithWord, Completion, WordSum;
  }

  lemma HeaderOfStamped(f: seq<Byte>)
    requires IsDraft(f)
    ensures var h, r := HeaderAt(f, 0), Stamp(f);
            && HeaderAt(r, 0) == h.(checksum := Completion(WordSum(f)))
            && r[HEADER_SIZE..] == f[HEADER_SIZE..]
            && h.PadAgrees() && h.FrameSize() == |f| && WordAt(f, CHECKSUM_AT) == 0
  {
    hide Completion, WordSum;
  }

  lemma NonZeroSum(f: seq<Byte>)
    requires IsDraft(f)
    ensures WordSum(f) > 0 && |f| % 2 == 0
  {
    var first := f[..2];
    assert f == first + f[2..];
    WordSumConcat(first, f[2..]);
    assert WordSum(first) == WordSum(first[..0]) + WordAt(first, 0);
    assert WordAt(f, 0) == WordAt(first, 0);
  }

  function Stamps(fs: seq<seq<Byte>>): (r: seq<seq<Byte>>)
    ensures |r| == |fs|
    ensures forall k | 0 <= k < |fs| :: r[k] == Stamp(fs[k])
  {
    seq(|fs|, k requires 0 <= k < |fs| => Stamp(fs[k]))
  }

  lemma StampedDrafts(fs: seq<seq<Byte>>)
    requires AllDrafts(fs)
    ensures AllWellFormed(Stamps(fs))
  {
    forall k | 0 <= k < |fs| ensures WellFormed(Stamps(fs)[k]) {
      StampedDraft(fs[k]);
    }
  }

  /** Drafts of which the first `n` have been stamped. */
  function StampFirst(fs: seq<seq<Byte>>, n: nat): (r: seq<seq<Byte>>)
    requires n <= |fs|
    ensures |r| == |fs|
  {
    Stamps(fs[..n]) + fs[n..]
  }

  lemma StampFirstParts(fs: seq<seq<Byte>>, n: nat)
    requires n <= |fs|
    ensures StampFirst(fs, n)[..n] == Stamps(fs[..n]) && StampFirst(fs, n)[n..] == fs[n..]
  {
    hide Stamp;
  }

  lemma StampNext(fs: seq<seq<Byte>>, n: nat)
    requires n < |fs|
    ensures StampFirst(fs, n)[n] == fs[n]
    ensures StampFirst(fs, n)[n := Stamp(fs[n])] == StampFirst(fs, n + 1)
  {
    hide Stamp;
  }

  /** A draft whose type, connection and payload have been filled in by its owner. */
  function Compose(f: seq<Byte>, ptype: Byte, connId: Word, payload: seq<Byte>): (r: seq<Byte>)
    requires HEADER_SIZE + |payload| <= |f|
    ensures |r| == |f|
  {
    f[..4] + [ptype, f[5], connId / 0x100, connId % 0x100] + f[8..HEADER_SIZE] + payload
    + f[HEADER_SIZE + |payload|..]
  }

  /** The owner of the packet `f` has filled it in, which makes it `r`. */
  ghost predicate FilledIn(f: seq<Byte>, r: seq<Byte>, ptype: Byte, connId: Word, payload: seq<Byte>) {
    && 14 + |payload| <= |f| == |r|
    && r[4] == ptype && 0x100 * (r[6] as int) + r[7] as int == connId && r[14..14 + |payload|] == payload
    && r[..4] == f[..4] && r[5] == f[5] && r[8..14] == f[8..14] && r[14 + |payload|..] == f[14 + |payload|..]
  }

  lemma ComposeFillsIn(f: seq<Byte>, ptype: Byte, connId: Word, payload: seq<Byte>)
    requires HEADER_SIZE + |payload| <= |f|
    ensures FilledIn(f, Compose(f, ptype, connId, payload), ptype, connId, payload)
  {
    var r := Compose(f, ptype, connId, payload);
    assert r[4..8] == [ptype, f[5], connId / 0x100, connId % 0x100];
  }

  /** What is filled in is what the packet will be received with; its identifier stays. */
  lemma ComposedDraft(f: seq<Byte>, ptype: Byte, connId: Word, payload: seq<Byte>)
    requires IsDraft(f) && |payload| == HeaderAt(f, 0).length
    ensures var r := Compose(f, ptype, connId, payload);
            IsDraft(r) && DraftPacket(r) == Packet(ptype, HeaderAt(f, 0).flags, connId, HeaderAt(f, 0).packId, payload)
  {
    var r := Compose(f, ptype, connId, payload);
    assert forall k | 0 <= k < HEADER_SIZE && k != 4 && k != 6 && k != 7 :: r[k] == f[k];
    assert r[HEADER_SIZE..HEADER_SIZE + |payload|] == payload;
  }
}
